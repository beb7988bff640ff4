/** The cluster as the controllers see it through the API server: nodes with versions, policies,
    the two shared configurations, and calls that may fail. */
module Cluster {
  import opened Options
  import opened MergePatch
  import opened Api

  datatype Obj = Obj(version: nat, labels: Labels)

  type Nodes = map<string, Obj>

  /** A list item: a node as it was when the list was taken, possibly outdated by now. */
  datatype Node = Node(name: string, obj: Obj)

  /** A node write: a full update that names the version it was read at, or a merge patch. */
  datatype Write = Put(seen: nat, labels: Labels) | Merge(patch: Patch<LabelKey, string>)

  /** The calls of one reconcile; each is issued at most once. */
  datatype Op = GetPolicy | PutPolicy | ListNodes | GetDp | PatchDp | GetMig | PatchMig | WriteNode(name: string)
      | PutStatus

  type DpData = map<string, DpConfig>
  type MigData = map<string, MigEntry>

  datatype State = State(nodes: Nodes, policies: map<string, Policy>, dp: Option<DpData>, mig: Option<MigData>)

  predicate Matches(selector: Labels, labels: Labels) {
    forall k :: k in selector ==> Find(labels, k) == Some(selector[k])
  }

  function Select(nodes: Nodes, selector: Labels): Nodes {
    map n | n in nodes && Matches(selector, nodes[n].labels) :: nodes[n]
  }

  /** A node without labels has a nil label map: adopting it panics on the first assignment. */
  predicate Bare(o: Obj) {
    o.labels == map[]
  }

  predicate Stops(selector: Labels, nodes: Nodes) {
    exists n :: n in nodes && Bare(nodes[n]) && Matches(selector, nodes[n].labels)
  }

  // ---------------------------------------------------------------- lists

  ghost predicate DistinctNames(list: seq<Node>) {
    forall i, j :: 0 <= i < j < |list| ==> list[i].name != list[j].name
  }

  function ByName(list: seq<Node>): Nodes {
    if list == [] then map[] else ByName(list[..|list| - 1])[list[|list| - 1].name := list[|list| - 1].obj]
  }

  lemma {:induction false} ByNameHas(list: seq<Node>, n: string)
    ensures n in ByName(list) <==> exists i :: 0 <= i < |list| && list[i].name == n
  {
    if list == [] {
    } else {
      var last := |list| - 1;
      ByNameHas(list[..last], n);
      if i :| 0 <= i < |list| && list[i].name == n {
        assert i < last ==> list[..last][i].name == n;
      }
    }
  }

  /** One more item of a list without repetitions. */
  lemma ByNameStep(list: seq<Node>, i: nat)
    requires i < |list| && DistinctNames(list)
    ensures ByName(list[..i + 1]) == ByName(list[..i])[list[i].name := list[i].obj]
    ensures list[i].name !in ByName(list[..i])
  {
    assert list[..i + 1][..i] == list[..i];
    ByNameHas(list[..i], list[i].name);
  }

  lemma AppendNode(list: seq<Node>, node: Node)
    requires DistinctNames(list) && node.name !in ByName(list)
    ensures DistinctNames(list + [node])
    ensures ByName(list + [node]) == ByName(list)[node.name := node.obj]
  {
    forall i | 0 <= i < |list| ensures list[i].name != node.name {
      ByNameHas(list, list[i].name);
    }
    assert (list + [node])[..|list|] == list;
  }

  /** Where a pass over the list that assigns labels panics: at the first bare item, if any. */
  function FirstBare(list: seq<Node>): (k: nat)
    ensures k <= |list|
    ensures forall i :: 0 <= i < k ==> !Bare(list[i].obj)
    ensures k < |list| ==> Bare(list[k].obj)
  {
    if list == [] then 0
    else
      var k := FirstBare(list[..|list| - 1]);
      if k < |list| - 1 || Bare(list[|list| - 1].obj) then k else |list|
  }

  lemma EmptyNodes()
    ensures DistinctNames([]) && ByName([]) == map[]
  {
  }

  /** The nodes of a map as a list, in any order. */
  method NodesOf(m: Nodes) returns (nodes: seq<Node>)
    ensures DistinctNames(nodes) && ByName(nodes) == m
  {
    hide ByName, DistinctNames;
    EmptyNodes();
    nodes := [];
    var rest := m.Keys;
    while rest != {}
      invariant rest <= m.Keys
      invariant DistinctNames(nodes)
      invariant ByName(nodes) == m - rest
    {
      var n :| n in rest;
      AppendNode(nodes, Node(n, m[n]));
      nodes := nodes + [Node(n, m[n])];
      rest := rest - {n};
    }
  }

  // ---------------------------------------------------------------- node writes

  /** The stored object after a write, if the server accepts it. */
  function Send(o: Obj, w: Write): Option<Obj> {
    match w
    case Put(seen, labels) => if seen == o.version then Some(Obj(o.version + 1, labels)) else None
    case Merge(patch) => Some(Obj(o.version + 1, Apply(o.labels, patch)))
  }

  /** The nodes whose write arrives and is accepted. */
  function Accepted(nodes: Nodes, writes: map<string, Write>, faults: set<Op>): set<string> {
    set n | n in writes && n in nodes && WriteNode(n) !in faults && Send(nodes[n], writes[n]).Some?
  }

  /** All those writes, in any order. */
  function Deliver(nodes: Nodes, writes: map<string, Write>, faults: set<Op>): Nodes {
    map n | n in nodes :: if n in Accepted(nodes, writes, faults) then Send(nodes[n], writes[n]).value else nodes[n]
  }

  function WriteOps(names: set<string>): set<Op> {
    set n | n in names :: WriteNode(n)
  }

  /** Storing a policy; the API server drops a deleted object once its last finalizer is gone. */
  function StorePolicy(policies: map<string, Policy>, name: string, policy: Policy): map<string, Policy> {
    if policy.deleting && policy.finalizers == [] then policies - {name} else policies[name := policy]
  }

  function StoreNpu(policies: map<string, NpuPolicy>, name: string, policy: NpuPolicy): map<string, NpuPolicy> {
    if policy.deleting && policy.finalizers == [] then policies - {name} else policies[name := policy]
  }

  /** The API server. `faults` are the calls that fail this time, chosen by the environment; a crash
      after some write is the choice in which every later call fails. `issued` collects the writes. */
  class ApiServer {
    var nodes: Nodes
    var policies: map<string, Policy>
    var npuPolicies: map<string, NpuPolicy>
    var dp: Option<DpData>
    var mig: Option<MigData>
    var faults: set<Op>
    var issued: set<Op>

    constructor (state: State, npuPolicies: map<string, NpuPolicy>, failing: set<Op>)
      ensures Current() == state && this.npuPolicies == npuPolicies && faults == failing && issued == {}
    {
      this.npuPolicies := npuPolicies;
      nodes, policies, dp, mig := state.nodes, state.policies, state.dp, state.mig;
      faults, issued := failing, {};
    }

    function Current(): State
      reads this
    {
      State(nodes, policies, dp, mig)
    }

    method ReadPolicy(name: string) returns (ok: bool, policy: Option<Policy>)
      ensures ok <==> GetPolicy !in faults
      ensures ok ==> policy == Find(policies, name)
    {
      ok := GetPolicy !in faults;
      policy := Find(policies, name);
    }

    method WritePolicy(name: string, policy: Policy) returns (ok: bool)
      modifies this`policies, this`issued
      ensures ok <==> PutPolicy !in faults
      ensures policies == if ok then StorePolicy(old(policies), name, policy) else old(policies)
      ensures issued == old(issued) + {PutPolicy}
    {
      ok := PutPolicy !in faults;
      issued := issued + {PutPolicy};
      if ok {
        policies := StorePolicy(policies, name, policy);
      }
    }

    method WriteStatus(name: string, status: PolicyStatus) returns (ok: bool)
      requires name in policies
      modifies this`policies, this`issued
      ensures ok <==> PutStatus !in faults
      ensures policies == if ok then old(policies)[name := old(policies)[name].(status := status)] else old(policies)
      ensures issued == old(issued) + {PutStatus}
    {
      ok := PutStatus !in faults;
      issued := issued + {PutStatus};
      if ok {
        policies := policies[name := policies[name].(status := status)];
      }
    }

    method ReadNpuPolicy(name: string) returns (ok: bool, policy: Option<NpuPolicy>)
      ensures ok <==> GetPolicy !in faults
      ensures ok ==> policy == Find(npuPolicies, name)
    {
      ok := GetPolicy !in faults;
      policy := Find(npuPolicies, name);
    }

    method WriteNpuPolicy(name: string, policy: NpuPolicy) returns (ok: bool)
      modifies this`npuPolicies, this`issued
      ensures ok <==> PutPolicy !in faults
      ensures npuPolicies == if ok then StoreNpu(old(npuPolicies), name, policy) else old(npuPolicies)
      ensures issued == old(issued) + {PutPolicy}
    {
      ok := PutPolicy !in faults;
      issued := issued + {PutPolicy};
      if ok {
        npuPolicies := StoreNpu(npuPolicies, name, policy);
      }
    }

    method WriteNpuStatus(name: string, status: NpuStatus) returns (ok: bool)
      requires name in npuPolicies
      modifies this`npuPolicies, this`issued
      ensures ok <==> PutStatus !in faults
      ensures npuPolicies == if ok then old(npuPolicies)[name := old(npuPolicies)[name].(status := status)]
          else old(npuPolicies)
      ensures issued == old(issued) + {PutStatus}
    {
      ok := PutStatus !in faults;
      issued := issued + {PutStatus};
      if ok {
        npuPolicies := npuPolicies[name := npuPolicies[name].(status := status)];
      }
    }

    /** The selected nodes, each once, in any order. */
    method List(selector: Labels) returns (ok: bool, items: seq<Node>)
      ensures ok <==> ListNodes !in faults
      ensures ok ==> DistinctNames(items) && ByName(items) == Select(nodes, selector)
    {
      ok := ListNodes !in faults;
      items := NodesOf(Select(nodes, selector));
    }

    method ReadDp() returns (ok: bool, data: Option<DpData>)
      ensures ok <==> GetDp !in faults
      ensures ok ==> data == dp
    {
      ok, data := GetDp !in faults, dp;
    }

    method PatchDpData(patch: Patch<string, DpConfig>) returns (ok: bool)
      requires dp.Some?
      modifies this`dp, this`issued
      ensures ok <==> PatchDp !in faults
      ensures dp == if ok then Some(Apply(old(dp).value, patch)) else old(dp)
      ensures issued == old(issued) + {PatchDp}
    {
      ok := PatchDp !in faults;
      issued := issued + {PatchDp};
      if ok {
        dp := Some(Apply(dp.value, patch));
      }
    }

    method ReadMig() returns (ok: bool, data: Option<MigData>)
      ensures ok <==> GetMig !in faults
      ensures ok ==> data == mig
    {
      ok, data := GetMig !in faults, mig;
    }

    /** The mig-parted configuration is one file in its ConfigMap: a patch carries all of it. */
    method PatchMigFile(file: MigData) returns (ok: bool)
      requires mig.Some?
      modifies this`mig, this`issued
      ensures ok <==> PatchMig !in faults
      ensures mig == if ok then Some(file) else old(mig)
      ensures issued == old(issued) + {PatchMig}
    {
      ok := PatchMig !in faults;
      issued := issued + {PatchMig};
      if ok {
        mig := Some(file);
      }
    }

    method SendNode(name: string, w: Write) returns (ok: bool)
      modifies this`nodes, this`issued
      ensures nodes == Deliver(old(nodes), map[name := w], faults)
      ensures ok <==> name in Accepted(old(nodes), map[name := w], faults)
      ensures !ok ==> nodes == old(nodes)
      ensures issued == old(issued) + {WriteNode(name)}
    {
      issued := issued + {WriteNode(name)};
      ok := name in nodes && WriteNode(name) !in faults && Send(nodes[name], w).Some?;
      if ok {
        nodes := nodes[name := Send(nodes[name], w).value];
      }
    }
  }

  /** Delivering one more write is delivering it on top. */
  lemma DeliverStep(nodes: Nodes, writes: map<string, Write>, name: string, w: Write, faults: set<Op>)
    requires name !in writes
    ensures var mid, acc := Deliver(nodes, writes, faults), Accepted(nodes, writes, faults);
      var sent := Deliver(mid, map[name := w], faults);
      && Deliver(nodes, writes[name := w], faults) == sent
      && name !in acc
      && (if name in Accepted(mid, map[name := w], faults)
          then Accepted(nodes, writes[name := w], faults) == acc + {name}
          else Accepted(nodes, writes[name := w], faults) == acc && sent == mid)
  {
  }

  lemma NoWriteOps(f: set<Op>)
    ensures WriteOps({}) == {} && f + WriteOps({}) == f && f - WriteOps({}) == f
  {
  }

  lemma WriteOpsStep(names: set<string>, n: string)
    ensures WriteOps(names + {n}) == WriteOps(names) + {WriteNode(n)}
  {
  }
}

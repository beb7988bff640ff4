/** The NPU policy controller (internal/controller/npunodepolicy_controller.go): its loops, proved to
    compute the step function below whichever calls fail, and what that step means. */
module NpuReconciler {
  import opened Options
  import opened MergePatch
  import opened ModeTable
  import opened Api
  import opened NpuControls
  import opened Cluster
  import opened NodeLists
  import opened GpuProtocol
  import opened NodePasses
  import GpuReconciler

  const INITIALIZING := "Initializing"
  const INITIALIZED := "Initialized"

  datatype NpuState = NpuState(nodes: Nodes, policies: map<string, NpuPolicy>)

  datatype NpuOutcome = NpuOutcome(state: NpuState, result: Result, issued: set<Op>)

  // ---------------------------------------------------------------- the step function

  /** The node's own agent has taken the NPU configuration back. */
  predicate Restored(labels: Labels) {
    Lookup(labels, NpuConfigState) == RESTORED
  }

  predicate AllRestored(items: Nodes) {
    forall n :: n in items ==> Restored(items[n].labels)
  }

  datatype NpuEdit = NpuAdopt(mode: NpuMode, managedBy: string) | NpuUpdate(mode: NpuMode, managedBy: string)
      | NpuRelease

  function NpuEditLabels(e: NpuEdit, labels: Labels): Labels {
    match e
    case NpuAdopt(mode, p) =>
      if NpuManagedBy in labels && labels[NpuManagedBy] != p then labels else NpuUpdated(mode, p, labels)
    case NpuUpdate(mode, p) => NpuUpdated(mode, p, labels)
    case NpuRelease => if Restored(labels) then labels else NpuReleased(labels)
  }

  function NpuWriteOf(e: NpuEdit, o: Obj): Option<Write> {
    var labels := NpuEditLabels(e, o.labels);
    if labels == o.labels then None
    else if e.NpuAdopt? then Some(Put(o.version, labels))
    else Some(Write.Merge(Diff(o.labels, labels)))
  }

  function NpuWrites(e: NpuEdit, items: Nodes): map<string, Write> {
    map n | n in items && NpuWriteOf(e, items[n]).Some? :: NpuWriteOf(e, items[n]).value
  }

  function NpuPass(nodes: Nodes, issued: set<Op>, e: NpuEdit, items: Nodes, f: set<Op>): Progress {
    AfterWrites(Progress(nodes, issued, {}, {}), NpuWrites(e, items), f)
  }

  function NpuItem(p: Progress, e: NpuEdit, n: string, o: Obj, f: set<Op>): Progress {
    var w := NpuWriteOf(e, o);
    if w.None? then p else AfterOne(p, n, w.value, f)
  }

  function SetSync(status: map<string, string>, names: set<string>, sync: string, force: bool): map<string, string> {
    map n | n in status.Keys + names ::
      if n in names && (force || Lookup(status, n) == "") then sync else Lookup(status, n)
  }

  function NpuOrEmpty(status: NpuStatus): map<string, string> {
    if status.Some? then status.value else map[]
  }

  function WithNpuFinalizer(pol: NpuPolicy): NpuPolicy {
    if RELEASE_FINALIZER in pol.finalizers then pol else pol.(finalizers := pol.finalizers + [RELEASE_FINALIZER])
  }

  function NpuMine(c: NpuState, p: string): Nodes {
    Select(c.nodes, map[NpuManagedBy := p])
  }

  /** The nodes a living policy lets go: its own ones that it no longer selects. */
  function NpuLeaving(c: NpuState, p: string): Nodes
    requires p in c.policies
  {
    NpuMine(c, p) - Select(c.nodes, c.policies[p].spec.nodeSelector).Keys
  }

  /** The nodes to adopt that have labels; only these are written before a bare one ends the pass. */
  function NpuAdoptable(c: NpuState, p: string): Nodes
    requires p in c.policies
  {
    map n | n in c.nodes && !Bare(c.nodes[n]) && Matches(c.policies[p].spec.nodeSelector, c.nodes[n].labels)
            && Find(c.nodes[n].labels, NpuManagedBy) != Some(p) :: c.nodes[n]
  }

  /** The finalizer is registered: the three node passes and the status. Whether the reconcile asks
      for another try is decided by the last pass alone. */
  function NpuFinishLive(c: NpuState, p: string, issued: set<Op>, f: set<Op>): NpuOutcome
    requires p in c.policies
  {
    var pol, mine := c.policies[p], NpuMine(c, p);
    var claimed := Select(c.nodes, pol.spec.nodeSelector);
    if Stops(pol.spec.nodeSelector, c.nodes) then
      var pass := NpuPass(c.nodes, issued, NpuAdopt(pol.spec.mode, p), NpuAdoptable(c, p), f);
      NpuOutcome(c.(nodes := pass.nodes), Panicked, pass.issued)
    else
      var p1 := NpuPass(c.nodes, issued, NpuAdopt(pol.spec.mode, p), claimed - mine.Keys, f);
      var p2 := NpuPass(p1.nodes, p1.issued, NpuUpdate(pol.spec.mode, p), Both(mine, claimed), f);
      var p3 := NpuPass(p2.nodes, p2.issued, NpuRelease, NpuLeaving(c, p), f);
      var listed := SetSync(NpuOrEmpty(pol.status), claimed.Keys, INITIALIZING, false);
      var status := Some(SetSync(SetSync(listed, p1.written, INITIALIZED, true), p2.written, INITIALIZED, true));
      var c1 := c.(nodes := p3.nodes);
      var result := if AllRestored(NpuLeaving(c, p)) then Done else Failed;
      if status == pol.status then NpuOutcome(c1, result, p3.issued)
      else if PutStatus in f then NpuOutcome(c1, Failed, p3.issued + {PutStatus})
      else NpuOutcome(c1.(policies := c.policies[p := pol.(status := status)]), result, p3.issued + {PutStatus})
  }

  function NpuLive(c: NpuState, p: string, f: set<Op>): NpuOutcome
    requires p in c.policies
  {
    var w := if RELEASE_FINALIZER in c.policies[p].finalizers then {} else {PutPolicy};
    if w != {} && PutPolicy in f then NpuOutcome(c, Failed, w)
    else
      var c1 := c.(policies := c.policies[p := WithNpuFinalizer(c.policies[p])]);
      if ListNodes in f then NpuOutcome(c1, Failed, w) else NpuFinishLive(c1, p, w, f)
  }

  function NpuDeleted(c: NpuState, p: string, f: set<Op>): NpuOutcome
    requires p in c.policies
  {
    var pol := c.policies[p];
    if ListNodes in f then NpuOutcome(c, Failed, {})
    else
      var selected := Select(c.nodes, pol.spec.nodeSelector);
      var pass := NpuPass(c.nodes, {}, NpuRelease, selected, f);
      if !AllRestored(selected) then
        NpuOutcome(c.(nodes := pass.nodes), if pass.failed == {} then Waiting else Failed, pass.issued)
      else if PutPolicy in f then NpuOutcome(c, Failed, {PutPolicy})
      else
        var kept := pol.(finalizers := WithoutFinalizer(pol.finalizers));
        NpuOutcome(c.(policies := StoreNpu(c.policies, p, kept)), Done, {PutPolicy})
  }

  function NpuStep(c: NpuState, p: string, f: set<Op>): NpuOutcome {
    if GetPolicy in f then NpuOutcome(c, Failed, {})
    else if p !in c.policies then NpuOutcome(c, Done, {})
    else if !c.policies[p].deleting then NpuLive(c, p, f)
    else if RELEASE_FINALIZER in c.policies[p].finalizers then NpuDeleted(c, p, f)
    else NpuOutcome(c, Done, {})
  }

  // ---------------------------------------------------------------- passes

  lemma NpuPassOverNothing(nodes: Nodes, issued: set<Op>, e: NpuEdit, f: set<Op>)
    ensures NpuPass(nodes, issued, e, map[], f) == Progress(nodes, issued, {}, {})
  {
  }

  lemma NpuPassStep(nodes: Nodes, issued: set<Op>, e: NpuEdit, items: Nodes, n: string, o: Obj, f: set<Op>)
    requires n !in items
    ensures NpuPass(nodes, issued, e, items[n := o], f) == NpuItem(NpuPass(nodes, issued, e, items, f), e, n, o, f)
    ensures n !in NpuPass(nodes, issued, e, items, f).written
  {
    hide NpuWriteOf, Send;
    if NpuWriteOf(e, o).Some? {
      assert NpuWrites(e, items[n := o]) == NpuWrites(e, items)[n := NpuWriteOf(e, o).value];
      WriteStep(Progress(nodes, issued, {}, {}), NpuWrites(e, items), n, NpuWriteOf(e, o).value, f);
    } else {
      assert NpuWrites(e, items[n := o]) == NpuWrites(e, items);
    }
  }

  /** What one item adds does not depend on what came before, beyond the nodes themselves. */
  lemma NpuItemFrom(p: Progress, e: NpuEdit, n: string, o: Obj, f: set<Op>)
    ensures var q := NpuItem(Progress(p.nodes, p.issued, {}, {}), e, n, o, f);
      NpuItem(p, e, n, o, f) == Progress(q.nodes, q.issued, p.failed + q.failed, p.written + q.written)
      && (q.written == {} || q.written == {n})
  {
    hide NpuWriteOf;
  }

  lemma SetSyncOnce(status: map<string, string>, names: set<string>, n: string, sync: string, force: bool)
    requires n !in names
    ensures SetSync(SetSync(status, names, sync, force), {n}, sync, force) == SetSync(status, names + {n}, sync, force)
  {
  }

  lemma SetSyncStep(status: map<string, string>, names: set<string>, n: string, sync: string, force: bool)
    requires n !in names
    ensures SetSync(status, {}, sync, force) == status
    ensures SetSync(SetSync(status, names, sync, force), {n}, sync, force) == SetSync(status, names + {n}, sync, force)
    ensures SetSync(SetSync(status, names, sync, force), {}, sync, force) == SetSync(status, names + {}, sync, force)
  {
    SetSyncOnce(status, names, n, sync, force);
    SetSyncNothing(status, sync, force);
    SetSyncNothing(SetSync(status, names, sync, force), sync, force);
    assert names + {} == names;
  }

  lemma SetSyncNothing(status: map<string, string>, sync: string, force: bool)
    ensures SetSync(status, {}, sync, force) == status
  {
  }

  // ---------------------------------------------------------------- the controller

  class NpuModeManager {
    const spec: NpuSpec
    const managedBy: string
    var status: NpuStatus

    constructor (name: string, policy: NpuPolicy)
      ensures managedBy == name && spec == policy.spec && status == policy.status
    {
      spec, managedBy, status := policy.spec, name, policy.status;
    }
  }

  method UpdateNpuNodePolicyStatus(manager: NpuModeManager, node: string, sync: string, force: bool)
    requires manager.status.Some?
    modifies manager`status
    ensures manager.status == Some(SetSync(old(manager.status).value, {node}, sync, force))
  {
    var nodes := manager.status.value;
    var s := Lookup(nodes, node);
    if force || s == "" {
      s := sync;
    }
    manager.status := Some(nodes[node := s]);
    assert nodes[node := s] == SetSync(nodes, {node}, sync, force);
  }

  method InitNpuNodePolicyStatus(manager: NpuModeManager, nodes: seq<Node>)
    requires DistinctNames(nodes)
    modifies manager`status
    ensures manager.status == Some(SetSync(NpuOrEmpty(old(manager.status)), ByName(nodes).Keys, INITIALIZING, false))
  {
    hide SetSync;
    if manager.status.None? {
      manager.status := Some(map[]);
    }
    ghost var start := manager.status.value;
    assert nodes[..0] == [] && ByName([]).Keys == {};
    SetSyncStep(start, {}, "", INITIALIZING, false);
    for i := 0 to |nodes|
      invariant manager.status == Some(SetSync(start, ByName(nodes[..i]).Keys, INITIALIZING, false))
    {
      ByNameStep(nodes, i);
      SetSyncStep(start, ByName(nodes[..i]).Keys, nodes[i].name, INITIALIZING, false);
      UpdateNpuNodePolicyStatus(manager, nodes[i].name, INITIALIZING, false);
      assert ByName(nodes[..i + 1]).Keys == ByName(nodes[..i]).Keys + {nodes[i].name};
    }
    assert nodes[..|nodes|] == nodes;
  }

  class NpuNodePolicyReconciler {
    const server: ApiServer

    constructor (server: ApiServer)
      ensures this.server == server
    {
      this.server := server;
    }

    function Current(): NpuState
      reads server
    {
      NpuState(server.nodes, server.npuPolicies)
    }

    /** An item without labels ends the pass: the label writers assign into its nil map. */
    method AdoptNodes(nodes: seq<Node>, manager: NpuModeManager) returns (panicked: bool, failed: set<string>)
      requires DistinctNames(nodes) && manager.status.Some?
      modifies server`nodes, server`issued, manager`status
      ensures panicked <==> exists i :: 0 <= i < |nodes| && Bare(nodes[i].obj)
      ensures var e, items := NpuAdopt(manager.spec.mode, manager.managedBy), ByName(nodes[..FirstBare(nodes)]);
        var after := NpuPass(old(server.nodes), old(server.issued), e, items, server.faults);
        && server.nodes == after.nodes && server.issued == after.issued && failed == after.failed
        && manager.status == Some(SetSync(old(manager.status).value, after.written, INITIALIZED, true))
    {
      hide NpuPass, NpuItem, SetSync, DistinctNames;
      failed := {};
      ghost var e, status := NpuAdopt(manager.spec.mode, manager.managedBy), manager.status.value;
      ghost var start, issued := server.nodes, server.issued;
      NpuPassOverNothing(start, issued, e, server.faults);
      SetSyncStep(status, {}, "", INITIALIZED, true);
      for i := 0 to |nodes|
        invariant manager.status.Some?
        invariant i <= FirstBare(nodes)
        invariant var p := NpuPass(start, issued, e, ByName(nodes[..i]), server.faults);
          && server.nodes == p.nodes && server.issued == p.issued && failed == p.failed
          && manager.status == Some(SetSync(status, p.written, INITIALIZED, true))
      {
        var stopped, ok := AdoptNode(nodes[i], manager);
        if stopped {
          assert i == FirstBare(nodes);
          return true, failed;
        }
        if !ok {
          failed := failed + {nodes[i].name};
        }
        ByNameStep(nodes, i);
        ghost var p := NpuPass(start, issued, e, ByName(nodes[..i]), server.faults);
        NpuPassStep(start, issued, e, ByName(nodes[..i]), nodes[i].name, nodes[i].obj, server.faults);
        NpuItemFrom(p, e, nodes[i].name, nodes[i].obj, server.faults);
        SetSyncStep(status, p.written, nodes[i].name, INITIALIZED, true);
      }
      panicked := false;
    }

    method AdoptNode(node: Node, manager: NpuModeManager) returns (panicked: bool, ok: bool)
      requires manager.status.Some?
      modifies server`nodes, server`issued, manager`status
      ensures panicked <==> Bare(node.obj)
      ensures panicked ==> manager.status == old(manager.status)
      ensures var before := Progress(old(server.nodes), old(server.issued), {}, {});
        var e := NpuAdopt(manager.spec.mode, manager.managedBy);
        var after := if panicked then before else NpuItem(before, e, node.name, node.obj, server.faults);
        && server.nodes == after.nodes && server.issued == after.issued
        && after.failed == (if ok then {} else {node.name})
        && (!panicked ==> manager.status == Some(SetSync(old(manager.status).value, after.written, INITIALIZED, true)))
    {
      hide Deliver, Accepted, SetSync, NpuUpdated;
      SetSyncStep(manager.status.value, {}, node.name, INITIALIZED, true);
      panicked, ok := false, true;
      if NpuManagedBy in node.obj.labels && node.obj.labels[NpuManagedBy] != manager.managedBy {
        return;
      }
      if node.obj.labels == map[] {
        // The label map is nil.
        return true, true;
      }
      var labels := new LabelMap(node.obj.labels);
      var modified := UpdateNPUStateLabels(manager.spec.mode, manager.managedBy, labels);
      if !modified {
        return;
      }
      ok := server.SendNode(node.name, Put(node.obj.version, labels.data));
      if !ok {
        return;
      }
      UpdateNpuNodePolicyStatus(manager, node.name, INITIALIZED, true);
      assert {} + {node.name} == {node.name};
    }

    method UpdateNodes(nodes: seq<Node>, manager: NpuModeManager) returns (failed: set<string>)
      requires DistinctNames(nodes) && manager.status.Some? && FirstBare(nodes) == |nodes|
      modifies server`nodes, server`issued, manager`status
      ensures var e := NpuUpdate(manager.spec.mode, manager.managedBy);
        var after := NpuPass(old(server.nodes), old(server.issued), e, ByName(nodes), server.faults);
        && server.nodes == after.nodes && server.issued == after.issued && failed == after.failed
        && manager.status == Some(SetSync(old(manager.status).value, after.written, INITIALIZED, true))
    {
      hide NpuPass, NpuItem, SetSync;
      failed := {};
      ghost var e, status := NpuUpdate(manager.spec.mode, manager.managedBy), manager.status.value;
      ghost var start, issued := server.nodes, server.issued;
      NpuPassOverNothing(start, issued, e, server.faults);
      SetSyncStep(status, {}, "", INITIALIZED, true);
      for i := 0 to |nodes|
        invariant manager.status.Some?
        invariant var p := NpuPass(start, issued, e, ByName(nodes[..i]), server.faults);
          && server.nodes == p.nodes && server.issued == p.issued && failed == p.failed
          && manager.status == Some(SetSync(status, p.written, INITIALIZED, true))
      {
        ByNameStep(nodes, i);
        ghost var p := NpuPass(start, issued, e, ByName(nodes[..i]), server.faults);
        NpuPassStep(start, issued, e, ByName(nodes[..i]), nodes[i].name, nodes[i].obj, server.faults);
        NpuItemFrom(p, e, nodes[i].name, nodes[i].obj, server.faults);
        SetSyncStep(status, p.written, nodes[i].name, INITIALIZED, true);
        var ok := UpdateNode(nodes[i], manager);
        if !ok {
          failed := failed + {nodes[i].name};
        }
      }
      assert nodes[..|nodes|] == nodes;
    }

    method UpdateNode(node: Node, manager: NpuModeManager) returns (ok: bool)
      requires manager.status.Some?
      modifies server`nodes, server`issued, manager`status
      ensures var before := Progress(old(server.nodes), old(server.issued), {}, {});
        var after := NpuItem(before, NpuUpdate(manager.spec.mode, manager.managedBy), node.name, node.obj,
            server.faults);
        && server.nodes == after.nodes && server.issued == after.issued
        && after.failed == (if ok then {} else {node.name})
        && manager.status == Some(SetSync(old(manager.status).value, after.written, INITIALIZED, true))
    {
      hide Deliver, Accepted, SetSync, NpuUpdated;
      SetSyncStep(manager.status.value, {}, node.name, INITIALIZED, true);
      ok := true;
      var labels := new LabelMap(node.obj.labels);
      var modified := UpdateNPUStateLabels(manager.spec.mode, manager.managedBy, labels);
      if !modified {
        return;
      }
      ok := server.SendNode(node.name, Write.Merge(Diff(node.obj.labels, labels.data)));
      if !ok {
        return;
      }
      UpdateNpuNodePolicyStatus(manager, node.name, INITIALIZED, true);
      assert {} + {node.name} == {node.name};
    }

    /** Strips the listed nodes that are not restored. It asks for no further pass exactly when all of
        them were restored on entry, and such a pass writes nothing. */
    method ReleaseNodes(nodes: seq<Node>) returns (requeue: bool, failed: set<string>)
      requires DistinctNames(nodes)
      modifies server`nodes, server`issued
      ensures var after := NpuPass(old(server.nodes), old(server.issued), NpuRelease, ByName(nodes), server.faults);
        server.nodes == after.nodes && server.issued == after.issued && failed == after.failed
      ensures !requeue <==> AllRestored(ByName(nodes))
      ensures !requeue ==> server.nodes == old(server.nodes) && server.issued == old(server.issued) && failed == {}
    {
      hide NpuPass, NpuItem, Restored;
      requeue, failed := false, {};
      ghost var start, issued := server.nodes, server.issued;
      NpuPassOverNothing(start, issued, NpuRelease, server.faults);
      for i := 0 to |nodes|
        invariant var p := NpuPass(start, issued, NpuRelease, ByName(nodes[..i]), server.faults);
          server.nodes == p.nodes && server.issued == p.issued && failed == p.failed
        invariant !requeue <==> AllRestored(ByName(nodes[..i]))
        invariant !requeue ==> server.nodes == start && server.issued == issued && failed == {}
      {
        ByNameStep(nodes, i);
        ghost var p := NpuPass(start, issued, NpuRelease, ByName(nodes[..i]), server.faults);
        NpuPassStep(start, issued, NpuRelease, ByName(nodes[..i]), nodes[i].name, nodes[i].obj, server.faults);
        NpuItemFrom(p, NpuRelease, nodes[i].name, nodes[i].obj, server.faults);
        AllRestoredStep(ByName(nodes[..i]), nodes[i].name, nodes[i].obj);
        var again, ok := ReleaseNode(nodes[i]);
        requeue := requeue || again;
        if !ok {
          failed := failed + {nodes[i].name};
        }
      }
      assert nodes[..|nodes|] == nodes;
    }

    method ReleaseNode(node: Node) returns (again: bool, ok: bool)
      modifies server`nodes, server`issued
      ensures var before := Progress(old(server.nodes), old(server.issued), {}, {});
        var after := NpuItem(before, NpuRelease, node.name, node.obj, server.faults);
        && server.nodes == after.nodes && server.issued == after.issued
        && after.failed == (if ok then {} else {node.name})
      ensures !again <==> Restored(node.obj.labels)
      ensures !again ==> server.nodes == old(server.nodes) && server.issued == old(server.issued) && ok
    {
      hide Deliver, Accepted, NpuReleased;
      again, ok := false, true;
      if Lookup(node.obj.labels, NpuConfigState) == RESTORED {
        return;
      }
      again := true;
      var labels := new LabelMap(node.obj.labels);
      var modified := RemoveAllNPUModeLabels(labels);
      if !modified {
        return;
      }
      ok := server.SendNode(node.name, Write.Merge(Diff(node.obj.labels, labels.data)));
    }

    /** One reconcile of an NPU policy computes the step function. `late` is empty unless the adoption of a
        bare node panics: then it holds the nodes that the pass had not come to. */
    method Reconcile(name: string) returns (result: Result, ghost late: set<string>)
      modifies server`npuPolicies, server`nodes, server`issued
      ensures late != {} ==> result == Panicked
      ensures var o := NpuStep(old(Current()), name, server.faults + WriteOps(late));
        && Current() == o.state && result == o.result
        && server.issued == old(server.issued) + (o.issued - WriteOps(late))
    {
      hide NpuLive, NpuDeleted, WriteOps;
      late := {};
      NoWriteOps(server.faults);
      var ok, policy := server.ReadNpuPolicy(name);
      if !ok {
        return Failed, late;
      }
      if policy.None? {
        return Done, late;
      }
      var origin := policy.value;
      if !origin.deleting {
        result, late := ReconcileLiving(name, origin);
        GpuReconciler.OtherOps(server.faults, late);
      } else if RELEASE_FINALIZER in origin.finalizers {
        ghost var c := Current();
        result := ReconcileDeletion(name, origin);
        NoWriteOps(NpuDeleted(c, name, server.faults).issued);
      } else {
        result := Done;
      }
    }

    method ReconcileLiving(name: string, origin: NpuPolicy) returns (result: Result, ghost late: set<string>)
      requires name in server.npuPolicies && server.npuPolicies[name] == origin && !origin.deleting
      modifies server`npuPolicies, server`nodes, server`issued
      ensures late != {} ==> result == Panicked
      ensures var o := NpuLive(old(Current()), name, server.faults + WriteOps(late));
        && Current() == o.state && result == o.result
        && server.issued == old(server.issued) + (o.issued - WriteOps(late))
    {
      hide NpuFinishLive, WriteOps;
      late := {};
      NoWriteOps(server.faults);
      ghost var policies, issued := server.npuPolicies, server.issued;
      ghost var w: set<Op> := if RELEASE_FINALIZER in origin.finalizers then {} else {PutPolicy};
      NoWriteOps(w);
      if RELEASE_FINALIZER !in origin.finalizers {
        var ok := server.WriteNpuPolicy(name, origin.(finalizers := origin.finalizers + [RELEASE_FINALIZER]));
        if !ok {
          return Failed, late;
        }
      }
      assert server.npuPolicies == policies[name := WithNpuFinalizer(origin)];
      assert server.issued == issued + w;
      if ListNodes in server.faults {
        return Failed, late;
      }
      ghost var c := Current();
      result, late := SetupNodes(name);
      ghost var g := server.faults + WriteOps(late);
      NpuIssuedFrom(c, name, w, g);
      GpuReconciler.OtherOps(server.faults, late);
      GpuReconciler.CutOff(issued, w, NpuFinishLive(c, name, {}, g).issued, late);
    }

    method SetupNodes(name: string) returns (result: Result, ghost late: set<string>)
      requires name in server.npuPolicies && ListNodes !in server.faults
      modifies server`npuPolicies, server`nodes, server`issued
      ensures late != {} ==> result == Panicked
      ensures var o := NpuFinishLive(old(Current()), name, {}, server.faults + WriteOps(late));
        && Current() == o.state && result == o.result
        && server.issued == old(server.issued) + (o.issued - WriteOps(late))
    {
      hide ByName, Select, NpuPass, SetSync, Both, AllRestored, WriteOps, Stops, DistinctNames, NpuAdoptable;
      late := {};
      NoWriteOps(server.faults);
      ghost var c, issued := Current(), server.issued;
      var manager := new NpuModeManager(name, server.npuPolicies[name]);
      var _, claimNodes := server.List(manager.spec.nodeSelector);
      var _, matchNodes := server.List(map[NpuManagedBy := name]);
      var adopt, keep, release := FilterNodes(claimNodes, matchNodes);
      SplitLabelled(c.nodes, manager.spec.nodeSelector, NpuManagedBy, name, adopt, keep, release);
      var requeue := false;
      InitNpuNodePolicyStatus(manager, claimNodes);
      var panicked, failed := AdoptNodes(adopt, manager);
      if panicked {
        late := ByName(adopt).Keys - ByName(adopt[..FirstBare(adopt)]).Keys;
        NpuPanicPass(c, name, ByName(adopt[..FirstBare(adopt)]), issued, server.faults);
        return Panicked, late;
      }
      assert adopt[..FirstBare(adopt)] == adopt;
      if failed != {} {
        requeue := true;
      }
      failed := UpdateNodes(keep, manager);
      if failed != {} {
        requeue := true;
      }
      // The flag set so far is overwritten here, as in the source.
      requeue, failed := ReleaseNodes(release);
      NpuIssuedFrom(c, name, issued, server.faults);
      NoWriteOps(NpuFinishLive(c, name, {}, server.faults).issued);
      if server.npuPolicies[name].status != manager.status {
        var ok := server.WriteNpuStatus(name, manager.status);
        if !ok {
          return Failed, late;
        }
      }
      return if requeue then Failed else Done, late;
    }

    method ReconcileDeletion(name: string, origin: NpuPolicy) returns (result: Result)
      requires name in server.npuPolicies && server.npuPolicies[name] == origin
          && RELEASE_FINALIZER in origin.finalizers
      modifies server`npuPolicies, server`nodes, server`issued
      ensures var o := NpuDeleted(old(Current()), name, server.faults);
        Current() == o.state && result == o.result && server.issued == old(server.issued) + o.issued
    {
      hide ByName, Select, Deliver, Accepted, AllRestored, NpuWrites, WriteOps;
      var ok, managedNodes := server.List(origin.spec.nodeSelector);
      if !ok {
        return Failed;
      }
      var requeue, failed := ReleaseNodes(managedNodes);
      if requeue {
        return if failed == {} then Waiting else Failed;
      }
      var finalizers, found := GpuReconciler.RemoveFinalizer(origin.finalizers);
      if found {
        ok := server.WriteNpuPolicy(name, origin.(finalizers := finalizers));
        if !ok {
          return Failed;
        }
      }
      return Done;
    }
  }

  lemma AllRestoredStep(items: Nodes, n: string, o: Obj)
    requires n !in items
    ensures AllRestored(items[n := o]) <==> AllRestored(items) && Restored(o.labels)
  {
    hide Restored;
    assert items[n := o][n] == o;
    assert forall m :: m in items ==> items[n := o][m] == items[m];
  }

  lemma NpuIssuedFrom(c: NpuState, p: string, w: set<Op>, f: set<Op>)
    requires p in c.policies
    ensures var o := NpuFinishLive(c, p, {}, f);
      NpuFinishLive(c, p, w, f) == NpuOutcome(o.state, o.result, w + o.issued)
  {
    hide Deliver, Accepted, NpuWrites, WriteOps, SetSync, AllRestored, Select, Stops, NpuAdoptable;
  }

  /** The first pass up to the point where it panics: what it did not reach is as if its writes had failed. */
  lemma NpuPanicPass(c: NpuState, p: string, reached: Nodes, issued: set<Op>, f: set<Op>)
    requires p in c.policies
    requires reached.Keys <= Select(c.nodes, c.policies[p].spec.nodeSelector).Keys - NpuMine(c, p).Keys
    requires forall n :: n in reached ==> n in c.nodes && reached[n] == c.nodes[n] && !Bare(reached[n])
    ensures var e := NpuAdopt(c.policies[p].spec.mode, p);
      var late := (Select(c.nodes, c.policies[p].spec.nodeSelector) - NpuMine(c, p).Keys).Keys - reached.Keys;
      var cut, all := NpuPass(c.nodes, issued, e, reached, f),
          NpuPass(c.nodes, {}, e, NpuAdoptable(c, p), f + WriteOps(late));
      && cut.nodes == all.nodes && cut.issued == issued + (all.issued - WriteOps(late))
  {
    hide NpuWrites, Select, Deliver, Accepted, NpuAdoptable;
    var e := NpuAdopt(c.policies[p].spec.mode, p);
    var late := (Select(c.nodes, c.policies[p].spec.nodeSelector) - NpuMine(c, p).Keys).Keys - reached.Keys;
    var sent, writes := NpuWrites(e, reached), NpuWrites(e, NpuAdoptable(c, p));
    NpuReached(c, p, reached);
    assert sent.Keys == writes.Keys - late;
    SentOnly(c.nodes, writes, sent, f, f + WriteOps(late));
  }

  lemma NpuReached(c: NpuState, p: string, reached: Nodes)
    requires p in c.policies
    requires reached.Keys <= Select(c.nodes, c.policies[p].spec.nodeSelector).Keys - NpuMine(c, p).Keys
    requires forall n :: n in reached ==> n in c.nodes && reached[n] == c.nodes[n] && !Bare(reached[n])
    ensures var e := NpuAdopt(c.policies[p].spec.mode, p);
      var late := (Select(c.nodes, c.policies[p].spec.nodeSelector) - NpuMine(c, p).Keys).Keys - reached.Keys;
      var sent, writes := NpuWrites(e, reached), NpuWrites(e, NpuAdoptable(c, p));
      forall n :: (n in sent <==> n in writes && n !in late) && (n in sent ==> sent[n] == writes[n])
  {
    hide NpuWriteOf, Matches;
    forall n {
      NpuMineIs(c.nodes, p, n);
    }
  }

  lemma NpuMineIs(nodes: Nodes, p: string, n: string)
    ensures n in Select(nodes, map[NpuManagedBy := p]) <==> n in nodes && Find(nodes[n].labels, NpuManagedBy) == Some(p)
  {
  }
}

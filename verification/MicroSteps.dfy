/** The node protocol write by write. Any policy may at any time issue the write its code computes
    from any list item it has ever been shown, however outdated, and the write may be lost; users
    and the MIG manager write in between. Every pass of the controller over any list is a behavior of
    this machine, and since a step once enabled stays so, passes may be interleaved and cut off at will. */
module MicroSteps {
  import opened Options
  import opened MergePatch
  import opened Api
  import opened GpuControls
  import opened Cluster
  import opened GpuProtocol
  import opened StepFacts
  import opened NodePasses
  import opened ConfigEntries
  import opened ConfigStage
  import opened StepSafety
  import O = Ownership

  /** `seen` is every version of every node that a list may still show. */
  datatype Micro = Micro(nodes: Nodes, seen: set<Node>)

  datatype Step =
    | Issue(policy: string, edit: Edit, item: Node, arrives: bool)
    | UserWrite(node: string, key: LabelKey, value: string)
    | Report(node: string, state: string)

  /** The items of the update, release and revert passes come from a list selected by the policy's
      owner label; adoption may meet any item, and writes it unless it has no labels at all. */
  ghost predicate Enabled(m: Micro, s: Step) {
    match s
    case Issue(p, e, item, _) =>
      && item in m.seen
      && (e.Adopt? || e.Update? ==> e.stamp.managedBy == p)
      && (if e.Adopt? then !Bare(item.obj) else Owner(item.obj.labels) == Some(p))
    case UserWrite(n, k, _) => n in m.nodes && k !in GPU_KEYS
    case Report(n, _) => n in m.nodes
  }

  ghost predicate Valid(m: Micro) {
    forall item :: item in m.seen && item.name in m.nodes ==>
      && item.obj.version <= m.nodes[item.name].version
      && (item.obj.version == m.nodes[item.name].version ==> item.obj == m.nodes[item.name])
  }

  function Store(m: Micro, nodes: Nodes, n: string): Micro {
    Micro(nodes, if n in nodes then m.seen + {Node(n, nodes[n])} else m.seen)
  }

  function NodesAfter(nodes: Nodes, e: Edit, item: Node, arrives: bool): Nodes {
    if WriteOf(e, item.obj).None? then nodes
    else Deliver(nodes, map[item.name := WriteOf(e, item.obj).value], if arrives then {} else {WriteNode(item.name)})
  }

  ghost function Next(m: Micro, s: Step): Micro
    requires Enabled(m, s)
  {
    match s
    case Issue(_, e, item, arrives) => Store(m, NodesAfter(m.nodes, e, item, arrives), item.name)
    case UserWrite(n, k, v) => Store(m, m.nodes[n := Obj(m.nodes[n].version + 1, m.nodes[n].labels[k := v])], n)
    case Report(n, v) => Store(m, m.nodes[n := Obj(m.nodes[n].version + 1, m.nodes[n].labels[MigConfigState := v])], n)
  }

  ghost predicate Behavior(ms: seq<Micro>, steps: seq<Step>) {
    && |ms| == |steps| + 1
    && Valid(ms[0])
    && forall i :: 0 <= i < |steps| ==> Enabled(ms[i], steps[i]) && ms[i + 1] == Next(ms[i], steps[i])
  }

  // ---------------------------------------------------------------- one write

  /** What a write leaves of the node it meets. */
  lemma NodeAfter(nodes: Nodes, e: Edit, item: Node, arrives: bool, n: string)
    requires n in nodes
    ensures var after := NodesAfter(nodes, e, item, arrives);
      && after.Keys == nodes.Keys
      && if n == item.name && arrives && WriteOf(e, item.obj).Some?
          && Cluster.Send(nodes[n], WriteOf(e, item.obj).value).Some?
         then after[n] == Cluster.Send(nodes[n], WriteOf(e, item.obj).value).value
             && after[n].version == nodes[n].version + 1
         else after[n] == nodes[n]
  {
    hide WriteOf;
  }

  /** A patch computed from an outdated item sets, on the current node, exactly the keys the pass
      edits on the item. */
  lemma PatchAt(e: Edit, item: Obj, current: Obj, k: LabelKey)
    requires !e.Adopt? && WriteOf(e, item).Some?
    ensures var r := Cluster.Send(current, WriteOf(e, item).value);
      && r.Some?
      && Find(r.value.labels, k)
         == if Find(item.labels, k) == Find(EditLabels(e, item.labels), k) then Find(current.labels, k)
            else Find(EditLabels(e, item.labels), k)
  {
    hide EditLabels, Diff, Apply;
    EditedNotEmpty(e, item.labels);
    ApplyElsewhere(current.labels, item.labels, EditLabels(e, item.labels), k);
  }

  /** The owner after a write that is accepted, whatever the list item said: an adoption meets an
      unowned or an own node, updates and reverts leave the owner alone, and a release leaves the
      node unowned, whoever owns it by then. */
  lemma OwnerAfterWrite(m: Micro, s: Step, n: string)
    requires Valid(m) && Enabled(m, s) && s.Issue? && n in m.nodes && n == s.item.name
    requires Next(m, s).nodes[n] != m.nodes[n]
    ensures var before, after := Owner(m.nodes[n].labels), Owner(Next(m, s).nodes[n].labels);
      match s.edit
      case Adopt(_) => (before.None? || before == Some(s.policy)) && after == Some(s.policy)
      case Update(_) => after == before
      case Revert => after == before
      case Release => after.None?
  {
    hide Updated, Released, Reverted, Diff, Apply;
    var e, item := s.edit, s.item;
    NodeAfter(m.nodes, e, item, s.arrives, n);
    OwnerOfEdit(e, item.obj.labels);
    if !e.Adopt? {
      PatchAt(e, item.obj, m.nodes[n], GpuManagedBy);
    }
  }

  lemma OwnerOfEdit(e: Edit, labels: Labels)
    ensures var after := Owner(EditLabels(e, labels));
      match e
      case Adopt(s) => after == if Owner(labels).None? then Some(s.managedBy) else Owner(labels)
      case Update(s) => after == Some(s.managedBy)
      case Revert => after == Owner(labels)
      case Release => after.None?
  {
    match e {
      case Adopt(s) => UpdatedAt(s, labels, GpuManagedBy);
      case Update(s) => UpdatedAt(s, labels, GpuManagedBy);
      case Revert =>
      case Release =>
    }
  }

  lemma NextValid(m: Micro, s: Step)
    requires Valid(m) && Enabled(m, s)
    ensures Valid(Next(m, s)) && Next(m, s).nodes.Keys == m.nodes.Keys
  {
    hide WriteOf, GPU_KEYS, NodesAfter;
    if s.Issue? {
      forall n | n in m.nodes {
        NodeAfter(m.nodes, s.edit, s.item, s.arrives, n);
      }
      KeysAfter(m.nodes, s.edit, s.item, s.arrives);
    }
  }

  lemma KeysAfter(nodes: Nodes, e: Edit, item: Node, arrives: bool)
    ensures NodesAfter(nodes, e, item, arrives).Keys == nodes.Keys
  {
  }

  /** No single write hands a node from one policy to another. */
  lemma NoHandOff(m: Micro, s: Step, n: string)
    requires Valid(m) && Enabled(m, s) && n in m.nodes
    ensures n in Next(m, s).nodes
    ensures var before, after := Owner(m.nodes[n].labels), Owner(Next(m, s).nodes[n].labels);
      before.Some? && after.Some? ==> after == before
  {
    hide WriteOf, NodesAfter;
    NextValid(m, s);
    if s.Issue? && Next(m, s).nodes[n] != m.nodes[n] {
      NodeAfter(m.nodes, s.edit, s.item, s.arrives, n);
      OwnerAfterWrite(m, s, n);
    }
  }

  /** No write of the controller moves a label outside its keys, even where its list was outdated. */
  lemma ForeignLabelsKept(m: Micro, s: Step, n: string, k: LabelKey)
    requires Valid(m) && Enabled(m, s) && s.Issue? && n in m.nodes && k !in GPU_KEYS
    ensures n in Next(m, s).nodes && Find(Next(m, s).nodes[n].labels, k) == Find(m.nodes[n].labels, k)
  {
    hide EditLabels, GPU_KEYS, Diff, Apply;
    NodeAfter(m.nodes, s.edit, s.item, s.arrives, n);
    KeysAfter(m.nodes, s.edit, s.item, s.arrives);
    OnlyGpuKeysEdited(s.edit, s.item.obj.labels, k);
    if n == s.item.name && !s.edit.Adopt? && WriteOf(s.edit, s.item.obj).Some? {
      PatchAt(s.edit, s.item.obj, m.nodes[n], k);
    }
  }

  // ---------------------------------------------------------------- behaviors

  lemma {:induction false} BehaviorValid(ms: seq<Micro>, steps: seq<Step>, i: nat)
    requires Behavior(ms, steps) && i < |ms|
    ensures Valid(ms[i]) && ms[i].nodes.Keys == ms[0].nodes.Keys
  {
    hide Next, Enabled;
    if i > 0 {
      BehaviorValid(ms, steps, i - 1);
      NextValid(ms[i - 1], steps[i - 1]);
    }
  }

  /** Between two different owners of a node there is a moment in which nobody owns it. */
  lemma {:induction false} UnownedBetween(ms: seq<Micro>, steps: seq<Step>, i: nat, j: nat, n: string)
    requires Behavior(ms, steps) && i <= j < |ms| && n in ms[0].nodes
    ensures n in ms[i].nodes && n in ms[j].nodes
    ensures Owner(ms[i].nodes[n].labels).Some? && Owner(ms[j].nodes[n].labels).Some?
            && Owner(ms[i].nodes[n].labels) != Owner(ms[j].nodes[n].labels)
      ==> exists k :: i < k < j && n in ms[k].nodes && Owner(ms[k].nodes[n].labels).None?
    decreases j
  {
    hide Next, Enabled, Valid;
    BehaviorValid(ms, steps, i);
    BehaviorValid(ms, steps, j);
    if i < j {
      BehaviorValid(ms, steps, j - 1);
      UnownedBetween(ms, steps, i, j - 1, n);
      NoHandOff(ms[j - 1], steps[j - 1], n);
    }
  }

  // ---------------------------------------------------------------- the passes are such behaviors

  /** A pass of the controller over a list, outdated or not, is its writes issued one by one. */
  lemma {:induction false} PassIsBehavior(m: Micro, p: string, e: Edit, list: seq<Node>, faults: set<Op>)
    returns (ms: seq<Micro>, steps: seq<Step>)
    requires Valid(m) && DistinctNames(list)
    requires forall i :: 0 <= i < |list| ==> Enabled(m, Issue(p, e, list[i], true))
    ensures Behavior(ms, steps) && ms[0] == m && |steps| == |list|
    ensures forall i :: 0 <= i < |list| ==> steps[i] == Issue(p, e, list[i], WriteNode(list[i].name) !in faults)
    ensures ms[|list|].nodes == AfterPass(Progress(m.nodes, {}, {}, {}), e, ByName(list), faults).nodes
  {
    hide Next, Enabled, Valid, AfterPass, DistinctNames, ByName;
    var start := Progress(m.nodes, {}, {}, {});
    if list == [] {
      ms, steps := [m], [];
      PassOverNothing(start, e, faults);
      EmptyNodes();
    } else {
      var last := |list| - 1;
      DistinctPrefix(list);
      ms, steps := PassIsBehavior(m, p, e, list[..last], faults);
      var step := Issue(p, e, list[last], WriteNode(list[last].name) !in faults);
      ArrivalFree(m, p, e, list[last], step.arrives);
      StaysEnabled(ms, steps, 0, last, step);
      ByNameStep(list, last);
      assert list[..last + 1] == list;
      PassStep(start, e, ByName(list[..last]), list[last].name, list[last].obj, faults);
      ItemIsStep(AfterPass(start, e, ByName(list[..last]), faults), e, list[last], faults);
      IssueNodes(ms[last], step);
      ms, steps := ms + [Next(ms[last], step)], steps + [step];
    }
  }

  lemma DistinctPrefix(list: seq<Node>)
    requires DistinctNames(list) && list != []
    ensures DistinctNames(list[..|list| - 1])
  {
  }

  lemma ArrivalFree(m: Micro, p: string, e: Edit, item: Node, arrives: bool)
    requires Enabled(m, Issue(p, e, item, true))
    ensures Enabled(m, Issue(p, e, item, arrives))
  {
  }

  lemma IssueNodes(m: Micro, s: Step)
    requires Enabled(m, s) && s.Issue?
    ensures Next(m, s).nodes == NodesAfter(m.nodes, s.edit, s.item, s.arrives)
  {
  }

  /** A list item can be used at any later time. */
  lemma {:induction false} StaysEnabled(ms: seq<Micro>, steps: seq<Step>, i: nat, j: nat, s: Step)
    requires Behavior(ms, steps) && i <= j < |ms| && Enabled(ms[i], s)
    ensures Enabled(ms[j], s)
    decreases j - i
  {
    hide Next, Valid;
    if i < j {
      StaysEnabled(ms, steps, i, j - 1, s);
      BehaviorValid(ms, steps, j - 1);
      NextValid(ms[j - 1], steps[j - 1]);
      NextSeen(ms[j - 1], steps[j - 1]);
    }
  }

  lemma NextSeen(m: Micro, s: Step)
    requires Enabled(m, s)
    ensures m.seen <= Next(m, s).seen
  {
    hide NodesAfter;
  }

  lemma ItemIsStep(p: Progress, e: Edit, item: Node, faults: set<Op>)
    ensures AfterItem(p, e, item.name, item.obj, faults).nodes
         == NodesAfter(p.nodes, e, item, WriteNode(item.name) !in faults)
  {
    hide WriteOf, Cluster.Send;
  }

  // ---------------------------------------------------------------- owners

  function OwnersIn(nodes: Nodes): O.Owners {
    map n | n in nodes :: Owner(nodes[n].labels)
  }

  /** From an item that is still current, a write of the pass the node falls in is a write of the
      ownership machine, so it is paid for by its measure. */
  lemma CurrentStepPaid(m: Micro, s: Step, spec: GpuSpec, stamp: Stamp, claims: O.Claims)
    requires Valid(m) && Enabled(m, s) && s.Issue? && s.policy in claims && stamp.managedBy == s.policy
    requires s.item.name in m.nodes && s.item.obj == m.nodes[s.item.name]
    requires EditFor(spec, stamp, s.item.obj.labels) == Some(s.edit)
    requires s.item.name in claims[s.policy] <==> Matches(spec.nodeSelector, s.item.obj.labels)
    ensures var before, after := OwnersIn(m.nodes), OwnersIn(Next(m, s).nodes);
      && (after == before || after == O.WriteOne(before, claims, s.policy, s.item.name))
      && (after != before ==> O.Measure(after, claims) < O.Measure(before, claims))
  {
    hide Matches, Updated, Released, Diff, Apply, O.Measure;
    var n := s.item.name;
    var before, after := OwnersIn(m.nodes), OwnersIn(Next(m, s).nodes);
    NextValid(m, s);
    forall k | k in m.nodes ensures k != n ==> after[k] == before[k] {
      NodeAfter(m.nodes, s.edit, s.item, s.arrives, k);
    }
    if Next(m, s).nodes[n] != m.nodes[n] {
      OwnerAfterWrite(m, s, n);
    }
    OwnerNext(spec, stamp, s.item.obj.labels);
    assert after == before || after == O.WriteOne(before, claims, s.policy, n);
    if after != before {
      O.PartialVisitPaid(before, after, claims, s.policy, {n});
    }
  }

  // ---------------------------------------------------------------- owners under outdated lists

  /** Policy p holds an item from a time when it owned the node. */
  ghost predicate Held(m: Micro, p: string, item: Node) {
    && Valid(m) && item in m.seen && Owner(item.obj.labels) == Some(p) && item.name in m.nodes
    && exists k :: k !in GPU_KEYS && k in m.nodes[item.name].labels
  }

  /** And q owns the node now. */
  ghost predicate Disputed(m: Micro, p: string, item: Node, q: string) {
    Held(m, p, item) && p != q && Owner(m.nodes[item.name].labels) == Some(q)
  }

  /** The item lets p strip whoever owns the node, and once q has taken it the item is as good as before. */
  lemma DisputedAgain(m: Micro, p: string, item: Node, stamp: Stamp) returns (s1: Step, s2: Step)
    requires Held(m, p, item) && stamp.managedBy != p
    ensures s1 == Issue(p, Release, item, true) && Enabled(m, s1)
    ensures Enabled(Next(m, s1), s2)
    ensures var m1, m2, n := Next(m, s1), Next(Next(m, s1), s2), item.name;
      && n in m1.nodes && Owner(m1.nodes[n].labels) == None
      && Disputed(m2, p, item, stamp.managedBy)
  {
    hide Updated, Released, Diff, Apply, NodesAfter, Valid, GPU_KEYS;
    var n, q := item.name, stamp.managedBy;
    s1 := Issue(p, Release, item, true);
    var m1 := Next(m, s1);
    NextValid(m, s1);
    NextSeen(m, s1);
    ReleaseArrives(m, p, item);
    var k :| k !in GPU_KEYS && k in m.nodes[n].labels;
    ForeignLabelsKept(m, s1, n, k);
    s2 := Issue(q, Adopt(stamp), Node(n, m1.nodes[n]), true);
    StoredSeen(m, s1);
    assert k in m1.nodes[n].labels;
    NextValid(m1, s2);
    NextSeen(m1, s2);
    AdoptArrives(m1, stamp, n);
    ForeignLabelsKept(m1, s2, n, k);
  }

  lemma StoredSeen(m: Micro, s: Step)
    requires Enabled(m, s) && s.Issue? && s.item.name in Next(m, s).nodes
    ensures Node(s.item.name, Next(m, s).nodes[s.item.name]) in Next(m, s).seen
  {
    hide NodesAfter;
  }

  lemma ReleaseArrives(m: Micro, p: string, item: Node)
    requires Enabled(m, Issue(p, Release, item, true)) && item.name in m.nodes
    ensures var after := Next(m, Issue(p, Release, item, true)).nodes;
      item.name in after && Owner(after[item.name].labels) == None
  {
    hide Updated, Released, Diff, Apply;
    OwnerOfEdit(Release, item.obj.labels);
    assert WriteOf(Release, item.obj).Some?;
    PatchAt(Release, item.obj, m.nodes[item.name], GpuManagedBy);
  }

  lemma AdoptArrives(m: Micro, stamp: Stamp, n: string)
    requires n in m.nodes && Owner(m.nodes[n].labels) == None
    requires Enabled(m, Issue(stamp.managedBy, Adopt(stamp), Node(n, m.nodes[n]), true))
    ensures var after := Next(m, Issue(stamp.managedBy, Adopt(stamp), Node(n, m.nodes[n]), true)).nodes;
      n in after && Owner(after[n].labels) == Some(stamp.managedBy)
  {
    hide Updated, Released, Diff, Apply;
    OwnerOfEdit(Adopt(stamp), m.nodes[n].labels);
  }

  /** So under outdated lists no bound on ownership changes holds: however many are asked for, there is
      a behavior in which the node loses its owner that many times. */
  lemma {:induction false} StaleChangesUnbounded(m: Micro, p: string, item: Node, stamp: Stamp, times: nat)
    returns (ms: seq<Micro>, steps: seq<Step>)
    requires Disputed(m, p, item, stamp.managedBy)
    ensures Behavior(ms, steps) && ms[0] == m && |steps| == 2 * times
    ensures forall i :: 0 <= i < |ms| ==> item.name in ms[i].nodes
    ensures forall i :: 0 <= i < |ms| ==>
      Owner(ms[i].nodes[item.name].labels) == if i % 2 == 0 then Some(stamp.managedBy) else None
    ensures Disputed(ms[|ms| - 1], p, item, stamp.managedBy)
  {
    hide Next, Enabled, Valid, GPU_KEYS;
    if times == 0 {
      ms, steps := [m], [];
      DisputedValid(m, p, item, stamp.managedBy);
    } else {
      ms, steps := StaleChangesUnbounded(m, p, item, stamp, times - 1);
      var end := ms[|ms| - 1];
      var s1, s2 := DisputedAgain(end, p, item, stamp);
      var m1 := Next(end, s1);
      ms, steps := ms + [m1, Next(m1, s2)], steps + [s1, s2];
    }
  }

  lemma DisputedValid(m: Micro, p: string, item: Node, q: string)
    requires Disputed(m, p, item, q)
    ensures Valid(m)
  {
  }

  // ---------------------------------------------------------------- deletion from an outdated list

  lemma StaleReleaseAt(nodes: Nodes, items: Nodes, f: set<Op>, p: string, n: string)
    requires n in items ==> Owner(items[n].labels) == Some(p)
    ensures var writes := Writes(Release, items);
      var after, accepted := Deliver(nodes, writes, f), Accepted(nodes, writes, f);
      && after.Keys == nodes.Keys
      && (n in writes <==> n in items)
      && (n in accepted <==> n in items && n in nodes && WriteNode(n) !in f)
      && (n in nodes ==> Owner(after[n].labels) == if n in accepted then None else Owner(nodes[n].labels))
  {
    hide Released, Diff, Apply;
    if n in items {
      OwnerOfEdit(Release, items[n].labels);
      assert WriteOf(Release, items[n]).Some?;
      if n in nodes {
        PatchAt(Release, items[n], nodes[n], GpuManagedBy);
      }
    }
  }

  /** The release pass of a deletion over a list of the policy's nodes, however outdated: it meets no
      error exactly when every listed node is still there and every write arrives, and then it leaves a
      node owned exactly when the list missed it. */
  lemma StaleReleaseLeavesIff(nodes: Nodes, items: Nodes, f: set<Op>, p: string)
    requires forall n :: n in items ==> Owner(items[n].labels) == Some(p)
    ensures var writes := Writes(Release, items);
      var after, clean := Deliver(nodes, writes, f), Accepted(nodes, writes, f) == writes.Keys;
      && (clean <==> forall n :: n in items ==> n in nodes && WriteNode(n) !in f)
      && (clean ==>
            ((exists n :: n in after && Owner(after[n].labels) == Some(p))
             <==> exists n :: n in nodes && Owner(nodes[n].labels) == Some(p) && n !in items))
  {
    hide Writes, Deliver, Accepted, Owner;
    var writes := Writes(Release, items);
    var after, accepted := Deliver(nodes, writes, f), Accepted(nodes, writes, f);
    forall n
      ensures after.Keys == nodes.Keys
      ensures n in writes <==> n in items
      ensures n in accepted <==> n in items && n in nodes && WriteNode(n) !in f
      ensures n in nodes ==> Owner(after[n].labels) == if n in accepted then None else Owner(nodes[n].labels)
    {
      StaleReleaseAt(nodes, items, f, p, n);
    }
    assert accepted == writes.Keys <==> forall n :: n in items ==> n in accepted;
  }

  /** A deletion from an outdated list lets the policy go exactly when it succeeds, and leaves behind an
      owned node without an owner exactly when the list missed it. */
  lemma StaleDeletionOrphansIff(h: Hashes, c: State, p: string, items: Nodes, f: set<Op>)
    requires Registered(c, p) && c.policies[p].deleting && ConfigsOk(h, c.dp, c.mig, p)
    requires forall n :: n in items ==> Owner(items[n].labels) == Some(p)
    ensures var o := ReconcileDeletedAt(c, p, items, FoundIn(c.dp, c.mig, p), f);
      && (Registered(o.state, p) <==> o.result != Done)
      && (o.result == Done ==>
            (HoldsNode(o.state, p) <==> exists n :: n in c.nodes && Owner(c.nodes[n].labels) == Some(p) && n !in items))
  {
    hide Writes, Deliver, Accepted, MigDrained, WriteOps, ConfigOk, FinishDeletedAt;
    var writes := Writes(Release, items);
    var c1 := c.(nodes := Deliver(c.nodes, writes, f));
    StaleReleaseLeavesIff(c.nodes, items, f, p);
    FinishUnregisters(c1, p, WriteOps(writes.Keys), f);
  }

  lemma FinishUnregisters(c: State, p: string, w: set<Op>, f: set<Op>)
    requires Registered(c, p)
    ensures var o := FinishDeleted(c, p, w, f);
      && o.state.nodes == c.nodes && o.result in {Done, Failed}
      && (Registered(o.state, p) <==> o.result != Done)
  {
    hide RemoveAt;
    WithoutFinalizerRemoves(c.policies[p].finalizers, RELEASE_FINALIZER);
  }

  /** It happens: nothing fails, every listed node is there and, in MIG mode, shown drained. */
  lemma StaleDeletionSucceeds(c: State, p: string, items: Nodes)
    requires Registered(c, p) && items.Keys <= c.nodes.Keys
    requires forall n :: n in items ==> Owner(items[n].labels) == Some(p)
    requires c.policies[p].spec.mode == MIG ==> forall n :: n in items ==> MigDrained(items[n].labels)
    ensures ReconcileDeletedAt(c, p, items, FoundIn(c.dp, c.mig, p), {}).result == Done
  {
    hide Writes, Deliver, Accepted, MigDrained, WriteOps;
    StaleReleaseLeavesIff(c.nodes, items, {}, p);
  }
}

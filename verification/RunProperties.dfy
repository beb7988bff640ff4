/** Properties of every run, with any calls failing: built-in entries and foreign labels never
    move, the MIG drain comes before the hand-back of a node, and statuses keep their shape. */
module RunProperties {
  import opened Options
  import opened Api
  import opened GpuControls
  import opened ConfigEntries
  import opened Cluster
  import opened GpuProtocol
  import opened StepFacts
  import opened ConfigStage
  import opened StepSafety
  import opened Runs
  import Retry
  import NodePasses

  // ---------------------------------------------------------------- what no run touches

  ghost predicate KeyKept<T>(before: Option<map<string, T>>, after: Option<map<string, T>>, k: string) {
    (before.Some? <==> after.Some?) && (before.Some? ==> Find(after.value, k) == Find(before.value, k))
  }

  /** An entry that no policy name is a prefix of, such as a built-in one, is never touched; a
      configuration that has one therefore never becomes empty. */
  lemma {:induction false} RunKeepsBuiltIns(world: World, c: State, acts: seq<Action>, k: string)
    requires world.Fits() && Good(world, c)
    requires forall p :: p in world.names ==> !Owns(p, k)
    ensures KeyKept(c.dp, Run(world, c, acts).dp, k)
    ensures KeyKept(c.mig, Run(world, c, acts).mig, k)
  {
    hide ReconcileStep, Good, ConfigsOk, Owns;
    if acts == [] {
    } else {
      var before, a := Run(world, c, acts[..|acts| - 1]), acts[|acts| - 1];
      RunKeepsBuiltIns(world, c, acts[..|acts| - 1], k);
      RunGood(world, c, acts[..|acts| - 1]);
      StepKeepsBuiltIns(world, before, a, k);
    }
  }

  lemma StepKeepsBuiltIns(world: World, c: State, a: Action, k: string)
    requires Good(world, c)
    requires forall p :: p in world.names ==> !Owns(p, k)
    ensures KeyKept(c.dp, Next(world, c, a).dp, k) && KeyKept(c.mig, Next(world, c, a).mig, k)
  {
    hide ReconcileLiveAt, ReconcileDeletedAt, ConfigsOk, Owns, GPU_KEYS, SafeSelector;
    if a.Reconcile? && a.policy in c.policies {
      assert PolicyGood(world, c, a.policy);
      ReconcileConfigFrame(world.hashes, c, a.policy, a.faults);
    }
  }

  /** A configuration with a built-in entry is never left without its map, so adding to it never panics. */
  lemma BuiltInsPreventNilMap(world: World, c: State, acts: seq<Action>, k: string)
    requires world.Fits() && Good(world, c)
    requires forall p :: p in world.names ==> !Owns(p, k)
    ensures c.dp.Some? && k in c.dp.value ==> !NilMap(Run(world, c, acts).dp)
    ensures c.mig.Some? && k in c.mig.value ==> !NilMap(Run(world, c, acts).mig)
  {
    hide Run, Good, Owns;
    RunKeepsBuiltIns(world, c, acts, k);
  }

  /** Without one a finished deletion leaves the nil map exactly when the deleted policy's entries
      were all there was. */
  lemma DeletionLeavesNilMapIff(h: Hashes, c: State, p: string, f: set<Op>)
    requires Registered(c, p) && c.policies[p].deleting && ConfigsOk(h, c.dp, c.mig, p)
    requires ReconcileStep(h, c, p, f).result == Done
    ensures var o := ReconcileStep(h, c, p, f).state;
      && (NilMap(o.dp) <==> c.dp.Some? && forall k :: k in c.dp.value ==> Owns(p, k))
      && (NilMap(o.mig) <==> c.mig.Some? && forall k :: k in c.mig.value ==> Owns(p, k))
  {
    hide ReconcileStep, ConfigOk, Owns;
    ReconcileConfigFrame(h, c, p, f);
    DeletionOrdered(h, c, p, f);
    DeletedUnregisters(h, c, p, f);
    var o := ReconcileStep(h, c, p, f).state;
    EmptyIffAllOwned(c.dp, o.dp, p);
    EmptyIffAllOwned(c.mig, o.mig, p);
  }

  lemma DeletedUnregisters(h: Hashes, c: State, p: string, f: set<Op>)
    requires Registered(c, p) && c.policies[p].deleting
    requires ReconcileStep(h, c, p, f).result == Done
    ensures !Registered(ReconcileStep(h, c, p, f).state, p)
  {
    hide RemoveAt, Writes, Deliver, Select, MigDrained, Accepted, WriteOps;
    WithoutFinalizerRemoves(c.policies[p].finalizers, RELEASE_FINALIZER);
  }

  lemma EmptyIffAllOwned<T>(before: Option<map<string, T>>, after: Option<map<string, T>>, p: string)
    requires OthersSame(before, after, p) && (after.Some? ==> OwnKeys(after.value, p) == {})
    ensures NilMap(after) <==> before.Some? && forall k :: k in before.value ==> Owns(p, k)
  {
    hide Owns;
    if before.Some? {
      forall k ensures k in after.value <==> k in before.value && !Owns(p, k) {
        assert !Owns(p, k) ==> Find(after.value, k) == Find(before.value, k);
        assert Owns(p, k) ==> k !in OwnKeys(after.value, p);
      }
    }
  }

  predicate EditsLabel(a: Action, n: string, k: LabelKey) {
    match a
    case UserLabel(n', k', _) => n' == n && k' == k
    case Join(n', _) => n' == n
    case Leave(n') => n' == n
    case _ => false
  }

  /** A label outside the controller's keys changes only by the user's own hand. */
  lemma {:induction false} RunKeepsForeignLabels(world: World, c: State, acts: seq<Action>, n: string, k: LabelKey)
    requires n in c.nodes && k !in GPU_KEYS
    requires forall i :: 0 <= i < |acts| ==> !EditsLabel(acts[i], n, k)
    ensures var after := Run(world, c, acts).nodes;
      n in after && Find(after[n].labels, k) == Find(c.nodes[n].labels, k)
  {
    hide ReconcileStep, SafeSelector;
    if acts == [] {
    } else {
      var before, a := Run(world, c, acts[..|acts| - 1]), acts[|acts| - 1];
      RunKeepsForeignLabels(world, c, acts[..|acts| - 1], n, k);
      if a.Reconcile? {
        ReconcileNodesFrame(world.hashes, before, a.policy, a.faults);
        assert NodeFrame(before.nodes[n], Next(world, before, a).nodes[n], a.policy);
      }
    }
  }

  // ---------------------------------------------------------------- MIG drain ordering

  /** A node of a MIG policy under deletion that is not drained yet. */
  ghost predicate Draining(c: State, p: string, n: string) {
    && Registered(c, p) && c.policies[p].deleting && c.policies[p].spec.mode == MIG
    && n in c.nodes && Owner(c.nodes[n].labels) == Some(p) && !MigDrained(c.nodes[n].labels)
  }

  predicate MigOff(labels: Labels) {
    Lookup(labels, MigConfig) == ALL_DISABLED
  }

  ghost predicate BeforeRevert(c: State, p: string, n: string) {
    Draining(c, p, n) && !MigOff(c.nodes[n].labels)
  }

  ghost predicate AfterRevert(c: State, p: string, n: string) {
    Draining(c, p, n) && MigOff(c.nodes[n].labels)
  }

  lemma DrainOwn(h: Hashes, c: State, p: string, n: string, f: set<Op>)
    requires Draining(c, p, n)
    ensures var o := ReconcileStep(h, c, p, f).state;
      o == c || o == c.(nodes := Deliver(c.nodes, Writes(Revert, Mine(c, p)), f))
  {
    hide ReconcileLiveAt, FinishDeletedAt, Writes, Deliver, Select, Accepted, WriteOps, MigDrained;
    NodePasses.MineIs(c.nodes, p, n);
    assert n in Mine(c, p) && !MigDrained(Mine(c, p)[n].labels);
  }

  lemma DrainReconcile(world: World, c: State, p: string, n: string, q: string, f: set<Op>)
    requires Draining(c, p, n)
    ensures var o := ReconcileStep(world.hashes, c, q, f).state;
      && Draining(o, p, n)
      && (MigOff(c.nodes[n].labels) ==> MigOff(o.nodes[n].labels))
      && (q != p ==> o.nodes[n] == c.nodes[n])
  {
    hide ReconcileStep, Writes, Deliver, Select, Accepted, MigDrained, NodesFrame;
    if q == p {
      DrainOwn(world.hashes, c, p, n, f);
      PassNodeAt(c.nodes, Revert, p, f, n);
      Retry.RevertTwice(c.nodes[n].labels);
      DrainRevert(c.nodes[n].labels);
      PassKeys(c.nodes, Writes(Revert, Mine(c, p)), f);
    } else {
      ReconcileNodesFrame(world.hashes, c, q, f);
      ReconcilePolicies(world.hashes, c, q, f);
      DrainOther(c.nodes, ReconcileStep(world.hashes, c, q, f).state.nodes, q, p, n);
    }
  }

  lemma PassKeys(nodes: Nodes, writes: map<string, Write>, f: set<Op>)
    ensures Deliver(nodes, writes, f).Keys == nodes.Keys
  {
  }

  lemma DrainOther(before: Nodes, after: Nodes, q: string, p: string, n: string)
    requires NodesFrame(before, after, q) && n in before && Owner(before[n].labels) == Some(p) && p != q
    ensures n in after && after[n] == before[n]
  {
  }

  lemma DrainRevert(labels: Labels)
    ensures MigOff(EditLabels(Revert, labels))
  {
  }

  /** Until the revert write only p's own reconcile moves the node on, and after it only a success
      report of the MIG manager does. */
  lemma DrainStep(world: World, c: State, a: Action, p: string, n: string)
    requires a != Leave(n)
    ensures var o := Next(world, c, a);
      && (BeforeRevert(c, p, n) ==> BeforeRevert(o, p, n) || (a.Reconcile? && a.policy == p && AfterRevert(o, p, n)))
      && (AfterRevert(c, p, n) ==> AfterRevert(o, p, n) || a == MigReport(n, SUCCESS))
  {
    hide ReconcileStep, SafeSelector;
    if a.Reconcile? && Draining(c, p, n) {
      DrainReconcile(world, c, p, n, a.policy, a.faults);
    }
  }

  /** The revert write of a run, at action j, and the report that followed it, at action i. */
  ghost predicate DrainedAt(world: World, c: State, acts: seq<Action>, p: string, n: string, j: nat, i: nat) {
    && j < i < |acts|
    && acts[j].Reconcile? && acts[j].policy == p
    && BeforeRevert(Run(world, c, acts[..j]), p, n) && AfterRevert(Run(world, c, acts[..j + 1]), p, n)
    && acts[i] == MigReport(n, SUCCESS) && AfterRevert(Run(world, c, acts[..i]), p, n)
  }

  ghost predicate RevertedAt(world: World, c: State, acts: seq<Action>, p: string, n: string, j: nat) {
    && j < |acts|
    && acts[j].Reconcile? && acts[j].policy == p
    && BeforeRevert(Run(world, c, acts[..j]), p, n) && AfterRevert(Run(world, c, acts[..j + 1]), p, n)
  }

  lemma {:induction false} DrainStages(world: World, c: State, acts: seq<Action>, p: string, n: string)
    requires BeforeRevert(c, p, n)
    requires forall i :: 0 <= i < |acts| ==> acts[i] != Leave(n)
    ensures var o := Run(world, c, acts);
      || BeforeRevert(o, p, n)
      || (AfterRevert(o, p, n) && exists j: nat :: RevertedAt(world, c, acts, p, n, j))
      || exists j: nat, i: nat :: DrainedAt(world, c, acts, p, n, j, i)
  {
    hide Next, BeforeRevert, AfterRevert;
    if acts == [] {
    } else {
      var last := |acts| - 1;
      var shorter := acts[..last];
      var before := Run(world, c, shorter);
      DrainStages(world, c, shorter, p, n);
      DrainStep(world, before, acts[last], p, n);
      assert acts[..last + 1] == acts;
      assert forall j: nat :: j <= last ==> shorter[..j] == acts[..j];
      if BeforeRevert(before, p, n) {
        if !BeforeRevert(Run(world, c, acts), p, n) {
          assert RevertedAt(world, c, acts, p, n, last);
        }
      } else if AfterRevert(before, p, n) && exists j: nat :: RevertedAt(world, c, shorter, p, n, j) {
        var j: nat :| RevertedAt(world, c, shorter, p, n, j);
        assert RevertedAt(world, c, acts, p, n, j);
        if !AfterRevert(Run(world, c, acts), p, n) {
          assert DrainedAt(world, c, acts, p, n, j, last);
        }
      } else {
        var j: nat, i: nat :| DrainedAt(world, c, shorter, p, n, j, i);
        assert DrainedAt(world, c, acts, p, n, j, i);
      }
    }
  }

  /** A node of a deleted MIG policy is handed back only after the MIG manager reported success on a
      node that a reconcile of the policy had reverted earlier in the run. */
  lemma DrainOrdering(world: World, c: State, acts: seq<Action>, p: string, n: string)
    requires BeforeRevert(c, p, n)
    requires forall i :: 0 <= i < |acts| ==> acts[i] != Leave(n)
    requires var o := Run(world, c, acts); n in o.nodes ==> Owner(o.nodes[n].labels) != Some(p)
    ensures exists j: nat, i: nat :: DrainedAt(world, c, acts, p, n, j, i)
  {
    hide Next;
    DrainStages(world, c, acts, p, n);
  }

  // ---------------------------------------------------------------- status shape

  /** The status of the policy's mode is there and no other is. */
  predicate Shaped(mode: DeviceMode, st: NodeStatus) {
    match mode
    case TimeSlicing => st.timeSlicing.Some? && st == NO_STATUS.(timeSlicing := st.timeSlicing)
    case MIG => st.mig.Some? && st == NO_STATUS.(mig := st.mig)
    case Default => st.default_.Some? && st == NO_STATUS.(default_ := st.default_)
    case VCUDA => st.vcuda.Some? && st == NO_STATUS.(vcuda := st.vcuda)
    case PassThrough => st.passThrough.Some? && st == NO_STATUS.(passThrough := st.passThrough)
    case OtherMode(_) => st == NO_STATUS
  }

  ghost predicate StatusShaped(pol: Policy) {
    pol.status.Some? ==> forall n :: n in pol.status.value ==> Shaped(pol.spec.mode, pol.status.value[n])
  }

  ghost predicate AllShaped(c: State) {
    forall p :: p in c.policies ==> StatusShaped(c.policies[p])
  }

  /** isDevicePluginConfigUpdated and isMigConfigUpdated; None is a nil dereference. */
  function DpSync(pol: Policy, n: string): Option<bool> {
    if n !in OrEmpty(pol.status) then Some(false)
    else
      var st := OrEmpty(pol.status)[n];
      match pol.spec.mode
      case TimeSlicing => if st.timeSlicing.Some? then Some(st.timeSlicing.value.devicePluginSync) else None
      case MIG => if st.mig.Some? then Some(st.mig.value.devicePluginSync) else None
      case _ => Some(false)
  }

  function MigSync(pol: Policy, n: string): Option<bool> {
    if n !in OrEmpty(pol.status) || pol.spec.mode != MIG then Some(false)
    else
      var st := OrEmpty(pol.status)[n];
      if st.mig.Some? then Some(st.mig.value.migPartedSync) else None
  }

  lemma TouchShaped(status: map<string, NodeStatus>, mode: DeviceMode, names: set<string>, d: Option<bool>,
                    m: Option<bool>)
    requires forall n :: n in status ==> Shaped(mode, status[n])
    ensures forall n :: n in Touch(status, mode, names, d, m) ==> Shaped(mode, Touch(status, mode, names, d, m)[n])
    ensures Touch(status, mode, names, d, m).Keys == status.Keys + names
  {
  }

  /** What a reconcile makes of the sync flags of a claimed node: cleared where the node was written,
      otherwise requested where the configuration was rewritten, otherwise as before. A node that is
      not claimed keeps its status. */
  lemma NewFlags(pol: Policy, claimed: set<string>, written: set<string>, dpUpdated: bool, migUpdated: bool, n: string)
    requires StatusShaped(pol) && written <= claimed
    ensures var after := pol.(status := NewStatus(pol, claimed, written, dpUpdated, migUpdated));
      if n !in claimed then Find(OrEmpty(after.status), n) == Find(OrEmpty(pol.status), n)
      else
        && (pol.spec.mode == TimeSlicing || pol.spec.mode == MIG ==>
              DpSync(after, n) == if n in written then Some(false) else if dpUpdated then Some(true)
                  else DpSync(pol, n))
        && (pol.spec.mode == MIG ==>
              MigSync(after, n) == if n in written then Some(false) else if migUpdated then Some(true)
                  else MigSync(pol, n))
  {
  }

  /** A stored status records the nodes recorded before and the claimed ones, in the policy's shape. */
  lemma ReconcileStatus(h: Hashes, c: State, p: string, f: set<Op>)
    requires p in c.policies && StatusShaped(c.policies[p])
    ensures var o := ReconcileStep(h, c, p, f).state;
      p in o.policies ==>
        && StatusShaped(o.policies[p])
        && (o.policies[p].status == c.policies[p].status
            || OrEmpty(o.policies[p].status).Keys
               == OrEmpty(c.policies[p].status).Keys + Select(c.nodes, c.policies[p].spec.nodeSelector).Keys)
  {
    hide SetUpAt, FinishLive, NodeWrites, Writes, Deliver, Select;
    hide MigDrained, Accepted, WriteOps, WithoutFinalizer, RemoveAt, Shaped;
    var pol := c.policies[p];
    var c1 := c.(policies := c.policies[p := WithFinalizer(pol)]);
    var s := SetUp(h, c.dp, c.mig, p, pol.spec, f);
    FinishStatus(c1, p, s, if RELEASE_FINALIZER in pol.finalizers then {} else {PutPolicy}, f);
  }

  lemma FinishStatus(c: State, p: string, s: Setup, w: set<Op>, f: set<Op>)
    requires p in c.policies && StatusShaped(c.policies[p])
    ensures var o := FinishLive(c, p, s, w, f).state;
      && p in o.policies && o.policies[p].spec == c.policies[p].spec && StatusShaped(o.policies[p])
      && (o.policies[p].status == c.policies[p].status
          || OrEmpty(o.policies[p].status).Keys
             == OrEmpty(c.policies[p].status).Keys + Select(c.nodes, c.policies[p].spec.nodeSelector).Keys)
  {
    hide NodeWrites, Deliver, Select, Accepted, WriteOps, Shaped, Touch;
    var pol := c.policies[p];
    var claimed := Select(c.nodes, pol.spec.nodeSelector).Keys;
    var accepted := Accepted(c.nodes, NodeWrites(pol.spec, s.stamp, c.nodes), f);
    var listed := Touch(OrEmpty(pol.status), pol.spec.mode, claimed, Flag(s.dpUpdated), Flag(s.migUpdated));
    TouchShaped(OrEmpty(pol.status), pol.spec.mode, claimed, Flag(s.dpUpdated), Flag(s.migUpdated));
    TouchShaped(listed, pol.spec.mode, accepted * claimed, Some(false), Some(false));
  }

  lemma NextShaped(world: World, c: State, a: Action)
    requires AllShaped(c)
    ensures AllShaped(Next(world, c, a))
  {
    hide ReconcileStep, SafeSelector, StatusShaped, GPU_KEYS;
    if a.Reconcile? && a.policy in c.policies {
      ReconcilePolicies(world.hashes, c, a.policy, a.faults);
      ReconcileStatus(world.hashes, c, a.policy, a.faults);
    } else if a.Reconcile? {
      ReconcilePolicies(world.hashes, c, a.policy, a.faults);
    } else {
      ShapedEnvironment(world, c, a);
    }
  }

  lemma ShapedEnvironment(world: World, c: State, a: Action)
    requires AllShaped(c) && !a.Reconcile?
    ensures AllShaped(Next(world, c, a))
  {
    hide SafeSelector, GPU_KEYS, Shaped;
  }

  /** Over any run every recorded node keeps the status of its policy's mode and no other, so the
      sync flags can always be read. */
  lemma {:induction false} RunShaped(world: World, c: State, acts: seq<Action>)
    requires AllShaped(c)
    ensures var o := Run(world, c, acts);
      && AllShaped(o)
      && forall p, n :: p in o.policies ==> DpSync(o.policies[p], n).Some? && MigSync(o.policies[p], n).Some?
  {
    hide Next;
    if acts == [] {
    } else {
      RunShaped(world, c, acts[..|acts| - 1]);
      NextShaped(world, Run(world, c, acts[..|acts| - 1]), acts[|acts| - 1]);
    }
  }
}

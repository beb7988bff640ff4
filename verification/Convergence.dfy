/** The ownership machine is what the cluster does: each undisturbed reconcile of a living policy is
    one visit, so two rounds of reconciles settle the cluster. */
module Convergence {
  import opened Options
  import opened Api
  import opened GpuControls
  import opened ConfigEntries
  import opened Cluster
  import opened GpuProtocol
  import opened StepFacts
  import opened ConfigStage
  import opened StepSafety
  import opened Runs
  import History
  import O = Ownership
  import Retry

  function OwnersOf(c: State): O.Owners {
    map n | n in c.nodes :: Owner(c.nodes[n].labels)
  }

  function ClaimsOf(c: State): O.Claims {
    map p | p in c.policies && !c.policies[p].deleting :: Select(c.nodes, c.policies[p].spec.nodeSelector).Keys
  }

  /** The configuration step has what it needs. */
  ghost predicate ConfigsReady(c: State, p: string)
    requires p in c.policies
  {
    var spec := c.policies[p].spec;
    && (spec.mode == TimeSlicing || spec.mode == MIG ==> c.dp.Some? && !DpPanics(c.dp, spec))
    && (spec.mode == MIG ==> c.mig.Some? && !MigPanics(c.mig, p, spec))
  }

  /** The reconcile meets no missing configuration, no nil map and no missing block. */
  ghost predicate Ready(c: State, p: string)
    requires p in c.policies
  {
    ConfigsReady(c, p) && !Stops(c.policies[p].spec.nodeSelector, c.nodes)
  }

  /** It assigns into a nil map or reads a missing block. */
  ghost predicate Panics(c: State, p: string)
    requires p in c.policies
  {
    var spec := c.policies[p].spec;
    || ((spec.mode == TimeSlicing || spec.mode == MIG) && DpPanics(c.dp, spec))
    || (spec.mode == MIG && c.dp.Some? && MigPanics(c.mig, p, spec))
    || (ConfigsReady(c, p) && Stops(spec.nodeSelector, c.nodes))
  }

  ghost predicate AllReady(c: State) {
    forall p :: p in c.policies && !c.policies[p].deleting ==> Ready(c, p)
  }

  ghost function ReconcileAll(h: Hashes, c: State, schedule: seq<string>): State {
    if schedule == [] then c
    else ReconcileStep(h, ReconcileAll(h, c, schedule[..|schedule| - 1]), schedule[|schedule| - 1], {}).state
  }

  /** An undisturbed reconcile of a living policy succeeds exactly when nothing is missing. */
  lemma DoneIffReady(h: Hashes, c: State, p: string)
    requires p in c.policies && !c.policies[p].deleting
    ensures ReconcileStep(h, c, p, {}).result == Done <==> Ready(c, p)
    ensures ReconcileStep(h, c, p, {}).result == Panicked <==> Panics(c, p)
  {
    hide FinishLive, SetUpAt, DpPanics, MigPanicsAt, Stops;
    var pol := c.policies[p];
    var c1 := c.(policies := c.policies[p := WithFinalizer(pol)]);
    var s := SetUp(h, c.dp, c.mig, p, pol.spec, {});
    Retry.CleanIsDone(c1, p, s, if RELEASE_FINALIZER in pol.finalizers then {} else {PutPolicy});
    SetUpIffReady(h, c.dp, c.mig, p, pol.spec);
  }

  /** A reconcile of a deleted policy never panics. */
  lemma DeletionNeverPanics(h: Hashes, c: State, p: string, f: set<Op>)
    requires p in c.policies ==> c.policies[p].deleting
    ensures ReconcileStep(h, c, p, f).result != Panicked
  {
    hide Writes, Deliver, Select, MigDrained, Accepted, WriteOps, RemoveAt, StorePolicy, WithoutFinalizer;
  }

  /** While a claimed node has no labels, no reconcile of the policy succeeds or so much as writes one of
      the nodes it owns, whichever calls fail. */
  lemma BareNodeStarves(h: Hashes, c: State, p: string, f: set<Op>, n: string)
    requires p in c.policies && !c.policies[p].deleting && Stops(c.policies[p].spec.nodeSelector, c.nodes)
    requires n in c.nodes && Owner(c.nodes[n].labels) == Some(p)
    ensures var o := ReconcileStep(h, c, p, f);
      o.result != Done && n in o.state.nodes && o.state.nodes[n] == c.nodes[n]
  {
    hide SetUpAt, FinishLive, Stops, NodeWrites, Deliver, Owner;
    var pol := c.policies[p];
    var c1 := c.(policies := c.policies[p := WithFinalizer(pol)]);
    var s := SetUp(h, c.dp, c.mig, p, pol.spec, f);
    Retry.FinishLiveFacts(c1, p, s, if RELEASE_FINALIZER in pol.finalizers then {} else {PutPolicy}, f);
    NotReachedKept(c.nodes, NodeWrites(pol.spec, s.stamp, c.nodes), p, f, n);
  }

  lemma NotReachedKept(nodes: Nodes, writes: map<string, Write>, p: string, f: set<Op>, n: string)
    requires n in nodes && Owner(nodes[n].labels) == Some(p)
    ensures var after := Deliver(nodes, writes, f + WriteOps(NotReached(p, nodes))); n in after && after[n] == nodes[n]
  {
  }

  /** It happens with any policy that selects every node. */
  lemma BareNodePanics(h: Hashes, p: string, n: string, mode: DeviceMode)
    requires mode != TimeSlicing && mode != MIG
    ensures var pol := Policy(GpuSpec(map[], mode, None, None), false, [RELEASE_FINALIZER], None);
      var c := State(map[n := Obj(0, map[])], map[p := pol], None, None);
      ReconcileStep(h, c, p, {}).result == Panicked
  {
    var pol := Policy(GpuSpec(map[], mode, None, None), false, [RELEASE_FINALIZER], None);
    var c := State(map[n := Obj(0, map[])], map[p := pol], None, None);
    hide FinishLive;
    assert Bare(c.nodes[n]);
    Retry.FinishLiveFacts(c, p, SetUp(h, None, None, p, pol.spec, {}), {}, {});
    assert c.policies[p := WithFinalizer(pol)] == c.policies;
  }

  lemma SetUpIffReady(h: Hashes, dp: Option<DpData>, mig: Option<MigData>, p: string, spec: GpuSpec)
    ensures var r := SetUp(h, dp, mig, p, spec, {}).result;
      && (r == Done <==> (spec.mode == TimeSlicing || spec.mode == MIG ==> dp.Some? && !DpPanics(dp, spec))
                         && (spec.mode == MIG ==> mig.Some? && !MigPanics(mig, p, spec)))
      && (r == Panicked <==> ((spec.mode == TimeSlicing || spec.mode == MIG) && DpPanics(dp, spec))
                             || (spec.mode == MIG && dp.Some? && MigPanics(mig, p, spec)))
  {
    hide PlaceAt, OwnKey, DesiredDp, DesiredMigOf, MigPanicsAt, DpPanics, DpNeeded;
    assert DpPanics(dp, spec) ==> dp.Some? by {
      PanicNeedsMap(dp, spec);
    }
  }

  lemma PanicNeedsMap(dp: Option<DpData>, spec: GpuSpec)
    ensures DpPanics(dp, spec) ==> dp.Some?
  {
  }

  lemma ReadyKept(world: World, c: State, p: string, q: string)
    requires world.Fits() && Good(world, c) && AllReady(c)
    requires p in c.policies && !c.policies[p].deleting && q in c.policies && !c.policies[q].deleting
    ensures var o := ReconcileStep(world.hashes, c, p, {}).state; q in o.policies && Ready(o, q)
  {
    hide ReconcileStep, ConfigsOk, NoOrphan, SafeSelector, OwnKey, SetUpAt, Stops;
    assert PolicyGood(world, c, p) && PolicyGood(world, c, q);
    DoneIffReady(world.hashes, c, p);
    History.DoneStep(world.hashes, c, p);
    if q == p {
      Retry.ReconcileIdempotent(world.hashes, c, p);
      DoneIffReady(world.hashes, ReconcileStep(world.hashes, c, p, {}).state, p);
    } else {
      History.OtherStamp(world, c, p, q, {});
      ReconcileIsolated(world, c, p, q, {});
      var o := ReconcileStep(world.hashes, c, p, {}).state;
      assert Find(o.policies, q) == Find(c.policies, q);
      PanicsSame(world.hashes, c.dp, c.mig, o.dp, o.mig, q, c.policies[q].spec);
      BareNodesKept(world, c, p, c.policies[q].spec.nodeSelector);
      SetUpNotEmpty(world.hashes, c.dp, c.mig, p, c.policies[p].spec);
    }
  }

  /** A reconcile makes no label map empty. */
  lemma BareNodesKept(world: World, c: State, p: string, selector: Labels)
    requires world.Fits() && Good(world, c) && p in c.policies && !c.policies[p].deleting && Ready(c, p)
    ensures Stops(selector, ReconcileStep(world.hashes, c, p, {}).state.nodes) ==> Stops(selector, c.nodes)
  {
    hide ReconcileStep, Good, Ready, Matches, NextLabels, Owner;
    var s := VisitNodes(world, c, p);
    forall n | n in c.nodes {
      NextNotBare(c.policies[p].spec, s, c.nodes[n].labels);
    }
  }

  lemma PanicsSame(h: Hashes, dp: Option<DpData>, before: Option<MigData>, dp': Option<DpData>, after: Option<MigData>,
                   q: string, spec: GpuSpec)
    requires ConfigsOk(h, dp, before, q) && ConfigsOk(h, dp', after, q) && (before.Some? <==> after.Some?)
    requires before.Some? ==> OwnKeys(after.value, q) == OwnKeys(before.value, q)
    ensures MigPanics(after, q, spec) && !MigPanics(before, q, spec) ==> NilMap(after) && !NilMap(before)
  {
  }

  /** The configuration step of a living policy never takes the last entry away. */
  lemma SetUpNotEmpty(h: Hashes, dp: Option<DpData>, mig: Option<MigData>, p: string, spec: GpuSpec)
    ensures var s := SetUp(h, dp, mig, p, spec, {});
      && (NilMap(s.dp) ==> NilMap(dp)) && (NilMap(s.mig) ==> NilMap(mig))
  {
    hide DesiredDp, DesiredMig, OwnKey, EntryName;
    PlaceNotEmpty(dp, p, h.dp, DesiredDp(spec));
    PlaceNotEmpty(mig, p, h.mig, DesiredMigOf(spec));
  }

  lemma PlaceNotEmpty<T>(config: Option<map<string, T>>, p: string, hash: T -> string, want: T)
    ensures config.Some? && Place(config.value, p, hash, want).changed ==>
      Place(config.value, p, hash, want).entries != map[]
  {
    if config.Some? {
      var r := Place(config.value, p, hash, want);
      assert r.changed ==> r.name in r.entries;
    }
  }

  // ---------------------------------------------------------------- a reconcile is a visit

  lemma VisitNodes(world: World, c: State, p: string) returns (s: Stamp)
    requires world.Fits() && Good(world, c) && p in c.policies && !c.policies[p].deleting && Ready(c, p)
    ensures var o := ReconcileStep(world.hashes, c, p, {}).state;
      && s.managedBy == p && o.nodes.Keys == c.nodes.Keys
      && forall n :: n in c.nodes ==> o.nodes[n].labels == NextLabels(c.policies[p].spec, s, c.nodes[n].labels)
  {
    hide ReconcileStep, ConfigsOk, NoOrphan, SafeSelector, Ready, SetUpAt, Good, NextLabels, NodeWrites;
    var spec := c.policies[p].spec;
    DoneIffReady(world.hashes, c, p);
    GoodParts(world, c, p);
    History.DoneStep(world.hashes, c, p);
    SetUpStamp(world.hashes, c.dp, c.mig, p, spec, {});
    s := SetUp(world.hashes, c.dp, c.mig, p, spec, {}).stamp;
    forall n | n in c.nodes
      ensures ReconcileStep(world.hashes, c, p, {}).state.nodes[n].labels == NextLabels(spec, s, c.nodes[n].labels)
    {
      StepNodeAt(c.nodes, spec, s, {}, n);
    }
  }

  lemma VisitStep(world: World, c: State, p: string)
    requires world.Fits() && Good(world, c) && AllReady(c) && p in c.policies && !c.policies[p].deleting
    ensures var o := ReconcileStep(world.hashes, c, p, {}).state;
      && Good(world, o) && AllReady(o)
      && p in ClaimsOf(c) && ClaimsOf(o) == ClaimsOf(c)
      && OwnersOf(o) == O.Visit(OwnersOf(c), ClaimsOf(c), p)
  {
    hide ReconcileStep, ConfigsOk, NoOrphan, SafeSelector, Ready, Matches, Good, NextLabels, Owner;
    var o := ReconcileStep(world.hashes, c, p, {}).state;
    var s := VisitNodes(world, c, p);
    ReconcileGood(world, c, p, {});
    ReconcilePolicies(world.hashes, c, p, {});
    forall n | n in c.nodes
      ensures Owner(o.nodes[n].labels) == O.OwnerAfter(Owner(c.nodes[n].labels), p, n in ClaimsOf(c)[p])
    {
      OwnerNext(c.policies[p].spec, s, c.nodes[n].labels);
    }
    forall q | q in c.policies && !c.policies[q].deleting
      ensures q in o.policies && !o.policies[q].deleting && Ready(o, q) && ClaimsOf(o)[q] == ClaimsOf(c)[q]
    {
      ReadyKept(world, c, p, q);
      GoodParts(world, c, q);
      ClaimKeptPartly(c.nodes, o.nodes, c.policies[p].spec, s, c.policies[q].spec);
    }
    assert forall q :: q in ClaimsOf(o) <==> q in ClaimsOf(c);
  }

  lemma GoodParts(world: World, c: State, p: string)
    requires Good(world, c) && p in c.policies
    ensures ConfigsOk(world.hashes, c.dp, c.mig, p) && SafeSelector(c.policies[p].spec)
  {
  }

  lemma {:induction false} ScheduleVisits(world: World, c: State, schedule: seq<string>)
    requires world.Fits() && Good(world, c) && AllReady(c)
    requires forall p :: p in schedule ==> p in ClaimsOf(c)
    ensures var o := ReconcileAll(world.hashes, c, schedule);
      && Good(world, o) && AllReady(o) && ClaimsOf(o) == ClaimsOf(c)
      && OwnersOf(o) == O.VisitAll(OwnersOf(c), ClaimsOf(c), schedule)
  {
    hide ReconcileStep, Good, AllReady;
    if schedule == [] {
    } else {
      var shorter, p := schedule[..|schedule| - 1], schedule[|schedule| - 1];
      ScheduleVisits(world, c, shorter);
      var mid := ReconcileAll(world.hashes, c, shorter);
      assert p in ClaimsOf(mid);
      VisitStep(world, mid, p);
    }
  }

  /** Two rounds of undisturbed reconciles, in any order and from any owners: every live owner claims
      its node, no claimed node is unowned, and no further reconcile changes an owner. */
  lemma ClusterSettles(world: World, c: State, first: seq<string>, second: seq<string>, later: string)
    requires world.Fits() && Good(world, c) && AllReady(c)
    requires O.IsRound(ClaimsOf(c), first) && O.IsRound(ClaimsOf(c), second) && later in ClaimsOf(c)
    ensures var o := ReconcileAll(world.hashes, ReconcileAll(world.hashes, c, first), second);
      && O.Settled(OwnersOf(o), ClaimsOf(o))
      && OwnersOf(ReconcileStep(world.hashes, o, later, {}).state) == OwnersOf(o)
  {
    hide ReconcileStep, Good, AllReady, ReconcileAll;
    var mid := ReconcileAll(world.hashes, c, first);
    ScheduleVisits(world, c, first);
    ScheduleVisits(world, mid, second);
    var o := ReconcileAll(world.hashes, mid, second);
    O.TwoRoundsSettle(OwnersOf(c), ClaimsOf(c), first, second);
    O.SettledIffFixpoint(OwnersOf(o), ClaimsOf(o));
    assert later in ClaimsOf(o);
    VisitStep(world, o, later);
  }

  // ---------------------------------------------------------------- any failures, write by write

  datatype Attempt = Attempt(policy: string, faults: set<Op>)

  ghost function AttemptAll(h: Hashes, c: State, attempts: seq<Attempt>): State {
    if attempts == [] then c
    else
      var last := attempts[|attempts| - 1];
      ReconcileStep(h, AttemptAll(h, c, attempts[..|attempts| - 1]), last.policy, last.faults).state
  }

  function ChangedOwners(before: Nodes, after: Nodes): set<string> {
    set n | n in before && n in after && Owner(after[n].labels) != Owner(before[n].labels)
  }

  /** How many node owners the attempts changed, one node write each. */
  ghost function OwnerChanges(h: Hashes, c: State, attempts: seq<Attempt>): nat {
    if attempts == [] then 0
    else
      var before := AttemptAll(h, c, attempts[..|attempts| - 1]);
      OwnerChanges(h, c, attempts[..|attempts| - 1]) + |ChangedOwners(before.nodes, AttemptAll(h, c, attempts).nodes)|
  }

  /** Each node of a living policy's reconcile took its next labels or kept its own, whatever failed. */
  lemma AttemptNodes(world: World, c: State, p: string, f: set<Op>) returns (s: Stamp)
    requires world.Fits() && Good(world, c) && p in c.policies && !c.policies[p].deleting
    ensures var o, spec := ReconcileStep(world.hashes, c, p, f).state, c.policies[p].spec;
      && s.managedBy == p && o.nodes.Keys == c.nodes.Keys
      && forall n :: n in c.nodes ==>
           o.nodes[n].labels == c.nodes[n].labels || o.nodes[n].labels == NextLabels(spec, s, c.nodes[n].labels)
  {
    hide SetUpAt, FinishLive, ConfigsOk, NoOrphan, SafeSelector, Good, NextLabels, NodeWrites, LiveFaults, Deliver;
    var pol := c.policies[p];
    var c1 := c.(policies := c.policies[p := WithFinalizer(pol)]);
    var setup := SetUp(world.hashes, c.dp, c.mig, p, pol.spec, f);
    s := setup.stamp;
    SetUpStamp(world.hashes, c.dp, c.mig, p, pol.spec, f);
    FinishLiveNodes(c1, p, setup, if RELEASE_FINALIZER in pol.finalizers then {} else {PutPolicy}, f);
    DeliveredNodes(c.nodes, pol.spec, s, LiveFaults(c.nodes, pol.spec.nodeSelector, p, f));
  }

  lemma DeliveredNodes(nodes: Nodes, spec: GpuSpec, s: Stamp, g: set<Op>)
    ensures var after := Deliver(nodes, NodeWrites(spec, s, nodes), g);
      && after.Keys == nodes.Keys
      && forall n :: n in nodes ==>
           after[n].labels == nodes[n].labels || after[n].labels == NextLabels(spec, s, nodes[n].labels)
  {
    hide NodeWrites, NextLabels;
    forall n | n in nodes {
      StepNodeAt(nodes, spec, s, g, n);
    }
  }

  /** An attempt is a partial visit of the ownership machine; it leaves the claims as they are. */
  lemma AttemptStep(world: World, c: State, p: string, f: set<Op>)
    requires world.Fits() && Good(world, c) && p in c.policies && !c.policies[p].deleting
    ensures var o := ReconcileStep(world.hashes, c, p, f).state;
      var changed := ChangedOwners(c.nodes, o.nodes);
      && Good(world, o) && p in ClaimsOf(c) && ClaimsOf(o) == ClaimsOf(c)
      && OwnersOf(o).Keys == OwnersOf(c).Keys && changed <= OwnersOf(c).Keys
      && (forall n :: n in changed ==>
            OwnersOf(o)[n] == O.OwnerAfter(OwnersOf(c)[n], p, n in ClaimsOf(c)[p]) != OwnersOf(c)[n])
      && (forall n :: n in OwnersOf(c) && n !in changed ==> OwnersOf(o)[n] == OwnersOf(c)[n])
  {
    hide ReconcileStep, ConfigsOk, NoOrphan, SafeSelector, Matches, Good, NextLabels, Owner;
    var o := ReconcileStep(world.hashes, c, p, f).state;
    var s := AttemptNodes(world, c, p, f);
    ReconcileGood(world, c, p, f);
    ReconcilePolicies(world.hashes, c, p, f);
    forall n | n in c.nodes {
      OwnerNext(c.policies[p].spec, s, c.nodes[n].labels);
    }
    forall q | q in c.policies && !c.policies[q].deleting
      ensures q in o.policies && !o.policies[q].deleting && ClaimsOf(o)[q] == ClaimsOf(c)[q]
    {
      GoodParts(world, c, q);
      ClaimKeptPartly(c.nodes, o.nodes, c.policies[p].spec, s, c.policies[q].spec);
    }
    assert forall q :: q in ClaimsOf(o) <==> q in ClaimsOf(c);
  }

  lemma ClaimKeptPartly(before: Nodes, after: Nodes, actor: GpuSpec, s: Stamp, spec: GpuSpec)
    requires after.Keys == before.Keys && SafeSelector(spec)
    requires forall n :: n in before ==>
      after[n].labels == before[n].labels || after[n].labels == NextLabels(actor, s, before[n].labels)
    ensures Select(after, spec.nodeSelector).Keys == Select(before, spec.nodeSelector).Keys
  {
    hide Matches, NextLabels, SafeSelector;
    forall n | n in before
      ensures Matches(spec.nodeSelector, after[n].labels) <==> Matches(spec.nodeSelector, before[n].labels)
    {
      ClaimNext(spec, actor, s, before[n].labels);
    }
  }

  /** With specs fixed and no deletions, reconciles in any order, each cut off anywhere and for however
      long, change the owner of nodes at most twice per misplaced node and once per open one. */
  lemma {:induction false} OwnerChangesBounded(world: World, c: State, attempts: seq<Attempt>)
    requires world.Fits() && Good(world, c)
    requires forall a :: a in attempts ==> a.policy in ClaimsOf(c)
    ensures var o := AttemptAll(world.hashes, c, attempts);
      && Good(world, o) && ClaimsOf(o) == ClaimsOf(c)
      && OwnerChanges(world.hashes, c, attempts) + O.Measure(OwnersOf(o), ClaimsOf(o))
         <= O.Measure(OwnersOf(c), ClaimsOf(c))
  {
    hide ReconcileStep, Good, O.Measure, ChangedOwners;
    if attempts == [] {
    } else {
      var shorter, last := attempts[..|attempts| - 1], attempts[|attempts| - 1];
      OwnerChangesBounded(world, c, shorter);
      var mid := AttemptAll(world.hashes, c, shorter);
      assert last.policy in ClaimsOf(mid);
      AttemptStep(world, mid, last.policy, last.faults);
      var o := AttemptAll(world.hashes, c, attempts);
      O.PartialVisitPaid(OwnersOf(mid), OwnersOf(o), ClaimsOf(mid), last.policy, ChangedOwners(mid.nodes, o.nodes));
    }
  }
}

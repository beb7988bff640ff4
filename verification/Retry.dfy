/** Crash, retry and repetition of a single policy's reconcile. */
module Retry {
  import opened Options
  import opened Api
  import opened GpuControls
  import opened ConfigEntries
  import opened Cluster
  import opened GpuProtocol
  import opened StepFacts
  import opened ConfigStage
  import NodePasses

  ghost predicate SameLabels(a: Nodes, b: Nodes) {
    a.Keys == b.Keys && forall n :: n in a ==> a[n].labels == b[n].labels
  }

  ghost predicate SamePolicies(a: map<string, Policy>, b: map<string, Policy>) {
    a.Keys == b.Keys && forall p :: p in a ==> a[p].(status := None) == b[p].(status := None)
  }

  /** Equal in everything but the sync flags of the status and the version counters. */
  ghost predicate SameCluster(a: State, b: State) {
    SameLabels(a.nodes, b.nodes) && SamePolicies(a.policies, b.policies) && a.dp == b.dp && a.mig == b.mig
  }

  ghost predicate PolicyOk(h: Hashes, c: State, p: string) {
    ConfigsOk(h, c.dp, c.mig, p) && (p in c.policies ==> SafeSelector(c.policies[p].spec))
  }

  // ---------------------------------------------------------------- the living branch

  lemma FinishLiveFacts(c: State, p: string, s: Setup, w: set<Op>, f: set<Op>)
    requires p in c.policies
    ensures var o := FinishLive(c, p, s, w, f);
      && o.state.nodes == Deliver(c.nodes, NodeWrites(c.policies[p].spec, s.stamp, c.nodes),
                                  LiveFaults(c.nodes, c.policies[p].spec.nodeSelector, p, f))
      && o.state.dp == s.dp && o.state.mig == s.mig
      && p in o.state.policies
      && o.state.policies == c.policies[p := c.policies[p].(status := o.state.policies[p].status)]
      && (if Stops(c.policies[p].spec.nodeSelector, c.nodes) then o.result == Panicked
          else o.result == Done || o.result == Failed)
  {
    hide NewStatus, NodeWrites, Deliver, Accepted, Select, WriteOps;
  }

  lemma CleanIsDone(c: State, p: string, s: Setup, w: set<Op>)
    requires p in c.policies
    ensures FinishLive(c, p, s, w, {}).result
         == if Stops(c.policies[p].spec.nodeSelector, c.nodes) then Panicked else Done
  {
    hide NewStatus, NextLabels, WriteOps, NodeWrite, Stops;
    var writes := NodeWrites(c.policies[p].spec, s.stamp, c.nodes);
    forall n | n in writes ensures n in Accepted(c.nodes, writes, {}) {
      StepNodeAt(c.nodes, c.policies[p].spec, s.stamp, {}, n);
    }
  }

  /** Node writes cut off anywhere and issued again on the outcome give the labels of one clean pass. */
  lemma NodesAgain(nodes: Nodes, spec: GpuSpec, s: Stamp, f: set<Op>)
    requires SafeSelector(spec)
    ensures var p, sel := s.managedBy, spec.nodeSelector;
      var cut := Deliver(nodes, NodeWrites(spec, s, nodes), LiveFaults(nodes, sel, p, f));
      SameLabels(Deliver(cut, NodeWrites(spec, s, cut), LiveFaults(cut, sel, p, {})),
                 Deliver(nodes, NodeWrites(spec, s, nodes), LiveFaults(nodes, sel, p, {})))
  {
    hide NextLabels, NodeWrites, Stops, Matches;
    var p, sel := s.managedBy, spec.nodeSelector;
    var cut := Deliver(nodes, NodeWrites(spec, s, nodes), LiveFaults(nodes, sel, p, f));
    BareKept(nodes, spec, s, f);
    forall n | n in nodes
      ensures Deliver(cut, NodeWrites(spec, s, cut), LiveFaults(cut, sel, p, {}))[n].labels
           == Deliver(nodes, NodeWrites(spec, s, nodes), LiveFaults(nodes, sel, p, {}))[n].labels
    {
      StepNodeAt(nodes, spec, s, LiveFaults(nodes, sel, p, f), n);
      StepNodeAt(nodes, spec, s, LiveFaults(nodes, sel, p, {}), n);
      StepNodeAt(cut, spec, s, LiveFaults(cut, sel, p, {}), n);
      NextIdempotent(spec, s, nodes[n].labels);
      NextNotBare(spec, s, nodes[n].labels);
      OwnerNext(spec, s, nodes[n].labels);
    }
  }

  lemma RegisteredRetry(h: Hashes, c: State, p: string, f: set<Op>)
    requires p in c.policies && !c.policies[p].deleting && RELEASE_FINALIZER in c.policies[p].finalizers
    requires PolicyOk(h, c, p)
    ensures var clean := ReconcileLive(h, c, p, {});
      var cut := ReconcileLive(h, c, p, f).state;
      && p in cut.policies && cut.policies[p].(status := None) == c.policies[p].(status := None)
      && var again := ReconcileLive(h, cut, p, {});
         SameCluster(again.state, clean.state) && again.result == clean.result
  {
    hide ReconcileLiveAt, SetUpAt, FinishLive, NodeWrites, Deliver, SameLabels;
    hide ConfigOk, SafeSelector, Stops, LiveFaults, Matches;
    var pol := c.policies[p];
    assert c.policies[p := pol] == c.policies;
    SetUpAgain(h, c.dp, c.mig, p, pol.spec, f);
    var s0, sf := SetUp(h, c.dp, c.mig, p, pol.spec, {}), SetUp(h, c.dp, c.mig, p, pol.spec, f);
    var cut := ReconcileLive(h, c, p, f).state;
    RegisteredIs(h, c, p, FoundIn(c.dp, c.mig, p), f);
    RegisteredIs(h, c, p, FoundIn(c.dp, c.mig, p), {});
    FinishLiveFacts(c, p, sf, {}, f);
    FinishLiveFacts(c, p, s0, {}, {});
    CleanIsDone(c, p, s0, {});
    assert cut.policies[p := cut.policies[p]] == cut.policies;
    RegisteredIs(h, cut, p, FoundIn(cut.dp, cut.mig, p), {});
    var sa := SetUp(h, cut.dp, cut.mig, p, pol.spec, {});
    FinishLiveFacts(cut, p, sa, {}, {});
    CleanIsDone(cut, p, sa, {});
    NodesAgain(c.nodes, pol.spec, s0.stamp, f);
    BareKept(c.nodes, pol.spec, s0.stamp, f);
    SetUpFacts(h, c.dp, c.mig, p, pol.spec, {});
    SameLabelsRefl(c.nodes);
    SameLabelsRefl(Deliver(c.nodes, NodeWrites(pol.spec, s0.stamp, c.nodes),
        LiveFaults(c.nodes, pol.spec.nodeSelector, p, {})));
  }

  lemma SameLabelsRefl(nodes: Nodes)
    ensures SameLabels(nodes, nodes)
  {
  }

  lemma LiveRetry(h: Hashes, c: State, p: string, f: set<Op>)
    requires p in c.policies && !c.policies[p].deleting && PolicyOk(h, c, p)
    ensures var clean := ReconcileLive(h, c, p, {});
      var cut := ReconcileLive(h, c, p, f).state;
      && p in cut.policies && !cut.policies[p].deleting
      && var again := ReconcileLive(h, cut, p, {});
         SameCluster(again.state, clean.state) && again.result == clean.result
  {
    hide ReconcileLiveAt, SameCluster, ConfigsOk, SafeSelector;
    var pol := c.policies[p];
    var c1 := c.(policies := c.policies[p := WithFinalizer(pol)]);
    if RELEASE_FINALIZER in pol.finalizers {
      RegisteredRetry(h, c, p, f);
    } else {
      FinalizerFirst(h, c, p, f);
      FinalizerFirst(h, c, p, {});
      RegisteredRetry(h, c1, p, f);
      SameClusterRefl(ReconcileLive(h, c, p, {}).state);
    }
  }

  lemma SameClusterRefl(c: State)
    ensures SameCluster(c, c)
  {
  }

  // ---------------------------------------------------------------- the deleting branch

  lemma RevertTwice(labels: Labels)
    ensures EditLabels(Revert, EditLabels(Revert, labels)) == EditLabels(Revert, labels)
    ensures Owner(EditLabels(Revert, labels)) == Owner(labels)
    ensures MigDrained(EditLabels(Revert, labels)) <==> MigDrained(labels)
  {
  }

  lemma ReleaseUnowns(labels: Labels)
    ensures Owner(EditLabels(Release, labels)) == None
    ensures EditLabels(Release, labels) != labels || Owner(labels) == None
  {
  }

  /** Reverting, cut off anywhere and repeated, reverts the same nodes and drains none by itself. */
  lemma RevertAgain(nodes: Nodes, p: string, f: set<Op>)
    ensures var mine := Select(nodes, map[GpuManagedBy := p]);
      var cut := Deliver(nodes, Writes(Revert, mine), f);
      var mine' := Select(cut, map[GpuManagedBy := p]);
      && SameLabels(Deliver(cut, Writes(Revert, mine'), {}), Deliver(nodes, Writes(Revert, mine), {}))
      && (forall n :: n in mine && !MigDrained(mine[n].labels) ==> n in mine' && !MigDrained(mine'[n].labels))
  {
    hide EditLabels, MigDrained, Owner, Writes, Select;
    var mine := Select(nodes, map[GpuManagedBy := p]);
    var cut := Deliver(nodes, Writes(Revert, mine), f);
    var mine' := Select(cut, map[GpuManagedBy := p]);
    forall n | n in nodes
      ensures Deliver(cut, Writes(Revert, mine'), {})[n].labels == Deliver(nodes, Writes(Revert, mine), {})[n].labels
      ensures n in mine && !MigDrained(mine[n].labels) ==> n in mine' && !MigDrained(mine'[n].labels)
    {
      PassNodeAt(nodes, Revert, p, f, n);
      PassNodeAt(nodes, Revert, p, {}, n);
      PassNodeAt(cut, Revert, p, {}, n);
      RevertTwice(nodes[n].labels);
      NodePasses.MineIs(nodes, p, n);
      NodePasses.MineIs(cut, p, n);
    }
    forall n | n in mine ensures n in nodes {
      NodePasses.MineIs(nodes, p, n);
    }
  }

  /** Releasing, likewise; what it has not reached yet is as it was. */
  lemma ReleaseAgain(nodes: Nodes, p: string, f: set<Op>)
    ensures var mine := Select(nodes, map[GpuManagedBy := p]);
      var writes := Writes(Release, mine);
      var cut := Deliver(nodes, writes, f);
      var mine' := Select(cut, map[GpuManagedBy := p]);
      && SameLabels(Deliver(cut, Writes(Release, mine'), {}), Deliver(nodes, writes, {}))
      && (forall n :: n in mine' ==> n in mine && mine'[n].labels == mine[n].labels)
      && (Accepted(nodes, writes, f) == writes.Keys ==> mine' == map[] && SameLabels(cut, Deliver(nodes, writes, {})))
      && Accepted(nodes, writes, {}) == writes.Keys
  {
    hide EditLabels, Owner, Writes, Select, Accepted;
    var mine := Select(nodes, map[GpuManagedBy := p]);
    var writes := Writes(Release, mine);
    var cut := Deliver(nodes, writes, f);
    var mine' := Select(cut, map[GpuManagedBy := p]);
    forall n | n in nodes
      ensures Deliver(cut, Writes(Release, mine'), {})[n].labels == Deliver(nodes, writes, {})[n].labels
      ensures n in mine' ==> n in mine && mine'[n].labels == mine[n].labels
      ensures Accepted(nodes, writes, f) == writes.Keys ==>
        n !in mine' && cut[n].labels == Deliver(nodes, writes, {})[n].labels
      ensures n in writes <==> n in Accepted(nodes, writes, {})
    {
      PassNodeAt(nodes, Release, p, f, n);
      PassNodeAt(nodes, Release, p, {}, n);
      PassNodeAt(cut, Release, p, {}, n);
      ReleaseUnowns(nodes[n].labels);
      NodePasses.MineIs(nodes, p, n);
      NodePasses.MineIs(cut, p, n);
    }
    forall n | n !in nodes ensures n !in mine' && n !in writes && n !in Accepted(nodes, writes, {}) {
      NodePasses.MineIs(cut, p, n);
      OutsideNodes(nodes, Release, p, n);
    }
    if Accepted(nodes, writes, f) == writes.Keys {
      assert forall n :: n !in mine';
    }
  }

  lemma OutsideNodes(nodes: Nodes, e: Edit, p: string, n: string)
    requires n !in nodes
    ensures n !in Writes(e, Select(nodes, map[GpuManagedBy := p]))
    ensures n !in Accepted(nodes, Writes(e, Select(nodes, map[GpuManagedBy := p])), {})
  {
  }

  lemma FinishDeletedAgain(c: State, p: string, h: Hashes, w: set<Op>, w': set<Op>, f: set<Op>)
    requires p in c.policies && ConfigsOk(h, c.dp, c.mig, p)
    ensures var clean, cut := FinishDeleted(c, p, w, {}), FinishDeleted(c, p, w, f);
      && clean.result == Done && clean.state.nodes == c.nodes && cut.state.nodes == c.nodes
      && clean.state.policies == StorePolicy(c.policies, p,
          c.policies[p].(finalizers := WithoutFinalizer(c.policies[p].finalizers)))
      && if cut.result == Done then cut.state == clean.state
         else cut.state.policies == c.policies
              && FinishDeleted(cut.state, p, w', {}).state == clean.state
                  && FinishDeleted(cut.state, p, w', {}).result == Done
  {
    hide RemoveAt, ConfigOk, StorePolicy, WithoutFinalizer;
    RemoveAgain(c.dp, p, h.dp, GetDp, PatchDp, f);
    RemoveAgain(c.dp, p, h.dp, GetDp, PatchDp, {});
    RemoveAgain(c.mig, p, h.mig, GetMig, PatchMig, f);
    RemoveAgain(c.mig, p, h.mig, GetMig, PatchMig, {});
  }

  /** The last stage only hands the nodes on. */
  lemma FinishDeletedNodes(c: State, nodes: Nodes, p: string, w: set<Op>, w': set<Op>, f: set<Op>)
    requires p in c.policies
    ensures var o, o' := FinishDeleted(c, p, w, f), FinishDeleted(c.(nodes := nodes), p, w', f);
      o'.state == o.state.(nodes := nodes) && o'.result == o.result
  {
  }

  lemma SameButNodes(a: State, b: State)
    requires SameLabels(a.nodes, b.nodes) && a.(nodes := b.nodes) == b
    ensures SameCluster(a, b)
  {
  }

  /** Nothing is left to drain, so the deletion releases and finishes. */
  lemma DeletedProceeds(h: Hashes, c: State, p: string)
    requires p in c.policies && c.policies[p].deleting && RELEASE_FINALIZER in c.policies[p].finalizers
    requires c.policies[p].spec.mode == MIG ==> forall n :: n in Mine(c, p) ==> MigDrained(Mine(c, p)[n].labels)
    ensures var writes := Writes(Release, Mine(c, p));
      ReconcileStep(h, c, p, {})
      == FinishDeleted(c.(nodes := Deliver(c.nodes, writes, {})), p, WriteOps(writes.Keys), {})
  {
    hide FinishDeletedAt, Writes, Select, Deliver, Accepted, SameLabels, MigDrained, WriteOps;
    ReleaseAgain(c.nodes, p, {});
  }

  lemma DeletedRetry(h: Hashes, c: State, p: string, f: set<Op>)
    requires p in c.policies && c.policies[p].deleting && RELEASE_FINALIZER in c.policies[p].finalizers
    requires ConfigsOk(h, c.dp, c.mig, p)
    ensures var clean := ReconcileDeleted(h, c, p, {});
      var again := ReconcileStep(h, ReconcileDeleted(h, c, p, f).state, p, {});
      SameCluster(again.state, clean.state) && again.result == clean.result
  {
    hide FinishDeletedAt, ConfigOk, Writes, Select, Deliver, Accepted, SameLabels, SamePolicies, MigDrained, WriteOps;
    var mine := Mine(c, p);
    SameClusterRefl(ReconcileDeleted(h, c, p, {}).state);
    if ListNodes in f {
    } else if c.policies[p].spec.mode == MIG && exists n :: n in mine && !MigDrained(mine[n].labels) {
      RevertAgain(c.nodes, p, f);
      var n :| n in mine && !MigDrained(mine[n].labels);
      var cut := ReconcileDeleted(h, c, p, f).state;
      assert n in Mine(cut, p) && !MigDrained(Mine(cut, p)[n].labels);
      SameButNodes(ReconcileStep(h, cut, p, {}).state, ReconcileDeleted(h, c, p, {}).state);
    } else {
      ReleasedRetry(h, c, p, f);
    }
  }

  lemma ReleasedRetry(h: Hashes, c: State, p: string, f: set<Op>)
    requires p in c.policies && c.policies[p].deleting && RELEASE_FINALIZER in c.policies[p].finalizers
    requires ConfigsOk(h, c.dp, c.mig, p) && ListNodes !in f
    requires c.policies[p].spec.mode == MIG ==> forall n :: n in Mine(c, p) ==> MigDrained(Mine(c, p)[n].labels)
    ensures var clean := ReconcileStep(h, c, p, {});
      var again := ReconcileStep(h, ReconcileDeleted(h, c, p, f).state, p, {});
      SameCluster(again.state, clean.state) && again.result == clean.result
  {
    hide FinishDeletedAt, ConfigOk, Writes, Select, Deliver, Accepted, SameLabels, SameCluster, MigDrained, WriteOps;
    var writes := Writes(Release, Mine(c, p));
    var w := WriteOps(writes.Keys);
    var c0, cf := c.(nodes := Deliver(c.nodes, writes, {})), c.(nodes := Deliver(c.nodes, writes, f));
    var clean, cut := ReconcileStep(h, c, p, {}), ReconcileDeleted(h, c, p, f).state;
    ReleaseAgain(c.nodes, p, f);
    DeletedProceeds(h, c, p);
    assert clean == FinishDeleted(c0, p, w, {});
    if Accepted(c.nodes, writes, f) != writes.Keys {
      assert cut == cf;
      DeletedProceeds(h, cf, p);
      var nodes := Deliver(cf.nodes, Writes(Release, Mine(cf, p)), {});
      FinishDeletedAgain(c0, p, h, w, {}, {});
      FinishDeletedNodes(c0, nodes, p, w, WriteOps(Writes(Release, Mine(cf, p)).Keys), {});
      SameButNodes(ReconcileStep(h, cut, p, {}).state, clean.state);
    } else {
      assert cut == FinishDeleted(cf, p, w, f).state;
      FinishedRetry(h, c0, cf, p, w, f);
    }
  }

  lemma NothingSent(nodes: Nodes, e: Edit)
    ensures Writes(e, map[]) == map[] && Deliver(nodes, map[], {}) == nodes && Accepted(nodes, map[], {}) == {}
  {
  }

  lemma FinishedRetry(h: Hashes, c0: State, cf: State, p: string, w: set<Op>, f: set<Op>)
    requires p in c0.policies && c0.policies[p].deleting && RELEASE_FINALIZER in c0.policies[p].finalizers
    requires ConfigsOk(h, c0.dp, c0.mig, p)
    requires cf.(nodes := c0.nodes) == c0 && SameLabels(cf.nodes, c0.nodes) && Mine(cf, p) == map[]
    ensures var clean := FinishDeleted(c0, p, w, {});
      var again := ReconcileStep(h, FinishDeleted(cf, p, w, f).state, p, {});
      SameCluster(again.state, clean.state) && again.result == clean.result
  {
    hide FinishDeletedAt, ConfigOk, Select, Accepted, SameLabels, SameCluster, MigDrained, WithoutFinalizer;
    var clean, cut := FinishDeleted(c0, p, w, {}), FinishDeleted(cf, p, w, f).state;
    var last := c0.policies[p].(finalizers := WithoutFinalizer(c0.policies[p].finalizers));
    FinishDeletedAgain(c0, p, h, w, {}, {});
    FinishDeletedAgain(cf, p, h, w, {}, f);
    FinishDeletedNodes(c0, cf.nodes, p, w, w, {});
    WithoutFinalizerRemoves(c0.policies[p].finalizers, RELEASE_FINALIZER);
    assert clean.state.(nodes := cf.nodes) == FinishDeleted(cf, p, w, {}).state;
    if FinishDeleted(cf, p, w, f).result == Done {
      assert ReconcileStep(h, cut, p, {}) == Outcome(cut, Done, {});
      SameButNodes(cut, clean.state);
    } else {
      DeletedProceeds(h, cut, p);
      NothingSent(cut.nodes, Release);
      assert Mine(cut, p) == map[];
      FinishDeletedNodes(cut, cut.nodes, p, {}, WriteOps(Writes(Release, Mine(cut, p)).Keys), {});
      SameButNodes(ReconcileStep(h, cut, p, {}).state, clean.state);
    }
  }

  // ---------------------------------------------------------------- the theorems

  /** Crash and retry: cut off after any of its writes, or with any of its calls failing, a reconcile
      that is run again on fresh reads reaches the labels, configurations and policies, and reports
      the result, of one that was never disturbed. */
  lemma RetryConverges(h: Hashes, c: State, p: string, f: set<Op>)
    requires PolicyOk(h, c, p)
    ensures var clean := ReconcileStep(h, c, p, {});
      var again := ReconcileStep(h, ReconcileStep(h, c, p, f).state, p, {});
      SameCluster(again.state, clean.state) && again.result == clean.result
  {
    hide ReconcileLiveAt, ReconcileDeletedAt, SameCluster, ConfigsOk, SafeSelector;
    SameClusterRefl(ReconcileStep(h, c, p, {}).state);
    if GetPolicy in f || p !in c.policies {
    } else if !c.policies[p].deleting {
      LiveRetry(h, c, p, f);
    } else if RELEASE_FINALIZER in c.policies[p].finalizers {
      DeletedRetry(h, c, p, f);
    }
  }

  // ---------------------------------------------------------------- repetition

  lemma SettledNodes(nodes: Nodes, spec: GpuSpec, s: Stamp)
    requires SafeSelector(spec)
    ensures var next := Deliver(nodes, NodeWrites(spec, s, nodes), {}); NodeWrites(spec, s, next) == map[]
    ensures var next := Deliver(nodes, NodeWrites(spec, s, nodes), {});
      Select(next, spec.nodeSelector).Keys == Select(nodes, spec.nodeSelector).Keys
  {
    hide NextLabels, Matches, NodeWrites;
    var next := Deliver(nodes, NodeWrites(spec, s, nodes), {});
    forall n | n in nodes
      ensures n !in NodeWrites(spec, s, next)
      ensures Matches(spec.nodeSelector, next[n].labels) <==> Matches(spec.nodeSelector, nodes[n].labels)
    {
      StepNodeAt(nodes, spec, s, {}, n);
      StepNodeAt(next, spec, s, {}, n);
      NextIdempotent(spec, s, nodes[n].labels);
      ClaimNext(spec, spec, s, nodes[n].labels);
    }
    forall n | n !in nodes ensures n !in NodeWrites(spec, s, next) {
      assert next.Keys == nodes.Keys;
      NotWritten(spec, s, next, n);
    }
    assert forall n :: n !in NodeWrites(spec, s, next);
  }

  lemma NotWritten(spec: GpuSpec, s: Stamp, nodes: Nodes, n: string)
    requires n !in nodes
    ensures n !in NodeWrites(spec, s, nodes)
  {
  }

  /** Touching what was touched, without new flags, leaves the status alone. */
  lemma TouchSettled(status: map<string, NodeStatus>, mode: DeviceMode, claimed: set<string>, written: set<string>,
                     d: Option<bool>, m: Option<bool>)
    requires written <= claimed
    ensures var after := Touch(Touch(status, mode, claimed, d, m), mode, written, Some(false), Some(false));
      Touch(Touch(after, mode, claimed, None, None), mode, {}, Some(false), Some(false)) == after
  {
  }

  /** After a successful reconcile of a living policy a second one finds nothing to do: the whole
      cluster stays as it is, down to the versions and the status, and no write is issued. */
  lemma ReconcileIdempotent(h: Hashes, c: State, p: string)
    requires PolicyOk(h, c, p) && p in c.policies && !c.policies[p].deleting
    requires ReconcileStep(h, c, p, {}).result == Done
    ensures var once := ReconcileStep(h, c, p, {}).state;
      ReconcileStep(h, once, p, {}) == Outcome(once, Done, {})
  {
    hide SetUpAt, FinishLive, ConfigsOk, SafeSelector;
    var pol := WithFinalizer(c.policies[p]);
    var c1 := c.(policies := c.policies[p := pol]);
    if RELEASE_FINALIZER in c.policies[p].finalizers {
      assert c1 == c;
    } else {
      FinalizerFirst(h, c, p, {});
    }
    var s := SetUp(h, c.dp, c.mig, p, pol.spec, {});
    SetUpAgain(h, c.dp, c.mig, p, pol.spec, {});
    FinishLiveFrom(c1, p, s, {}, {});
    FinishLiveFrom(c1, p, s, {PutPolicy}, {});
    FinishLiveFacts(c1, p, s, {}, {});
    SetUpFacts(h, c.dp, c.mig, p, pol.spec, {});
    var once := ReconcileStep(h, c, p, {}).state;
    assert once == FinishLive(c1, p, s, {}, {}).state;
    FinishTwice(c1, p, s);
    assert once.policies[p := once.policies[p]] == once.policies;
  }

  lemma FinishTwice(c: State, p: string, s: Setup)
    requires p in c.policies && SafeSelector(c.policies[p].spec) && s.stamp.managedBy == p
    requires !Stops(c.policies[p].spec.nodeSelector, c.nodes)
    ensures var once := FinishLive(c, p, s, {}, {}).state;
      && p in once.policies && once.dp == s.dp && once.mig == s.mig
      && FinishLive(once, p, Setup(s.dp, s.mig, s.stamp, false, false, Done, {}), {}, {}) == Outcome(once, Done, {})
  {
    hide NodeWrites, Deliver, Accepted, Select, Touch, SafeSelector, WriteOps, Stops, NotReached, Matches;
    var spec := c.policies[p].spec;
    SettledNodes(c.nodes, spec, s.stamp);
    BareKept(c.nodes, spec, s.stamp, {});
    var once := FinishLive(c, p, s, {}, {}).state;
    NothingSent(once.nodes, Release);
    var claimed := Select(c.nodes, spec.nodeSelector).Keys;
    var accepted := Accepted(c.nodes, NodeWrites(spec, s.stamp, c.nodes), {});
    TouchSettled(OrEmpty(c.policies[p].status), spec.mode, claimed, accepted * claimed, Flag(s.dpUpdated),
        Flag(s.migUpdated));
    NoOps();
    var none: map<string, Write> := map[];
    assert none.Keys == {} && {} * claimed == {};
  }

  lemma NoOps()
    ensures WriteOps({}) == {}
  {
  }
}

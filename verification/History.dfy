/** Runs whose reconciles meet no error: the labels on an owned node are a function of its owner and
    of the current entries, whatever happened to the node before, and they name entries that exist
    and hold what the owner asks for. */
module History {
  import opened Options
  import opened Api
  import opened GpuControls
  import opened ConfigEntries
  import opened Cluster
  import opened GpuProtocol
  import opened StepFacts
  import opened ConfigStage
  import opened StepSafety
  import opened Runs
  import Retry
  import NodePasses

  /** What the policy stamps, read off its mode and its entries. */
  ghost function StampNow(c: State, p: string): Stamp
    requires p in c.policies
  {
    var mode := c.policies[p].spec.mode;
    Stamp(WorkloadOf(mode), p,
          if mode == TimeSlicing || mode == MIG then KeyIn(c.dp, p) else InitialDpName(mode),
          if mode == MIG then KeyIn(c.mig, p) else ALL_DISABLED)
  }

  const STAMP_KEYS: set<LabelKey> := {Operands, WorkloadConfig, GpuManagedBy, DevicePluginConfig, MigConfig}

  /** The stamped labels are those of a blank node that was stamped once. */
  ghost predicate AsBlank(s: Stamp, labels: Labels) {
    forall k :: k in STAMP_KEYS ==> Find(labels, k) == Find(Updated(s, map[]), k)
  }

  ghost predicate NodeFresh(c: State, labels: Labels) {
    match Owner(labels)
    case None => DevicePluginConfig !in labels && MigConfig !in labels
    case Some(p) => p in c.policies && !c.policies[p].deleting ==> AsBlank(StampNow(c, p), labels)
  }

  ghost predicate Fresh(c: State) {
    forall n :: n in c.nodes ==> NodeFresh(c, c.nodes[n].labels)
  }

  ghost predicate CleanAction(world: World, c: State, a: Action) {
    a.Reconcile? ==>
      a.faults == {} && (var r := ReconcileStep(world.hashes, c, a.policy, {}).result; r == Done || r == Waiting)
  }

  ghost predicate CleanRun(world: World, c: State, acts: seq<Action>) {
    acts == [] || (CleanRun(world, c, acts[..|acts| - 1])
                   && CleanAction(world, Run(world, c, acts[..|acts| - 1]), acts[|acts| - 1]))
  }

  // ---------------------------------------------------------------- one node

  /** An update leaves no trace of what was there, given that a name it does not set is not there. */
  lemma UpdateAsBlank(s: Stamp, labels: Labels)
    requires s.dpName == "" ==> DevicePluginConfig !in labels
    requires s.migName == "" ==> MigConfig !in labels
    ensures AsBlank(s, Updated(s, labels))
  {
    hide Updated;
    forall k | k in STAMP_KEYS ensures Find(Updated(s, labels), k) == Find(Updated(s, map[]), k) {
      UpdatedAt(s, labels, k);
      UpdatedAt(s, map[], k);
    }
  }

  lemma AsBlankNames(s: Stamp, labels: Labels)
    requires AsBlank(s, labels)
    ensures Find(labels, DevicePluginConfig) == if s.dpName != "" then Some(s.dpName) else None
    ensures Find(labels, MigConfig) == if s.migName != "" then Some(s.migName) else None
  {
    hide Updated;
    UpdatedAt(s, map[], DevicePluginConfig);
    UpdatedAt(s, map[], MigConfig);
    assert DevicePluginConfig in STAMP_KEYS && MigConfig in STAMP_KEYS;
  }

  /** The node of the reconciled policy, before `s0` and after `s1` its names were set up. */
  lemma NextAsBlank(spec: GpuSpec, s0: Stamp, s1: Stamp, labels: Labels)
    requires s0.managedBy == s1.managedBy
    requires s1.dpName == "" ==> s0.dpName == ""
    requires s1.migName == "" ==> s0.migName == ""
    requires Owner(labels).None? ==> DevicePluginConfig !in labels && MigConfig !in labels
    requires Owner(labels) == Some(s1.managedBy) ==> AsBlank(s0, labels)
    ensures var next := NextLabels(spec, s1, labels);
      && (Owner(next) == Some(s1.managedBy) ==> AsBlank(s1, next))
      && (Owner(next).None? ==> DevicePluginConfig !in next && MigConfig !in next)
      && (Owner(next).Some? && Owner(next) != Some(s1.managedBy) ==> next == labels)
  {
    hide Matches, Updated, AsBlank;
    OwnerNext(spec, s1, labels);
    if Owner(labels) == Some(s1.managedBy) {
      AsBlankNames(s0, labels);
      UpdateAsBlank(s1, labels);
    } else if Owner(labels).None? {
      UpdateAsBlank(s1, labels);
    }
  }

  // ---------------------------------------------------------------- one step

  lemma NameFromKeys<T>(before: Option<map<string, T>>, after: Option<map<string, T>>, q: string)
    requires before.Some? <==> after.Some?
    requires before.Some? ==> OwnKeys(after.value, q) == OwnKeys(before.value, q)
    ensures KeyIn(after, q) == KeyIn(before, q)
  {
  }

  /** What a successful reconcile of a living policy does, in the terms used here. */
  lemma DoneStep(h: Hashes, c: State, p: string)
    requires p in c.policies && !c.policies[p].deleting && ConfigsOk(h, c.dp, c.mig, p)
    requires ReconcileStep(h, c, p, {}).result == Done
    ensures var o := ReconcileStep(h, c, p, {}).state;
      var spec := c.policies[p].spec;
      var s := SetUp(h, c.dp, c.mig, p, spec, {});
      && s.result == Done && o.dp == s.dp && o.mig == s.mig
      && p in o.policies && o.policies[p].spec == spec && !o.policies[p].deleting
      && o.nodes == Deliver(c.nodes, NodeWrites(spec, s.stamp, c.nodes), {})
  {
    hide SetUpAt, FinishLive;
    var pol := c.policies[p];
    var c1 := c.(policies := c.policies[p := WithFinalizer(pol)]);
    var s := SetUp(h, c.dp, c.mig, p, pol.spec, {});
    Retry.FinishLiveFacts(c1, p, s, if RELEASE_FINALIZER in pol.finalizers then {} else {PutPolicy}, {});
  }

  /** The stamp the reconcile used is the one its outcome shows, and it sets at least what was set. */
  lemma StampAfter(h: Hashes, c: State, p: string)
    requires p in c.policies && !c.policies[p].deleting && ConfigsOk(h, c.dp, c.mig, p)
    requires ReconcileStep(h, c, p, {}).result == Done
    ensures var o := ReconcileStep(h, c, p, {}).state;
      && p in o.policies
      && StampNow(o, p) == SetUp(h, c.dp, c.mig, p, c.policies[p].spec, {}).stamp
      && (StampNow(o, p).dpName == "" ==> StampNow(c, p).dpName == "")
      && (StampNow(o, p).migName == "" ==> StampNow(c, p).migName == "")
  {
    hide SetUpAt, ReconcileStep, EntryOk, OwnKeys;
    DoneStep(h, c, p);
    SetUpNames(h, c.dp, c.mig, p, c.policies[p].spec, {});
    SetUpFacts(h, c.dp, c.mig, p, c.policies[p].spec, {});
  }

  /** An action that leaves q and its entries alone leaves its stamp alone. */
  lemma OtherStamp(world: World, c: State, p: string, q: string, f: set<Op>)
    requires world.Fits() && Good(world, c) && p in world.names && q in c.policies && p != q
    ensures var o := ReconcileStep(world.hashes, c, p, f).state;
      q in o.policies && o.policies[q] == c.policies[q] && StampNow(o, q) == StampNow(c, q)
  {
    hide ReconcileStep, ConfigsOk, NoOrphan, SafeSelector;
    assert PolicyGood(world, c, p) && PolicyGood(world, c, q);
    ReconcileIsolated(world, c, p, q, f);
    var o := ReconcileStep(world.hashes, c, p, f).state;
    assert Find(o.policies, q) == Find(c.policies, q);
    NameFromKeys(c.dp, o.dp, q);
    NameFromKeys(c.mig, o.mig, q);
  }

  lemma LiveFresh(world: World, c: State, p: string)
    requires world.Fits() && Good(world, c) && Fresh(c)
    requires p in c.policies && !c.policies[p].deleting && ReconcileStep(world.hashes, c, p, {}).result == Done
    ensures Fresh(ReconcileStep(world.hashes, c, p, {}).state)
  {
    hide ReconcileStep, SetUpAt, ConfigsOk, NoOrphan, SafeSelector, AsBlank, NextLabels, StampNow;
    var o := ReconcileStep(world.hashes, c, p, {}).state;
    var spec := c.policies[p].spec;
    assert PolicyGood(world, c, p);
    DoneStep(world.hashes, c, p);
    StampAfter(world.hashes, c, p);
    StampNowOwner(c, p);
    StampNowOwner(o, p);
    forall n | n in o.nodes ensures NodeFresh(o, o.nodes[n].labels) {
      var labels := c.nodes[n].labels;
      assert NodeFresh(c, labels);
      StepNodeAt(c.nodes, spec, StampNow(o, p), {}, n);
      NextAsBlank(spec, StampNow(c, p), StampNow(o, p), labels);
      assert o.nodes[n].labels == NextLabels(spec, StampNow(o, p), labels);
      if Owner(labels).Some? && Owner(labels) != Some(p) && Owner(labels).value in c.policies {
        OtherStamp(world, c, p, Owner(labels).value, {});
      }
      ReconcilePolicies(world.hashes, c, p, {});
    }
  }

  lemma StampNowOwner(c: State, p: string)
    requires p in c.policies
    ensures StampNow(c, p).managedBy == p
  {
  }

  lemma DeletedNodes(h: Hashes, c: State, p: string, f: set<Op>)
    requires p in c.policies
    ensures var o := ReconcileDeleted(h, c, p, f).state;
      || o.nodes == c.nodes
      || o.nodes == Deliver(c.nodes, Writes(Revert, Mine(c, p)), f)
      || o.nodes == Deliver(c.nodes, Writes(Release, Mine(c, p)), f)
  {
    hide FinishDeletedAt, Writes, Deliver, Select, MigDrained, Accepted, WriteOps;
    var writes := Writes(Release, Mine(c, p));
    FinishDeletedKeepsNodes(c.(nodes := Deliver(c.nodes, writes, f)), p, WriteOps(writes.Keys), f);
  }

  /** Whoever p still owns after its deletion pass it owned before, and what it let go is bare. */
  lemma DeletedFresh(world: World, c: State, p: string)
    requires world.Fits() && Good(world, c) && Fresh(c)
    requires p in c.policies && c.policies[p].deleting
    ensures Fresh(ReconcileStep(world.hashes, c, p, {}).state)
  {
    hide ReconcileLiveAt, ReconcileDeletedAt, Writes, Deliver, Accepted, Select;
    hide ConfigsOk, NoOrphan, SafeSelector, AsBlank, StampNow, EditLabels;
    var o := ReconcileStep(world.hashes, c, p, {}).state;
    ReconcileNodesFrame(world.hashes, c, p, {});
    ReconcilePolicies(world.hashes, c, p, {});
    DeletedNodes(world.hashes, c, p, {});
    forall n | n in o.nodes ensures NodeFresh(o, o.nodes[n].labels) {
      var labels := c.nodes[n].labels;
      assert NodeFresh(c, labels) && NodeFrame(c.nodes[n], o.nodes[n], p);
      PassNodeAt(c.nodes, Revert, p, {}, n);
      PassNodeAt(c.nodes, Release, p, {}, n);
      Retry.RevertTwice(labels);
      ReleasedBare(labels);
      if Owner(labels).Some? && Owner(labels) != Some(p) && Owner(labels).value in c.policies {
        OtherStamp(world, c, p, Owner(labels).value, {});
      }
    }
  }

  lemma ReleasedBare(labels: Labels)
    ensures var r := EditLabels(Release, labels); Owner(r).None? && DevicePluginConfig !in r && MigConfig !in r
  {
  }

  lemma NextFresh(world: World, c: State, a: Action)
    requires world.Fits() && Good(world, c) && Fresh(c) && CleanAction(world, c, a)
    ensures Fresh(Next(world, c, a))
  {
    hide ReconcileLiveAt, ReconcileDeletedAt, Fresh, Good;
    if a.Reconcile? {
      if a.policy in c.policies {
        if c.policies[a.policy].deleting {
          DeletedFresh(world, c, a.policy);
        } else {
          LiveIsDone(world.hashes, c, a.policy);
          LiveFresh(world, c, a.policy);
        }
      }
    } else {
      EnvironmentFresh(world, c, a);
    }
  }

  lemma LiveIsDone(h: Hashes, c: State, p: string)
    requires p in c.policies && !c.policies[p].deleting
    ensures ReconcileStep(h, c, p, {}).result != Waiting
  {
    hide InstallDpAt, InstallMigAt, DpPanics, MigPanicsAt, FinishLive;
    var c1 := c.(policies := c.policies[p := WithFinalizer(c.policies[p])]);
    var s := SetUp(h, c.dp, c.mig, p, c.policies[p].spec, {});
    Retry.FinishLiveFacts(c1, p, s, if RELEASE_FINALIZER in c.policies[p].finalizers then {} else {PutPolicy}, {});
  }

  lemma EnvironmentFresh(world: World, c: State, a: Action)
    requires Good(world, c) && Fresh(c) && !a.Reconcile?
    ensures Fresh(Next(world, c, a))
  {
    hide ConfigsOk, SafeSelector, AsBlank, KeyIn, NodeFresh;
    var o := Next(world, c, a);
    if a.Create? && a.policy in world.names && a.policy !in c.policies {
      assert PolicyGood(world, c, a.policy);
      assert !HoldsNode(c, a.policy);
    }
    forall n | n in o.nodes ensures NodeFresh(o, o.nodes[n].labels) {
      if n in c.nodes {
        FreshFrame(c, o, a, c.nodes[n].labels, o.nodes[n].labels);
      } else {
        FreshJoin(o, o.nodes[n].labels);
      }
    }
  }

  lemma FreshJoin(c: State, labels: Labels)
    requires labels.Keys !! GPU_KEYS
    ensures NodeFresh(c, labels)
  {
  }

  /** Nothing a node's freshness depends on has changed. */
  lemma FreshFrame(c: State, o: State, a: Action, before: Labels, after: Labels)
    requires NodeFresh(c, before)
    requires forall k :: k in STAMP_KEYS ==> Find(after, k) == Find(before, k)
    requires c.dp == o.dp && c.mig == o.mig
    requires forall p :: p in o.policies && !o.policies[p].deleting && Owner(before) == Some(p) ==>
      p in c.policies && !c.policies[p].deleting && o.policies[p].spec.mode == c.policies[p].spec.mode
    ensures NodeFresh(o, after)
  {
  }

  /** A cluster before its first policy is a point from which all runs keep these promises, whatever
      built-in entries it has. */
  lemma CleanStart(world: World, c: State)
    requires c.policies == map[]
    requires forall n, k :: n in c.nodes && k in GPU_KEYS ==> k !in c.nodes[n].labels
    requires forall k, p :: k == "" || (p in world.names && Owns(p, k)) ==>
      (c.dp.Some? ==> k !in c.dp.value) && (c.mig.Some? ==> k !in c.mig.value)
    ensures Good(world, c) && Fresh(c)
  {
  }

  // ---------------------------------------------------------------- history independence over runs

  /** At every point of an error-free run that starts without leftovers, the labels of a node are
      those of a blank node stamped once by its owner: nothing of an earlier owner, or of earlier
      names of the same owner, survives. */
  lemma {:induction false} RunFresh(world: World, c: State, acts: seq<Action>)
    requires world.Fits() && Good(world, c) && Fresh(c) && CleanRun(world, c, acts)
    ensures Fresh(Run(world, c, acts))
  {
    hide Next, Fresh, Good, CleanAction;
    if acts == [] {
    } else {
      RunFresh(world, c, acts[..|acts| - 1]);
      RunGood(world, c, acts[..|acts| - 1]);
      NextFresh(world, Run(world, c, acts[..|acts| - 1]), acts[|acts| - 1]);
    }
  }
}

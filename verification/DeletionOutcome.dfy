/** What a reconcile of a deleted policy leaves behind, label by label and call by call, and that the
    deletion comes to its end. */
module DeletionOutcome {
  import opened Options
  import opened Api
  import opened GpuControls
  import opened ConfigEntries
  import opened Cluster
  import opened GpuProtocol
  import opened StepFacts
  import opened ConfigStage
  import opened StepSafety
  import opened Runs
  import NodePasses
  import Retry

  /** The MIG manager has not reported on the disabled configuration yet. */
  predicate Undrained(labels: Labels) {
    Lookup(labels, MigConfig) != "all-disabled" || Lookup(labels, MigConfigState) != "success"
  }

  /** The deletion has a MIG node to wait for. */
  ghost predicate MustDrain(c: State, p: string)
    requires p in c.policies
  {
    && c.policies[p].spec.mode == MIG
    && exists n :: n in c.nodes && Owner(c.nodes[n].labels) == Some(p) && Undrained(c.nodes[n].labels)
  }

  lemma OwnUndrained(c: State, p: string)
    requires p in c.policies
    ensures MustDrain(c, p)
       <==> c.policies[p].spec.mode == MIG && exists n :: n in Mine(c, p) && !MigDrained(Mine(c, p)[n].labels)
  {
    hide Select, Owner, Undrained, MigDrained;
    forall n | n in Mine(c, p)
      ensures n in c.nodes && Owner(c.nodes[n].labels) == Some(p) && Mine(c, p)[n] == c.nodes[n]
      ensures MigDrained(c.nodes[n].labels) <==> !Undrained(c.nodes[n].labels)
    {
      NodePasses.MineIs(c.nodes, p, n);
      DrainedIs(c.nodes[n].labels);
    }
    if MustDrain(c, p) {
      var n :| n in c.nodes && Owner(c.nodes[n].labels) == Some(p) && Undrained(c.nodes[n].labels);
      NodePasses.MineIs(c.nodes, p, n);
    }
  }

  lemma DrainedIs(labels: Labels)
    ensures MigDrained(labels) <==> !Undrained(labels)
  {
  }

  // ---------------------------------------------------------------- waiting for MIG

  /** While a node is not drained the reconcile waits and touches nothing but the nodes it has still to
      disable MIG on: they get the disabled configuration, lose their report and have the MIG manager
      switched on. */
  lemma DrainPass(h: Hashes, c: State, p: string, f: set<Op>, n: string, k: LabelKey)
    requires Registered(c, p) && c.policies[p].deleting && MustDrain(c, p)
    requires GetPolicy !in f && ListNodes !in f && n in c.nodes
    ensures var r, labels := ReconcileStep(h, c, p, f), c.nodes[n].labels;
      var after, own := r.state.nodes, Owner(labels) == Some(p) && Lookup(labels, MigConfig) != "all-disabled";
      && r.result == Waiting && r.state == c.(nodes := after) && after.Keys == c.nodes.Keys
      && (WriteNode(n) in r.issued <==> own)
      && (if own && WriteNode(n) !in f then
            && after[n].version == c.nodes[n].version + 1
            && Find(after[n].labels, k) == match k
                 case MigConfig => Some("all-disabled")
                 case MigConfigState => None
                 case MigManager => Some("true")
                 case _ => Find(labels, k)
          else after[n] == c.nodes[n])
  {
    hide Writes, Deliver, Select, MigDrained, Accepted, MustDrain, FinishDeletedAt, Owner;
    OwnUndrained(c, p);
    PassNodeAt(c.nodes, Revert, p, f, n);
    PassKeys(c.nodes, Writes(Revert, Mine(c, p)), f);
    RevertNeeded(c.nodes[n]);
  }

  lemma RevertNeeded(o: Obj)
    ensures WriteOf(Revert, o).Some? <==> Lookup(o.labels, MigConfig) != "all-disabled"
  {
  }

  lemma PassKeys(nodes: Nodes, writes: map<string, Write>, f: set<Op>)
    ensures Deliver(nodes, writes, f).Keys == nodes.Keys
  {
  }

  // ---------------------------------------------------------------- releasing

  /** Otherwise every own node whose write arrives loses the owner and all stamped labels and has its
      operands switched off; nothing else happens to nodes. */
  lemma ReleasePass(h: Hashes, c: State, p: string, f: set<Op>, n: string, k: LabelKey)
    requires Registered(c, p) && c.policies[p].deleting && !MustDrain(c, p)
    requires GetPolicy !in f && ListNodes !in f && n in c.nodes
    ensures var after, labels := ReconcileStep(h, c, p, f).state.nodes, c.nodes[n].labels;
      && after.Keys == c.nodes.Keys
      && (if Owner(labels) == Some(p) && WriteNode(n) !in f then
            && after[n].version == c.nodes[n].version + 1
            && Find(after[n].labels, k) == match k
                 case Operands => Some("false")
                 case GpuManagedBy | WorkloadConfig | DevicePluginConfig | MigConfig => None
                 case _ => Find(labels, k)
          else after[n] == c.nodes[n])
  {
    hide Writes, Deliver, Select, MigDrained, Accepted, MustDrain, FinishDeletedAt, Owner;
    OwnUndrained(c, p);
    PassNodeAt(c.nodes, Release, p, f, n);
    var writes := Writes(Release, Mine(c, p));
    var c1 := c.(nodes := Deliver(c.nodes, writes, f));
    PassKeys(c.nodes, writes, f);
    FinishDeletedKeepsNodes(c1, p, WriteOps(writes.Keys), f);
    ReleaseNeeded(c.nodes[n], p);
  }

  lemma ReleaseNeeded(o: Obj, p: string)
    ensures Owner(o.labels) == Some(p) ==> WriteOf(Release, o).Some?
  {
  }

  // ---------------------------------------------------------------- the end

  ghost predicate AllArrive(c: State, p: string, f: set<Op>) {
    forall n :: n in c.nodes && Owner(c.nodes[n].labels) == Some(p) ==> WriteNode(n) !in f
  }

  /** The stage of one configuration gets through: it is read, and where an entry is to go, written. */
  ghost predicate Clears<T>(config: Option<map<string, T>>, p: string, get: Op, patch: Op, f: set<Op>) {
    get !in f && (config.Some? && OwnKeys(config.value, p) != {} ==> patch !in f)
  }

  /** Its write is issued. */
  ghost predicate Sends<T>(config: Option<map<string, T>>, p: string, get: Op, f: set<Op>) {
    get !in f && config.Some? && OwnKeys(config.value, p) != {}
  }

  ghost function Without<T>(config: Option<map<string, T>>, p: string): Option<map<string, T>> {
    if config.None? then None else Some(config.value - OwnKeys(config.value, p))
  }

  /** The stages of a release in their order: every node, the device-plugin entry, the mig entry, the
      finalizer; each is carried out exactly when the ones before it got through and so does it, a missing
      configuration being no obstacle. The result is a success exactly when all did. A policy without
      another finalizer is gone. */
  lemma ReleaseStages(h: Hashes, c: State, p: string, f: set<Op>)
    requires Registered(c, p) && c.policies[p].deleting && !MustDrain(c, p) && ConfigsOk(h, c.dp, c.mig, p)
    requires GetPolicy !in f && ListNodes !in f
    ensures var r, pol := ReconcileStep(h, c, p, f), c.policies[p];
      var dpGone := AllArrive(c, p, f) && Clears(c.dp, p, GetDp, PatchDp, f);
      var migGone := dpGone && Clears(c.mig, p, GetMig, PatchMig, f);
      var done := migGone && PutPolicy !in f;
      var others := exists x :: x in pol.finalizers && x != "release.finalizers.ecns.easystack.io";
      && r.state.dp == (if dpGone then Without(c.dp, p) else c.dp)
      && r.state.mig == (if migGone then Without(c.mig, p) else c.mig)
      && r.result == (if done then Done else Failed)
      && r.issued
         == WriteOps(set n | n in c.nodes && Owner(c.nodes[n].labels) == Some(p))
            + (if AllArrive(c, p, f) && Sends(c.dp, p, GetDp, f) then {PatchDp} else {})
            + (if dpGone && Sends(c.mig, p, GetMig, f) then {PatchMig} else {})
            + (if migGone then {PutPolicy} else {})
      && (forall q :: q != p ==> Find(r.state.policies, q) == Find(c.policies, q))
      && (!done ==> Find(r.state.policies, p) == Some(pol))
      && (done && !others ==> p !in r.state.policies)
      && (done && others ==>
            && p in r.state.policies
            && r.state.policies[p] == pol.(finalizers := r.state.policies[p].finalizers)
            && forall x :: x in r.state.policies[p].finalizers
                      <==> x in pol.finalizers && x != "release.finalizers.ecns.easystack.io")
  {
    hide Writes, Deliver, Select, MigDrained, Accepted, MustDrain, WriteOps, ConfigOk, FinishDeletedAt, AllArrive;
    hide Clears, Sends, Without;
    OwnUndrained(c, p);
    ArriveIff(c, p, f);
    var writes := Writes(Release, Mine(c, p));
    var c1 := c.(nodes := Deliver(c.nodes, writes, f));
    FinishStages(h, c1, p, WriteOps(writes.Keys), f);
    KeptNone(c.policies[p].finalizers);
    forall x
      ensures x in WithoutFinalizer(c.policies[p].finalizers) <==>
              x in c.policies[p].finalizers && x != RELEASE_FINALIZER
    {
      WithoutFinalizerRemoves(c.policies[p].finalizers, x);
    }
  }

  lemma KeptNone(fs: seq<string>)
    ensures WithoutFinalizer(fs) == [] <==> forall x :: x in fs ==> x == RELEASE_FINALIZER
  {
    hide WithoutFinalizer;
    forall x ensures x in WithoutFinalizer(fs) <==> x in fs && x != RELEASE_FINALIZER {
      WithoutFinalizerRemoves(fs, x);
    }
    if WithoutFinalizer(fs) != [] {
      assert WithoutFinalizer(fs)[0] in WithoutFinalizer(fs);
    }
  }

  lemma ArriveIff(c: State, p: string, f: set<Op>)
    ensures var writes := Writes(Release, Mine(c, p));
      && writes.Keys == (set n | n in c.nodes && Owner(c.nodes[n].labels) == Some(p))
      && (Accepted(c.nodes, writes, f) == writes.Keys <==> AllArrive(c, p, f))
  {
    hide Writes, Select, Owner, Accepted;
    var writes := Writes(Release, Mine(c, p));
    var accepted := Accepted(c.nodes, writes, f);
    forall n
      ensures n in writes <==> n in c.nodes && Owner(c.nodes[n].labels) == Some(p)
      ensures n in accepted <==> n in writes && WriteNode(n) !in f
    {
      if n in c.nodes {
        PassNodeAt(c.nodes, Release, p, f, n);
        ReleaseNeeded(c.nodes[n], p);
      } else {
        Outside(c.nodes, p, f, n);
      }
    }
    if accepted == writes.Keys {
      assert forall n :: n in writes ==> n in accepted;
    }
  }

  lemma Outside(nodes: Nodes, p: string, f: set<Op>, n: string)
    requires n !in nodes
    ensures var writes := Writes(Release, Select(nodes, map[GpuManagedBy := p]));
      n !in writes && n !in Accepted(nodes, writes, f)
  {
    hide WriteOf, Send;
  }

  lemma FinishStages(h: Hashes, c: State, p: string, w: set<Op>, f: set<Op>)
    requires p in c.policies && c.policies[p].deleting && ConfigsOk(h, c.dp, c.mig, p)
    ensures var r, pol := FinishDeleted(c, p, w, f), c.policies[p];
      var dpGone := Clears(c.dp, p, GetDp, PatchDp, f);
      var migGone := dpGone && Clears(c.mig, p, GetMig, PatchMig, f);
      var done, kept := migGone && PutPolicy !in f, WithoutFinalizer(pol.finalizers);
      && r.state.dp == (if dpGone then Without(c.dp, p) else c.dp)
      && r.state.mig == (if migGone then Without(c.mig, p) else c.mig)
      && r.result == (if done then Done else Failed)
      && r.issued
         == w + (if Sends(c.dp, p, GetDp, f) then {PatchDp} else {})
            + (if dpGone && Sends(c.mig, p, GetMig, f) then {PatchMig} else {})
            + (if migGone then {PutPolicy} else {})
      && r.state.policies
         == (if !done then c.policies
             else if kept == [] then c.policies - {p}
             else c.policies[p := pol.(finalizers := kept)])
  {
    hide RemoveAt, ConfigOk, Clears, Sends, Without, WithoutFinalizer;
    RemovedIs(c.dp, p, h.dp, GetDp, PatchDp, f);
    RemovedIs(c.mig, p, h.mig, GetMig, PatchMig, f);
  }

  lemma RemovedIs<T>(config: Option<map<string, T>>, p: string, hash: T -> string, get: Op, patch: Op, f: set<Op>)
    requires ConfigOk(config, p, hash)
    ensures var r := Remove(config, p, get, patch, f);
      && (r.ok <==> Clears(config, p, get, patch, f)) && (r.wrote <==> Sends(config, p, get, f))
      && r.config == (if r.ok then Without(config, p) else config)
  {
    hide Owns, OwnKeys;
    if config.Some? {
      OwnKeyIs(config.value, p);
      OneKey(config.value, p, hash);
      assert config.value - {} == config.value;
    }
  }

  lemma OneKey<T>(m: map<string, T>, p: string, hash: T -> string)
    requires EntryOk(m, p, hash)
    ensures OwnKeys(m, p) == if OwnKey(m, p) in m then {OwnKey(m, p)} else {}
  {
    OwnKeyIs(m, p);
  }

  /** A policy that is deleted and no longer registered, or gone, needs nothing. */
  lemma NothingLeft(h: Hashes, c: State, p: string, f: set<Op>)
    requires GetPolicy !in f && !Registered(c, p) && (p in c.policies ==> c.policies[p].deleting)
    ensures ReconcileStep(h, c, p, f) == Outcome(c, Done, {})
  {
  }

  /** A policy or list that cannot be read leaves everything as it is. */
  lemma LostRead(h: Hashes, c: State, p: string, f: set<Op>)
    requires GetPolicy in f || (ListNodes in f && Registered(c, p) && c.policies[p].deleting)
    ensures ReconcileStep(h, c, p, f) == Outcome(c, Failed, {})
  {
  }

  // ---------------------------------------------------------------- progress

  ghost predicate AreReports(reports: seq<Action>) {
    forall i :: 0 <= i < |reports| ==> reports[i].MigReport? && reports[i].state == "success"
  }

  /** Reports of the MIG manager change nothing but the report label. */
  lemma {:induction false} AfterReports(world: World, c: State, reports: seq<Action>)
    requires AreReports(reports)
    ensures var o := Run(world, c, reports);
      && o.(nodes := c.nodes) == c && o.nodes.Keys == c.nodes.Keys
      && (forall n, k | n in c.nodes && k != MigConfigState :: Find(o.nodes[n].labels, k) == Find(c.nodes[n].labels, k))
      && (forall n :: n in c.nodes && MigReport(n, "success") in reports ==>
            Find(o.nodes[n].labels, MigConfigState) == Some("success"))
  {
    hide ReconcileStep;
    if reports == [] {
    } else {
      var last := |reports| - 1;
      AfterReports(world, c, reports[..last]);
      assert reports == reports[..last] + [reports[last]];
    }
  }

  lemma {:induction false} RunConcat(world: World, c: State, first: seq<Action>, second: seq<Action>)
    ensures Run(world, c, first + second) == Run(world, Run(world, c, first), second)
  {
    hide Next;
    if second == [] {
      assert first + second == first;
    } else {
      var last := |second| - 1;
      RunConcat(world, c, first, second[..last]);
      assert (first + second)[..|first| + last] == first + second[..last];
    }
  }

  /** One undisturbed reconcile, then success reports from at least every node of the policy in any order
      and number, then another reconcile: the policy has let go of everything, its object included. */
  lemma DeletionCompletes(world: World, c: State, p: string, reports: seq<Action>)
    requires world.Fits() && Good(world, c) && Registered(c, p) && c.policies[p].deleting
    requires AreReports(reports)
    requires forall n :: n in c.nodes && Owner(c.nodes[n].labels) == Some(p) ==> MigReport(n, "success") in reports
    ensures var o := Run(world, c, [Reconcile(p, {})] + reports + [Reconcile(p, {})]);
      !Registered(o, p) && !HoldsNode(o, p) && !HoldsDp(o, p) && !HoldsMig(o, p)
  {
    hide ReconcileStep, ConfigsOk, MustDrain, Run, Good, HoldsNode, HoldsDp, HoldsMig;
    var acts := [Reconcile(p, {})] + reports + [Reconcile(p, {})];
    var c1 := ReconcileStep(world.hashes, c, p, {}).state;
    var c2 := Run(world, c1, reports);
    SingleRun(world, c, p);
    RunConcat(world, c, [Reconcile(p, {})], reports);
    SingleRun(world, c2, p);
    RunConcat(world, c, [Reconcile(p, {})] + reports, [Reconcile(p, {})]);
    AfterReports(world, c1, reports);
    FirstOf(world, c, p);
    if Registered(c1, p) {
      DrainedAfter(world, c, p, c1, c2, reports);
      RunGood(world, c, [Reconcile(p, {})] + reports);
      FirstOf(world, c2, p);
    } else {
      NothingLeft(world.hashes, c2, p, {});
    }
    GoodName(world, c, p);
    LetGo(world, c, acts, p);
  }

  lemma GoodName(world: World, c: State, p: string)
    requires Good(world, c) && p in c.policies
    ensures p in world.names
  {
  }

  /** In every run: a policy that is not registered holds nothing. */
  lemma LetGo(world: World, c: State, acts: seq<Action>, p: string)
    requires world.Fits() && Good(world, c) && p in world.names && !Registered(Run(world, c, acts), p)
    ensures var o := Run(world, c, acts); !HoldsNode(o, p) && !HoldsDp(o, p) && !HoldsMig(o, p)
  {
    hide Run;
    RunGood(world, c, acts);
    assert PolicyGood(world, Run(world, c, acts), p);
  }

  lemma SingleRun(world: World, c: State, p: string)
    ensures Run(world, c, [Reconcile(p, {})]) == ReconcileStep(world.hashes, c, p, {}).state
  {
    hide ReconcileStep;
    assert [Reconcile(p, {})][..0] == [];
  }

  /** Either the policy is let go, or it waits with MIG disabled on each of its nodes. */
  lemma FirstOf(world: World, c: State, p: string)
    requires Good(world, c) && Registered(c, p) && c.policies[p].deleting
    ensures var c1 := ReconcileStep(world.hashes, c, p, {}).state;
      if MustDrain(c, p) then
        && c1 == c.(nodes := c1.nodes) && c1.nodes.Keys == c.nodes.Keys
        && forall n :: n in c.nodes ==>
             && Owner(c1.nodes[n].labels) == Owner(c.nodes[n].labels)
             && (Owner(c.nodes[n].labels) == Some(p) ==> Lookup(c1.nodes[n].labels, MigConfig) == "all-disabled")
      else !Registered(c1, p) && (p in c1.policies ==> c1.policies[p].deleting)
  {
    hide ReconcileStep, ConfigsOk, MustDrain, SafeSelector;
    assert PolicyGood(world, c, p);
    if MustDrain(c, p) {
      forall n | n in c.nodes
        ensures var c1 := ReconcileStep(world.hashes, c, p, {}).state;
          && c1 == c.(nodes := c1.nodes) && c1.nodes.Keys == c.nodes.Keys
          && Owner(c1.nodes[n].labels) == Owner(c.nodes[n].labels)
          && (Owner(c.nodes[n].labels) == Some(p) ==> Lookup(c1.nodes[n].labels, MigConfig) == "all-disabled")
      {
        DrainPass(world.hashes, c, p, {}, n, GpuManagedBy);
        DrainPass(world.hashes, c, p, {}, n, MigConfig);
      }
      SomeNode(c, p);
    } else {
      ReleaseStages(world.hashes, c, p, {});
    }
  }

  lemma SomeNode(c: State, p: string)
    requires p in c.policies && MustDrain(c, p)
    ensures exists n :: n in c.nodes
  {
  }

  lemma DrainedAfter(world: World, c: State, p: string, c1: State, c2: State, reports: seq<Action>)
    requires Registered(c, p) && c1 == c.(nodes := c1.nodes) && c1.nodes.Keys == c.nodes.Keys
    requires forall n :: n in c.nodes ==>
      && Owner(c1.nodes[n].labels) == Owner(c.nodes[n].labels)
      && (Owner(c.nodes[n].labels) == Some(p) ==> Lookup(c1.nodes[n].labels, MigConfig) == "all-disabled")
    requires c2.(nodes := c1.nodes) == c1 && c2.nodes.Keys == c1.nodes.Keys
    requires forall n, k | n in c1.nodes && k != MigConfigState ::
      Find(c2.nodes[n].labels, k) == Find(c1.nodes[n].labels, k)
    requires forall n :: n in c1.nodes && MigReport(n, "success") in reports ==>
      Find(c2.nodes[n].labels, MigConfigState) == Some("success")
    requires forall n :: n in c.nodes && Owner(c.nodes[n].labels) == Some(p) ==> MigReport(n, "success") in reports
    ensures !MustDrain(c2, p)
  {
    forall n | n in c2.nodes && Owner(c2.nodes[n].labels) == Some(p) ensures !Undrained(c2.nodes[n].labels) {
      assert Find(c2.nodes[n].labels, GpuManagedBy) == Find(c1.nodes[n].labels, GpuManagedBy);
      assert Find(c2.nodes[n].labels, MigConfig) == Find(c1.nodes[n].labels, MigConfig);
    }
  }
}

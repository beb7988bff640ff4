/** The window that failing calls open: when exactly a node is left naming an entry that is gone. */
module Dangling {
  import opened Options
  import opened Api
  import opened GpuControls
  import opened ConfigEntries
  import opened Cluster
  import opened GpuProtocol
  import opened StepFacts
  import opened ConfigStage
  import opened StepSafety
  import opened References
  import Retry
  import RunProperties

  /** The calls in front of the configuration step get through. */
  predicate Reaches(c: State, p: string, f: set<Op>)
    requires p in c.policies
  {
    GetPolicy !in f && ListNodes !in f && (PutPolicy in f ==> RELEASE_FINALIZER in c.policies[p].finalizers)
  }

  /** There is content to store: none is there and some is needed, or what is there differs. */
  ghost predicate Differs<T>(config: map<string, T>, p: string, want: T, needed: bool) {
    if OwnKey(config, p) in config then config[OwnKey(config, p)] != want else needed
  }

  /** The content goes under another key than before. */
  ghost predicate Moves<T>(config: map<string, T>, p: string, hash: T -> string, want: T, needed: bool) {
    if OwnKey(config, p) in config then EntryName(p, hash(want)) != OwnKey(config, p) else needed
  }

  ghost predicate DpStageFails(c: State, p: string, f: set<Op>)
    requires p in c.policies
  {
    var spec := c.policies[p].spec;
    || GetDp in f || c.dp.None? || DpPanics(c.dp, spec)
    || (PatchDp in f && Differs(c.dp.value, p, DesiredDp(spec), DpNeeded(spec)))
  }

  ghost predicate MigStageFails(c: State, p: string, f: set<Op>)
    requires p in c.policies
  {
    var spec := c.policies[p].spec;
    || GetMig in f || c.mig.None? || MigPanics(c.mig, p, spec)
    || (PatchMig in f && Differs(c.mig.value, p, DesiredMigOf(spec), !IsMigNoneStrategy(spec.mig)))
  }

  /** The device-plugin entry is renamed. */
  ghost predicate DpRenamed(h: Hashes, c: State, p: string, f: set<Op>)
    requires p in c.policies
  {
    var spec := c.policies[p].spec;
    Reaches(c, p, f) && !DpStageFails(c, p, f) && Moves(c.dp.value, p, h.dp, DesiredDp(spec), DpNeeded(spec))
  }

  /** The mig entry is renamed. */
  ghost predicate MigRenamed(h: Hashes, c: State, p: string, f: set<Op>)
    requires p in c.policies
  {
    var spec := c.policies[p].spec;
    && Reaches(c, p, f) && !DpStageFails(c, p, f) && !MigStageFails(c, p, f)
    && Moves(c.mig.value, p, h.mig, DesiredMigOf(spec), !IsMigNoneStrategy(spec.mig))
  }

  /** A node of p whose label does not name p's entry. */
  ghost predicate Dangles<T>(nodes: Nodes, config: Option<map<string, T>>, p: string, n: string, label_: LabelKey) {
    n in nodes && Owner(nodes[n].labels) == Some(p) && !LabelNames(config, p, Find(nodes[n].labels, label_))
  }

  ghost predicate SameKeys<T>(before: Option<map<string, T>>, after: Option<map<string, T>>, p: string) {
    before.Some? && after.Some? && OwnKeys(after.value, p) == OwnKeys(before.value, p)
  }

  // ---------------------------------------------------------------- the configuration step

  /** What one configuration's stage leaves, decided on what was there and on the calls that fail. */
  lemma StageWhen<T>(config: Option<map<string, T>>, p: string, hash: T -> string, want: T, needed: bool,
                     rehash: bool, get: Op, patch: Op, f: set<Op>)
    requires ConfigOk(config, p, hash)
    ensures var r := Install(config, p, hash, want, needed, rehash, get, patch, f);
      && (r.ok <==> !(get in f || config.None? || (patch in f && Differs(config.value, p, want, needed))))
      && (config.Some? <==> r.config.Some?)
      && (config.Some? ==>
            OwnKeys(r.config.value, p)
            == if r.ok && Moves(config.value, p, hash, want, needed) then {EntryName(p, hash(want))}
               else OwnKeys(config.value, p))
  {
    hide OwnKeys, Owns, EntryName;
    if config.Some? {
      PlaceDoes(config.value, p, hash, want);
      OwnKeyIs(config.value, p);
      OneOwnKey(config.value, p);
    }
  }

  lemma OneOwnKey<T>(m: map<string, T>, p: string)
    ensures AtMostOne(m, p) && OwnKey(m, p) in m && "" !in m ==> OwnKeys(m, p) == {OwnKey(m, p)}
  {
    OwnKeyIs(m, p);
  }

  lemma SetUpWhen(h: Hashes, c: State, p: string, f: set<Op>)
    requires p in c.policies && ConfigsOk(h, c.dp, c.mig, p)
    requires c.policies[p].spec.mode == TimeSlicing || c.policies[p].spec.mode == MIG
    ensures var spec := c.policies[p].spec;
      var s, dpOk, migOk := SetUp(h, c.dp, c.mig, p, spec, f), !DpStageFails(c, p, f), !MigStageFails(c, p, f);
      && (s.result == Done <==> dpOk && (spec.mode == MIG ==> migOk))
      && (c.dp.Some? <==> s.dp.Some?) && (c.mig.Some? <==> s.mig.Some?)
      && (c.dp.Some? ==>
            OwnKeys(s.dp.value, p)
            == if dpOk && Moves(c.dp.value, p, h.dp, DesiredDp(spec), DpNeeded(spec))
               then {EntryName(p, h.dp(DesiredDp(spec)))} else OwnKeys(c.dp.value, p))
      && (c.mig.Some? && spec.mode == MIG ==>
            OwnKeys(s.mig.value, p)
            == if dpOk && migOk && Moves(c.mig.value, p, h.mig, DesiredMigOf(spec), !IsMigNoneStrategy(spec.mig))
               then {EntryName(p, h.mig(DesiredMigOf(spec)))} else OwnKeys(c.mig.value, p))
  {
    hide InstallAt, ConfigOk, Moves, Differs, OwnKeys, OwnKey, DesiredDp, DesiredMigOf, DpPanics, MigPanicsAt;
    hide InitialDpName, InitialMigName, WorkloadOf, DpNeeded, IsMigNoneStrategy, EntryName;
    var spec := c.policies[p].spec;
    StageWhen(c.dp, p, h.dp, DesiredDp(spec), DpNeeded(spec), false, GetDp, PatchDp, f);
    StageWhen(c.mig, p, h.mig, DesiredMigOf(spec), !IsMigNoneStrategy(spec.mig), true, GetMig, PatchMig, f);
  }

  // ---------------------------------------------------------------- the label

  /** A label that was right stays right exactly while the policy's keys are the same. */
  lemma KeysDecide<T>(before: Option<map<string, T>>, after: Option<map<string, T>>, p: string, stamped: Option<string>)
    requires LabelNames(before, p, stamped) && after.Some?
    ensures LabelNames(after, p, stamped) <==> SameKeys(before, after, p)
  {
  }

  /** A fresh stamp is right. */
  lemma StampRight<T>(before: Option<map<string, T>>, after: Option<map<string, T>>, p: string, name: string, want: T,
                      stamped: Option<string>)
    requires LabelNames(before, p, stamped) && NamesEntry(after, p, name, want)
    requires name == "" ==> OwnKeys(before.value, p) == {}
    ensures LabelNames(after, p, if name != "" then Some(name) else stamped)
  {
    if name != "" {
      assert name in OwnKeys(after.value, p);
    }
  }

  lemma MovesApart<T>(m: map<string, T>, p: string, hash: T -> string, want: T, needed: bool)
    requires EntryOk(m, p, hash) && Moves(m, p, hash, want, needed)
    ensures OwnKeys(m, p) != {EntryName(p, hash(want))}
  {
    OwnKeyIs(m, p);
    OneOwnKey(m, p);
    if OwnKey(m, p) in m {
      assert OwnKey(m, p) in OwnKeys(m, p);
    }
  }

  /** An own node after the node stage: as before where it was not written, else stamped or let go. */
  lemma OwnNodeAt(c: State, p: string, s: Stamp, f: set<Op>, n: string)
    requires p in c.policies && n in c.nodes && Owner(c.nodes[n].labels) == Some(p) && s.managedBy == p
    ensures var spec, labels := c.policies[p].spec, c.nodes[n].labels;
      var after := Deliver(c.nodes, NodeWrites(spec, s, c.nodes), LiveFaults(c.nodes, spec.nodeSelector, p, f));
      && n in after
      && if Stops(spec.nodeSelector, c.nodes) || WriteNode(n) in f then after[n].labels == labels
         else if Matches(spec.nodeSelector, labels) then after[n].labels == Updated(s, labels)
         else Owner(after[n].labels).None?
  {
    hide NodeWrites, Updated, Released, Matches, Stops;
    var g := LiveFaults(c.nodes, c.policies[p].spec.nodeSelector, p, f);
    StepNodeAt(c.nodes, c.policies[p].spec, s, g, n);
    OwnerNext(c.policies[p].spec, s, c.nodes[n].labels);
    assert n in NotReached(p, c.nodes);
    RunProperties.PassKeys(c.nodes, NodeWrites(c.policies[p].spec, s, c.nodes), g);
  }

  // ---------------------------------------------------------------- the theorems

  /** A reconcile of p leaves an own node naming a device-plugin entry that is not there exactly when it
      renames the entry and a later call before the node's write, or that write, does not get through. */
  lemma DpDanglesIff(h: Hashes, c: State, p: string, f: set<Op>, n: string)
    requires p in c.policies && !c.policies[p].deleting && ConfigsOk(h, c.dp, c.mig, p)
    requires c.policies[p].spec.mode == TimeSlicing || c.policies[p].spec.mode == MIG
    requires n in c.nodes && Owner(c.nodes[n].labels) == Some(p)
    requires LabelNames(c.dp, p, Find(c.nodes[n].labels, DevicePluginConfig))
    ensures var o, spec := ReconcileStep(h, c, p, f).state, c.policies[p].spec;
      Dangles(o.nodes, o.dp, p, n, DevicePluginConfig)
      <==> DpRenamed(h, c, p, f)
           && ((spec.mode == MIG && MigStageFails(c, p, f)) || Stops(spec.nodeSelector, c.nodes) || WriteNode(n) in f)
  {
    hide SetUpAt, FinishLive, NodeWrites, Deliver, LiveFaults, ConfigOk;
    hide Stops, DpStageFails, MigStageFails, Moves, LabelNames;
    var pol := c.policies[p];
    var s := SetUp(h, c.dp, c.mig, p, pol.spec, f);
    var c1 := c.(policies := c.policies[p := WithFinalizer(pol)]);
    Retry.FinishLiveFacts(c1, p, s, if RELEASE_FINALIZER in pol.finalizers then {} else {PutPolicy}, f);
    SetUpWhen(h, c, p, f);
    DpLabelWhen(h, c, p, f, n);
    SomeIfNamed(c.dp, p, Find(c.nodes[n].labels, DevicePluginConfig));
    KeysDecide(c.dp, c.dp, p, Find(c.nodes[n].labels, DevicePluginConfig));
    KeysDecide(c.dp, s.dp, p, Find(c.nodes[n].labels, DevicePluginConfig));
  }

  lemma SomeIfNamed<T>(config: Option<map<string, T>>, p: string, stamped: Option<string>)
    requires LabelNames(config, p, stamped)
    ensures config.Some?
  {
  }

  /** The device-plugin label of an own node after the node stage. */
  lemma DpLabelWhen(h: Hashes, c: State, p: string, f: set<Op>, n: string)
    requires p in c.policies && ConfigsOk(h, c.dp, c.mig, p)
    requires c.policies[p].spec.mode == TimeSlicing || c.policies[p].spec.mode == MIG
    requires n in c.nodes && Owner(c.nodes[n].labels) == Some(p)
    requires LabelNames(c.dp, p, Find(c.nodes[n].labels, DevicePluginConfig))
    ensures var spec := c.policies[p].spec;
      var s := SetUp(h, c.dp, c.mig, p, spec, f);
      var after := Deliver(c.nodes, NodeWrites(spec, s.stamp, c.nodes), LiveFaults(c.nodes, spec.nodeSelector, p, f));
      && (c.dp.Some? && !DpStageFails(c, p, f) && Moves(c.dp.value, p, h.dp, DesiredDp(spec), DpNeeded(spec))
          ==> !SameKeys(c.dp, s.dp, p))
      && (s.result == Done ==>
            (Dangles(after, s.dp, p, n, DevicePluginConfig)
             <==> (Stops(spec.nodeSelector, c.nodes) || WriteNode(n) in f) && !SameKeys(c.dp, s.dp, p)))
  {
    hide SetUpAt, NodeWrites, Deliver, LiveFaults, Updated, Stops, Matches, DpStageFails, MigStageFails, Moves;
    hide LabelNames, NamesEntry, EntryOk;
    var spec := c.policies[p].spec;
    var s := SetUp(h, c.dp, c.mig, p, spec, f);
    SetUpFacts(h, c.dp, c.mig, p, spec, f);
    SetUpWhen(h, c, p, f);
    SomeIfNamed(c.dp, p, Find(c.nodes[n].labels, DevicePluginConfig));
    if Moves(c.dp.value, p, h.dp, DesiredDp(spec), DpNeeded(spec)) {
      MovesApart(c.dp.value, p, h.dp, DesiredDp(spec), DpNeeded(spec));
    }
    if s.result == Done {
      OwnNodeAt(c, p, s.stamp, f, n);
      SetUpNames(h, c.dp, c.mig, p, spec, f);
      StampRight(c.dp, s.dp, p, s.stamp.dpName, DesiredDp(spec), Find(c.nodes[n].labels, DevicePluginConfig));
      KeysDecide(c.dp, s.dp, p, Find(c.nodes[n].labels, DevicePluginConfig));
      UpdatedAt(s.stamp, c.nodes[n].labels, DevicePluginConfig);
    }
  }

  /** The mig label of an own node after the node stage. */
  lemma MigLabelWhen(h: Hashes, c: State, p: string, f: set<Op>, n: string)
    requires p in c.policies && ConfigsOk(h, c.dp, c.mig, p)
    requires c.policies[p].spec.mode == MIG
    requires n in c.nodes && Owner(c.nodes[n].labels) == Some(p)
    requires LabelNames(c.mig, p, Find(c.nodes[n].labels, MigConfig))
    ensures var spec := c.policies[p].spec;
      var s := SetUp(h, c.dp, c.mig, p, spec, f);
      var after := Deliver(c.nodes, NodeWrites(spec, s.stamp, c.nodes), LiveFaults(c.nodes, spec.nodeSelector, p, f));
      && (c.mig.Some? && !DpStageFails(c, p, f) && !MigStageFails(c, p, f)
          && Moves(c.mig.value, p, h.mig, DesiredMigOf(spec), !IsMigNoneStrategy(spec.mig))
          ==> !SameKeys(c.mig, s.mig, p))
      && (s.result == Done ==>
            (Dangles(after, s.mig, p, n, MigConfig)
             <==> (Stops(spec.nodeSelector, c.nodes) || WriteNode(n) in f) && !SameKeys(c.mig, s.mig, p)))
  {
    hide SetUpAt, NodeWrites, Deliver, LiveFaults, Updated, Stops, Matches, DpStageFails, MigStageFails, Moves;
    hide LabelNames, NamesEntry, EntryOk;
    var spec := c.policies[p].spec;
    var s := SetUp(h, c.dp, c.mig, p, spec, f);
    SetUpFacts(h, c.dp, c.mig, p, spec, f);
    SetUpWhen(h, c, p, f);
    SomeIfNamed(c.mig, p, Find(c.nodes[n].labels, MigConfig));
    if Moves(c.mig.value, p, h.mig, DesiredMigOf(spec), !IsMigNoneStrategy(spec.mig)) {
      MovesApart(c.mig.value, p, h.mig, DesiredMigOf(spec), !IsMigNoneStrategy(spec.mig));
    }
    if s.result == Done {
      OwnNodeAt(c, p, s.stamp, f, n);
      SetUpNames(h, c.dp, c.mig, p, spec, f);
      StampRight(c.mig, s.mig, p, s.stamp.migName, DesiredMigOf(spec), Find(c.nodes[n].labels, MigConfig));
      KeysDecide(c.mig, s.mig, p, Find(c.nodes[n].labels, MigConfig));
      UpdatedAt(s.stamp, c.nodes[n].labels, MigConfig);
    }
  }

  /** The same for the mig entry, which no call separates from the node writes. */
  lemma MigDanglesIff(h: Hashes, c: State, p: string, f: set<Op>, n: string)
    requires p in c.policies && !c.policies[p].deleting && ConfigsOk(h, c.dp, c.mig, p)
    requires c.policies[p].spec.mode == MIG
    requires n in c.nodes && Owner(c.nodes[n].labels) == Some(p)
    requires LabelNames(c.mig, p, Find(c.nodes[n].labels, MigConfig))
    ensures var o, spec := ReconcileStep(h, c, p, f).state, c.policies[p].spec;
      Dangles(o.nodes, o.mig, p, n, MigConfig)
      <==> MigRenamed(h, c, p, f) && (Stops(spec.nodeSelector, c.nodes) || WriteNode(n) in f)
  {
    hide SetUpAt, FinishLive, NodeWrites, Deliver, LiveFaults, ConfigOk;
    hide Stops, DpStageFails, MigStageFails, Moves, LabelNames;
    var pol := c.policies[p];
    var s := SetUp(h, c.dp, c.mig, p, pol.spec, f);
    var c1 := c.(policies := c.policies[p := WithFinalizer(pol)]);
    Retry.FinishLiveFacts(c1, p, s, if RELEASE_FINALIZER in pol.finalizers then {} else {PutPolicy}, f);
    SetUpWhen(h, c, p, f);
    MigLabelWhen(h, c, p, f, n);
    SomeIfNamed(c.mig, p, Find(c.nodes[n].labels, MigConfig));
    KeysDecide(c.mig, c.mig, p, Find(c.nodes[n].labels, MigConfig));
    KeysDecide(c.mig, s.mig, p, Find(c.nodes[n].labels, MigConfig));
  }

  /** A cluster in which it happens: the time-slicing block was edited, and the node's write is lost. */
  lemma NodeLeftDangling(h: Hashes, p: string, n: string, before: TimeSlicingSpec, after: TimeSlicingSpec)
    requires forall x :: HyphenFree(h.dp(x))
    ensures var spec := GpuSpec(map[], TimeSlicing, Some(before), None);
      var spec' := spec.(timeSlicing := Some(after));
      var key := EntryName(p, h.dp(DesiredDp(spec)));
      var node := Obj(0, map[GpuManagedBy := p, WorkloadConfig := "container", DevicePluginConfig := key]);
      var c := State(map[n := node], map[p := Policy(spec', false, [RELEASE_FINALIZER], None)],
          Some(map[key := DesiredDp(spec)]), None);
      var o := ReconcileStep(h, c, p, {WriteNode(n)}).state;
      Dangles(o.nodes, o.dp, p, n, DevicePluginConfig)
      <==> h.dp(DesiredDp(spec')) != h.dp(DesiredDp(spec))
  {
    hide ReconcileStep, DesiredDp, FoundIn;
    var spec := GpuSpec(map[], TimeSlicing, Some(before), None);
    var spec' := spec.(timeSlicing := Some(after));
    var key := EntryName(p, h.dp(DesiredDp(spec)));
    var node := Obj(0, map[GpuManagedBy := p, WorkloadConfig := "container", DevicePluginConfig := key]);
    var entries := map[key := DesiredDp(spec)];
    var c := State(map[n := node], map[p := Policy(spec', false, [RELEASE_FINALIZER], None)], Some(entries), None);
    ExactPrefix(p, p, h.dp(DesiredDp(spec)));
    assert OwnKeys(entries, p) == {key};
    OwnKeyIs(entries, p);
    assert OwnKey(entries, p) in OwnKeys(entries, p);
    DpDanglesIff(h, c, p, {WriteNode(n)}, n);
    if h.dp(DesiredDp(spec')) != h.dp(DesiredDp(spec)) {
      assert EntryName(p, h.dp(DesiredDp(spec')))[|p| + 1..] == h.dp(DesiredDp(spec'));
      assert key[|p| + 1..] == h.dp(DesiredDp(spec));
    }
  }
}

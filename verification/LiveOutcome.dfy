/** What a reconcile of a living policy leaves behind, read off the cluster before it, the fields of the
    spec and the calls that fail: the policy object, the entries, every label of every node, the status,
    the result and the writes. */
module LiveOutcome {
  import opened Options
  import opened Api
  import opened GpuControls
  import opened ConfigEntries
  import opened Cluster
  import opened GpuProtocol
  import opened StepFacts
  import opened ConfigStage
  import opened StepSafety
  import opened Dangling
  import Retry
  import DeletionOutcome

  // ---------------------------------------------------------------- the policy object

  /** The finalizer is registered behind the others; nothing else of the object changes but the status. */
  lemma LivePolicy(h: Hashes, c: State, p: string, f: set<Op>)
    requires p in c.policies && !c.policies[p].deleting
    ensures var o, pol := ReconcileStep(h, c, p, f).state, c.policies[p];
      && o.policies.Keys == c.policies.Keys
      && (forall q :: q in c.policies && q != p ==> o.policies[q] == c.policies[q])
      && o.policies[p].spec == pol.spec && !o.policies[p].deleting
      && o.policies[p].finalizers
         == if "release.finalizers.ecns.easystack.io" in pol.finalizers || GetPolicy in f || PutPolicy in f
            then pol.finalizers else pol.finalizers + ["release.finalizers.ecns.easystack.io"]
  {
    hide SetUpAt, FinishLive, ReconcileDeletedAt, FoundIn, Mine;
    var pol := c.policies[p];
    var c1 := c.(policies := c.policies[p := WithFinalizer(pol)]);
    var s := SetUp(h, c.dp, c.mig, p, pol.spec, f);
    LivePolicies(c1, p, s, if RELEASE_FINALIZER in pol.finalizers then {} else {PutPolicy}, f);
  }

  lemma LivePolicies(c: State, p: string, s: Setup, w: set<Op>, f: set<Op>)
    requires p in c.policies
    ensures var o := FinishLive(c, p, s, w, f).state;
      && o.policies.Keys == c.policies.Keys
      && (forall q :: q in c.policies && q != p ==> o.policies[q] == c.policies[q])
      && o.policies[p] == c.policies[p].(status := o.policies[p].status)
  {
    hide FinishLive, NodeWrites, Deliver, LiveFaults;
    Retry.FinishLiveFacts(c, p, s, w, f);
  }

  // ---------------------------------------------------------------- the stages

  /** The reconcile comes to the nodes. */
  ghost predicate ComesToNodes(c: State, p: string, f: set<Op>)
    requires p in c.policies
  {
    var mode := c.policies[p].spec.mode;
    && Reaches(c, p, f)
    && (mode == TimeSlicing || mode == MIG ==> !DpStageFails(c, p, f))
    && (mode == MIG ==> !MigStageFails(c, p, f))
  }

  lemma SetUpDone(h: Hashes, c: State, p: string, f: set<Op>)
    requires p in c.policies && ConfigsOk(h, c.dp, c.mig, p)
    ensures Reaches(c, p, f) ==>
      (SetUp(h, c.dp, c.mig, p, c.policies[p].spec, f).result == Done <==> ComesToNodes(c, p, f))
  {
    hide ConfigOk, DpStageFails, MigStageFails;
    var mode := c.policies[p].spec.mode;
    if mode == TimeSlicing || mode == MIG {
      hide SetUpAt;
      SetUpWhen(h, c, p, f);
    }
  }

  /** What the step is, by how far it comes. */
  lemma LiveStages(h: Hashes, c: State, p: string, f: set<Op>)
    requires p in c.policies && !c.policies[p].deleting && ConfigsOk(h, c.dp, c.mig, p)
    ensures var o, pol := ReconcileStep(h, c, p, f), c.policies[p];
      var s := SetUp(h, c.dp, c.mig, p, pol.spec, f);
      var g := LiveFaults(c.nodes, pol.spec.nodeSelector, p, f);
      && (!Reaches(c, p, f) ==> o.state.dp == c.dp && o.state.mig == c.mig && o.result == Failed)
      && (Reaches(c, p, f) ==> o.state.dp == s.dp && o.state.mig == s.mig)
      && (!ComesToNodes(c, p, f) ==> o.state.nodes == c.nodes && o.result != Done)
      && (ComesToNodes(c, p, f) ==>
            && s.result == Done
            && o.state.nodes == Deliver(c.nodes, NodeWrites(pol.spec, s.stamp, c.nodes), g))
  {
    hide SetUpAt, FinishLive, NodeWrites, Deliver, LiveFaults, DpStageFails, MigStageFails, ConfigOk;
    var pol := c.policies[p];
    var c1 := c.(policies := c.policies[p := WithFinalizer(pol)]);
    var s := SetUp(h, c.dp, c.mig, p, pol.spec, f);
    SetUpDone(h, c, p, f);
    Retry.FinishLiveFacts(c1, p, s, if RELEASE_FINALIZER in pol.finalizers then {} else {PutPolicy}, f);
  }

  // ---------------------------------------------------------------- the entries

  /** After a success, which entries there are: in the device-plugin map one that was there before, or one
      the spec asks for, by a time-slicing block or by a mig block with slices and a strategy. In the mig
      file the mig block alone asks. The other modes leave the maps as they are. */
  lemma EntriesAfter(h: Hashes, c: State, p: string, f: set<Op>)
    requires p in c.policies && !c.policies[p].deleting && ConfigsOk(h, c.dp, c.mig, p)
    requires ReconcileStep(h, c, p, f).result == Done
    ensures var o, spec := ReconcileStep(h, c, p, f).state, c.policies[p].spec;
      var asksMig := spec.mig.Some? && spec.mig.value.configSlice != [] && spec.mig.value.strategy != "";
      && (if spec.mode == TimeSlicing || spec.mode == MIG then
            && c.dp.Some? && o.dp.Some?
            && (OwnKeys(o.dp.value, p) != {} <==> OwnKeys(c.dp.value, p) != {} || spec.timeSlicing.Some? || asksMig)
            && (forall k :: k in o.dp.value && Owns(p, k) ==>
                  o.dp.value[k] == DesiredDp(spec) && k == EntryName(p, h.dp(DesiredDp(spec))))
          else o.dp == c.dp)
      && (if spec.mode == MIG then
            && c.mig.Some? && o.mig.Some?
            && (OwnKeys(o.mig.value, p) != {} <==> OwnKeys(c.mig.value, p) != {} || asksMig)
            && (forall k :: k in o.mig.value && Owns(p, k) ==>
                  && spec.mig.Some? && SlicesOf(o.mig.value[k]) == spec.mig.value.configSlice
                  && k == EntryName(p, h.mig(o.mig.value[k])))
          else o.mig == c.mig)
  {
    hide SetUpAt, ReconcileStep, LiveFaults, Deliver, NodeWrites, ConfigOk, DesiredDp, Moves, NamesEntry, OwnKeys, Owns;
    var spec := c.policies[p].spec;
    var s := SetUp(h, c.dp, c.mig, p, spec, f);
    LiveStages(h, c, p, f);
    SetUpFacts(h, c.dp, c.mig, p, spec, f);
    if spec.mode == TimeSlicing || spec.mode == MIG {
      SetUpWhen(h, c, p, f);
      SetUpNames(h, c.dp, c.mig, p, spec, f);
      EntryAfter(c.dp, s.dp, p, h.dp, s.stamp.dpName, DesiredDp(spec), DpNeeded(spec));
    }
    if spec.mode == MIG {
      EntryAfter(c.mig, s.mig, p, h.mig, s.stamp.migName, DesiredMigOf(spec), !IsMigNoneStrategy(spec.mig));
      NoMissingBlock(c.mig, p, spec);
      if spec.mig.Some? {
        MigRoundTrip(spec.mig.value);
      }
    }
  }

  lemma EntryAfter<T>(before: Option<map<string, T>>, after: Option<map<string, T>>, p: string, hash: T -> string,
                      name: string, want: T, needed: bool)
    requires before.Some? && after.Some? && ConfigOk(before, p, hash) && ConfigOk(after, p, hash)
    requires NamesEntry(after, p, name, want) && (needed ==> name != "")
    requires name == "" ==> OwnKeys(before.value, p) == {}
    requires !Moves(before.value, p, hash, want, needed) ==> OwnKeys(after.value, p) == OwnKeys(before.value, p)
    ensures OwnKeys(after.value, p) != {} <==> OwnKeys(before.value, p) != {} || needed
    ensures forall k :: k in after.value && Owns(p, k) ==>
      OwnKeys(after.value, p) != {} && after.value[k] == want && k == EntryName(p, hash(want))
  {
    hide Owns, EntryName;
    OwnKeyIs(before.value, p);
    forall k | k in after.value && Owns(p, k) ensures k == name {
      assert k in OwnKeys(after.value, p);
    }
  }

  lemma NoMissingBlock(mig: Option<MigData>, p: string, spec: GpuSpec)
    ensures mig.Some? && OwnKeys(mig.value, p) != {} && spec.mig.None? ==> MigPanics(mig, p, spec)
  {
    hide OwnKeys;
    if mig.Some? {
      OwnKeyIs(mig.value, p);
    }
  }

  // ---------------------------------------------------------------- the labels

  /** The reconcile comes to the node itself: its write is not lost, and no node without labels panics
      the first pass before the later ones. */
  predicate Touches(c: State, p: string, f: set<Op>, n: string)
    requires p in c.policies && n in c.nodes
  {
    && WriteNode(n) !in f
    && (Stops(c.policies[p].spec.nodeSelector, c.nodes)
        ==> c.nodes[n].labels != map[] && Owner(c.nodes[n].labels) != Some(p))
  }

  /** Every label of every node. Nodes of other policies, unowned nodes that are not claimed and nodes not
      come to stay as they were. A claimed node is owned and carries the labels of the mode; a node no
      longer claimed loses the labels and has its operands switched off. */
  lemma LiveLabels(h: Hashes, c: State, p: string, f: set<Op>, n: string, k: LabelKey)
    requires p in c.policies && !c.policies[p].deleting && ConfigsOk(h, c.dp, c.mig, p) && n in c.nodes
    ensures var o, spec, labels := ReconcileStep(h, c, p, f).state, c.policies[p].spec, c.nodes[n].labels;
      var owner, claimed := Find(labels, GpuManagedBy), Matches(spec.nodeSelector, labels);
      && o.nodes.Keys == c.nodes.Keys
      && Find(o.nodes[n].labels, k) ==
         if !ComesToNodes(c, p, f) || !Touches(c, p, f, n) || (owner.Some? && owner != Some(p))
             || (owner.None? && !claimed)
         then Find(labels, k)
         else if claimed then (match k
           case GpuManagedBy => Some(p)
           case WorkloadConfig =>
             (match spec.mode
              case Default | TimeSlicing | MIG => Some("container")
              case PassThrough => Some("vm-passthrough")
              case VCUDA => Some("vcuda")
              case OtherMode(_) => None)
           case Operands => if spec.mode.OtherMode? then Some("false") else None
           case DevicePluginConfig =>
             (match spec.mode
              case Default => Some("default")
              case TimeSlicing | MIG => if KeyIn(o.dp, p) == "" then Find(labels, k) else Some(KeyIn(o.dp, p))
              case _ => Find(labels, k))
           case MigConfig =>
             if spec.mode != MIG then Some("all-disabled")
             else if KeyIn(o.mig, p) == "" then Find(labels, k) else Some(KeyIn(o.mig, p))
           case _ => Find(labels, k))
         else (match k
           case Operands => Some("false")
           case GpuManagedBy | WorkloadConfig | DevicePluginConfig | MigConfig => None
           case _ => Find(labels, k))
  {
    hide ReconcileStep, SetUpAt, Matches, NodeWrites, Deliver, Stops;
    hide ComesToNodes, ConfigOk, NextLabels, WorkloadOf, KeyIn;
    LiveStages(h, c, p, f);
    if ComesToNodes(c, p, f) {
      var spec, labels := c.policies[p].spec, c.nodes[n].labels;
      var s := SetUp(h, c.dp, c.mig, p, spec, f);
      ReachesOf(c, p, f);
      StampIs(h, c, p, f);
      StepNodeAt(c.nodes, spec, s.stamp, LiveFaults(c.nodes, spec.nodeSelector, p, f), n);
      NextLabel(spec, s.stamp, labels, k);
      DeliveredKeys(c.nodes, NodeWrites(spec, s.stamp, c.nodes), LiveFaults(c.nodes, spec.nodeSelector, p, f));
    }
  }

  /** The workload, by mode, as the label and the operands show it. */
  lemma WorkloadIs(mode: DeviceMode)
    ensures WorkloadOf(mode) == NoWorkload <==> mode.OtherMode?
    ensures !mode.OtherMode? ==>
      WorkloadOf(mode).Text()
      == if mode == PassThrough then "vm-passthrough" else if mode == VCUDA then "vcuda" else "container"
  {
  }

  /** The names a reconcile stamps that comes to the nodes. */
  lemma StampIs(h: Hashes, c: State, p: string, f: set<Op>)
    requires p in c.policies && ConfigsOk(h, c.dp, c.mig, p) && ComesToNodes(c, p, f)
    ensures var mode := c.policies[p].spec.mode;
      var s := SetUp(h, c.dp, c.mig, p, c.policies[p].spec, f);
      && s.stamp.managedBy == p && s.stamp.workload == WorkloadOf(mode)
      && s.stamp.dpName
         == (if mode == Default then "default" else if mode == TimeSlicing || mode == MIG then KeyIn(s.dp, p) else "")
      && s.stamp.migName == (if mode == MIG then KeyIn(s.mig, p) else "all-disabled")
  {
    hide SetUpAt, ConfigOk, Reaches, DpStageFails, MigStageFails, WorkloadOf;
    SetUpDone(h, c, p, f);
    ReachesOf(c, p, f);
    SetUpFacts(h, c.dp, c.mig, p, c.policies[p].spec, f);
    SetUpNames(h, c.dp, c.mig, p, c.policies[p].spec, f);
  }

  lemma ReachesOf(c: State, p: string, f: set<Op>)
    requires p in c.policies && ComesToNodes(c, p, f)
    ensures Reaches(c, p, f)
  {
  }

  /** One label after an undisturbed reconcile. */
  lemma NextLabel(spec: GpuSpec, s: Stamp, labels: Labels, k: LabelKey)
    requires s.workload == WorkloadOf(spec.mode)
    ensures var owner, claimed := Find(labels, GpuManagedBy), Matches(spec.nodeSelector, labels);
      Find(NextLabels(spec, s, labels), k) ==
        if (owner.Some? && owner != Some(s.managedBy)) || (owner.None? && !claimed) then Find(labels, k)
        else if claimed then (match k
          case GpuManagedBy => Some(s.managedBy)
          case WorkloadConfig =>
            (match spec.mode
             case Default | TimeSlicing | MIG => Some("container")
             case PassThrough => Some("vm-passthrough")
             case VCUDA => Some("vcuda")
             case OtherMode(_) => None)
          case Operands => if spec.mode.OtherMode? then Some("false") else None
          case DevicePluginConfig => if s.dpName == "" then Find(labels, k) else Some(s.dpName)
          case MigConfig => if s.migName == "" then Find(labels, k) else Some(s.migName)
          case _ => Find(labels, k))
        else (match k
          case Operands => Some("false")
          case GpuManagedBy | WorkloadConfig | DevicePluginConfig | MigConfig => None
          case _ => Find(labels, k))
  {
    hide Updated, Matches, WorkloadOf;
    WorkloadIs(spec.mode);
    UpdatedAt(s, labels, k);
  }

  lemma DeliveredKeys(nodes: Nodes, writes: map<string, Write>, f: set<Op>)
    ensures Deliver(nodes, writes, f).Keys == nodes.Keys
  {
  }

  // ---------------------------------------------------------------- the status

  /** A rewritten configuration is one that changed. */
  lemma UpdatedIsChanged(h: Hashes, c: State, p: string, f: set<Op>)
    requires p in c.policies && ConfigsOk(h, c.dp, c.mig, p)
    ensures var s := SetUp(h, c.dp, c.mig, p, c.policies[p].spec, f);
      && (s.result == Done ==> (s.dpUpdated <==> s.dp != c.dp) && (s.migUpdated <==> s.mig != c.mig))
      && (s.result == Done ==> (PatchDp in s.issued <==> s.dp != c.dp) && (PatchMig in s.issued <==> s.mig != c.mig))
      && s.issued <= {PatchDp, PatchMig}
  {
    hide InstallAt, ConfigOk, DesiredDp, DesiredMigOf, DpNeeded, IsMigNoneStrategy, DpPanics, MigPanicsAt, KeyIn;
    hide InitialDpName, InitialMigName, WorkloadOf;
    var spec := c.policies[p].spec;
    InstalledIsChanged(c.dp, p, h.dp, DesiredDp(spec), DpNeeded(spec), false, GetDp, PatchDp, f);
    InstalledIsChanged(c.mig, p, h.mig, DesiredMigOf(spec), !IsMigNoneStrategy(spec.mig), true, GetMig, PatchMig, f);
  }

  lemma InstalledIsChanged<T>(config: Option<map<string, T>>, p: string, hash: T -> string, want: T, needed: bool,
                              rehash: bool, get: Op, patch: Op, f: set<Op>)
    requires ConfigOk(config, p, hash)
    ensures var r := Install(config, p, hash, want, needed, rehash, get, patch, f);
      r.ok ==> (r.updated <==> r.config != config) && (r.wrote <==> r.config != config)
  {
    hide PlaceAt, EntryOk, KeyIn;
    if config.Some? {
      ChangedExactly(config.value, p, hash, want);
    }
  }

  lemma ChangedExactly<T>(m: map<string, T>, p: string, hash: T -> string, want: T)
    requires EntryOk(m, p, hash)
    ensures var r := PlaceAt(m, KeyIn(Some(m), p), p, hash, want); r.changed <==> r.entries != m
  {
    hide EntryOk, PlaceAt;
    PlaceDoes(m, p, hash, want);
  }

  function RecordOf(pol: Policy, n: string): NodeStatus {
    if pol.status.Some? && n in pol.status.value then pol.status.value[n] else NodeStatus(None, None, None, None, None)
  }

  /** A sync flag after the reconcile: cleared where the node was written, otherwise raised where the
      configuration changed, otherwise as it was. */
  function SyncAfter(written: bool, changed: bool, before: bool): bool {
    if written then false else changed || before
  }

  /** The record of a node in the policy's mode: enabled from the first, with its sync flags. */
  function RecordAfter(mode: DeviceMode, before: NodeStatus, written: bool, dpChanged: bool,
                       migChanged: bool): NodeStatus {
    match mode
    case TimeSlicing =>
      var enabled, sync := before.timeSlicing.Some? ==> before.timeSlicing.value.enabled,
                           before.timeSlicing.Some? && before.timeSlicing.value.devicePluginSync;
      NodeStatus(Some(TimeSlicingStatus(enabled, SyncAfter(written, dpChanged, sync))), None, None, None, None)
    case MIG =>
      var enabled, dpSync, migSync := before.mig.Some? ==> before.mig.value.enabled,
                                      before.mig.Some? && before.mig.value.devicePluginSync,
                                      before.mig.Some? && before.mig.value.migPartedSync;
      var st := MigStatus(enabled, SyncAfter(written, dpChanged, dpSync), SyncAfter(written, migChanged, migSync));
      NodeStatus(None, Some(st), None, None, None)
    case Default => NodeStatus(None, None, Some(before.default_.Some? ==> before.default_.value), None, None)
    case PassThrough => NodeStatus(None, None, None, Some(before.passThrough.Some? ==> before.passThrough.value), None)
    case VCUDA => NodeStatus(None, None, None, None, Some(before.vcuda.Some? ==> before.vcuda.value))
    case OtherMode(_) => before
  }

  /** The stored status, record by record, in terms of what the reconcile changed in the cluster. */
  lemma LiveStatus(h: Hashes, c: State, p: string, f: set<Op>, n: string)
    requires p in c.policies && !c.policies[p].deleting && ConfigsOk(h, c.dp, c.mig, p)
    ensures var o, pol := ReconcileStep(h, c, p, f).state, c.policies[p];
      && p in o.policies
      && if ComesToNodes(c, p, f) && !Stops(pol.spec.nodeSelector, c.nodes) && PutStatus !in f then
           && o.policies[p].status.Some?
           && if n in c.nodes && Matches(pol.spec.nodeSelector, c.nodes[n].labels) then
                && n in o.nodes
                && Find(o.policies[p].status.value, n)
                   == Some(RecordAfter(pol.spec.mode, RecordOf(pol, n), o.nodes[n] != c.nodes[n], o.dp != c.dp,
                       o.mig != c.mig))
              else Find(o.policies[p].status.value, n) == (if pol.status.Some? then Find(pol.status.value, n) else None)
         else o.policies[p].status == pol.status
  {
    hide SetUpAt, FinishLive, NodeWrites, Deliver, Stops, Matches, DpStageFails, MigStageFails, ConfigOk, NewStatus;
    var pol := c.policies[p];
    var w := if RELEASE_FINALIZER in pol.finalizers then {} else {PutPolicy};
    var c1 := c.(policies := c.policies[p := WithFinalizer(pol)]);
    var s := SetUp(h, c.dp, c.mig, p, pol.spec, f);
    SetUpDone(h, c, p, f);
    UpdatedIsChanged(h, c, p, f);
    FinishStatusIs(c1, p, s, w, f);
    if ComesToNodes(c, p, f) && !Stops(pol.spec.nodeSelector, c.nodes) && PutStatus !in f {
      NewRecord(c.nodes, WithFinalizer(pol), s, f, n);
    }
  }

  lemma FinishStatusIs(c: State, p: string, s: Setup, w: set<Op>, f: set<Op>)
    requires p in c.policies
    ensures var o, pol := FinishLive(c, p, s, w, f).state, c.policies[p];
      var writes, claimed := NodeWrites(pol.spec, s.stamp, c.nodes), Select(c.nodes, pol.spec.nodeSelector).Keys;
      && p in o.policies && o.dp == s.dp && o.mig == s.mig
      && (!Stops(pol.spec.nodeSelector, c.nodes) ==> o.nodes == Deliver(c.nodes, writes, f))
      && o.policies[p].status
         == if Stops(pol.spec.nodeSelector, c.nodes) || PutStatus in f then pol.status
            else NewStatus(pol, claimed, Accepted(c.nodes, writes, f) * claimed, s.dpUpdated, s.migUpdated)
  {
    hide NewStatus, NodeWrites, Deliver, Accepted, Select, WriteOps, Stops;
  }

  lemma NewRecord(nodes: Nodes, pol: Policy, s: Setup, f: set<Op>, n: string)
    ensures var writes, claimed := NodeWrites(pol.spec, s.stamp, nodes), Select(nodes, pol.spec.nodeSelector).Keys;
      var after := Deliver(nodes, writes, f);
      var status := NewStatus(pol, claimed, Accepted(nodes, writes, f) * claimed, s.dpUpdated, s.migUpdated);
      && status.Some?
      && if n in nodes && Matches(pol.spec.nodeSelector, nodes[n].labels) then
           && n in after
           && Find(status.value, n)
              == Some(RecordAfter(pol.spec.mode, RecordOf(pol, n), after[n] != nodes[n], s.dpUpdated, s.migUpdated))
         else Find(status.value, n) == (if pol.status.Some? then Find(pol.status.value, n) else None)
  {
    hide NodeWrites, Matches, NextLabels, Touched, RecordAfter;
    var writes, claimed := NodeWrites(pol.spec, s.stamp, nodes), Select(nodes, pol.spec.nodeSelector).Keys;
    var before := RecordOf(pol, n);
    var d, m := Flag(s.dpUpdated), Flag(s.migUpdated);
    TouchedRecord(pol.spec.mode, before, s.dpUpdated, s.migUpdated);
    DeliveredKeys(nodes, writes, f);
    if n in nodes {
      StepNodeAt(nodes, pol.spec, s.stamp, f, n);
    }
  }

  lemma TouchedRecord(mode: DeviceMode, before: NodeStatus, dpUpdated: bool, migUpdated: bool)
    ensures var once := Touched(mode, before, Flag(dpUpdated), Flag(migUpdated));
      && once == RecordAfter(mode, before, false, dpUpdated, migUpdated)
      && Touched(mode, once, Some(false), Some(false)) == RecordAfter(mode, before, true, dpUpdated, migUpdated)
  {
  }

  // ---------------------------------------------------------------- the result and the writes

  /** The configuration stages by the fields of the spec: one fails where its map cannot be read, where
      the first entry is to go into a map without any, or where the write of a new or different entry is
      lost; the mig file besides where the mig block is gone that an entry was made from. */
  lemma StageFailures(h: Hashes, c: State, p: string, f: set<Op>)
    requires p in c.policies && ConfigsOk(h, c.dp, c.mig, p)
    ensures var spec := c.policies[p].spec;
      var asksMig := spec.mig.Some? && spec.mig.value.configSlice != [] && spec.mig.value.strategy != "";
      var asksDp := spec.timeSlicing.Some? || asksMig;
      && (DpStageFails(c, p, f) <==>
            || GetDp in f || c.dp.None? || (c.dp.value == map[] && asksDp)
            || (PatchDp in f && OwnKeys(c.dp.value, p) == {} && asksDp)
            || (PatchDp in f && exists k :: k in c.dp.value && Owns(p, k) && c.dp.value[k] != DesiredDp(spec)))
      && (MigStageFails(c, p, f) <==>
            || GetMig in f || c.mig.None? || (c.mig.value == map[] && asksMig)
            || (OwnKeys(c.mig.value, p) != {} && spec.mig.None?)
            || (PatchMig in f && OwnKeys(c.mig.value, p) == {} && asksMig)
            || (PatchMig in f && spec.mig.Some?
                && exists k :: k in c.mig.value && Owns(p, k) && c.mig.value[k] != DesiredMig(spec.mig.value)))
  {
    hide Owns, OwnKeys, OwnKey, DesiredDp, DesiredMig, DpPanics, MigPanicsAt, EntryOk, IsMigNoneStrategy;
    var spec := c.policies[p].spec;
    var asksMig := spec.mig.Some? && spec.mig.value.configSlice != [] && spec.mig.value.strategy != "";
    PanicsAre(h, c, p);
    assert !IsMigNoneStrategy(spec.mig) <==> asksMig by {
      Asks(spec.mig);
    }
    if c.dp.Some? {
      OnlyOwn(c.dp.value, p, h.dp);
    }
    if c.mig.Some? {
      OnlyOwn(c.mig.value, p, h.mig);
    }
  }

  lemma Asks(mig: Option<MigSpec>)
    ensures IsMigNoneStrategy(mig) <==> !(mig.Some? && mig.value.configSlice != [] && mig.value.strategy != "")
  {
  }

  lemma OnlyOwn<T>(m: map<string, T>, p: string, hash: T -> string)
    requires EntryOk(m, p, hash)
    ensures OwnKey(m, p) in m <==> OwnKeys(m, p) != {}
    ensures OwnKey(m, p) in m ==> Owns(p, OwnKey(m, p))
    ensures forall k :: k in m && Owns(p, k) ==> k == OwnKey(m, p)
  {
    hide Owns;
    OwnKeyIs(m, p);
    DeletionOutcome.OneKey(m, p, hash);
    forall k | k in m && Owns(p, k) ensures k == OwnKey(m, p) {
      assert k in OwnKeys(m, p);
    }
  }

  /** It panics exactly where it adds the first entry of a map, where a mig entry is left over from a mig
      block that is gone, and where a claimed node has no labels, each if it comes that far. */
  lemma PanicIff(h: Hashes, c: State, p: string, f: set<Op>)
    requires p in c.policies && !c.policies[p].deleting && ConfigsOk(h, c.dp, c.mig, p)
    ensures var spec := c.policies[p].spec;
      var asksMig := spec.mig.Some? && spec.mig.value.configSlice != [] && spec.mig.value.strategy != "";
      && (ReconcileStep(h, c, p, f).result == Panicked
          <==> Reaches(c, p, f)
               && (|| ((spec.mode == TimeSlicing || spec.mode == MIG) && GetDp !in f && c.dp == Some(map[])
                       && (spec.timeSlicing.Some? || asksMig))
                   || (spec.mode == MIG && !DpStageFails(c, p, f) && GetMig !in f && c.mig.Some?
                       && ((c.mig.value == map[] && asksMig) || (OwnKeys(c.mig.value, p) != {} && spec.mig.None?)))
                   || (ComesToNodes(c, p, f)
                       && exists n :: n in c.nodes && c.nodes[n].labels == map[]
                                 && Matches(spec.nodeSelector, c.nodes[n].labels))))
      && ReconcileStep(h, c, p, f).result != Waiting
  {
    hide SetUpAt, FinishLive, NodeWrites, Deliver, LiveFaults, DpStageFails, MigStageFails, ConfigOk, Matches, OwnKeys;
    var pol := c.policies[p];
    var c1 := c.(policies := c.policies[p := WithFinalizer(pol)]);
    var s := SetUp(h, c.dp, c.mig, p, pol.spec, f);
    SetUpDone(h, c, p, f);
    SetUpPanics(h, c, p, f);
    Retry.FinishLiveFacts(c1, p, s, if RELEASE_FINALIZER in pol.finalizers then {} else {PutPolicy}, f);
  }

  lemma SetUpPanics(h: Hashes, c: State, p: string, f: set<Op>)
    requires p in c.policies && ConfigsOk(h, c.dp, c.mig, p)
    ensures var spec := c.policies[p].spec;
      var asksMig := spec.mig.Some? && spec.mig.value.configSlice != [] && spec.mig.value.strategy != "";
      && (SetUp(h, c.dp, c.mig, p, spec, f).result == Panicked
          <==> || ((spec.mode == TimeSlicing || spec.mode == MIG) && GetDp !in f && c.dp == Some(map[])
                   && (spec.timeSlicing.Some? || asksMig))
               || (spec.mode == MIG && !DpStageFails(c, p, f) && GetMig !in f && c.mig.Some?
                   && ((c.mig.value == map[] && asksMig) || (OwnKeys(c.mig.value, p) != {} && spec.mig.None?))))
      && SetUp(h, c.dp, c.mig, p, spec, f).result != Waiting
  {
    hide PlaceAt, DesiredDp, DesiredMigOf, KeyIn, InitialDpName, InitialMigName, WorkloadOf, EntryName, OwnKeys, OwnKey;
    hide InstallAt, ConfigOk, EntryOk;
    StageWhen(c.dp, p, h.dp, DesiredDp(c.policies[p].spec), DpNeeded(c.policies[p].spec), false, GetDp, PatchDp, f);
    PanicsAre(h, c, p);
  }

  lemma PanicsAre(h: Hashes, c: State, p: string)
    requires p in c.policies && ConfigsOk(h, c.dp, c.mig, p)
    ensures var spec := c.policies[p].spec;
      var asksMig := spec.mig.Some? && spec.mig.value.configSlice != [] && spec.mig.value.strategy != "";
      && (DpPanics(c.dp, spec) <==> c.dp == Some(map[]) && (spec.timeSlicing.Some? || asksMig))
      && (MigPanics(c.mig, p, spec) <==>
            c.mig.Some?
            && ((c.mig.value == map[] && asksMig) || (OwnKeys(c.mig.value, p) != {} && spec.mig.None?)))
  {
    hide OwnKeys;
    if c.dp.Some? {
      assert c.dp.value.Keys == {} <==> c.dp.value == map[];
    }
    if c.mig.Some? {
      OwnKeyIs(c.mig.value, p);
      assert c.mig.value.Keys == {} <==> c.mig.value == map[];
    }
  }

  function ReadsOf(mode: DeviceMode): set<Op> {
    match mode
    case TimeSlicing => {GetDp}
    case MIG => {GetDp, GetMig}
    case _ => {}
  }

  lemma SetUpSame(h: Hashes, dp: Option<DpData>, mig: Option<MigData>, p: string, spec: GpuSpec, f: set<Op>)
    ensures var s, clean := SetUp(h, dp, mig, p, spec, f), SetUp(h, dp, mig, p, spec, {});
      && (s.result == Done <==> clean.result == Done && f !! clean.issued + ReadsOf(spec.mode))
      && (s.result == Done ==> s == clean)
  {
    hide InstallDpAt, InstallMigAt, DpPanics, MigPanicsAt, KeyIn, InitialDpName, InitialMigName, WorkloadOf;
    InstallDpSame(h, dp, KeyIn(dp, p), p, spec, f);
    InstallMigSame(h, mig, KeyIn(mig, p), p, spec, f);
  }

  lemma InstallDpSame(h: Hashes, dp: Option<DpData>, key: string, p: string, spec: GpuSpec, f: set<Op>)
    ensures var r, clean := InstallDpAt(h, dp, key, p, spec, f), InstallDpAt(h, dp, key, p, spec, {});
      && (r.ok <==> clean.ok && GetDp !in f && (clean.wrote ==> PatchDp !in f))
      && (r.ok ==> r == clean)
  {
    hide InstallAt, DesiredDp, DpNeeded;
    InstallSame(dp, key, p, h.dp, DesiredDp(spec), DpNeeded(spec), false, GetDp, PatchDp, f);
  }

  lemma InstallMigSame(h: Hashes, mig: Option<MigData>, key: string, p: string, spec: GpuSpec, f: set<Op>)
    ensures var r, clean := InstallMigAt(h, mig, key, p, spec, f), InstallMigAt(h, mig, key, p, spec, {});
      && (r.ok <==> clean.ok && GetMig !in f && (clean.wrote ==> PatchMig !in f))
      && (r.ok ==> r == clean)
  {
    hide InstallAt, DesiredMigOf, IsMigNoneStrategy;
    InstallSame(mig, key, p, h.mig, DesiredMigOf(spec), !IsMigNoneStrategy(spec.mig), true, GetMig, PatchMig, f);
  }

  lemma InstallSame<T>(config: Option<map<string, T>>, key: string, p: string, hash: T -> string, want: T, needed: bool,
                       rehash: bool, get: Op, patch: Op, f: set<Op>)
    ensures var r := InstallAt(config, key, p, hash, want, needed, rehash, get, patch, f);
      var clean := InstallAt(config, key, p, hash, want, needed, rehash, get, patch, {});
      && (r.ok <==> clean.ok && get !in f && (clean.wrote ==> patch !in f))
      && (r.ok ==> r == clean)
  {
    hide PlaceAt, EntryName;
  }

  lemma DeliverSame(nodes: Nodes, spec: GpuSpec, s: Stamp, f: set<Op>)
    ensures var writes := NodeWrites(spec, s, nodes);
      && Accepted(nodes, writes, {}) == writes.Keys
      && (Accepted(nodes, writes, f) == writes.Keys <==> f !! WriteOps(writes.Keys))
      && (f !! WriteOps(writes.Keys) ==> Deliver(nodes, writes, f) == Deliver(nodes, writes, {}))
  {
    hide NodeWrite, NextLabels;
    var writes := NodeWrites(spec, s, nodes);
    forall n | n in writes
      ensures n in Accepted(nodes, writes, {})
      ensures n in Accepted(nodes, writes, f) <==> WriteNode(n) !in f
    {
      StepNodeAt(nodes, spec, s, {}, n);
      StepNodeAt(nodes, spec, s, f, n);
    }
    if Accepted(nodes, writes, f) == writes.Keys {
      forall n | n in writes ensures WriteNode(n) !in f {
        assert n in Accepted(nodes, writes, f);
      }
    } else if f !! WriteOps(writes.Keys) {
      forall n | n in writes ensures n in Accepted(nodes, writes, f) {
        assert WriteNode(n) in WriteOps(writes.Keys);
      }
    }
  }

  lemma FinishSame(c: State, p: string, s: Setup, w: set<Op>, f: set<Op>)
    requires p in c.policies
    ensures var o, clean := FinishLive(c, p, s, w, f), FinishLive(c, p, s, w, {});
      && (clean.result == Done ==>
            clean.issued == w + s.issued + WriteOps(NodeWrites(c.policies[p].spec, s.stamp, c.nodes).Keys)
                            + (if clean.state.policies[p].status != c.policies[p].status then {PutStatus} else {}))
      && (o.result == Done
          <==> clean.result == Done && f !! WriteOps(NodeWrites(c.policies[p].spec, s.stamp, c.nodes).Keys)
               && (clean.state.policies[p].status != c.policies[p].status ==> PutStatus !in f))
      && (o.result == Done ==> o == clean)
  {
    hide NewStatus, NodeWrites, Deliver, Accepted, Select, WriteOps, Stops;
    DeliverSame(c.nodes, c.policies[p].spec, s.stamp, f);
  }

  /** A reconcile succeeds exactly when an undisturbed one would and none of the calls that one makes
      fails, and then it is that one: a success never hides a lost write. */
  lemma SuccessIff(h: Hashes, c: State, p: string, f: set<Op>)
    requires p in c.policies && !c.policies[p].deleting
    ensures var o, clean := ReconcileStep(h, c, p, f), ReconcileStep(h, c, p, {});
      && (o.result == Done
          <==> clean.result == Done
               && f !! clean.issued + {GetPolicy, ListNodes} + ReadsOf(c.policies[p].spec.mode))
      && (o.result == Done ==> o == clean)
  {
    hide SetUpAt, FinishLive, WriteOps, NodeWrites;
    var pol := c.policies[p];
    var w: set<Op> := if RELEASE_FINALIZER in pol.finalizers then {} else {PutPolicy};
    var c1 := c.(policies := c.policies[p := WithFinalizer(pol)]);
    var s := SetUp(h, c.dp, c.mig, p, pol.spec, {});
    SetUpSame(h, c.dp, c.mig, p, pol.spec, f);
    FinishSame(c1, p, s, w, f);
  }

  function ChangedNodes(before: Nodes, after: Nodes): set<string> {
    set n | n in before && n in after && after[n] != before[n]
  }

  /** A success issues exactly the writes that change something: the policy where the finalizer was
      missing, the configurations and nodes that differ afterwards, the status where it does. A node
      that is written moves on by one version and changes its labels. */
  lemma WritesWhatChanges(h: Hashes, c: State, p: string, f: set<Op>)
    requires p in c.policies && !c.policies[p].deleting && ConfigsOk(h, c.dp, c.mig, p)
    requires ReconcileStep(h, c, p, f).result == Done
    ensures var r, pol := ReconcileStep(h, c, p, f), c.policies[p];
      var o := r.state;
      && p in o.policies
      && r.issued
         == (if "release.finalizers.ecns.easystack.io" !in pol.finalizers then {PutPolicy} else {})
            + (if o.dp != c.dp then {PatchDp} else {}) + (if o.mig != c.mig then {PatchMig} else {})
            + WriteOps(ChangedNodes(c.nodes, o.nodes))
            + (if o.policies[p].status != pol.status then {PutStatus} else {})
      && (forall n :: n in ChangedNodes(c.nodes, o.nodes) ==>
            o.nodes[n].version == c.nodes[n].version + 1 && o.nodes[n].labels != c.nodes[n].labels)
  {
    hide SetUpAt, FinishLive, WriteOps, NodeWrites, ChangedNodes, ConfigOk, Deliver;
    var pol := c.policies[p];
    var w: set<Op> := if RELEASE_FINALIZER in pol.finalizers then {} else {PutPolicy};
    var c1 := c.(policies := c.policies[p := WithFinalizer(pol)]);
    var s := SetUp(h, c.dp, c.mig, p, pol.spec, {});
    SuccessIff(h, c, p, f);
    FinishSame(c1, p, s, w, {});
    Retry.FinishLiveFacts(c1, p, s, w, {});
    UpdatedIsChanged(h, c, p, {});
    WrittenIsChanged(c.nodes, pol.spec, s.stamp);
  }

  lemma WrittenIsChanged(nodes: Nodes, spec: GpuSpec, s: Stamp)
    ensures var after := Deliver(nodes, NodeWrites(spec, s, nodes), {});
      && ChangedNodes(nodes, after) == NodeWrites(spec, s, nodes).Keys
      && (forall n :: n in ChangedNodes(nodes, after) ==>
            after[n].version == nodes[n].version + 1 && after[n].labels != nodes[n].labels)
  {
    hide NodeWrites, NextLabels;
    forall n | n in nodes {
      StepNodeAt(nodes, spec, s, {}, n);
    }
    forall n | n !in nodes ensures n !in NodeWrites(spec, s, nodes) {
      Retry.NotWritten(spec, s, nodes, n);
    }
    DeliveredKeys(nodes, NodeWrites(spec, s, nodes), {});
  }

  /** The labels a success leaves on every node the policy may have: it is the theorem above with nothing
      left out. */
  lemma SuccessLabels(h: Hashes, c: State, p: string, f: set<Op>, n: string)
    requires p in c.policies && !c.policies[p].deleting && ConfigsOk(h, c.dp, c.mig, p)
    requires ReconcileStep(h, c, p, f).result == Done
    requires n in c.nodes && Matches(c.policies[p].spec.nodeSelector, c.nodes[n].labels)
    requires Owner(c.nodes[n].labels) == None || Owner(c.nodes[n].labels) == Some(p)
    ensures var o, mode := ReconcileStep(h, c, p, f).state, c.policies[p].spec.mode;
      && n in o.nodes
      && Find(o.nodes[n].labels, GpuManagedBy) == Some(p)
      && Find(o.nodes[n].labels, DevicePluginConfig)
         == (match mode
             case Default => Some("default")
             case TimeSlicing | MIG =>
               if KeyIn(o.dp, p) == "" then Find(c.nodes[n].labels, DevicePluginConfig) else Some(KeyIn(o.dp, p))
             case _ => Find(c.nodes[n].labels, DevicePluginConfig))
      && Find(o.nodes[n].labels, MigConfig)
         == if mode != MIG then Some("all-disabled")
            else if KeyIn(o.mig, p) == "" then Find(c.nodes[n].labels, MigConfig) else Some(KeyIn(o.mig, p))
  {
    hide ReconcileStep, ComesToNodes, Matches, ConfigOk, Stops, KeyIn;
    SuccessIff(h, c, p, f);
    LiveStages(h, c, p, {});
    NoStop(h, c, p);
    LiveLabels(h, c, p, {}, n, GpuManagedBy);
    LiveLabels(h, c, p, {}, n, DevicePluginConfig);
    LiveLabels(h, c, p, {}, n, MigConfig);
  }

  lemma NoStop(h: Hashes, c: State, p: string)
    requires p in c.policies && !c.policies[p].deleting && ReconcileStep(h, c, p, {}).result == Done
    ensures !Stops(c.policies[p].spec.nodeSelector, c.nodes)
  {
    hide SetUpAt, FinishLive, Stops;
    var pol := c.policies[p];
    var c1 := c.(policies := c.policies[p := WithFinalizer(pol)]);
    var s := SetUp(h, c.dp, c.mig, p, pol.spec, {});
    Retry.CleanIsDone(c1, p, s, if RELEASE_FINALIZER in pol.finalizers then {} else {PutPolicy});
  }
}

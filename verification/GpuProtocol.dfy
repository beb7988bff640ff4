/** One reconcile of a GPU policy as a function: from the cluster state, the policy's name and the
    set of calls that fail, to the state it leaves behind, its result and the writes it issues.
    GpuReconciler proves that the controller's loops compute this; the other modules prove what
    it means over runs. */
module GpuProtocol {
  import opened Options
  import opened MergePatch
  import opened Api
  import opened GpuControls
  import opened ConfigEntries
  import opened Cluster

  /** ComputeHash of the serialized content of an entry. */
  datatype Hashes = Hashes(dp: DpConfig -> string, mig: MigEntry -> string)

  datatype Result = Done | Failed | Waiting | Panicked

  datatype Outcome = Outcome(state: State, result: Result, issued: set<Op>)

  // ---------------------------------------------------------------- node edits

  /** What a pass over a node list does to each item. */
  datatype Edit = Adopt(stamp: Stamp) | Update(stamp: Stamp) | Release | Revert

  function EditLabels(e: Edit, labels: Labels): Labels {
    match e
    case Adopt(s) => if Owner(labels).Some? && Owner(labels) != Some(s.managedBy) then labels else Updated(s, labels)
    case Update(s) => Updated(s, labels)
    case Release => Released(labels)
    case Revert => if Lookup(labels, MigConfig) != ALL_DISABLED then Reverted(labels) else labels
  }

  /** The write for one item; none when its labels are already right. Adoption replaces the node it
      read, the other passes send only the difference. */
  function WriteOf(e: Edit, o: Obj): Option<Write> {
    var labels := EditLabels(e, o.labels);
    if labels == o.labels then None
    else if e.Adopt? then Some(Put(o.version, labels))
    else Some(Write.Merge(Diff(o.labels, labels)))
  }

  function Writes(e: Edit, items: Nodes): map<string, Write> {
    map n | n in items && WriteOf(e, items[n]).Some? :: WriteOf(e, items[n]).value
  }

  /** Which pass a node of a fresh list falls in. */
  function EditFor(spec: GpuSpec, s: Stamp, labels: Labels): Option<Edit> {
    var claimed, mine := Matches(spec.nodeSelector, labels), Owner(labels) == Some(s.managedBy);
    if claimed then Some(if mine then Update(s) else Adopt(s))
    else if mine then Some(Release) else None
  }

  function NodeWrite(spec: GpuSpec, s: Stamp, o: Obj): Option<Write> {
    var e := EditFor(spec, s, o.labels);
    if e.None? then None else WriteOf(e.value, o)
  }

  function NodeWrites(spec: GpuSpec, s: Stamp, nodes: Nodes): map<string, Write> {
    map n | n in nodes && NodeWrite(spec, s, nodes[n]).Some? :: NodeWrite(spec, s, nodes[n]).value
  }

  // ---------------------------------------------------------------- status

  function Touched(mode: DeviceMode, st: NodeStatus, dpSync: Option<bool>, migSync: Option<bool>): NodeStatus {
    match mode
    case TimeSlicing =>
      var old_ := if st.timeSlicing.Some? then st.timeSlicing.value else TimeSlicingStatus(true, false);
      var ts := if dpSync.Some? then old_.(devicePluginSync := dpSync.value) else old_;
      NO_STATUS.(timeSlicing := Some(ts))
    case MIG =>
      var old_ := if st.mig.Some? then st.mig.value else MigStatus(true, false, false);
      var m1 := if dpSync.Some? then old_.(devicePluginSync := dpSync.value) else old_;
      var m2 := if migSync.Some? then m1.(migPartedSync := migSync.value) else m1;
      NO_STATUS.(mig := Some(m2))
    case Default => NO_STATUS.(default_ := if st.default_.Some? then st.default_ else Some(true))
    case VCUDA => NO_STATUS.(vcuda := if st.vcuda.Some? then st.vcuda else Some(true))
    case PassThrough => NO_STATUS.(passThrough := if st.passThrough.Some? then st.passThrough else Some(true))
    case OtherMode(_) => st
  }

  function StatusOf(status: map<string, NodeStatus>, n: string): NodeStatus {
    if n in status then status[n] else NO_STATUS
  }

  function Touch(status: map<string, NodeStatus>, mode: DeviceMode, names: set<string>,
                 dpSync: Option<bool>, migSync: Option<bool>): map<string, NodeStatus> {
    map n | n in status.Keys + names ::
      if n in names then Touched(mode, StatusOf(status, n), dpSync, migSync) else status[n]
  }

  function OrEmpty(status: PolicyStatus): map<string, NodeStatus> {
    if status.Some? then status.value else map[]
  }

  function Flag(updated: bool): Option<bool> {
    if updated then Some(true) else None
  }

  // ---------------------------------------------------------------- shared configurations

  /** The keys that the two lookups of a reconcile report. */
  datatype Found = Found(dp: string, mig: string)

  /** What they may report; where a policy has several entries it depends on Go's map order. */
  ghost predicate MayReport(dp: Option<DpData>, mig: Option<MigData>, p: string, k: Found) {
    && (if dp.Some? then MayFind(dp.value, p, k.dp) else k.dp == "")
    && (if mig.Some? then MayFind(mig.value, p, k.mig) else k.mig == "")
  }

  ghost function KeyIn<T>(config: Option<map<string, T>>, p: string): string {
    if config.Some? then OwnKey(config.value, p) else ""
  }

  ghost function FoundIn(dp: Option<DpData>, mig: Option<MigData>, p: string): Found {
    Found(KeyIn(dp, p), KeyIn(mig, p))
  }

  datatype Installed<T> = Installed(config: Option<map<string, T>>, name: string, updated: bool, ok: bool, wrote: bool)

  /** Makes `want` the policy's entry, found under `key`, unless the policy has none and needs none. */
  function InstallAt<T(==)>(config: Option<map<string, T>>, key: string, p: string, hash: T -> string, want: T,
                            needed: bool, rehash: bool, get: Op, patch: Op, f: set<Op>): Installed<T> {
    if get in f || config.None? then Installed(config, "", false, false, false)
    else if key !in config.value && !needed then Installed(config, key, false, true, false)
    else
      var r := PlaceAt(config.value, key, p, hash, want);
      var name := if r.changed || rehash then EntryName(p, hash(want)) else r.name;
      if !r.changed then Installed(config, name, false, true, false)
      else if patch in f then Installed(config, name, false, false, true)
      else Installed(Some(r.entries), name, true, true, true)
  }

  ghost function Install<T>(config: Option<map<string, T>>, p: string, hash: T -> string, want: T, needed: bool,
                            rehash: bool, get: Op, patch: Op, f: set<Op>): Installed<T> {
    InstallAt(config, KeyIn(config, p), p, hash, want, needed, rehash, get, patch, f)
  }

  datatype Removed<T> = Removed(config: Option<map<string, T>>, ok: bool, wrote: bool)

  function RemoveAt<T>(config: Option<map<string, T>>, key: string, get: Op, patch: Op, f: set<Op>): Removed<T> {
    if get in f then Removed(config, false, false)
    else if config.None? || key !in config.value then Removed(config, true, false)
    else if patch in f then Removed(config, false, true)
    else Removed(Some(config.value - {key}), true, true)
  }

  ghost function Remove<T>(config: Option<map<string, T>>, p: string, get: Op, patch: Op, f: set<Op>): Removed<T> {
    RemoveAt(config, KeyIn(config, p), get, patch, f)
  }

  datatype Setup = Setup(dp: Option<DpData>, mig: Option<MigData>, stamp: Stamp, dpUpdated: bool, migUpdated: bool,
                         result: Result, issued: set<Op>)

  predicate DpNeeded(spec: GpuSpec) {
    spec.timeSlicing.Some? || !IsMigNoneStrategy(spec.mig)
  }

  function InstallDpAt(h: Hashes, dp: Option<DpData>, key: string, p: string, spec: GpuSpec,
                       f: set<Op>): Installed<DpConfig> {
    InstallAt(dp, key, p, h.dp, DesiredDp(spec), DpNeeded(spec), false, GetDp, PatchDp, f)
  }

  ghost function InstallDp(h: Hashes, dp: Option<DpData>, p: string, spec: GpuSpec, f: set<Op>): Installed<DpConfig> {
    InstallDpAt(h, dp, KeyIn(dp, p), p, spec, f)
  }

  /** A configuration without any entry is stored without its map and reads back as a nil map, to
      which no entry can be added. */
  predicate NilMap<T>(config: Option<map<string, T>>) {
    config.Some? && config.value.Keys == {}
  }

  predicate DpPanics(dp: Option<DpData>, spec: GpuSpec) {
    NilMap(dp) && DpNeeded(spec)
  }

  /** Besides, the mig block of the spec is read without a check once the policy has an entry. */
  predicate MigPanicsAt(mig: Option<MigData>, key: string, spec: GpuSpec) {
    || (NilMap(mig) && !IsMigNoneStrategy(spec.mig))
    || (mig.Some? && key in mig.value && spec.mig.None?)
  }

  ghost predicate MigPanics(mig: Option<MigData>, p: string, spec: GpuSpec) {
    MigPanicsAt(mig, KeyIn(mig, p), spec)
  }

  function DesiredMigOf(spec: GpuSpec): MigEntry {
    if spec.mig.Some? then DesiredMig(spec.mig.value) else []
  }

  function InstallMigAt(h: Hashes, mig: Option<MigData>, key: string, p: string, spec: GpuSpec,
                        f: set<Op>): Installed<MigEntry> {
    InstallAt(mig, key, p, h.mig, DesiredMigOf(spec), !IsMigNoneStrategy(spec.mig), true, GetMig, PatchMig, f)
  }

  ghost function InstallMig(h: Hashes, mig: Option<MigData>, p: string, spec: GpuSpec,
                            f: set<Op>): Installed<MigEntry> {
    InstallMigAt(h, mig, KeyIn(mig, p), p, spec, f)
  }

  function SetUpAt(h: Hashes, dp: Option<DpData>, mig: Option<MigData>, p: string, spec: GpuSpec, k: Found,
                   f: set<Op>): Setup {
    var s0 := Stamp(WorkloadOf(spec.mode), p, InitialDpName(spec.mode), InitialMigName(spec.mode));
    if spec.mode != TimeSlicing && spec.mode != MIG then Setup(dp, mig, s0, false, false, Done, {})
    else if GetDp !in f && DpPanics(dp, spec) then Setup(dp, mig, s0, false, false, Panicked, {})
    else
      var d := InstallDpAt(h, dp, k.dp, p, spec, f);
      var w1 := if d.wrote then {PatchDp} else {};
      var s1 := s0.(dpName := d.name);
      if !d.ok then Setup(d.config, mig, s1, false, false, Failed, w1)
      else if spec.mode == TimeSlicing then Setup(d.config, mig, s1, d.updated, false, Done, w1)
      else if GetMig !in f && MigPanicsAt(mig, k.mig, spec)
          then Setup(d.config, mig, s1, d.updated, false, Panicked, w1)
      else
        var m := InstallMigAt(h, mig, k.mig, p, spec, f);
        var w2 := if m.wrote then {PatchMig} else {};
        Setup(d.config, m.config, s1.(migName := m.name), d.updated, m.updated, if m.ok then Done else Failed, w1 + w2)
  }

  ghost function SetUp(h: Hashes, dp: Option<DpData>, mig: Option<MigData>, p: string, spec: GpuSpec,
                       f: set<Op>): Setup {
    SetUpAt(h, dp, mig, p, spec, FoundIn(dp, mig, p), f)
  }

  // ---------------------------------------------------------------- the reconcile

  function NewStatus(pol: Policy, claimed: set<string>, written: set<string>, dpUpdated: bool,
                     migUpdated: bool): PolicyStatus {
    var listed := Touch(OrEmpty(pol.status), pol.spec.mode, claimed, Flag(dpUpdated), Flag(migUpdated));
    Some(Touch(listed, pol.spec.mode, written, Some(false), Some(false)))
  }

  function WithFinalizer(pol: Policy): Policy {
    if RELEASE_FINALIZER in pol.finalizers then pol else pol.(finalizers := pol.finalizers + [RELEASE_FINALIZER])
  }

  /** What such a panic in the first pass leaves unwritten: the bare nodes themselves and the nodes of
      the later passes. */
  function NotReached(p: string, nodes: Nodes): set<string> {
    set n | n in nodes && (Bare(nodes[n]) || Owner(nodes[n].labels) == Some(p))
  }

  /** Steps 1 to 3 left the stamp `s.stamp`; what remains is nodes and status. */
  function FinishLive(c: State, p: string, s: Setup, w: set<Op>, f: set<Op>): Outcome
    requires p in c.policies
  {
    var pol := c.policies[p];
    var writes := NodeWrites(pol.spec, s.stamp, c.nodes);
    if Stops(pol.spec.nodeSelector, c.nodes) then
      var late := NotReached(p, c.nodes);
      Outcome(State(Deliver(c.nodes, writes, f + WriteOps(late)), c.policies, s.dp, s.mig), Panicked,
              w + s.issued + WriteOps(writes.Keys - late))
    else
      var accepted := Accepted(c.nodes, writes, f);
      var claimed := Select(c.nodes, pol.spec.nodeSelector).Keys;
      var nodes := Deliver(c.nodes, writes, f);
      var status := NewStatus(pol, claimed, accepted * claimed, s.dpUpdated, s.migUpdated);
      var w1 := w + s.issued + WriteOps(writes.Keys);
      var c1 := State(nodes, c.policies, s.dp, s.mig);
      var nodesResult := if accepted == writes.Keys then Done else Failed;
      if status == pol.status then Outcome(c1, nodesResult, w1)
      else if PutStatus in f then Outcome(c1, Failed, w1 + {PutStatus})
      else Outcome(c1.(policies := c.policies[p := pol.(status := status)]), nodesResult, w1 + {PutStatus})
  }

  function ReconcileLiveAt(h: Hashes, c: State, p: string, k: Found, f: set<Op>): Outcome
    requires p in c.policies
  {
    var pol := c.policies[p];
    var w := if RELEASE_FINALIZER in pol.finalizers then {} else {PutPolicy};
    if w != {} && PutPolicy in f then Outcome(c, Failed, w)
    else
      var c1 := c.(policies := c.policies[p := WithFinalizer(pol)]);
      if ListNodes in f then Outcome(c1, Failed, w)
      else
        var s := SetUpAt(h, c.dp, c.mig, p, pol.spec, k, f);
        if s.result != Done then Outcome(c1.(dp := s.dp, mig := s.mig), s.result, w + s.issued)
        else FinishLive(c1, p, s, w, f)
  }

  ghost function ReconcileLive(h: Hashes, c: State, p: string, f: set<Op>): Outcome
    requires p in c.policies
  {
    ReconcileLiveAt(h, c, p, FoundIn(c.dp, c.mig, p), f)
  }

  function Mine(c: State, p: string): Nodes {
    Select(c.nodes, map[GpuManagedBy := p])
  }

  function WithoutFinalizer(fs: seq<string>): seq<string> {
    if fs == [] then []
    else
      var rest := WithoutFinalizer(fs[..|fs| - 1]);
      if fs[|fs| - 1] == RELEASE_FINALIZER then rest else rest + [fs[|fs| - 1]]
  }

  /** The nodes are released; what remains is the two entries and the finalizer. */
  function FinishDeletedAt(c: State, p: string, k: Found, w: set<Op>, f: set<Op>): Outcome
    requires p in c.policies
  {
    var pol := c.policies[p];
    var d := RemoveAt(c.dp, k.dp, GetDp, PatchDp, f);
    var w1 := w + if d.wrote then {PatchDp} else {};
    var c1 := c.(dp := d.config);
    if !d.ok then Outcome(c1, Failed, w1)
    else
      var m := RemoveAt(c.mig, k.mig, GetMig, PatchMig, f);
      var w2 := w1 + if m.wrote then {PatchMig} else {};
      var c2 := c1.(mig := m.config);
      if !m.ok then Outcome(c2, Failed, w2)
      else if PutPolicy in f then Outcome(c2, Failed, w2 + {PutPolicy})
      else
        var kept := pol.(finalizers := WithoutFinalizer(pol.finalizers));
        Outcome(c2.(policies := StorePolicy(c.policies, p, kept)), Done, w2 + {PutPolicy})
  }

  ghost function FinishDeleted(c: State, p: string, w: set<Op>, f: set<Op>): Outcome
    requires p in c.policies
  {
    FinishDeletedAt(c, p, FoundIn(c.dp, c.mig, p), w, f)
  }

  /** A deletion that works on the list `mine` of the policy's nodes. */
  function ReconcileDeletedAt(c: State, p: string, mine: Nodes, k: Found, f: set<Op>): Outcome
    requires p in c.policies
  {
    if ListNodes in f then Outcome(c, Failed, {})
    else if c.policies[p].spec.mode == MIG && exists n :: n in mine && !MigDrained(mine[n].labels) then
      var writes := Writes(Revert, mine);
      Outcome(c.(nodes := Deliver(c.nodes, writes, f)), Waiting, WriteOps(writes.Keys))
    else
      var writes := Writes(Release, mine);
      var c1 := c.(nodes := Deliver(c.nodes, writes, f));
      if Accepted(c.nodes, writes, f) != writes.Keys then Outcome(c1, Failed, WriteOps(writes.Keys))
      else FinishDeletedAt(c1, p, k, WriteOps(writes.Keys), f)
  }

  ghost function ReconcileDeleted(h: Hashes, c: State, p: string, f: set<Op>): Outcome
    requires p in c.policies
  {
    ReconcileDeletedAt(c, p, Mine(c, p), FoundIn(c.dp, c.mig, p), f)
  }

  /** One reconcile on fresh lists, in which the lookups report `k`. */
  function ReconcileStepAt(h: Hashes, c: State, p: string, k: Found, f: set<Op>): Outcome {
    if GetPolicy in f then Outcome(c, Failed, {})
    else if p !in c.policies then Outcome(c, Done, {})
    else if !c.policies[p].deleting then ReconcileLiveAt(h, c, p, k, f)
    else if RELEASE_FINALIZER in c.policies[p].finalizers then ReconcileDeletedAt(c, p, Mine(c, p), k, f)
    else Outcome(c, Done, {})
  }

  /** The same where no policy has two entries, so that there is only one key to report. */
  ghost function ReconcileStep(h: Hashes, c: State, p: string, f: set<Op>): Outcome {
    ReconcileStepAt(h, c, p, FoundIn(c.dp, c.mig, p), f)
  }
}

/** The label handling of the GPU controller: internal/controller/gpu_controls.go and the label
    edits of RevertMigNodes. */
module GpuControls {
  import opened Options
  import opened Api
  import opened ModeTable

  datatype Workload = NoWorkload | Container | VmPassthrough | Vcuda {
    function Text(): string {
      match this
      case NoWorkload => "none"
      case Container => "container"
      case VmPassthrough => "vm-passthrough"
      case Vcuda => "vcuda"
    }
  }

  const GPU_TABLE: Table<Workload, LabelKey, string> := map[
    NoWorkload := map[Operands := FALSE],
    Container := map[WorkloadConfig := Container.Text()],
    VmPassthrough := map[WorkloadConfig := VmPassthrough.Text()],
    Vcuda := map[WorkloadConfig := Vcuda.Text()]]

  function WorkloadOf(mode: DeviceMode): Workload {
    match mode
    case VCUDA => Vcuda
    case Default | TimeSlicing | MIG => Container
    case PassThrough => VmPassthrough
    case OtherMode(_) => NoWorkload
  }

  /** Every label key the GPU controller ever writes. */
  const GPU_KEYS: set<LabelKey> :=
    {Operands, WorkloadConfig, GpuManagedBy, DevicePluginConfig, MigConfig, MigConfigState, MigManager}

  /** What a manager stamps on the nodes of its policy; an empty name stamps nothing. */
  datatype Stamp = Stamp(workload: Workload, managedBy: string, dpName: string, migName: string)

  function Book(s: Stamp): Labels {
    map[GpuManagedBy := s.managedBy]
    + (if s.dpName != "" then map[DevicePluginConfig := s.dpName] else map[])
    + (if s.migName != "" then map[MigConfig := s.migName] else map[])
  }

  function Updated(s: Stamp, labels: Labels): Labels {
    Rewrite(GPU_TABLE, s.workload, Book(s), labels)
  }

  function Released(labels: Labels): Labels {
    (labels - {WorkloadConfig, GpuManagedBy, DevicePluginConfig, MigConfig})[Operands := FALSE]
  }

  function Reverted(labels: Labels): Labels {
    labels[MigManager := TRUE][MigConfig := ALL_DISABLED] - {MigConfigState}
  }

  function Owner(labels: Labels): Option<string> {
    Find(labels, GpuManagedBy)
  }

  /** The state in which RevertMigNodes leaves a node alone and counts it as done. */
  predicate MigDrained(labels: Labels) {
    Lookup(labels, MigConfig) == ALL_DISABLED && Lookup(labels, MigConfigState) == SUCCESS
  }

  // ---------------------------------------------------------------- the manager

  class GpuModeManager {
    const spec: GpuSpec
    const managedBy: string
    var status: PolicyStatus
    var devicePluginConfigName: string
    var devicePluginConfigUpdated: bool
    var migConfigName: string
    var migConfigUpdated: bool

    constructor (name: string, policy: Policy)
      ensures managedBy == name && spec == policy.spec && status == policy.status
      ensures devicePluginConfigName == InitialDpName(spec.mode) && migConfigName == InitialMigName(spec.mode)
      ensures !devicePluginConfigUpdated && !migConfigUpdated
    {
      spec, managedBy, status := policy.spec, name, policy.status;
      devicePluginConfigName, migConfigName := "", "";
      devicePluginConfigUpdated, migConfigUpdated := false, false;
      new;
      if policy.spec.mode == Default {
        devicePluginConfigName := DEFAULT_CONFIG;
      }
      if policy.spec.mode != MIG {
        migConfigName := ALL_DISABLED;
      }
    }

    function CurrentStamp(): Stamp
      reads this
    {
      Stamp(WorkloadOf(spec.mode), managedBy, devicePluginConfigName, migConfigName)
    }

    /** Rewrites a node's labels in place; the flag tells exactly whether they changed. */
    method UpdateGPUStateLabels(labels: LabelMap<LabelKey, string>) returns (modified: bool)
      modifies labels
      ensures labels.data == Updated(CurrentStamp(), old(labels.data))
      ensures modified <==> labels.data != old(labels.data)
    {
      BookOutsideTable(CurrentStamp());
      FlagsExact(GPU_TABLE, WorkloadOf(spec.mode), Book(CurrentStamp()), labels.data);
      var removed := RemoveForeign(GPU_TABLE, WorkloadOf(spec.mode), labels);
      var added := AddGPUModeLabels(labels);
      modified := removed || added;
    }

    method AddGPUModeLabels(labels: LabelMap<LabelKey, string>) returns (modified: bool)
      modifies labels
      ensures labels.data == old(labels.data) + Own(GPU_TABLE, WorkloadOf(spec.mode)) + Book(CurrentStamp())
      ensures modified <==> labels.data != old(labels.data)
    {
      BookOutsideTable(CurrentStamp());
      StagesExact(labels.data, Own(GPU_TABLE, WorkloadOf(spec.mode)), Book(CurrentStamp()));
      var own := SetEntries(Own(GPU_TABLE, WorkloadOf(spec.mode)), labels);
      var book := StampBook(labels);
      modified := own || book;
    }

    /** The bookkeeping labels: the owner, and the configuration names that are not empty. */
    method StampBook(labels: LabelMap<LabelKey, string>) returns (modified: bool)
      modifies labels
      ensures labels.data == old(labels.data) + Book(CurrentStamp())
      ensures modified <==> labels.data != old(labels.data)
    {
      ghost var start := labels.data;
      modified := SetEntry(GpuManagedBy, managedBy, labels);
      if devicePluginConfigName != "" {
        var dp := SetEntry(DevicePluginConfig, devicePluginConfigName, labels);
        modified := modified || dp;
      }
      if migConfigName != "" {
        var mig := SetEntry(MigConfig, migConfigName, labels);
        modified := modified || mig;
      }
      assert labels.data == start + Book(CurrentStamp());
    }
  }

  function InitialDpName(mode: DeviceMode): string {
    if mode == Default then DEFAULT_CONFIG else ""
  }

  function InitialMigName(mode: DeviceMode): string {
    if mode != MIG then ALL_DISABLED else ""
  }

  /** Takes every GPU label off a node and switches its operands off. */
  method RemoveAllGPUModeLabels(labels: LabelMap<LabelKey, string>) returns (modified: bool)
    modifies labels
    ensures labels.data == Released(old(labels.data))
    ensures modified <==> labels.data != old(labels.data)
  {
    GpuTableKeys();
    modified := RemoveTable(GPU_TABLE, {NoWorkload}, labels);
    var book := RemoveKeys({GpuManagedBy, DevicePluginConfig, MigConfig}, {}, labels);
    var operands := SetEntry(Operands, FALSE, labels);
    modified := modified || book || operands;
  }

  // ---------------------------------------------------------------- what the label maps are

  lemma GpuTableKeys()
    ensures KeysIn(GPU_TABLE, GPU_TABLE.Keys) == {Operands, WorkloadConfig}
    ensures KeysIn(GPU_TABLE, GPU_TABLE.Keys - {NoWorkload}) == {WorkloadConfig}
  {
    assert Container in GPU_TABLE && WorkloadConfig in GPU_TABLE[Container];
    assert NoWorkload in GPU_TABLE && Operands in GPU_TABLE[NoWorkload];
    assert forall w :: w in GPU_TABLE.Keys - {NoWorkload} ==> GPU_TABLE[w].Keys == {WorkloadConfig};
  }

  lemma BookOutsideTable(s: Stamp)
    ensures BookOutside(GPU_TABLE, Book(s))
    ensures Own(GPU_TABLE, s.workload).Keys !! Book(s).Keys
  {
    GpuTableKeys();
  }

  /** An owned node carries exactly the labels of its owner's mode and configuration names. */
  lemma UpdatedAt(s: Stamp, labels: Labels, k: LabelKey)
    ensures Find(Updated(s, labels), k) == match k
      case Operands => if s.workload == NoWorkload then Some(FALSE) else None
      case WorkloadConfig => if s.workload == NoWorkload then None else Some(s.workload.Text())
      case GpuManagedBy => Some(s.managedBy)
      case DevicePluginConfig => if s.dpName != "" then Some(s.dpName) else Find(labels, k)
      case MigConfig => if s.migName != "" then Some(s.migName) else Find(labels, k)
      case _ => Find(labels, k)
  {
    FindRewrite(GPU_TABLE, s.workload, Book(s), labels, k);
    GpuTableKeys();
    BookAt(s, k);
    OwnAt(s.workload, k);
  }

  /** The workload labels of an owned node, by the mode of its policy. */
  lemma ModeLabels(mode: DeviceMode, p: string, dpName: string, migName: string, labels: Labels)
    ensures var after := Updated(Stamp(WorkloadOf(mode), p, dpName, migName), labels);
      && Find(after, WorkloadConfig) == (match mode
           case Default | TimeSlicing | MIG => Some("container")
           case PassThrough => Some("vm-passthrough")
           case VCUDA => Some("vcuda")
           case OtherMode(_) => None)
      && Find(after, Operands) == if mode.OtherMode? then Some(FALSE) else None
  {
    hide Updated;
    UpdatedAt(Stamp(WorkloadOf(mode), p, dpName, migName), labels, WorkloadConfig);
    UpdatedAt(Stamp(WorkloadOf(mode), p, dpName, migName), labels, Operands);
  }

  lemma BookAt(s: Stamp, k: LabelKey)
    ensures Find(Book(s), k) == match k
      case GpuManagedBy => Some(s.managedBy)
      case DevicePluginConfig => if s.dpName != "" then Some(s.dpName) else None
      case MigConfig => if s.migName != "" then Some(s.migName) else None
      case _ => None
  {
  }

  lemma OwnAt(w: Workload, k: LabelKey)
    ensures Find(Own(GPU_TABLE, w), k) == match k
      case Operands => if w == NoWorkload then Some(FALSE) else None
      case WorkloadConfig => if w == NoWorkload then None else Some(w.Text())
      case _ => None
  {
  }

  /** A second update with the same names changes nothing. */
  lemma UpdatedIdempotent(s: Stamp, labels: Labels)
    ensures Updated(s, Updated(s, labels)) == Updated(s, labels)
  {
    RewriteForgets(GPU_TABLE, s.workload, Book(s), s.workload, Book(s), labels);
  }

  function UpdatedAll(stamps: seq<Stamp>, labels: Labels): Labels {
    if stamps == [] then labels
    else Updated(stamps[|stamps| - 1], UpdatedAll(stamps[..|stamps| - 1], labels))
  }

  /** Release absorbs every update that went before it, by whichever policies. */
  lemma {:induction false} ReleaseAbsorbs(stamps: seq<Stamp>, labels: Labels)
    ensures Released(UpdatedAll(stamps, labels)) == Released(labels)
  {
    if stamps == [] {
    } else {
      var before := UpdatedAll(stamps[..|stamps| - 1], labels);
      ReleaseAbsorbs(stamps[..|stamps| - 1], labels);
      forall k ensures Find(Released(Updated(stamps[|stamps| - 1], before)), k) == Find(Released(before), k) {
        UpdatedAt(stamps[|stamps| - 1], before, k);
      }
      SameFinds(Released(Updated(stamps[|stamps| - 1], before)), Released(before));
    }
  }

  lemma ReleasedIdempotent(labels: Labels)
    ensures Released(Released(labels)) == Released(labels)
  {
  }

  /** After a release and an update, the labels the controller stamps depend on the stamp alone:
      nothing of an earlier owner is left. */
  lemma ReleaseThenUpdateForgets(s: Stamp, l1: Labels, l2: Labels, k: LabelKey)
    requires k in {Operands, WorkloadConfig, GpuManagedBy, DevicePluginConfig, MigConfig}
    ensures Find(Updated(s, Released(l1)), k) == Find(Updated(s, Released(l2)), k)
  {
  }

  /** No label outside the fixed key set is touched by an update, a release or a revert. */
  lemma OnlyGpuKeys(s: Stamp, labels: Labels, k: LabelKey)
    requires k !in GPU_KEYS
    ensures Find(Updated(s, labels), k) == Find(labels, k)
    ensures Find(Released(labels), k) == Find(labels, k)
    ensures Find(Reverted(labels), k) == Find(labels, k)
  {
    UpdatedAt(s, labels, k);
  }

  /** The label keys are different strings. */
  lemma KeysDistinct(a: LabelKey, b: LabelKey)
    requires a != b && !a.Custom? && !b.Custom?
    ensures a.Text() != b.Text()
  {
  }
}

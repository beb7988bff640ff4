/** The label handling of the NPU controller (internal/controller/npu_controls.go): the second
    instance of the label table. */
module NpuControls {
  import opened Options
  import opened Api
  import opened ModeTable

  const DLS_WORKER := "dls-worker-node"

  const NPU_TABLE: Table<NpuMode, LabelKey, string> := map[
    ContainerMode := map[NpuWorkloadConfig := "container", WorkerSelector := DLS_WORKER],
    VmMode := map[NpuWorkloadConfig := "vm", WorkerSelector := DLS_WORKER]]

  const NPU_KEYS: set<LabelKey> := {NpuManagedBy, NpuWorkloadConfig, WorkerSelector}

  function NpuBook(managedBy: string): Labels {
    map[NpuManagedBy := managedBy]
  }

  function NpuUpdated(mode: NpuMode, managedBy: string, labels: Labels): Labels {
    Rewrite(NPU_TABLE, mode, NpuBook(managedBy), labels)
  }

  function NpuReleased(labels: Labels): Labels {
    labels - NPU_KEYS
  }

  method UpdateNPUStateLabels(mode: NpuMode, managedBy: string, labels: LabelMap<LabelKey, string>)
    returns (modified: bool)
    modifies labels
    ensures labels.data == NpuUpdated(mode, managedBy, old(labels.data))
    ensures modified <==> labels.data != old(labels.data)
  {
    NpuTableKeys();
    FlagsExact(NPU_TABLE, mode, NpuBook(managedBy), labels.data);
    var removed := RemoveForeign(NPU_TABLE, mode, labels);
    var added := AddNPUModeLabels(mode, managedBy, labels);
    modified := removed || added;
  }

  method AddNPUModeLabels(mode: NpuMode, managedBy: string, labels: LabelMap<LabelKey, string>)
    returns (modified: bool)
    modifies labels
    ensures labels.data == old(labels.data) + Own(NPU_TABLE, mode) + NpuBook(managedBy)
    ensures modified <==> labels.data != old(labels.data)
  {
    modified := SetEntries(Own(NPU_TABLE, mode), labels);
    if NpuManagedBy !in labels.data || labels.data[NpuManagedBy] != managedBy {
      labels.data := labels.data[NpuManagedBy := managedBy];
      modified := true;
    }
  }

  method RemoveAllNPUModeLabels(labels: LabelMap<LabelKey, string>) returns (modified: bool)
    modifies labels
    ensures labels.data == NpuReleased(old(labels.data))
    ensures modified <==> labels.data != old(labels.data)
  {
    ghost var start := labels.data;
    NpuTableKeys();
    assert NPU_TABLE.Keys - {} == NPU_TABLE.Keys;
    modified := RemoveTable(NPU_TABLE, {}, labels);
    if NpuManagedBy in labels.data {
      labels.data := labels.data - {NpuManagedBy};
      modified := true;
    }
    SameFinds(labels.data, NpuReleased(start));
  }

  lemma NpuTableKeys()
    ensures KeysIn(NPU_TABLE, NPU_TABLE.Keys) == {NpuWorkloadConfig, WorkerSelector}
  {
    assert VmMode in NPU_TABLE && NpuWorkloadConfig in NPU_TABLE[VmMode] && WorkerSelector in NPU_TABLE[VmMode];
    assert forall m :: m in NPU_TABLE ==> NPU_TABLE[m].Keys == {NpuWorkloadConfig, WorkerSelector};
  }

  lemma NpuUpdatedAt(mode: NpuMode, managedBy: string, labels: Labels, k: LabelKey)
    ensures Find(NpuUpdated(mode, managedBy, labels), k) == match k
      case NpuManagedBy => Some(managedBy)
      case NpuWorkloadConfig =>
        (match mode case ContainerMode => Some("container") case VmMode => Some("vm") case OtherNpuMode(_) => None)
      case WorkerSelector => if mode.OtherNpuMode? then None else Some("dls-worker-node")
      case _ => Find(labels, k)
  {
    NpuTableKeys();
    FindRewrite(NPU_TABLE, mode, NpuBook(managedBy), labels, k);
  }

  lemma NpuUpdatedIdempotent(mode: NpuMode, managedBy: string, labels: Labels)
    ensures NpuUpdated(mode, managedBy, NpuUpdated(mode, managedBy, labels)) == NpuUpdated(mode, managedBy, labels)
  {
  }

  /** Release undoes an update: what it leaves does not depend on the mode or the policy. */
  lemma NpuReleaseAbsorbs(mode: NpuMode, managedBy: string, labels: Labels)
    ensures NpuReleased(NpuUpdated(mode, managedBy, labels)) == NpuReleased(labels)
    ensures NpuReleased(NpuReleased(labels)) == NpuReleased(labels)
  {
    forall k ensures Find(NpuReleased(NpuUpdated(mode, managedBy, labels)), k) == Find(NpuReleased(labels), k) {
      NpuUpdatedAt(mode, managedBy, labels, k);
    }
    SameFinds(NpuReleased(NpuUpdated(mode, managedBy, labels)), NpuReleased(labels));
  }
}

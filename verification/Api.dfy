/** The API types of the policies, of the configurations they produce, and the label keys and
    values that the controllers share with the nodes. */
module Api {
  import opened Options

  // ---------------------------------------------------------------- labels

  /** The label keys the controllers use; `Custom` stands for every other key. */
  datatype LabelKey =
    | Operands | WorkloadConfig | GpuManagedBy | DevicePluginConfig | MigConfig | MigConfigState | MigManager
    | NpuManagedBy | NpuConfigState | NpuWorkloadConfig | WorkerSelector
    | Custom(key: string)
  {
    function Text(): string {
      match this
      case Operands => "nvidia.com/gpu.deploy.operands"
      case WorkloadConfig => "nvidia.com/gpu.workload.config"
      case GpuManagedBy => "ecns.easystack.io/gpu.deploy.managed-by"
      case DevicePluginConfig => "nvidia.com/device-plugin.config"
      case MigConfig => "nvidia.com/mig.config"
      case MigConfigState => "nvidia.com/mig.config.state"
      case MigManager => "nvidia.com/gpu.deploy.mig-manager"
      case NpuManagedBy => "ecns.easystack.io/npu.deploy.managed-by"
      case NpuConfigState => "ecns.easystack.io/npu.config.state"
      case NpuWorkloadConfig => "ecns.easystack.io/npu.workload.config"
      case WorkerSelector => "workerselector"
      case Custom(key) => key
    }
  }

  type Labels = map<LabelKey, string>

  const FALSE := "false"
  const TRUE := "true"
  const DEFAULT_CONFIG := "default"
  const ALL_DISABLED := "all-disabled"
  const SUCCESS := "success"
  const RESTORED := "restored"
  const RELEASE_FINALIZER := "release.finalizers.ecns.easystack.io"

  // ---------------------------------------------------------------- GPU policy spec

  datatype DeviceMode = Default | TimeSlicing | MIG | PassThrough | VCUDA | OtherMode(text: string)

  datatype Resource = Resource(name: string, rename: string, replicas: int)

  datatype TimeSlicingSpec = TimeSlicingSpec(renameByDefault: bool, failRequestsGreaterThanOne: bool,
      resources: seq<Resource>)

  datatype MigSlice = MigSlice(deviceFilter: string, devices: string, migDevices: map<string, int>)

  datatype MigSpec = MigSpec(strategy: string, configSlice: seq<MigSlice>)

  datatype GpuSpec = GpuSpec(
    nodeSelector: Labels,
    mode: DeviceMode,
    timeSlicing: Option<TimeSlicingSpec>,
    mig: Option<MigSpec>)

  // ---------------------------------------------------------------- shared configurations

  datatype Sharing = Sharing(renameByDefault: bool, failRequestsGreaterThanOne: bool, resources: seq<Resource>)

  /** An entry of the device-plugin ConfigMap. */
  datatype DpConfig = DpConfig(version: string, migStrategy: Option<string>, sharing: Option<Sharing>)

  /** An element of an entry of the mig-parted configuration. */
  datatype MigParted = MigParted(deviceFilter: string, devices: string, migEnabled: bool, migDevices: map<string, int>)

  type MigEntry = seq<MigParted>

  function IsMigNoneStrategy(config: Option<MigSpec>): bool {
    config.None? || config.value.configSlice == [] || config.value.strategy == ""
  }

  function MigStrategy(config: Option<MigSpec>): string {
    if IsMigNoneStrategy(config) then "none" else config.value.strategy
  }

  /** The device-plugin configuration a policy asks for. */
  function DesiredDp(spec: GpuSpec): DpConfig {
    var sharing :=
      if spec.timeSlicing.None? then None
      else Some(Sharing(spec.timeSlicing.value.renameByDefault,
                        spec.timeSlicing.value.failRequestsGreaterThanOne,
                        spec.timeSlicing.value.resources));
    if spec.mode == MIG then
      var strategy := MigStrategy(spec.mig);
      DpConfig("v1", Some(strategy), if strategy == "single" then None else sharing)
    else DpConfig("v1", None, sharing)
  }

  /** The mig-parted configuration a policy asks for. */
  function DesiredMig(config: MigSpec): MigEntry {
    seq(|config.configSlice|, i requires 0 <= i < |config.configSlice| =>
      var s := config.configSlice[i]; MigParted(s.deviceFilter, s.devices, true, s.migDevices))
  }

  // ---------------------------------------------------------------- GPU policy status

  datatype TimeSlicingStatus = TimeSlicingStatus(enabled: bool, devicePluginSync: bool)

  datatype MigStatus = MigStatus(enabled: bool, devicePluginSync: bool, migPartedSync: bool)

  datatype NodeStatus = NodeStatus(
    timeSlicing: Option<TimeSlicingStatus>,
    mig: Option<MigStatus>,
    default_: Option<bool>,
    passThrough: Option<bool>,
    vcuda: Option<bool>)

  const NO_STATUS := NodeStatus(None, None, None, None, None)

  /** Status.Nodes; None is the nil map of a policy that was never reconciled. */
  type PolicyStatus = Option<map<string, NodeStatus>>

  datatype Policy = Policy(spec: GpuSpec, deleting: bool, finalizers: seq<string>, status: PolicyStatus)

  // ---------------------------------------------------------------- NPU policy

  datatype NpuMode = ContainerMode | VmMode | OtherNpuMode(text: string)

  datatype NpuSpec = NpuSpec(nodeSelector: Labels, mode: NpuMode)

  /** The sync status of every recorded node; None is the nil map of a policy that was never reconciled. */
  type NpuStatus = Option<map<string, string>>

  datatype NpuPolicy = NpuPolicy(spec: NpuSpec, deleting: bool, finalizers: seq<string>, status: NpuStatus)
}

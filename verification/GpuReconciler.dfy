/** The GPU policy controller (internal/controller/gpunodepolicy_controller.go): its loops over node
    lists and its edits of the shared configurations, proved to compute GpuProtocol.ReconcileStep
    whichever calls fail. The passes over node lists are specified for outdated lists too. */
module GpuReconciler {
  import opened Options
  import opened MergePatch
  import opened ModeTable
  import opened Api
  import opened GpuControls
  import opened ConfigEntries
  import opened Cluster
  import opened NodeLists
  import opened GpuProtocol
  import opened NodePasses
  import opened StepFacts

  // ---------------------------------------------------------------- status

  method UpdateGpuNodePolicyStatus(manager: GpuModeManager, node: string, needDPSync: Option<bool>,
                                   needMigSync: Option<bool>)
    requires manager.status.Some?
    modifies manager`status
    ensures manager.status
         == Some(Touch(old(manager.status).value, manager.spec.mode, {node}, needDPSync, needMigSync))
  {
    var nodes := manager.status.value;
    ghost var before := StatusOf(nodes, node);
    var status := if node in nodes then nodes[node] else NO_STATUS;
    match manager.spec.mode {
      case TimeSlicing =>
        if status.timeSlicing.None? {
          status := status.(timeSlicing := Some(TimeSlicingStatus(true, false)));
        }
        if needDPSync.Some? {
          status := status.(timeSlicing := Some(status.timeSlicing.value.(devicePluginSync := needDPSync.value)));
        }
        status := status.(mig := None, default_ := None, passThrough := None, vcuda := None);
      case MIG =>
        if status.mig.None? {
          status := status.(mig := Some(MigStatus(true, false, false)));
        }
        if needDPSync.Some? {
          status := status.(mig := Some(status.mig.value.(devicePluginSync := needDPSync.value)));
        }
        if needMigSync.Some? {
          status := status.(mig := Some(status.mig.value.(migPartedSync := needMigSync.value)));
        }
        status := status.(timeSlicing := None, default_ := None, passThrough := None, vcuda := None);
      case Default =>
        if status.default_.None? {
          status := status.(default_ := Some(true));
        }
        status := status.(timeSlicing := None, mig := None, passThrough := None, vcuda := None);
      case VCUDA =>
        if status.vcuda.None? {
          status := status.(vcuda := Some(true));
        }
        status := status.(timeSlicing := None, default_ := None, mig := None, passThrough := None);
      case PassThrough =>
        if status.passThrough.None? {
          status := status.(passThrough := Some(true));
        }
        status := status.(timeSlicing := None, default_ := None, mig := None, vcuda := None);
      case OtherMode(_) =>
    }
    assert status == Touched(manager.spec.mode, before, needDPSync, needMigSync);
    manager.status := Some(nodes[node := status]);
    TouchOne(nodes, manager.spec.mode, node, needDPSync, needMigSync);
  }

  lemma TouchOne(status: map<string, NodeStatus>, mode: DeviceMode, n: string, d: Option<bool>, m: Option<bool>)
    ensures Touch(status, mode, {n}, d, m) == status[n := Touched(mode, StatusOf(status, n), d, m)]
  {
  }

  /** Records every claimed node, asking for a sync where a configuration was rewritten. */
  method InitGpuNodePolicyStatus(manager: GpuModeManager, nodes: seq<Node>)
    requires DistinctNames(nodes)
    modifies manager`status
    ensures manager.status == Some(Touch(OrEmpty(old(manager.status)), manager.spec.mode, ByName(nodes).Keys,
                                         Flag(manager.devicePluginConfigUpdated), Flag(manager.migConfigUpdated)))
  {
    if manager.status.None? {
      manager.status := Some(map[]);
    }
    var needDPSync, needMigSync := Flag(manager.devicePluginConfigUpdated), Flag(manager.migConfigUpdated);
    ghost var start := manager.status.value;
    assert nodes[..0] == [] && ByName([]).Keys == {};
    TouchNothing(start, manager.spec.mode, needDPSync, needMigSync);
    for i := 0 to |nodes|
      invariant manager.status == Some(Touch(start, manager.spec.mode, ByName(nodes[..i]).Keys, needDPSync,
          needMigSync))
    {
      ByNameStep(nodes, i);
      TouchStep(start, manager.spec.mode, ByName(nodes[..i]).Keys, nodes[i].name, needDPSync, needMigSync);
      UpdateGpuNodePolicyStatus(manager, nodes[i].name, needDPSync, needMigSync);
      assert ByName(nodes[..i + 1]).Keys == ByName(nodes[..i]).Keys + {nodes[i].name};
    }
    assert nodes[..|nodes|] == nodes;
  }

  // ---------------------------------------------------------------- finalizers

  method RemoveFinalizer(finalizers: seq<string>) returns (result: seq<string>, found: bool)
    ensures result == WithoutFinalizer(finalizers)
    ensures found <==> RELEASE_FINALIZER in finalizers
  {
    result, found := [], false;
    for i := 0 to |finalizers|
      invariant result == WithoutFinalizer(finalizers[..i])
      invariant found <==> RELEASE_FINALIZER in finalizers[..i]
    {
      assert finalizers[..i + 1][..i] == finalizers[..i];
      if finalizers[i] == RELEASE_FINALIZER {
        found := true;
        continue;
      }
      result := result + [finalizers[i]];
    }
    assert finalizers[..|finalizers|] == finalizers;
  }

  // ---------------------------------------------------------------- the controller

  /** What a reconcile finds out about the nodes before it writes anything. */
  ghost predicate FreshSplit(nodes: Nodes, selector: Labels, p: string, claimNodes: seq<Node>,
                             adopt: seq<Node>, keep: seq<Node>, release: seq<Node>) {
    var claimed, mine := Select(nodes, selector), Select(nodes, map[GpuManagedBy := p]);
    && DistinctNames(claimNodes) && DistinctNames(adopt) && DistinctNames(keep) && DistinctNames(release)
    && ByName(claimNodes) == claimed && ByName(adopt) == claimed - mine.Keys
    && ByName(keep) == Both(mine, claimed) && ByName(release) == mine - claimed.Keys
  }

  class GpuNodePolicyReconciler {
    const server: ApiServer
    const hashes: Hashes

    constructor (server: ApiServer, hashes: Hashes)
      ensures this.server == server && this.hashes == hashes
    {
      this.server, this.hashes := server, hashes;
    }

    /** Takes over the listed nodes that no other policy owns; a node that changed since it was read is
        left to a retry. An item without labels ends the pass: the label writers assign into its nil map. */
    method AdoptNodes(nodes: seq<Node>, manager: GpuModeManager) returns (panicked: bool, failed: set<string>)
      requires DistinctNames(nodes) && manager.status.Some?
      modifies server`nodes, server`issued, manager`status
      ensures panicked <==> exists i :: 0 <= i < |nodes| && Bare(nodes[i].obj)
      ensures var e, items := Adopt(old(manager.CurrentStamp())), ByName(nodes[..FirstBare(nodes)]);
        var after := AfterPass(Progress(old(server.nodes), old(server.issued), {}, {}), e, items, server.faults);
        && server.nodes == after.nodes && server.issued == after.issued && failed == after.failed
        && manager.status
           == Some(Touch(old(manager.status).value, manager.spec.mode, after.written, Some(false), Some(false)))
    {
      hide AfterPass, AfterItem, Touch, DistinctNames;
      failed := {};
      ghost var s, status := manager.CurrentStamp(), manager.status.value;
      ghost var start := Progress(server.nodes, server.issued, {}, {});
      PassOverNothing(start, Adopt(s), server.faults);
      TouchNothing(status, manager.spec.mode, Some(false), Some(false));
      for i := 0 to |nodes|
        invariant manager.CurrentStamp() == s && manager.status.Some?
        invariant i <= FirstBare(nodes)
        invariant var p := AfterPass(start, Adopt(s), ByName(nodes[..i]), server.faults);
          && server.nodes == p.nodes && server.issued == p.issued && failed == p.failed
          && manager.status == Some(Touch(status, manager.spec.mode, p.written, Some(false), Some(false)))
      {
        var stopped, ok := AdoptNode(nodes[i], manager);
        if stopped {
          assert i == FirstBare(nodes);
          return true, failed;
        }
        if !ok {
          failed := failed + {nodes[i].name};
        }
        ByNameStep(nodes, i);
        ghost var p := AfterPass(start, Adopt(s), ByName(nodes[..i]), server.faults);
        PassStep(start, Adopt(s), ByName(nodes[..i]), nodes[i].name, nodes[i].obj, server.faults);
        WrittenIn(start, Adopt(s), ByName(nodes[..i]), nodes[i].name, server.faults);
        ItemFrom(p, Adopt(s), nodes[i].name, nodes[i].obj, server.faults);
        TouchMore(status, manager.spec.mode, p.written, nodes[i].name, Some(false), Some(false));
      }
      panicked := false;
    }

    method AdoptNode(node: Node, manager: GpuModeManager) returns (panicked: bool, ok: bool)
      requires manager.status.Some?
      modifies server`nodes, server`issued, manager`status
      ensures panicked <==> Bare(node.obj)
      ensures panicked ==> manager.status == old(manager.status)
      ensures var e := Adopt(old(manager.CurrentStamp()));
        var before := Progress(old(server.nodes), old(server.issued), {}, {});
        var after := if panicked then before else AfterItem(before, e, node.name, node.obj, server.faults);
        && server.nodes == after.nodes && server.issued == after.issued
        && after.failed == (if ok then {} else {node.name})
        && manager.status
           == Some(Touch(old(manager.status).value, manager.spec.mode, after.written, Some(false), Some(false)))
    {
      hide Deliver, Accepted, Touch, Updated;
      TouchNothing(manager.status.value, manager.spec.mode, Some(false), Some(false));
      panicked, ok := false, true;
      if GpuManagedBy in node.obj.labels && node.obj.labels[GpuManagedBy] != manager.managedBy {
        return;
      }
      if node.obj.labels == map[] {
        // The label map is nil.
        return true, true;
      }
      var labels := new LabelMap(node.obj.labels);
      var modified := manager.UpdateGPUStateLabels(labels);
      if !modified {
        return;
      }
      ok := server.SendNode(node.name, Put(node.obj.version, labels.data));
      if !ok {
        return;
      }
      UpdateGpuNodePolicyStatus(manager, node.name, Some(false), Some(false));
      assert {} + {node.name} == {node.name};
    }

    /** Brings the labels of the listed nodes in line with the policy. */
    method UpdateNodes(nodes: seq<Node>, manager: GpuModeManager) returns (failed: set<string>)
      requires DistinctNames(nodes) && manager.status.Some? && FirstBare(nodes) == |nodes|
      modifies server`nodes, server`issued, manager`status
      ensures var e := Update(old(manager.CurrentStamp()));
        var after := AfterPass(Progress(old(server.nodes), old(server.issued), {}, {}), e, ByName(nodes),
            server.faults);
        && server.nodes == after.nodes && server.issued == after.issued && failed == after.failed
        && manager.status == Some(Touch(old(manager.status).value, manager.spec.mode, after.written, Some(false),
            Some(false)))
    {
      hide AfterPass, AfterItem, Touch;
      failed := {};
      ghost var s, status := manager.CurrentStamp(), manager.status.value;
      ghost var start := Progress(server.nodes, server.issued, {}, {});
      PassOverNothing(start, Update(s), server.faults);
      TouchNothing(status, manager.spec.mode, Some(false), Some(false));
      for i := 0 to |nodes|
        invariant manager.CurrentStamp() == s && manager.status.Some?
        invariant var p := AfterPass(start, Update(s), ByName(nodes[..i]), server.faults);
          && server.nodes == p.nodes && server.issued == p.issued && failed == p.failed
          && manager.status == Some(Touch(status, manager.spec.mode, p.written, Some(false), Some(false)))
      {
        ByNameStep(nodes, i);
        ghost var p := AfterPass(start, Update(s), ByName(nodes[..i]), server.faults);
        PassStep(start, Update(s), ByName(nodes[..i]), nodes[i].name, nodes[i].obj, server.faults);
        WrittenIn(start, Update(s), ByName(nodes[..i]), nodes[i].name, server.faults);
        ItemFrom(p, Update(s), nodes[i].name, nodes[i].obj, server.faults);
        TouchMore(status, manager.spec.mode, p.written, nodes[i].name, Some(false), Some(false));
        var ok := UpdateNode(nodes[i], manager);
        if !ok {
          failed := failed + {nodes[i].name};
        }
      }
      assert nodes[..|nodes|] == nodes;
    }

    method UpdateNode(node: Node, manager: GpuModeManager) returns (ok: bool)
      requires manager.status.Some?
      modifies server`nodes, server`issued, manager`status
      ensures var e := Update(old(manager.CurrentStamp()));
        var before := Progress(old(server.nodes), old(server.issued), {}, {});
        var after := AfterItem(before, e, node.name, node.obj, server.faults);
        && server.nodes == after.nodes && server.issued == after.issued
        && after.failed == (if ok then {} else {node.name})
        && manager.status == Some(Touch(old(manager.status).value, manager.spec.mode, after.written, Some(false),
            Some(false)))
    {
      hide Deliver, Accepted, Touch, Updated;
      TouchNothing(manager.status.value, manager.spec.mode, Some(false), Some(false));
      ok := true;
      var labels := new LabelMap(node.obj.labels);
      var modified := manager.UpdateGPUStateLabels(labels);
      if !modified {
        return;
      }
      ok := server.SendNode(node.name, Write.Merge(Diff(node.obj.labels, labels.data)));
      if !ok {
        return;
      }
      UpdateGpuNodePolicyStatus(manager, node.name, Some(false), Some(false));
      assert {} + {node.name} == {node.name};
    }

    /** Strips the listed nodes of every GPU label. */
    method ReleaseNodes(nodes: seq<Node>) returns (failed: set<string>)
      requires DistinctNames(nodes) && FirstBare(nodes) == |nodes|
      modifies server`nodes, server`issued
      ensures var after := AfterPass(Progress(old(server.nodes), old(server.issued), {}, {}), Release, ByName(nodes),
          server.faults);
        server.nodes == after.nodes && server.issued == after.issued && failed == after.failed
    {
      hide AfterPass, AfterItem, Touch;
      failed := {};
      ghost var start := Progress(server.nodes, server.issued, {}, {});
      PassOverNothing(start, Release, server.faults);
      for i := 0 to |nodes|
        invariant var p := AfterPass(start, Release, ByName(nodes[..i]), server.faults);
          server.nodes == p.nodes && server.issued == p.issued && failed == p.failed
      {
        ByNameStep(nodes, i);
        PassStep(start, Release, ByName(nodes[..i]), nodes[i].name, nodes[i].obj, server.faults);
        ItemFrom(AfterPass(start, Release, ByName(nodes[..i]), server.faults), Release, nodes[i].name, nodes[i].obj,
            server.faults);
        var ok := ReleaseNode(nodes[i]);
        if !ok {
          failed := failed + {nodes[i].name};
        }
      }
      assert nodes[..|nodes|] == nodes;
    }

    method ReleaseNode(node: Node) returns (ok: bool)
      modifies server`nodes, server`issued
      ensures var before := Progress(old(server.nodes), old(server.issued), {}, {});
        var after := AfterItem(before, Release, node.name, node.obj, server.faults);
        && server.nodes == after.nodes && server.issued == after.issued
        && after.failed == (if ok then {} else {node.name})
    {
      hide Deliver, Accepted, Released;
      ok := true;
      var labels := new LabelMap(node.obj.labels);
      var modified := RemoveAllGPUModeLabels(labels);
      if modified {
        ok := server.SendNode(node.name, Write.Merge(Diff(node.obj.labels, labels.data)));
      }
    }

    /** Disables MIG on the listed nodes. It reports completion exactly on a pass in which every
        node was drained already, and such a pass writes nothing. */
    method RevertMigNodes(nodes: seq<Node>) returns (done: bool)
      requires DistinctNames(nodes) && FirstBare(nodes) == |nodes|
      modifies server`nodes, server`issued
      ensures var after := AfterPass(Progress(old(server.nodes), old(server.issued), {}, {}), Revert, ByName(nodes),
          server.faults);
        server.nodes == after.nodes && server.issued == after.issued
      ensures done <==> forall n :: n in ByName(nodes) ==> MigDrained(ByName(nodes)[n].labels)
      ensures done ==> server.nodes == old(server.nodes) && server.issued == old(server.issued)
    {
      hide AfterPass, AfterItem, MigDrained;
      done := true;
      ghost var start := Progress(server.nodes, server.issued, {}, {});
      PassOverNothing(start, Revert, server.faults);
      for i := 0 to |nodes|
        invariant var p := AfterPass(start, Revert, ByName(nodes[..i]), server.faults);
          server.nodes == p.nodes && server.issued == p.issued
        invariant done <==> forall n :: n in ByName(nodes[..i]) ==> MigDrained(ByName(nodes[..i])[n].labels)
        invariant done ==> server.nodes == start.nodes && server.issued == start.issued
      {
        ByNameStep(nodes, i);
        PassStep(start, Revert, ByName(nodes[..i]), nodes[i].name, nodes[i].obj, server.faults);
        ItemFrom(AfterPass(start, Revert, ByName(nodes[..i]), server.faults), Revert, nodes[i].name, nodes[i].obj,
            server.faults);
        var settled := RevertMigNode(nodes[i]);
        assert forall n :: n in ByName(nodes[..i]) ==> ByName(nodes[..i + 1])[n] == ByName(nodes[..i])[n];
        assert ByName(nodes[..i + 1])[nodes[i].name] == nodes[i].obj;
        done := done && settled;
      }
      assert nodes[..|nodes|] == nodes;
    }

    method RevertMigNode(node: Node) returns (settled: bool)
      modifies server`nodes, server`issued
      ensures var before := Progress(old(server.nodes), old(server.issued), {}, {});
        var after := AfterItem(before, Revert, node.name, node.obj, server.faults);
        server.nodes == after.nodes && server.issued == after.issued
      ensures settled <==> MigDrained(node.obj.labels)
      ensures settled ==> server.nodes == old(server.nodes) && server.issued == old(server.issued)
    {
      var labels := node.obj.labels;
      if Lookup(labels, MigConfig) != ALL_DISABLED {
        labels := labels[MigManager := TRUE];
        labels := labels[MigConfig := ALL_DISABLED];
        labels := labels - {MigConfigState};
        var ok := server.SendNode(node.name, Write.Merge(Diff(node.obj.labels, labels)));
        if !ok {
          return false;
        }
      }
      return Lookup(labels, MigConfigState) == SUCCESS;
    }

    // -------------------------------------------------------------- shared configurations

    method AddDevicePluginConfigMapData(manager: GpuModeManager) returns (result: Result, ghost key: string)
      requires !manager.devicePluginConfigUpdated
      modifies server`dp, server`issued, manager`devicePluginConfigName, manager`devicePluginConfigUpdated
      ensures if old(server.dp).Some? then MayFind(old(server.dp).value, manager.managedBy, key) else key == ""
      ensures var d := InstallDpAt(hashes, old(server.dp), key, manager.managedBy, manager.spec, server.faults);
        if GetDp !in server.faults && DpPanics(old(server.dp), manager.spec)
        then result == Panicked && server.dp == old(server.dp) && server.issued == old(server.issued)
        else
          && server.dp == d.config && result == (if d.ok then Done else Failed)
          && server.issued == old(server.issued) + (if d.wrote then {PatchDp} else {})
          && (d.ok ==> manager.devicePluginConfigName == d.name && manager.devicePluginConfigUpdated == d.updated)
    {
      hide DesiredDp, Apply, Diff, MayFind;
      key := KeyIn(server.dp, manager.managedBy);
      KeyInReported(server.dp, manager.managedBy);
      var got, origin := server.ReadDp();
      if !got || origin.None? {
        return Failed, key;
      }
      var data := origin.value;
      manager.devicePluginConfigName := FindPrefixKey(data, manager.managedBy);
      key := manager.devicePluginConfigName;
      var found := manager.devicePluginConfigName in data;
      if !found && manager.spec.timeSlicing.None? && IsMigNoneStrategy(manager.spec.mig) {
        return Done, key;
      }
      var dpConfig := DesiredDp(manager.spec);
      if found && data[manager.devicePluginConfigName] == dpConfig {
        return Done, key;
      }
      var edited := data - {manager.devicePluginConfigName};
      if data == map[] {
        // Adding an entry to the nil map.
        return Panicked, key;
      }
      manager.devicePluginConfigName := EntryName(manager.managedBy, hashes.dp(dpConfig));
      edited := edited[manager.devicePluginConfigName := dpConfig];
      ApplyDiff(data, edited);
      var ok := server.PatchDpData(Diff(data, edited));
      if !ok {
        return Failed, key;
      }
      manager.devicePluginConfigUpdated := true;
      return Done, key;
    }

    method RemoveDevicePluginConfigMapData(name: string) returns (ok: bool, ghost key: string)
      modifies server`dp, server`issued
      ensures if old(server.dp).Some? then MayFind(old(server.dp).value, name, key) else key == ""
      ensures var d := RemoveAt(old(server.dp), key, GetDp, PatchDp, server.faults);
        && server.dp == d.config && ok == d.ok
        && server.issued == old(server.issued) + (if d.wrote then {PatchDp} else {})
    {
      hide Apply, Diff, MayFind;
      key := KeyIn(server.dp, name);
      KeyInReported(server.dp, name);
      var got, origin := server.ReadDp();
      if !got {
        return false, key;
      }
      if origin.None? {
        return true, key;
      }
      var data := origin.value;
      var oldCfgName := FindPrefixKey(data, name);
      key := oldCfgName;
      if oldCfgName !in data {
        return true, key;
      }
      ApplyDiff(data, data - {oldCfgName});
      ok := server.PatchDpData(Diff(data, data - {oldCfgName}));
    }

    method AddMigConfigMapData(manager: GpuModeManager) returns (result: Result, ghost key: string)
      requires !manager.migConfigUpdated
      modifies server`mig, server`issued, manager`migConfigName, manager`migConfigUpdated
      ensures if old(server.mig).Some? then MayFind(old(server.mig).value, manager.managedBy, key) else key == ""
      ensures var m := InstallMigAt(hashes, old(server.mig), key, manager.managedBy, manager.spec, server.faults);
        if GetMig !in server.faults && MigPanicsAt(old(server.mig), key, manager.spec)
        then result == Panicked && server.mig == old(server.mig) && server.issued == old(server.issued)
        else
          && server.mig == m.config && result == (if m.ok then Done else Failed)
          && server.issued == old(server.issued) + (if m.wrote then {PatchMig} else {})
          && (m.ok ==> manager.migConfigName == m.name && manager.migConfigUpdated == m.updated)
    {
      hide DesiredMig, MayFind;
      key := KeyIn(server.mig, manager.managedBy);
      KeyInReported(server.mig, manager.managedBy);
      var got, origin := server.ReadMig();
      if !got || origin.None? {
        return Failed, key;
      }
      var configs := origin.value;
      manager.migConfigName := FindPrefixKey(configs, manager.managedBy);
      key := manager.migConfigName;
      var found := manager.migConfigName in configs;
      if !found && IsMigNoneStrategy(manager.spec.mig) {
        return Done, key;
      }
      if manager.spec.mig.None? {
        // Ranging over the slices of a nil mig block.
        return Panicked, key;
      }
      var migSpecSlice := ConvertSlices(manager.spec.mig.value);
      var upToDate := found && configs[manager.migConfigName] == migSpecSlice;
      if configs == map[] {
        // Adding an entry to the nil map.
        return Panicked, key;
      }
      configs := configs - {manager.migConfigName};
      manager.migConfigName := EntryName(manager.managedBy, hashes.mig(migSpecSlice));
      configs := configs[manager.migConfigName := migSpecSlice];
      if upToDate {
        return Done, key;
      }
      var ok := server.PatchMigFile(configs);
      if !ok {
        return Failed, key;
      }
      manager.migConfigUpdated := true;
      return Done, key;
    }

    method ConvertSlices(config: MigSpec) returns (slices: MigEntry)
      ensures slices == DesiredMig(config)
    {
      slices := [];
      for i := 0 to |config.configSlice|
        invariant |slices| == i && forall j :: 0 <= j < i ==> slices[j] == DesiredMig(config)[j]
      {
        var s := config.configSlice[i];
        slices := slices + [MigParted(s.deviceFilter, s.devices, true, s.migDevices)];
      }
    }

    method RemoveMigConfigMapData(name: string) returns (ok: bool, ghost key: string)
      modifies server`mig, server`issued
      ensures if old(server.mig).Some? then MayFind(old(server.mig).value, name, key) else key == ""
      ensures var m := RemoveAt(old(server.mig), key, GetMig, PatchMig, server.faults);
        && server.mig == m.config && ok == m.ok
        && server.issued == old(server.issued) + (if m.wrote then {PatchMig} else {})
    {
      hide MayFind;
      key := KeyIn(server.mig, name);
      KeyInReported(server.mig, name);
      var got, origin := server.ReadMig();
      if !got {
        return false, key;
      }
      if origin.None? {
        return true, key;
      }
      var configs := origin.value;
      var oldCfgName := FindPrefixKey(configs, name);
      key := oldCfgName;
      if oldCfgName !in configs {
        return true, key;
      }
      ok := server.PatchMigFile(configs - {oldCfgName});
    }

    method SetupTimeSlicingMode(manager: GpuModeManager) returns (result: Result, ghost k: Found)
      requires manager.spec.mode == TimeSlicing
      requires !manager.devicePluginConfigUpdated && !manager.migConfigUpdated
      requires manager.devicePluginConfigName == InitialDpName(manager.spec.mode)
      requires manager.migConfigName == InitialMigName(manager.spec.mode)
      modifies server`dp, server`mig, server`issued
      modifies manager`devicePluginConfigName, manager`devicePluginConfigUpdated
      modifies manager`migConfigName, manager`migConfigUpdated
      ensures MayReport(old(server.dp), old(server.mig), manager.managedBy, k)
      ensures var s := SetUpAt(hashes, old(server.dp), old(server.mig), manager.managedBy, manager.spec, k,
          server.faults);
        && server.dp == s.dp && server.mig == s.mig && result == s.result
        && server.issued == old(server.issued) + s.issued
        && (result == Done ==> manager.CurrentStamp() == s.stamp && manager.devicePluginConfigUpdated == s.dpUpdated
                               && manager.migConfigUpdated == s.migUpdated)
    {
      hide InstallDpAt, InstallMigAt, DpPanics, MigPanicsAt, MayFind;
      k := FoundIn(server.dp, server.mig, manager.managedBy);
      KeyInReported(server.mig, manager.managedBy);
      ghost var key;
      result, key := AddDevicePluginConfigMapData(manager);
      k := k.(dp := key);
    }

    method SetupMigMode(manager: GpuModeManager) returns (result: Result, ghost k: Found)
      requires manager.spec.mode == MIG
      requires !manager.devicePluginConfigUpdated && !manager.migConfigUpdated
      requires manager.devicePluginConfigName == InitialDpName(manager.spec.mode)
      requires manager.migConfigName == InitialMigName(manager.spec.mode)
      modifies server`dp, server`mig, server`issued
      modifies manager`devicePluginConfigName, manager`devicePluginConfigUpdated
      modifies manager`migConfigName, manager`migConfigUpdated
      ensures MayReport(old(server.dp), old(server.mig), manager.managedBy, k)
      ensures var s := SetUpAt(hashes, old(server.dp), old(server.mig), manager.managedBy, manager.spec, k,
          server.faults);
        && server.dp == s.dp && server.mig == s.mig && result == s.result
        && server.issued == old(server.issued) + s.issued
        && (result == Done ==> manager.CurrentStamp() == s.stamp && manager.devicePluginConfigUpdated == s.dpUpdated
                               && manager.migConfigUpdated == s.migUpdated)
    {
      hide SetUpAt, InstallDpAt, InstallMigAt, DpPanics, MigPanicsAt, MayFind;
      k := FoundIn(server.dp, server.mig, manager.managedBy);
      KeyInReported(server.mig, manager.managedBy);
      ghost var dp, mig, key := server.dp, server.mig, "";
      result, key := AddDevicePluginConfigMapData(manager);
      k := k.(dp := key);
      if result != Done {
        MigSetUp(hashes, dp, mig, manager.managedBy, manager.spec, k, server.faults);
        return;
      }
      result, key := AddMigConfigMapData(manager);
      k := k.(mig := key);
      MigSetUp(hashes, dp, mig, manager.managedBy, manager.spec, k, server.faults);
    }

    /** The configuration step of a reconcile, by mode. */
    method SetupConfigs(manager: GpuModeManager) returns (result: Result, ghost k: Found)
      requires !manager.devicePluginConfigUpdated && !manager.migConfigUpdated
      requires manager.devicePluginConfigName == InitialDpName(manager.spec.mode)
      requires manager.migConfigName == InitialMigName(manager.spec.mode)
      modifies server`dp, server`mig, server`issued
      modifies manager`devicePluginConfigName, manager`devicePluginConfigUpdated
      modifies manager`migConfigName, manager`migConfigUpdated
      ensures MayReport(old(server.dp), old(server.mig), manager.managedBy, k)
      ensures var s := SetUpAt(hashes, old(server.dp), old(server.mig), manager.managedBy, manager.spec, k,
          server.faults);
        && server.dp == s.dp && server.mig == s.mig && result == s.result
        && server.issued == old(server.issued) + s.issued
        && (result == Done ==> manager.CurrentStamp() == s.stamp && manager.devicePluginConfigUpdated == s.dpUpdated
                               && manager.migConfigUpdated == s.migUpdated)
    {
      hide InstallDpAt, InstallMigAt, DpPanics, MigPanicsAt, MayFind;
      k := FoundIn(server.dp, server.mig, manager.managedBy);
      KeyInReported(server.dp, manager.managedBy);
      KeyInReported(server.mig, manager.managedBy);
      match manager.spec.mode {
        case TimeSlicing =>
          result, k := SetupTimeSlicingMode(manager);
        case MIG =>
          result, k := SetupMigMode(manager);
        case _ =>
          result := Done;
      }
    }

    // -------------------------------------------------------------- reconcile

    /** One reconcile of a policy: whichever calls fail, the cluster ends in the state of the step
        function, with its result and exactly its writes issued. `k` are the keys that the lookups came
        upon. `late` is empty unless the adoption of a bare node panics: then it holds the nodes that the
        pass had not come to, whose writes never happened. */
    method Reconcile(name: string) returns (result: Result, ghost k: Found, ghost late: set<string>)
      modifies server`nodes, server`policies, server`dp, server`mig, server`issued
      ensures MayReport(old(server.dp), old(server.mig), name, k)
      ensures late != {} ==> result == Panicked
      ensures var o := ReconcileStepAt(hashes, old(server.Current()), name, k, server.faults + WriteOps(late));
        && server.Current() == o.state && result == o.result
        && server.issued == old(server.issued) + (o.issued - WriteOps(late))
    {
      hide ReconcileLiveAt, ReconcileDeletedAt, MayFind, WriteOps;
      k, late := FoundIn(server.dp, server.mig, name), {};
      KeyInReported(server.dp, name);
      KeyInReported(server.mig, name);
      NoWriteOps(server.faults);
      var ok, policy := server.ReadPolicy(name);
      if !ok {
        return Failed, k, late;
      }
      if policy.None? {
        return Done, k, late;
      }
      var origin := policy.value;
      if !origin.deleting {
        result, k, late := ReconcileLiving(name, origin);
        OtherOps(server.faults, late);
      } else if RELEASE_FINALIZER in origin.finalizers {
        ghost var issued := server.issued;
        result, k := ReconcileDeletion(name, origin);
        NoWriteOps(server.issued - issued);
      } else {
        result := Done;
      }
    }

    method ReconcileLiving(name: string, origin: Policy)
      returns (result: Result, ghost k: Found, ghost late: set<string>)
      requires name in server.policies && server.policies[name] == origin && !origin.deleting
      modifies server`nodes, server`policies, server`dp, server`mig, server`issued
      ensures MayReport(old(server.dp), old(server.mig), name, k)
      ensures late != {} ==> result == Panicked
      ensures var o := ReconcileLiveAt(hashes, old(server.Current()), name, k, server.faults + WriteOps(late));
        && server.Current() == o.state && result == o.result
        && server.issued == old(server.issued) + (o.issued - WriteOps(late))
    {
      hide ReconcileLiveAt, MayFind, WriteOps;
      if RELEASE_FINALIZER in origin.finalizers {
        result, k, late := ReconcileRegistered(name, origin);
      } else {
        k, late := FoundIn(server.dp, server.mig, name), {};
        KeyInReported(server.dp, name);
        KeyInReported(server.mig, name);
        NoWriteOps(server.faults);
        ghost var c, issued := server.Current(), server.issued;
        var policy := origin.(finalizers := origin.finalizers + [RELEASE_FINALIZER]);
        FinalizerFirstAt(hashes, c, name, k, server.faults);
        var ok := server.WritePolicy(name, policy);
        if !ok {
          return Failed, k, late;
        }
        ghost var c1 := server.Current();
        result, k, late := ReconcileRegistered(name, policy);
        ghost var g := server.faults + WriteOps(late);
        FinalizerFirstAt(hashes, c, name, k, g);
        OtherOps(server.faults, late);
        CutOff(issued, {PutPolicy}, ReconcileLiveAt(hashes, c1, name, k, g).issued, late);
      }
    }

    /** The finalizer is in place: lists, configurations, nodes, status. */
    method ReconcileRegistered(name: string, policy: Policy)
      returns (result: Result, ghost k: Found, ghost late: set<string>)
      requires name in server.policies && server.policies[name] == policy && !policy.deleting
      requires RELEASE_FINALIZER in policy.finalizers
      modifies server`nodes, server`policies, server`dp, server`mig, server`issued
      ensures MayReport(old(server.dp), old(server.mig), name, k)
      ensures late != {} ==> result == Panicked
      ensures var o := ReconcileLiveAt(hashes, old(server.Current()), name, k, server.faults + WriteOps(late));
        && server.Current() == o.state && result == o.result
        && server.issued == old(server.issued) + (o.issued - WriteOps(late))
    {
      hide ReconcileLiveAt, SetUpAt, FinishLive, MayFind, FreshSplit;
      hide InitialDpName, InitialMigName, WorkloadOf, WriteOps;
      k, late := FoundIn(server.dp, server.mig, name), {};
      KeyInReported(server.dp, name);
      KeyInReported(server.mig, name);
      ghost var c := server.Current();
      var manager := new GpuModeManager(name, policy);
      var ok, claimNodes, adopt, keep, release := SplitNodes(manager);
      if !ok {
        NoWriteOps(server.faults);
        NoWriteOps({});
        RegisteredIs(hashes, c, name, k, server.faults);
        return Failed, k, late;
      }
      result, k, late := ReconcileSplit(name, manager, claimNodes, adopt, keep, release);
      RegisteredIs(hashes, c, name, k, server.faults + WriteOps(late));
      OtherOps(server.faults, late);
    }

    /** The nodes are listed: configurations, nodes, status. */
    method ReconcileSplit(name: string, manager: GpuModeManager, claimNodes: seq<Node>,
                          adopt: seq<Node>, keep: seq<Node>, release: seq<Node>)
      returns (result: Result, ghost k: Found, ghost late: set<string>)
      requires name in server.policies && manager.managedBy == name && manager.spec == server.policies[name].spec
      requires manager.status == server.policies[name].status
      requires !manager.devicePluginConfigUpdated && !manager.migConfigUpdated
      requires manager.devicePluginConfigName == InitialDpName(manager.spec.mode)
      requires manager.migConfigName == InitialMigName(manager.spec.mode)
      requires FreshSplit(server.nodes, manager.spec.nodeSelector, name, claimNodes, adopt, keep, release)
      modifies server`nodes, server`policies, server`dp, server`mig, server`issued, manager
      ensures MayReport(old(server.dp), old(server.mig), name, k)
      ensures late != {} ==> result == Panicked
      ensures var c, g := old(server.Current()), server.faults + WriteOps(late);
        var s := SetUpAt(hashes, c.dp, c.mig, name, c.policies[name].spec, k, g);
        var o := if s.result != Done then Outcome(c.(dp := s.dp, mig := s.mig), s.result, s.issued)
                 else FinishLive(c, name, s, {}, g);
        && server.Current() == o.state && result == o.result
        && server.issued == old(server.issued) + (o.issued - WriteOps(late))
    {
      hide SetUpAt, FinishLive, MayFind, FreshSplit, InitialDpName, InitialMigName, WorkloadOf, WriteOps;
      ghost var c, issued := server.Current(), server.issued;
      late := {};
      NoWriteOps(server.faults);
      result, k := SetupConfigs(manager);
      ghost var s := SetUpAt(hashes, c.dp, c.mig, name, manager.spec, k, server.faults);
      if result != Done {
        NoWriteOps(s.issued);
        return;
      }
      result, late := SetupNodes(name, manager, claimNodes, adopt, keep, release);
      ghost var g := server.faults + WriteOps(late);
      FinishLiveFrom(c, name, s, {}, g);
      SetUpOps(hashes, c.dp, c.mig, name, manager.spec, k, server.faults);
      SetUpSameFaults(hashes, c.dp, c.mig, name, manager.spec, k, server.faults, late);
      CutOff(issued, s.issued, FinishLive(c.(dp := s.dp, mig := s.mig), name, s.(issued := {}), {}, g).issued, late);
    }

    /** The claimed nodes and the three-way split. */
    method SplitNodes(manager: GpuModeManager)
      returns (ok: bool, claimNodes: seq<Node>, adopt: seq<Node>, keep: seq<Node>, release: seq<Node>)
      ensures ok <==> ListNodes !in server.faults
      ensures ok ==> FreshSplit(server.nodes, manager.spec.nodeSelector, manager.managedBy, claimNodes, adopt, keep,
          release)
    {
      hide DistinctNames, ByName, Select, Both;
      adopt, keep, release := [], [], [];
      ok, claimNodes := server.List(manager.spec.nodeSelector);
      if !ok {
        return;
      }
      var matchNodes;
      ok, matchNodes := server.List(map[GpuManagedBy := manager.managedBy]);
      if !ok {
        return;
      }
      adopt, keep, release := FilterNodes(claimNodes, matchNodes);
    }

    /** The node passes and the status update. */
    method SetupNodes(name: string, manager: GpuModeManager, claimNodes: seq<Node>,
                      adopt: seq<Node>, keep: seq<Node>, release: seq<Node>)
      returns (result: Result, ghost late: set<string>)
      requires name in server.policies && manager.managedBy == name && manager.spec == server.policies[name].spec
      requires manager.status == server.policies[name].status
      requires FreshSplit(server.nodes, manager.spec.nodeSelector, name, claimNodes, adopt, keep, release)
      modifies server`nodes, server`policies, server`issued, manager`status
      ensures late != {} ==> result == Panicked
      ensures var c := old(server.Current());
        var s := Setup(c.dp, c.mig, manager.CurrentStamp(), manager.devicePluginConfigUpdated,
            manager.migConfigUpdated, Done, {});
        var o := FinishLive(c, name, s, {}, server.faults + WriteOps(late));
        && server.Current() == o.state && result == o.result
        && server.issued == old(server.issued) + (o.issued - WriteOps(late))
    {
      hide DistinctNames, ByName, Select, Deliver, Accepted, NodeWrites, Touch, WriteOps, Both;
      hide FinishLive, OrEmpty, Stops, NotReached;
      ghost var c, f, stamp, issued := server.Current(), server.faults, manager.CurrentStamp(), server.issued;
      ghost var s := Setup(c.dp, c.mig, stamp, manager.devicePluginConfigUpdated, manager.migConfigUpdated, Done, {});
      InitGpuNodePolicyStatus(manager, claimNodes);
      var panicked, requeue;
      panicked, requeue, late := WriteNodes(manager, adopt, keep, release);
      if panicked {
        FinishLivePanics(c, name, s, f + WriteOps(late));
        return Panicked, late;
      }
      NoWriteOps(f);
      FinishLiveWrites(c, name, s, f);
      NoWriteOps(FinishLive(c, name, s, {}, f).issued);
      result := if requeue then Failed else Done;
      if server.policies[name].status != manager.status {
        var ok := server.WriteStatus(name, manager.status);
        if !ok {
          return Failed, late;
        }
      }
    }

    /** Adopt, update, release. */
    method WriteNodes(manager: GpuModeManager, adopt: seq<Node>, keep: seq<Node>, release: seq<Node>)
      returns (panicked: bool, requeue: bool, ghost late: set<string>)
      requires manager.status.Some?
      requires DistinctNames(adopt) && DistinctNames(keep) && DistinctNames(release)
      requires var claimed, mine := Select(server.nodes, manager.spec.nodeSelector),
          Select(server.nodes, map[GpuManagedBy := manager.managedBy]);
        && ByName(adopt) == claimed - mine.Keys && ByName(keep) == Both(mine, claimed)
        && ByName(release) == mine - claimed.Keys
      modifies server`nodes, server`issued, manager`status
      ensures panicked <==> Stops(manager.spec.nodeSelector, old(server.nodes))
      ensures !panicked ==> late == {}
      ensures var nodes, f := old(server.nodes), server.faults;
        var writes, never := NodeWrites(manager.spec, manager.CurrentStamp(), nodes),
            NotReached(manager.managedBy, nodes);
        if panicked then
          && server.nodes == Deliver(nodes, writes, f + WriteOps(late) + WriteOps(never))
          && server.issued == old(server.issued) + (WriteOps(writes.Keys - never) - WriteOps(late))
        else
          var accepted := Accepted(nodes, writes, f);
          var claimed := Select(nodes, manager.spec.nodeSelector).Keys;
          && server.nodes == Deliver(nodes, writes, f)
          && server.issued == old(server.issued) + WriteOps(writes.Keys)
          && requeue == (accepted != writes.Keys)
          && manager.status
             == Some(Touch(old(manager.status).value, manager.spec.mode, accepted * claimed, Some(false), Some(false)))
    {
      hide DistinctNames, ByName, Select, Deliver, Accepted, Writes, NodeWrites, Touch, WriteOps, Both, AfterWrites;
      hide Stops, NotReached;
      ghost var nodes, f, stamp, issued := server.nodes, server.faults, manager.CurrentStamp(), server.issued;
      ghost var listed := manager.status.value;
      late, requeue := {}, false;
      SplitLabelled(nodes, manager.spec.nodeSelector, GpuManagedBy, manager.managedBy, adopt, keep, release);
      var failed;
      panicked, failed := AdoptNodes(adopt, manager);
      if panicked {
        late := ByName(adopt).Keys - ByName(adopt[..FirstBare(adopt)]).Keys;
        PanicPass(nodes, manager.spec, stamp, ByName(adopt[..FirstBare(adopt)]), issued, f);
        return;
      }
      assert adopt[..FirstBare(adopt)] == adopt;
      if failed != {} {
        requeue := true;
      }
      failed := UpdateNodes(keep, manager);
      if failed != {} {
        requeue := true;
      }
      failed := ReleaseNodes(release);
      if failed != {} {
        requeue := true;
      }
      ThreePasses(nodes, manager.spec, stamp, listed, issued, f);
    }

    method ReconcileDeletion(name: string, origin: Policy) returns (result: Result, ghost k: Found)
      requires name in server.policies && server.policies[name] == origin
      requires origin.deleting && RELEASE_FINALIZER in origin.finalizers
      modifies server`nodes, server`policies, server`dp, server`mig, server`issued
      ensures MayReport(old(server.dp), old(server.mig), name, k)
      ensures var c := old(server.Current());
        var o := ReconcileDeletedAt(c, name, Mine(c, name), k, server.faults);
        server.Current() == o.state && result == o.result && server.issued == old(server.issued) + o.issued
    {
      hide RemoveAt, MayFind, DistinctNames, ByName, Select, Deliver;
      hide Accepted, Writes, WriteOps, StorePolicy, MigDrained;
      ghost var c, issued := server.Current(), server.issued;
      k := FoundIn(server.dp, server.mig, name);
      KeyInReported(server.dp, name);
      KeyInReported(server.mig, name);
      var ok, managedNodes := server.List(map[GpuManagedBy := name]);
      if !ok {
        return Failed, k;
      }
      OwnLabelled(c.nodes, name, managedNodes);
      if origin.spec.mode == MIG {
        var reverted := RevertMigNodes(managedNodes);
        if !reverted {
          return Waiting, k;
        }
      }
      var failed := ReleaseNodes(managedNodes);
      AcceptedWithin(c.nodes, Writes(Release, Mine(c, name)), server.faults);
      if failed != {} {
        return Failed, k;
      }
      ghost var released := server.Current();
      result, k := FinishDeletion(name, origin);
      FinishDeletedFrom(released, name, k, WriteOps(Writes(Release, Mine(c, name)).Keys), server.faults);
    }

    /** The nodes are released: take the policy's entries out, then let the policy go. */
    method FinishDeletion(name: string, origin: Policy) returns (result: Result, ghost k: Found)
      requires name in server.policies && server.policies[name] == origin
      requires origin.deleting && RELEASE_FINALIZER in origin.finalizers
      modifies server`policies, server`dp, server`mig, server`issued
      ensures MayReport(old(server.dp), old(server.mig), name, k)
      ensures var o := FinishDeletedAt(old(server.Current()), name, k, {}, server.faults);
        server.Current() == o.state && result == o.result && server.issued == old(server.issued) + o.issued
    {
      hide FinishDeletedAt, RemoveAt, MayFind, StorePolicy, WithoutFinalizer;
      ghost var c, issued := server.Current(), server.issued;
      var ok;
      ok, k := RevertConfigs(name);
      FinishDeletedIs(c, name, k, server.faults);
      if !ok {
        return Failed, k;
      }
      var finalizers, found := RemoveFinalizer(origin.finalizers);
      if found {
        ok := server.WritePolicy(name, origin.(finalizers := finalizers));
      }
      result := if ok then Done else Failed;
    }

    /** Both entries, one after the other. */
    method RevertConfigs(name: string) returns (ok: bool, ghost k: Found)
      modifies server`dp, server`mig, server`issued
      ensures MayReport(old(server.dp), old(server.mig), name, k)
      ensures var d, m := RemoveAt(old(server.dp), k.dp, GetDp, PatchDp, server.faults),
                          RemoveAt(old(server.mig), k.mig, GetMig, PatchMig, server.faults);
        && server.dp == d.config && server.mig == (if d.ok then m.config else old(server.mig))
        && ok == (d.ok && m.ok)
        && server.issued == old(server.issued) + ((if d.wrote then {PatchDp} else {})
                                                  + (if d.ok && m.wrote then {PatchMig} else {}))
    {
      hide RemoveAt, MayFind;
      k := FoundIn(server.dp, server.mig, name);
      KeyInReported(server.mig, name);
      ghost var key;
      ok, key := RemoveDevicePluginConfigMapData(name);
      k := k.(dp := key);
      if !ok {
        return;
      }
      ok, key := RemoveMigConfigMapData(name);
      k := k.(mig := key);
    }
  }

  // ---------------------------------------------------------------- glue

  lemma KeyInReported<T>(config: Option<map<string, T>>, p: string)
    ensures if config.Some? then MayFind(config.value, p, KeyIn(config, p)) else KeyIn(config, p) == ""
  {
    if config.Some? {
      LookupByOwner(config.value, p);
    }
  }

  /** Where no policy has two entries the lookups have no choice. */
  lemma OneChoice(h: Hashes, c: State, p: string, k: Found, f: set<Op>)
    requires MayReport(c.dp, c.mig, p, k)
    requires (c.dp.Some? ==> AtMostOne(c.dp.value, p)) && (c.mig.Some? ==> AtMostOne(c.mig.value, p))
    ensures ReconcileStepAt(h, c, p, k, f) == ReconcileStep(h, c, p, f)
  {
    hide ReconcileStepAt, MayFind, OwnKey;
    if c.dp.Some? {
      LookupByOwner(c.dp.value, p);
    }
    if c.mig.Some? {
      LookupByOwner(c.mig.value, p);
    }
  }

  /** Writes to nodes are the only calls that a panic cuts off. */
  lemma OtherOps(f: set<Op>, late: set<string>)
    ensures GetPolicy in f + WriteOps(late) <==> GetPolicy in f
    ensures PutPolicy in f + WriteOps(late) <==> PutPolicy in f
    ensures ListNodes in f + WriteOps(late) <==> ListNodes in f
  {
  }

  lemma CutOff(before: set<Op>, first: set<Op>, then_: set<Op>, late: set<string>)
    requires forall op :: op in first ==> !op.WriteNode?
    ensures before + first + (then_ - WriteOps(late)) == before + (first + then_ - WriteOps(late))
  {
  }

  lemma SetUpOps(h: Hashes, dp: Option<DpData>, mig: Option<MigData>, p: string, spec: GpuSpec, k: Found, f: set<Op>)
    ensures forall op :: op in SetUpAt(h, dp, mig, p, spec, k, f).issued ==> !op.WriteNode?
  {
    hide InstallDpAt, InstallMigAt, DpPanics, MigPanicsAt;
  }

  lemma InstallSameFaults<T>(config: Option<map<string, T>>, key: string, p: string, hash: T -> string, want: T,
                             needed: bool, rehash: bool, get: Op, patch: Op, f: set<Op>, late: set<string>)
    requires !get.WriteNode? && !patch.WriteNode?
    ensures InstallAt(config, key, p, hash, want, needed, rehash, get, patch, f + WriteOps(late))
         == InstallAt(config, key, p, hash, want, needed, rehash, get, patch, f)
  {
    hide PlaceAt;
  }

  lemma SetUpSameFaults(h: Hashes, dp: Option<DpData>, mig: Option<MigData>, p: string, spec: GpuSpec, k: Found,
                        f: set<Op>, late: set<string>)
    ensures SetUpAt(h, dp, mig, p, spec, k, f + WriteOps(late)) == SetUpAt(h, dp, mig, p, spec, k, f)
  {
    hide InstallAt, DesiredDp, DesiredMigOf, DpPanics, MigPanicsAt, DpNeeded, IsMigNoneStrategy;
    InstallSameFaults(dp, k.dp, p, h.dp, DesiredDp(spec), DpNeeded(spec), false, GetDp, PatchDp, f, late);
    InstallSameFaults(mig, k.mig, p, h.mig, DesiredMigOf(spec), !IsMigNoneStrategy(spec.mig), true, GetMig, PatchMig,
                      f, late);
    assert GetDp in f + WriteOps(late) <==> GetDp in f;
    assert GetMig in f + WriteOps(late) <==> GetMig in f;
  }

  /** The end of a deletion, stage by stage. */
  lemma FinishDeletedIs(c: State, p: string, k: Found, f: set<Op>)
    requires p in c.policies
    ensures var o, pol := FinishDeletedAt(c, p, k, {}, f), c.policies[p];
      var d, m := RemoveAt(c.dp, k.dp, GetDp, PatchDp, f), RemoveAt(c.mig, k.mig, GetMig, PatchMig, f);
      var w1, w2: set<Op> := if d.wrote then {PatchDp} else {}, if m.wrote then {PatchMig} else {};
      var kept := pol.(finalizers := WithoutFinalizer(pol.finalizers));
      o == if !d.ok then Outcome(c.(dp := d.config), Failed, w1)
           else if !m.ok then Outcome(c.(dp := d.config, mig := m.config), Failed, w1 + w2)
           else if PutPolicy in f then Outcome(c.(dp := d.config, mig := m.config), Failed, w1 + w2 + {PutPolicy})
           else Outcome(State(c.nodes, StorePolicy(c.policies, p, kept), d.config, m.config), Done,
               w1 + w2 + {PutPolicy})
  {
    hide RemoveAt, StorePolicy, WithoutFinalizer;
  }

  /** Nodes listed by their owner label carry at least that label. */
  lemma OwnLabelled(nodes: Nodes, p: string, list: seq<Node>)
    requires DistinctNames(list) && ByName(list) == Select(nodes, map[GpuManagedBy := p])
    ensures FirstBare(list) == |list|
  {
    hide ByName, DistinctNames, FirstBare, Select;
    OwnNotBare(nodes, GpuManagedBy, p);
    Labelled(list);
  }

  lemma FinishLivePanics(c: State, p: string, s: Setup, f: set<Op>)
    requires p in c.policies && s.issued == {} && Stops(c.policies[p].spec.nodeSelector, c.nodes)
    ensures var o, never := FinishLive(c, p, s, {}, f), NotReached(p, c.nodes);
      var writes := NodeWrites(c.policies[p].spec, s.stamp, c.nodes);
      && o.result == Panicked && o.issued == WriteOps(writes.Keys - never)
      && o.state == State(Deliver(c.nodes, writes, f + WriteOps(never)), c.policies, s.dp, s.mig)
  {
    hide Deliver, NodeWrites, WriteOps, Stops, NotReached;
  }

  lemma FinishLiveWrites(c: State, p: string, s: Setup, f: set<Op>)
    requires p in c.policies && s.issued == {} && !Stops(c.policies[p].spec.nodeSelector, c.nodes)
    ensures var o, pol := FinishLive(c, p, s, {}, f), c.policies[p];
      var writes, claimed := NodeWrites(pol.spec, s.stamp, c.nodes), Select(c.nodes, pol.spec.nodeSelector).Keys;
      var accepted := Accepted(c.nodes, writes, f);
      var status := NewStatus(pol, claimed, accepted * claimed, s.dpUpdated, s.migUpdated);
      var stored := status != pol.status && PutStatus !in f;
      && o.state.nodes == Deliver(c.nodes, writes, f) && o.state.dp == s.dp && o.state.mig == s.mig
      && o.state.policies == (if stored then c.policies[p := pol.(status := status)] else c.policies)
      && o.issued == WriteOps(writes.Keys) + (if status != pol.status then {PutStatus} else {})
      && o.result == (if accepted == writes.Keys && (stored || status == pol.status) then Done else Failed)
  {
    hide Deliver, NodeWrites, WriteOps, Stops, Select, Accepted, NewStatus;
  }

  /** The configuration step of the MIG mode, stage by stage. */
  lemma MigSetUp(h: Hashes, dp: Option<DpData>, mig: Option<MigData>, p: string, spec: GpuSpec, k: Found, f: set<Op>)
    requires spec.mode == MIG
    ensures var s, d, m := SetUpAt(h, dp, mig, p, spec, k, f), InstallDpAt(h, dp, k.dp, p, spec, f),
        InstallMigAt(h, mig, k.mig, p, spec, f);
      var w := if d.wrote then {PatchDp} else {};
      if GetDp !in f && DpPanics(dp, spec) then s.result == Panicked && s.dp == dp && s.mig == mig && s.issued == {}
      else if !d.ok then s.result == Failed && s.dp == d.config && s.mig == mig && s.issued == w
      else if GetMig !in f && MigPanicsAt(mig, k.mig, spec)
      then s.result == Panicked && s.dp == d.config && s.mig == mig && s.issued == w
      else
        && s.result == (if m.ok then Done else Failed) && s.dp == d.config && s.mig == m.config
        && s.issued == w + (if m.wrote then {PatchMig} else {})
        && s.stamp == Stamp(WorkloadOf(MIG), p, d.name, m.name) && s.dpUpdated == d.updated && s.migUpdated == m.updated
  {
    hide InstallDpAt, InstallMigAt, DpPanics, MigPanicsAt;
  }
}

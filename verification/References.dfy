/** Reference integrity over error-free runs: from a policy's last reconcile on, until its spec is
    edited or it is deleted, every node it owns names exactly its existing entries, and these hold
    the conversion of its spec. */
module References {
  import opened Options
  import opened Api
  import opened GpuControls
  import opened ConfigEntries
  import opened Cluster
  import opened GpuProtocol
  import opened StepFacts
  import opened ConfigStage
  import opened StepSafety
  import opened Runs
  import opened History

  /** The policy has one entry with the wanted content, or none and needs none. */
  ghost predicate Holds<T>(config: Option<map<string, T>>, p: string, needed: bool, want: T) {
    && config.Some?
    && if OwnKeys(config.value, p) == {} then !needed
       else (OwnKeys(config.value, p) == {OwnKey(config.value, p)}
             && Find(config.value, OwnKey(config.value, p)) == Some(want))
  }

  ghost predicate Synced(c: State, p: string) {
    && p in c.policies && !c.policies[p].deleting
    && var spec := c.policies[p].spec;
       && (spec.mode == TimeSlicing || spec.mode == MIG ==> Holds(c.dp, p, DpNeeded(spec), DesiredDp(spec)))
       && (spec.mode == MIG ==> Holds(c.mig, p, !IsMigNoneStrategy(spec.mig), DesiredMigOf(spec)))
  }

  /** The label of a node names the policy's entry; it is absent when the policy has none. */
  ghost predicate LabelNames<T>(config: Option<map<string, T>>, p: string, stamped: Option<string>) {
    && config.Some?
    && match stamped
       case None => OwnKeys(config.value, p) == {}
       case Some(name) => name in config.value && OwnKeys(config.value, p) == {name}
  }

  ghost predicate Referenced(c: State, p: string) {
    && Synced(c, p)
    && forall n :: n in c.nodes && Owner(c.nodes[n].labels) == Some(p) ==>
         && (c.policies[p].spec.mode in {TimeSlicing, MIG} ==>
               LabelNames(c.dp, p, Find(c.nodes[n].labels, DevicePluginConfig)))
         && (c.policies[p].spec.mode == MIG ==> LabelNames(c.mig, p, Find(c.nodes[n].labels, MigConfig)))
  }

  lemma NamedHolds<T>(config: Option<map<string, T>>, p: string, name: string, needed: bool, want: T)
    requires NamesEntry(config, p, name, want) && (needed ==> name != "")
    ensures Holds(config, p, needed, want)
  {
  }

  lemma HoldsNamed<T>(config: Option<map<string, T>>, p: string, needed: bool, want: T)
    requires Holds(config, p, needed, want)
    ensures LabelNames(config, p, if KeyIn(config, p) != "" then Some(KeyIn(config, p)) else None)
  {
  }

  lemma HoldsKept<T>(before: Option<map<string, T>>, after: Option<map<string, T>>, p: string, needed: bool, want: T)
    requires Holds(before, p, needed, want) && after.Some?
    requires OwnKeys(after.value, p) == OwnKeys(before.value, p)
    requires forall k :: Owns(p, k) ==> Find(after.value, k) == Find(before.value, k)
    ensures Holds(after, p, needed, want)
  {
  }

  lemma SyncedAfter(h: Hashes, c: State, p: string)
    requires p in c.policies && !c.policies[p].deleting && ConfigsOk(h, c.dp, c.mig, p)
    requires ReconcileStep(h, c, p, {}).result == Done
    ensures Synced(ReconcileStep(h, c, p, {}).state, p)
  {
    hide SetUpAt, ReconcileStep, ConfigsOk, NamesEntry, Holds, DesiredDp;
    DoneStep(h, c, p);
    var spec := c.policies[p].spec;
    var s := SetUp(h, c.dp, c.mig, p, spec, {});
    SetUpNames(h, c.dp, c.mig, p, spec, {});
    if spec.mode == TimeSlicing || spec.mode == MIG {
      NamedHolds(s.dp, p, s.stamp.dpName, DpNeeded(spec), DesiredDp(spec));
    }
    if spec.mode == MIG {
      NamedHolds(s.mig, p, s.stamp.migName, !IsMigNoneStrategy(spec.mig), DesiredMigOf(spec));
    }
  }

  predicate Disturbs(a: Action, p: string) {
    (a.EditSpec? && a.policy == p) || a == Delete(p)
  }

  lemma SyncedOther(world: World, c: State, q: string, p: string)
    requires world.Fits() && Good(world, c) && Synced(c, p) && p != q && q in c.policies
    ensures Synced(ReconcileStep(world.hashes, c, q, {}).state, p)
  {
    hide ReconcileStep, ConfigsOk, NoOrphan, Holds, DesiredDp, SafeSelector, OwnKeys;
    assert PolicyGood(world, c, p) && PolicyGood(world, c, q);
    ReconcileIsolated(world, c, q, p, {});
    var o := ReconcileStep(world.hashes, c, q, {}).state;
    assert Find(o.policies, p) == Find(c.policies, p);
    var spec := c.policies[p].spec;
    if spec.mode == TimeSlicing || spec.mode == MIG {
      SomeIfHolds(c.dp, p, DpNeeded(spec), DesiredDp(spec));
      HoldsKept(c.dp, o.dp, p, DpNeeded(spec), DesiredDp(spec));
    }
    if spec.mode == MIG {
      SomeIfHolds(c.mig, p, !IsMigNoneStrategy(spec.mig), DesiredMigOf(spec));
      HoldsKept(c.mig, o.mig, p, !IsMigNoneStrategy(spec.mig), DesiredMigOf(spec));
    }
  }

  lemma SomeIfHolds<T>(config: Option<map<string, T>>, p: string, needed: bool, want: T)
    requires Holds(config, p, needed, want)
    ensures config.Some?
  {
  }

  lemma SyncedKept(world: World, c: State, a: Action, p: string)
    requires world.Fits() && Good(world, c) && CleanAction(world, c, a)
    requires Synced(c, p) && !Disturbs(a, p)
    ensures Synced(Next(world, c, a), p)
  {
    hide ReconcileLiveAt, ReconcileDeletedAt, ConfigsOk, NoOrphan, Holds, DesiredDp, SafeSelector;
    if a.Reconcile? {
      if a.policy == p {
        assert PolicyGood(world, c, p);
        LiveIsDone(world.hashes, c, p);
        SyncedAfter(world.hashes, c, p);
      } else if a.policy in c.policies {
        SyncedOther(world, c, a.policy, p);
      }
    }
  }

  lemma FreshReferenced(c: State, p: string)
    requires Fresh(c) && Synced(c, p)
    ensures Referenced(c, p)
  {
    hide Holds, LabelNames, AsBlank, DesiredDp;
    var spec := c.policies[p].spec;
    if spec.mode == TimeSlicing || spec.mode == MIG {
      HoldsNamed(c.dp, p, DpNeeded(spec), DesiredDp(spec));
    }
    if spec.mode == MIG {
      HoldsNamed(c.mig, p, !IsMigNoneStrategy(spec.mig), DesiredMigOf(spec));
    }
    forall n | n in c.nodes && Owner(c.nodes[n].labels) == Some(p)
      ensures spec.mode in {TimeSlicing, MIG} ==> LabelNames(c.dp, p, Find(c.nodes[n].labels, DevicePluginConfig))
      ensures spec.mode == MIG ==> LabelNames(c.mig, p, Find(c.nodes[n].labels, MigConfig))
    {
      assert NodeFresh(c, c.nodes[n].labels);
      AsBlankNames(StampNow(c, p), c.nodes[n].labels);
    }
  }

  lemma {:induction false} RunSynced(world: World, c: State, acts: seq<Action>, j: nat, p: string)
    requires world.Fits() && Good(world, c) && CleanRun(world, c, acts)
    requires j < |acts| && acts[j] == Reconcile(p, {})
    requires var before := Run(world, c, acts[..j]); p in before.policies && !before.policies[p].deleting
    requires forall i :: j < i < |acts| ==> !Disturbs(acts[i], p)
    ensures Synced(Run(world, c, acts), p)
    decreases |acts|
  {
    hide Synced, Good, ConfigsOk, ReconcileLiveAt, ReconcileDeletedAt;
    var last := |acts| - 1;
    var before := Run(world, c, acts[..last]);
    RunGood(world, c, acts[..last]);
    if j == last {
      PolicyGoodAt(world, before, p);
      LiveIsDone(world.hashes, before, p);
      SyncedAfter(world.hashes, before, p);
    } else {
      assert acts[..last][..j] == acts[..j];
      RunSynced(world, c, acts[..last], j, p);
      SyncedKept(world, before, acts[last], p);
    }
  }

  lemma PolicyGoodAt(world: World, c: State, p: string)
    requires Good(world, c) && p in c.policies
    ensures ConfigsOk(world.hashes, c.dp, c.mig, p)
  {
  }

  /** From an error-free reconcile of p at action j on, whatever else happens in the run, every node
      p owns names exactly p's existing entries and they hold the conversion of p's spec. */
  lemma RunReferences(world: World, c: State, acts: seq<Action>, j: nat, p: string)
    requires world.Fits() && Good(world, c) && Fresh(c) && CleanRun(world, c, acts)
    requires j < |acts| && acts[j] == Reconcile(p, {})
    requires var before := Run(world, c, acts[..j]); p in before.policies && !before.policies[p].deleting
    requires forall i :: j < i < |acts| ==> !Disturbs(acts[i], p)
    ensures Referenced(Run(world, c, acts), p)
  {
    hide Run, CleanRun, Good, Fresh, Synced, Referenced;
    RunSynced(world, c, acts, j, p);
    RunFresh(world, c, acts);
    FreshReferenced(Run(world, c, acts), p);
  }
}

/** The configuration stage of a reconcile: what it leaves in the two shared configurations, which
    names it reports, and that repeating it is harmless. */
module ConfigStage {
  import opened Options
  import opened Api
  import opened GpuControls
  import opened ConfigEntries
  import opened Cluster
  import opened GpuProtocol

  ghost predicate ConfigOk<T>(config: Option<map<string, T>>, p: string, hash: T -> string) {
    config.Some? ==> EntryOk(config.value, p, hash)
  }

  /** Keys outside the policy's prefix did not move. */
  ghost predicate OthersSame<T>(before: Option<map<string, T>>, after: Option<map<string, T>>, p: string) {
    && (before.Some? <==> after.Some?)
    && (before.Some? ==> forall k :: !Owns(p, k) ==> Find(after.value, k) == Find(before.value, k))
  }

  /** The name reported for a configuration: its only entry for the policy, holding what the policy
      asks for, or none at all. */
  ghost predicate NamesEntry<T>(config: Option<map<string, T>>, p: string, name: string, want: T) {
    && config.Some?
    && name == OwnKey(config.value, p)
    && if name == "" then OwnKeys(config.value, p) == {}
       else OwnKeys(config.value, p) == {name} && config.value[name] == want
  }

  lemma InstallFacts<T>(config: Option<map<string, T>>, p: string, hash: T -> string, want: T, needed: bool,
                        rehash: bool, get: Op, patch: Op, f: set<Op>)
    requires ConfigOk(config, p, hash)
    ensures var r := Install(config, p, hash, want, needed, rehash, get, patch, f);
      && ConfigOk(r.config, p, hash) && OthersSame(config, r.config, p)
      && (r.ok ==> NamesEntry(r.config, p, r.name, want) && (needed ==> r.name != ""))
      && (r.ok && r.name == "" ==> OwnKeys(config.value, p) == {})
      && (r.updated ==> r.ok && r.wrote)
      && (r.config != config ==> r.ok)
  {
    hide EntryOk, OwnKeys, Drop;
    if config.Some? {
      PlaceDoes(config.value, p, hash, want);
      OwnKeyIs(config.value, p);
      OwnKeyOfSingle(Place(config.value, p, hash, want).entries, p);
    }
  }

  lemma OwnKeyOfSingle<T>(m: map<string, T>, p: string)
    ensures forall k :: OwnKeys(m, p) == {k} ==> OwnKey(m, p) == k
  {
  }

  /** Cut off or not, the stage run again on what it left ends where one clean run would; a clean
      run that succeeded has nothing left to do. */
  lemma InstallAgain<T>(config: Option<map<string, T>>, p: string, hash: T -> string, want: T, needed: bool,
                        rehash: bool, get: Op, patch: Op, f: set<Op>)
    requires ConfigOk(config, p, hash)
    ensures var clean := Install(config, p, hash, want, needed, rehash, get, patch, {});
      var cut := Install(config, p, hash, want, needed, rehash, get, patch, f);
      var again := Install(cut.config, p, hash, want, needed, rehash, get, patch, {});
      && again.config == clean.config && again.name == clean.name && again.ok == clean.ok
      && (cut.ok ==> clean.ok && cut.config == clean.config && cut.name == clean.name
                     && again == Installed(clean.config, clean.name, false, true, false))
  {
    hide EntryOk, OwnKeys, OwnKey;
    if config.Some? {
      PlaceDoes(config.value, p, hash, want);
      PlaceTwice(config.value, p, hash, want);
      var r := Place(config.value, p, hash, want);
      OwnKeyOfSingle(r.entries, p);
      EntryPresent(r.entries, p, r.name);
    }
  }

  lemma EntryPresent<T>(m: map<string, T>, p: string, name: string)
    ensures OwnKeys(m, p) == {name} ==> name in m
  {
  }

  lemma RemoveAgain<T>(config: Option<map<string, T>>, p: string, hash: T -> string, get: Op, patch: Op, f: set<Op>)
    requires ConfigOk(config, p, hash)
    ensures var clean := Remove(config, p, get, patch, {});
      var cut := Remove(config, p, get, patch, f);
      var again := Remove(cut.config, p, get, patch, {});
      && clean.ok && again.ok && again.config == clean.config
      && (cut.ok ==> cut.config == clean.config)
      && (cut.config != config ==> cut.ok)
      && ConfigOk(cut.config, p, hash) && OthersSame(config, cut.config, p)
      && (cut.ok && config.Some? ==> OwnKeys(cut.config.value, p) == {})
  {
  }

  // ---------------------------------------------------------------- both configurations

  ghost predicate ConfigsOk(h: Hashes, dp: Option<DpData>, mig: Option<MigData>, p: string) {
    ConfigOk(dp, p, h.dp) && ConfigOk(mig, p, h.mig)
  }

  /** What the stage leaves, whichever calls fail. */
  lemma SetUpFacts(h: Hashes, dp: Option<DpData>, mig: Option<MigData>, p: string, spec: GpuSpec, f: set<Op>)
    requires ConfigsOk(h, dp, mig, p)
    ensures var s := SetUp(h, dp, mig, p, spec, f);
      && ConfigsOk(h, s.dp, s.mig, p) && OthersSame(dp, s.dp, p) && OthersSame(mig, s.mig, p)
      && s.stamp.managedBy == p && s.stamp.workload == WorkloadOf(spec.mode)
      && (spec.mode != TimeSlicing && spec.mode != MIG ==> s.dp == dp)
      && (spec.mode != MIG ==> s.mig == mig)
  {
    hide InstallAt, EntryOk, DpPanics, MigPanicsAt, OwnKey, DesiredDp, DesiredMigOf, IsMigNoneStrategy;
    InstallFacts(dp, p, h.dp, DesiredDp(spec), DpNeeded(spec), false, GetDp, PatchDp, f);
    InstallFacts(mig, p, h.mig, DesiredMigOf(spec), !IsMigNoneStrategy(spec.mig), true, GetMig, PatchMig, f);
  }

  /** The names it stamps when it succeeds. */
  lemma SetUpNames(h: Hashes, dp: Option<DpData>, mig: Option<MigData>, p: string, spec: GpuSpec, f: set<Op>)
    requires ConfigsOk(h, dp, mig, p) && SetUp(h, dp, mig, p, spec, f).result == Done
    ensures var s := SetUp(h, dp, mig, p, spec, f);
      && (if spec.mode == TimeSlicing || spec.mode == MIG
          then NamesEntry(s.dp, p, s.stamp.dpName, DesiredDp(spec)) && (DpNeeded(spec) ==> s.stamp.dpName != "")
               && (s.stamp.dpName == "" ==> OwnKeys(dp.value, p) == {})
          else s.stamp.dpName == InitialDpName(spec.mode))
      && (if spec.mode == MIG
          then NamesEntry(s.mig, p, s.stamp.migName, DesiredMigOf(spec))
               && (!IsMigNoneStrategy(spec.mig) ==> s.stamp.migName != "")
               && (s.stamp.migName == "" ==> OwnKeys(mig.value, p) == {})
          else s.stamp.migName == ALL_DISABLED)
  {
    hide InstallAt, EntryOk, DpPanics, MigPanicsAt, NamesEntry;
    InstallFacts(dp, p, h.dp, DesiredDp(spec), DpNeeded(spec), false, GetDp, PatchDp, f);
    InstallFacts(mig, p, h.mig, DesiredMigOf(spec), !IsMigNoneStrategy(spec.mig), true, GetMig, PatchMig, f);
  }

  lemma InstallDpAgain(h: Hashes, dp: Option<DpData>, p: string, spec: GpuSpec, f: set<Op>)
    requires ConfigOk(dp, p, h.dp)
    ensures var clean, cut := InstallDp(h, dp, p, spec, {}), InstallDp(h, dp, p, spec, f);
      var again := InstallDp(h, cut.config, p, spec, {});
      && again.config == clean.config && again.name == clean.name && again.ok == clean.ok
      && (cut.ok ==> clean.ok && cut.config == clean.config && cut.name == clean.name
                     && again == Installed(clean.config, clean.name, false, true, false))
      && (GetDp in f ==> !cut.ok && cut.config == dp)
      && (!DpPanics(dp, spec) ==> !DpPanics(cut.config, spec))
  {
    hide EntryOk, OwnKey;
    InstallAgain(dp, p, h.dp, DesiredDp(spec), DpNeeded(spec), false, GetDp, PatchDp, f);
  }

  lemma InstallMigAgain(h: Hashes, mig: Option<MigData>, p: string, spec: GpuSpec, f: set<Op>)
    requires ConfigOk(mig, p, h.mig)
    ensures var clean, cut := InstallMig(h, mig, p, spec, {}), InstallMig(h, mig, p, spec, f);
      var again := InstallMig(h, cut.config, p, spec, {});
      && again.config == clean.config && again.name == clean.name && again.ok == clean.ok
      && (cut.ok ==> clean.ok && cut.config == clean.config && cut.name == clean.name
                     && again == Installed(clean.config, clean.name, false, true, false))
      && (!MigPanics(mig, p, spec) ==> !MigPanics(cut.config, p, spec))
      && (GetMig in f ==> !cut.ok && cut.config == mig)
  {
    hide EntryOk, OwnKey;
    InstallAgain(mig, p, h.mig, DesiredMigOf(spec), !IsMigNoneStrategy(spec.mig), true, GetMig, PatchMig, f);
  }

  ghost predicate AgainIsClean(clean: Setup, cut: Setup, again: Setup) {
    && again.dp == clean.dp && again.mig == clean.mig && again.result == clean.result
    && (clean.result == Done ==> again.stamp == clean.stamp)
    && (cut.result == Done ==>
          clean.result == Done && cut.dp == clean.dp && cut.mig == clean.mig && cut.stamp == clean.stamp
          && again == Setup(clean.dp, clean.mig, clean.stamp, false, false, Done, {}))
  }

  lemma SetUpAgainDp(h: Hashes, dp: Option<DpData>, mig: Option<MigData>, p: string, spec: GpuSpec, f: set<Op>)
    requires ConfigsOk(h, dp, mig, p) && spec.mode != MIG
    ensures var cut := SetUp(h, dp, mig, p, spec, f);
      AgainIsClean(SetUp(h, dp, mig, p, spec, {}), cut, SetUp(h, cut.dp, cut.mig, p, spec, {}))
  {
    hide InstallDpAt, InstallMigAt, DpPanics, MigPanicsAt, ConfigOk;
    InstallDpAgain(h, dp, p, spec, f);
  }

  lemma SetUpAgainMig(h: Hashes, dp: Option<DpData>, mig: Option<MigData>, p: string, spec: GpuSpec, f: set<Op>)
    requires ConfigsOk(h, dp, mig, p) && spec.mode == MIG
    ensures var cut := SetUp(h, dp, mig, p, spec, f);
      AgainIsClean(SetUp(h, dp, mig, p, spec, {}), cut, SetUp(h, cut.dp, cut.mig, p, spec, {}))
  {
    hide InstallDpAt, InstallMigAt, DpPanics, MigPanicsAt, ConfigOk, InitialDpName, InitialMigName, WorkloadOf;
    InstallDpAgain(h, dp, p, spec, f);
    InstallMigAgain(h, mig, p, spec, f);
  }

  /** Cut off anywhere and run again on what it left, the stage ends where one clean run does;
      after a success nothing is left to do. */
  lemma SetUpAgain(h: Hashes, dp: Option<DpData>, mig: Option<MigData>, p: string, spec: GpuSpec, f: set<Op>)
    requires ConfigsOk(h, dp, mig, p)
    ensures var cut := SetUp(h, dp, mig, p, spec, f);
      AgainIsClean(SetUp(h, dp, mig, p, spec, {}), cut, SetUp(h, cut.dp, cut.mig, p, spec, {}))
  {
    hide SetUpAt, ConfigOk, AgainIsClean;
    if spec.mode == MIG {
      SetUpAgainMig(h, dp, mig, p, spec, f);
    } else {
      SetUpAgainDp(h, dp, mig, p, spec, f);
    }
  }

  // ---------------------------------------------------------------- what the entries say

  /** The time-slicing block read back from an entry. */
  function TimeSlicingOf(config: DpConfig): Option<TimeSlicingSpec> {
    if config.sharing.None? then None
    else Some(TimeSlicingSpec(config.sharing.value.renameByDefault, config.sharing.value.failRequestsGreaterThanOne,
                              config.sharing.value.resources))
  }

  /** An entry gives the time-slicing block back, except where the single MIG strategy drops it. The MIG
      strategy is there in MIG mode alone: the one of the mig block if that has slices and names one,
      "none" otherwise. */
  lemma DpRoundTrip(spec: GpuSpec)
    ensures var mig := if spec.mode == MIG then spec.mig else None;
      var asked := mig.Some? && mig.value.configSlice != [] && mig.value.strategy != "";
      && (TimeSlicingOf(DesiredDp(spec)) == spec.timeSlicing
          <==> !(asked && mig.value.strategy == "single" && spec.timeSlicing.Some?))
      && (DesiredDp(spec).sharing.None? <==> spec.timeSlicing.None? || (asked && mig.value.strategy == "single"))
      && DesiredDp(spec).migStrategy
         == (if spec.mode != MIG then None else if asked then Some(mig.value.strategy) else Some("none"))
      && DesiredDp(spec).version == "v1"
  {
  }

  function SlicesOf(entry: MigEntry): seq<MigSlice> {
    seq(|entry|, i requires 0 <= i < |entry| => MigSlice(entry[i].deviceFilter, entry[i].devices, entry[i].migDevices))
  }

  /** A mig entry gives the slices back in order, each with MIG enabled. */
  lemma MigRoundTrip(config: MigSpec)
    ensures SlicesOf(DesiredMig(config)) == config.configSlice
    ensures forall part :: part in DesiredMig(config) ==> part.migEnabled
  {
    forall i | 0 <= i < |config.configSlice| ensures SlicesOf(DesiredMig(config))[i] == config.configSlice[i] {
    }
  }
}

/** What a single reconcile can never do, whichever of its calls fail: to nodes of other owners, to
    labels it does not know, to entries of other policies, and to a deletion that is not finished. */
module StepSafety {
  import opened Options
  import opened Api
  import opened GpuControls
  import opened ConfigEntries
  import opened Cluster
  import opened GpuProtocol
  import opened StepFacts
  import opened ConfigStage
  import NodePasses
  import Retry

  // ---------------------------------------------------------------- nodes

  /** The only owner a reconcile of p gives or takes is p, a node of another owner keeps everything,
      and no node loses or gains a label outside the controller's keys. */
  ghost predicate NodeFrame(before: Obj, after: Obj, p: string) {
    && (Owner(before.labels).Some? && Owner(before.labels) != Some(p) ==> after == before)
    && (Owner(after.labels) == Owner(before.labels)
        || (Owner(before.labels).None? && Owner(after.labels) == Some(p))
        || (Owner(before.labels) == Some(p) && Owner(after.labels).None?))
    && forall k :: k !in GPU_KEYS ==> Find(after.labels, k) == Find(before.labels, k)
  }

  ghost predicate NodesFrame(before: Nodes, after: Nodes, p: string) {
    after.Keys == before.Keys && forall n :: n in before ==> NodeFrame(before[n], after[n], p)
  }

  lemma FrameRefl(nodes: Nodes, p: string)
    ensures NodesFrame(nodes, nodes, p)
  {
  }

  lemma SetUpStamp(h: Hashes, dp: Option<DpData>, mig: Option<MigData>, p: string, spec: GpuSpec, f: set<Op>)
    ensures SetUp(h, dp, mig, p, spec, f).stamp.managedBy == p
  {
  }

  lemma LiveNodesFrame(nodes: Nodes, spec: GpuSpec, s: Stamp, f: set<Op>)
    ensures NodesFrame(nodes, Deliver(nodes, NodeWrites(spec, s, nodes), f), s.managedBy)
  {
    hide NodeWrites, NextLabels, EditLabels;
    forall n | n in nodes
      ensures NodeFrame(nodes[n], Deliver(nodes, NodeWrites(spec, s, nodes), f)[n], s.managedBy)
    {
      StepNodeAt(nodes, spec, s, f, n);
      OwnerNext(spec, s, nodes[n].labels);
      NextOnlyGpuKeys(spec, s, nodes[n].labels);
      if Owner(nodes[n].labels).Some? && Owner(nodes[n].labels) != Some(s.managedBy) {
        OthersUntouched(spec, s, nodes[n].labels);
      }
    }
  }

  lemma NextOnlyGpuKeys(spec: GpuSpec, s: Stamp, labels: Labels)
    ensures forall k :: k !in GPU_KEYS ==> Find(NextLabels(spec, s, labels), k) == Find(labels, k)
  {
    hide EditLabels, GPU_KEYS;
    var e := EditFor(spec, s, labels);
    forall k | k !in GPU_KEYS ensures Find(NextLabels(spec, s, labels), k) == Find(labels, k) {
      if e.Some? {
        OnlyGpuKeysEdited(e.value, labels, k);
      }
    }
  }

  lemma PassNodesFrame(nodes: Nodes, e: Edit, p: string, f: set<Op>)
    requires e == Release || e == Revert
    ensures NodesFrame(nodes, Deliver(nodes, Writes(e, Select(nodes, map[GpuManagedBy := p])), f), p)
  {
    hide Writes, EditLabels, Select, GPU_KEYS, WriteOf;
    var after := Deliver(nodes, Writes(e, Select(nodes, map[GpuManagedBy := p])), f);
    forall n | n in nodes ensures NodeFrame(nodes[n], after[n], p) {
      PassNodeAt(nodes, e, p, f, n);
      Retry.RevertTwice(nodes[n].labels);
      Retry.ReleaseUnowns(nodes[n].labels);
      forall k | k !in GPU_KEYS ensures Find(EditLabels(e, nodes[n].labels), k) == Find(nodes[n].labels, k) {
        OnlyGpuKeysEdited(e, nodes[n].labels, k);
      }
    }
  }

  /** Isolation of nodes, on every state and with any calls failing. */
  lemma ReconcileNodesFrame(h: Hashes, c: State, p: string, f: set<Op>)
    ensures NodesFrame(c.nodes, ReconcileStep(h, c, p, f).state.nodes, p)
  {
    hide SetUpAt, FinishLive, FinishDeletedAt, NodesFrame, LiveFaults, NodeWrites;
    hide Writes, Deliver, Select, MigDrained, Accepted, WriteOps;
    FrameRefl(c.nodes, p);
    if p in c.policies {
      var pol := c.policies[p];
      var c1 := c.(policies := c.policies[p := WithFinalizer(pol)]);
      var s := SetUp(h, c.dp, c.mig, p, pol.spec, f);
      SetUpStamp(h, c.dp, c.mig, p, pol.spec, f);
      FinishLiveNodes(c1, p, s, if RELEASE_FINALIZER in pol.finalizers then {} else {PutPolicy}, f);
      LiveNodesFrame(c.nodes, pol.spec, s.stamp, LiveFaults(c.nodes, pol.spec.nodeSelector, p, f));
      PassNodesFrame(c.nodes, Release, p, f);
      PassNodesFrame(c.nodes, Revert, p, f);
      var writes := Writes(Release, Mine(c, p));
      var c2 := c.(nodes := Deliver(c.nodes, writes, f));
      FinishDeletedKeepsNodes(c2, p, WriteOps(writes.Keys), f);
    }
  }

  lemma FinishLiveNodes(c: State, p: string, s: Setup, w: set<Op>, f: set<Op>)
    requires p in c.policies
    ensures FinishLive(c, p, s, w, f).state.nodes
         == Deliver(c.nodes, NodeWrites(c.policies[p].spec, s.stamp, c.nodes),
                    LiveFaults(c.nodes, c.policies[p].spec.nodeSelector, p, f))
  {
    hide FinishLive, NodeWrites, Deliver, LiveFaults;
    Retry.FinishLiveFacts(c, p, s, w, f);
  }

  lemma FinishDeletedKeepsNodes(c: State, p: string, w: set<Op>, f: set<Op>)
    requires p in c.policies
    ensures FinishDeleted(c, p, w, f).state.nodes == c.nodes
  {
  }

  // ---------------------------------------------------------------- configurations

  lemma OthersSameRefl<T>(config: Option<map<string, T>>, p: string)
    ensures OthersSame(config, config, p)
  {
  }

  /** Isolation of the shared configurations: every entry outside the policy's prefix, built-in or
      another policy's, stays; the policy's own stays unique and named after its content. */
  lemma ReconcileConfigFrame(h: Hashes, c: State, p: string, f: set<Op>)
    requires ConfigsOk(h, c.dp, c.mig, p)
    ensures var o := ReconcileStep(h, c, p, f).state;
      && ConfigsOk(h, o.dp, o.mig, p) && OthersSame(c.dp, o.dp, p) && OthersSame(c.mig, o.mig, p)
  {
    hide SetUpAt, FinishLive, FinishDeletedAt, ConfigOk, OthersSame, Writes;
    hide Deliver, Select, MigDrained, Accepted, WriteOps;
    OthersSameRefl(c.dp, p);
    OthersSameRefl(c.mig, p);
    if p in c.policies {
      var pol := c.policies[p];
      var c1 := c.(policies := c.policies[p := WithFinalizer(pol)]);
      var s := SetUp(h, c.dp, c.mig, p, pol.spec, f);
      SetUpFacts(h, c.dp, c.mig, p, pol.spec, f);
      Retry.FinishLiveFacts(c1, p, s, if RELEASE_FINALIZER in pol.finalizers then {} else {PutPolicy}, f);
      var writes := Writes(Release, Mine(c, p));
      FinishDeletedConfigs(h, c.(nodes := Deliver(c.nodes, writes, f)), p, WriteOps(writes.Keys), f);
    }
  }

  lemma FinishDeletedConfigs(h: Hashes, c: State, p: string, w: set<Op>, f: set<Op>)
    requires p in c.policies && ConfigsOk(h, c.dp, c.mig, p)
    ensures var o := FinishDeleted(c, p, w, f).state;
      && ConfigsOk(h, o.dp, o.mig, p) && OthersSame(c.dp, o.dp, p) && OthersSame(c.mig, o.mig, p)
  {
    hide RemoveAt, StorePolicy, ConfigOk, OthersSame;
    OthersSameRefl(c.mig, p);
    RemoveAgain(c.dp, p, h.dp, GetDp, PatchDp, f);
    RemoveAgain(c.mig, p, h.mig, GetMig, PatchMig, f);
  }

  // ---------------------------------------------------------------- policies and the deletion order

  ghost predicate Registered(c: State, p: string) {
    p in c.policies && RELEASE_FINALIZER in c.policies[p].finalizers
  }

  ghost predicate HoldsNode(c: State, p: string) {
    exists n :: n in c.nodes && Owner(c.nodes[n].labels) == Some(p)
  }

  ghost predicate HoldsDp(c: State, p: string) {
    c.dp.Some? && OwnKeys(c.dp.value, p) != {}
  }

  ghost predicate HoldsMig(c: State, p: string) {
    c.mig.Some? && OwnKeys(c.mig.value, p) != {}
  }

  /** Whatever a policy still holds, its finalizer keeps it in the cluster. */
  ghost predicate NoOrphan(c: State, p: string) {
    HoldsNode(c, p) || HoldsDp(c, p) || HoldsMig(c, p) ==> Registered(c, p)
  }

  /** Only the policy's own object changes, and of it only the finalizer and the status. */
  ghost predicate PolicyFrame(c: State, o: State, p: string) {
    && o.policies.Keys <= c.policies.Keys
    && (forall q :: q in c.policies && q != p ==> q in o.policies && o.policies[q] == c.policies[q])
    && (p in o.policies ==>
          o.policies[p].spec == c.policies[p].spec && o.policies[p].deleting == c.policies[p].deleting)
  }

  lemma LivePolicies(h: Hashes, c: State, p: string, f: set<Op>)
    requires p in c.policies
    ensures var o := ReconcileLive(h, c, p, f).state;
      PolicyFrame(c, o, p) && p in o.policies && (o == c || Registered(o, p))
  {
    hide SetUpAt, FinishLive;
    var pol := c.policies[p];
    var c1 := c.(policies := c.policies[p := WithFinalizer(pol)]);
    var s := SetUp(h, c.dp, c.mig, p, pol.spec, f);
    Retry.FinishLiveFacts(c1, p, s, if RELEASE_FINALIZER in pol.finalizers then {} else {PutPolicy}, f);
  }

  lemma DeletedPolicies(h: Hashes, c: State, p: string, f: set<Op>)
    requires p in c.policies
    ensures PolicyFrame(c, ReconcileDeleted(h, c, p, f).state, p)
  {
    hide Writes, Deliver, Select, MigDrained, Accepted, WriteOps, WithoutFinalizer, RemoveAt;
  }

  lemma ReconcilePolicies(h: Hashes, c: State, p: string, f: set<Op>)
    ensures var o := ReconcileStep(h, c, p, f).state;
      && PolicyFrame(c, o, p)
      && (p in c.policies && !c.policies[p].deleting ==> p in o.policies && (o == c || Registered(o, p)))
  {
    hide ReconcileLiveAt, ReconcileDeletedAt;
    if p in c.policies {
      LivePolicies(h, c, p, f);
      DeletedPolicies(h, c, p, f);
    }
  }

  /** Deletion is ordered at every point it can be cut off: while a node is owned every entry is
      still there, and while a node is owned or an entry is there so is the finalizer. */
  lemma DeletionOrdered(h: Hashes, c: State, p: string, f: set<Op>)
    requires Registered(c, p) && c.policies[p].deleting && ConfigsOk(h, c.dp, c.mig, p)
    ensures var o := ReconcileStep(h, c, p, f).state;
      && (HoldsNode(o, p) ==> o.dp == c.dp && o.mig == c.mig)
      && (!Registered(o, p) ==> !HoldsNode(o, p) && !HoldsDp(o, p) && !HoldsMig(o, p))
  {
    hide FinishDeletedAt, Writes, Deliver, Select, MigDrained, Accepted, WriteOps, ConfigOk;
    var writes := Writes(Release, Mine(c, p));
    var c1 := c.(nodes := Deliver(c.nodes, writes, f));
    Retry.ReleaseAgain(c.nodes, p, f);
    if Accepted(c.nodes, writes, f) == writes.Keys {
      NothingMine(c1, p);
      FinishOrdered(h, c1, p, WriteOps(writes.Keys), f);
    }
  }

  lemma NothingMine(c: State, p: string)
    ensures Mine(c, p) == map[] <==> !HoldsNode(c, p)
  {
    hide Select;
    if HoldsNode(c, p) {
      var n :| n in c.nodes && Owner(c.nodes[n].labels) == Some(p);
      NodePasses.MineIs(c.nodes, p, n);
    } else {
      forall n ensures n !in Mine(c, p) {
        NodePasses.MineIs(c.nodes, p, n);
      }
    }
  }

  lemma FinishOrdered(h: Hashes, c: State, p: string, w: set<Op>, f: set<Op>)
    requires Registered(c, p) && ConfigsOk(h, c.dp, c.mig, p) && !HoldsNode(c, p)
    ensures var o := FinishDeleted(c, p, w, f).state;
      && !HoldsNode(o, p)
      && (!Registered(o, p) ==> !HoldsDp(o, p) && !HoldsMig(o, p))
  {
    hide RemoveAt, WithoutFinalizer, ConfigOk, OwnKeys;
    RemoveAgain(c.dp, p, h.dp, GetDp, PatchDp, f);
    RemoveAgain(c.mig, p, h.mig, GetMig, PatchMig, f);
  }

  /** One step keeps the policy's belongings under its finalizer. */
  lemma ReconcileNoOrphan(h: Hashes, c: State, p: string, f: set<Op>)
    requires ConfigsOk(h, c.dp, c.mig, p) && NoOrphan(c, p)
    ensures NoOrphan(ReconcileStep(h, c, p, f).state, p)
  {
    hide ReconcileLiveAt, ReconcileDeletedAt, HoldsNode, HoldsDp, HoldsMig, ConfigOk;
    ReconcilePolicies(h, c, p, f);
    if Registered(c, p) && c.policies[p].deleting {
      DeletionOrdered(h, c, p, f);
    }
  }

  // ---------------------------------------------------------------- any number of cuts

  ghost function CutOffs(h: Hashes, c: State, p: string, cuts: seq<set<Op>>): State {
    if cuts == [] then c else ReconcileStep(h, CutOffs(h, c, p, cuts[..|cuts| - 1]), p, cuts[|cuts| - 1]).state
  }

  /** Cut off any number of times, each time anywhere, and then left to finish: the outcome is still
      that of one undisturbed reconcile. */
  lemma {:induction false} RetriesConverge(h: Hashes, c: State, p: string, cuts: seq<set<Op>>)
    requires Retry.PolicyOk(h, c, p)
    ensures Retry.PolicyOk(h, CutOffs(h, c, p, cuts), p)
    ensures var clean := ReconcileStep(h, c, p, {});
      var again := ReconcileStep(h, CutOffs(h, c, p, cuts), p, {});
      Retry.SameCluster(again.state, clean.state) && again.result == clean.result
  {
    hide ReconcileStepAt, Retry.SameCluster, ConfigsOk, SafeSelector;
    if cuts == [] {
      Retry.SameClusterRefl(ReconcileStep(h, c, p, {}).state);
    } else {
      var last := |cuts| - 1;
      var before := CutOffs(h, c, p, cuts[..last]);
      RetriesConverge(h, c, p, cuts[..last]);
      Retry.RetryConverges(h, before, p, cuts[last]);
      ReconcileConfigFrame(h, before, p, cuts[last]);
      ReconcilePolicies(h, before, p, cuts[last]);
      SameClusterTrans(ReconcileStep(h, CutOffs(h, c, p, cuts), p, {}).state, ReconcileStep(h, before, p, {}).state,
                       ReconcileStep(h, c, p, {}).state);
    }
  }

  lemma SameClusterTrans(a: State, b: State, c: State)
    requires Retry.SameCluster(a, b) && Retry.SameCluster(b, c)
    ensures Retry.SameCluster(a, c)
  {
  }
}

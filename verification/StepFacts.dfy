/** What one reconcile step does, node by node and entry by entry. */
module StepFacts {
  import opened Options
  import opened MergePatch
  import opened ModeTable
  import opened Api
  import opened GpuControls
  import opened ConfigEntries
  import opened Cluster
  import opened GpuProtocol

  // ---------------------------------------------------------------- labels

  /** The selector mentions no label the controller writes. */
  predicate SafeSelector(spec: GpuSpec) {
    forall k :: k in spec.nodeSelector ==> k !in GPU_KEYS
  }

  /** A node's labels after an undisturbed reconcile of the policy. */
  function NextLabels(spec: GpuSpec, s: Stamp, labels: Labels): Labels {
    var e := EditFor(spec, s, labels);
    if e.None? then labels else EditLabels(e.value, labels)
  }

  lemma OnlyGpuKeysEdited(e: Edit, labels: Labels, k: LabelKey)
    requires k !in GPU_KEYS
    ensures Find(EditLabels(e, labels), k) == Find(labels, k)
  {
    hide Updated, Released, Reverted;
    var s := if e.Adopt? || e.Update? then e.stamp else Stamp(NoWorkload, "", "", "");
    OnlyGpuKeys(s, labels, k);
  }

  lemma ClaimKept(spec: GpuSpec, e: Edit, labels: Labels)
    requires SafeSelector(spec)
    ensures Matches(spec.nodeSelector, EditLabels(e, labels)) <==> Matches(spec.nodeSelector, labels)
  {
    hide EditLabels;
    forall k | k in spec.nodeSelector ensures Find(EditLabels(e, labels), k) == Find(labels, k) {
      OnlyGpuKeysEdited(e, labels, k);
    }
  }

  lemma ClaimNext(spec: GpuSpec, actor: GpuSpec, s: Stamp, labels: Labels)
    requires SafeSelector(spec)
    ensures Matches(spec.nodeSelector, NextLabels(actor, s, labels)) <==> Matches(spec.nodeSelector, labels)
  {
    hide EditLabels, Matches;
    var e := EditFor(actor, s, labels);
    if e.Some? {
      ClaimKept(spec, e.value, labels);
    }
  }

  /** Who owns a node afterwards: an unowned claimed node is taken, an unclaimed own node is let go. */
  lemma OwnerNext(spec: GpuSpec, s: Stamp, labels: Labels)
    ensures Owner(NextLabels(spec, s, labels)) ==
      if Matches(spec.nodeSelector, labels) then (if Owner(labels).None? then Some(s.managedBy) else Owner(labels))
      else if Owner(labels) == Some(s.managedBy) then None else Owner(labels)
  {
    hide Matches, Updated;
    UpdatedAt(s, labels, GpuManagedBy);
  }

  /** A node of another owner keeps every label. */
  lemma OthersUntouched(spec: GpuSpec, s: Stamp, labels: Labels)
    requires Owner(labels).Some? && Owner(labels) != Some(s.managedBy)
    ensures NextLabels(spec, s, labels) == labels
  {
  }

  lemma NextIdempotent(spec: GpuSpec, s: Stamp, labels: Labels)
    requires SafeSelector(spec)
    ensures NextLabels(spec, s, NextLabels(spec, s, labels)) == NextLabels(spec, s, labels)
  {
    hide Matches, Updated, Released, Owner;
    ClaimNext(spec, spec, s, labels);
    OwnerNext(spec, s, labels);
    UpdatedIdempotent(s, labels);
  }

  /** The labels the controller writes are never all removed, so its patches touch single keys. */
  lemma EditedNotEmpty(e: Edit, labels: Labels)
    requires EditLabels(e, labels) != labels
    ensures EditLabels(e, labels) != map[]
  {
    if e.Adopt? || e.Update? {
      UpdatedAt(e.stamp, labels, GpuManagedBy);
    } else if e.Release? {
      assert Operands in Released(labels);
    } else {
      assert MigManager in Reverted(labels);
    }
  }

  lemma NextNotBare(spec: GpuSpec, s: Stamp, labels: Labels)
    ensures labels != map[] ==> NextLabels(spec, s, labels) != map[]
    ensures labels == map[] && !Matches(spec.nodeSelector, labels) ==> NextLabels(spec, s, labels) == labels
  {
    hide EditLabels, Matches;
    var e := EditFor(spec, s, labels);
    if e.Some? && EditLabels(e.value, labels) != labels {
      EditedNotEmpty(e.value, labels);
    }
  }

  // ---------------------------------------------------------------- nodes

  lemma FreshSend(o: Obj, e: Edit)
    requires WriteOf(e, o).Some?
    ensures Send(o, WriteOf(e, o).value) == Some(Obj(o.version + 1, EditLabels(e, o.labels)))
  {
    hide EditLabels;
    ApplyDiff(o.labels, EditLabels(e, o.labels));
  }

  lemma NodeWriteIs(spec: GpuSpec, s: Stamp, o: Obj)
    ensures NodeWrite(spec, s, o).Some? <==> NextLabels(spec, s, o.labels) != o.labels
    ensures NodeWrite(spec, s, o).Some? ==>
      Send(o, NodeWrite(spec, s, o).value) == Some(Obj(o.version + 1, NextLabels(spec, s, o.labels)))
  {
    hide EditLabels, Send;
    if NodeWrite(spec, s, o).Some? {
      FreshSend(o, EditFor(spec, s, o.labels).value);
    }
  }

  /** Every node takes its next labels, or stays as it was where the write failed. */
  lemma StepNodeAt(nodes: Nodes, spec: GpuSpec, s: Stamp, f: set<Op>, n: string)
    requires n in nodes
    ensures var next := NextLabels(spec, s, nodes[n].labels);
      && (n in NodeWrites(spec, s, nodes) <==> next != nodes[n].labels)
      && (n in Accepted(nodes, NodeWrites(spec, s, nodes), f) <==> next != nodes[n].labels && WriteNode(n) !in f)
      && Deliver(nodes, NodeWrites(spec, s, nodes), f)[n]
         == if next != nodes[n].labels && WriteNode(n) !in f then Obj(nodes[n].version + 1, next) else nodes[n]
  {
    hide NodeWrite, NextLabels, Send;
    NodeWriteIs(spec, s, nodes[n]);
  }

  /** The same for a pass over the nodes the policy owns. */
  lemma PassNodeAt(nodes: Nodes, e: Edit, p: string, f: set<Op>, n: string)
    requires n in nodes
    ensures var mine := Select(nodes, map[GpuManagedBy := p]);
      var sent := Owner(nodes[n].labels) == Some(p) && WriteOf(e, nodes[n]).Some?;
      && (n in Writes(e, mine) <==> sent)
      && (n in Accepted(nodes, Writes(e, mine), f) <==> sent && WriteNode(n) !in f)
      && Deliver(nodes, Writes(e, mine), f)[n]
         == if sent && WriteNode(n) !in f then Obj(nodes[n].version + 1, EditLabels(e, nodes[n].labels)) else nodes[n]
  {
    hide WriteOf, EditLabels, Send;
    if WriteOf(e, nodes[n]).Some? {
      FreshSend(nodes[n], e);
    }
  }

  /** The calls that fail or never happen in the node stage of a reconcile. */
  function LiveFaults(nodes: Nodes, selector: Labels, p: string, f: set<Op>): set<Op> {
    if Stops(selector, nodes) then f + WriteOps(NotReached(p, nodes)) else f
  }

  /** The stage neither fills nor empties a label map that adoption would stop at. */
  lemma BareKept(nodes: Nodes, spec: GpuSpec, s: Stamp, f: set<Op>)
    ensures var cut := Deliver(nodes, NodeWrites(spec, s, nodes), LiveFaults(nodes, spec.nodeSelector, s.managedBy, f));
      && cut.Keys == nodes.Keys
      && (forall n :: n in nodes && Matches(spec.nodeSelector, map[]) ==> (Bare(cut[n]) <==> Bare(nodes[n])))
      && (Stops(spec.nodeSelector, cut) <==> Stops(spec.nodeSelector, nodes))
  {
    hide NodeWrites, NextLabels, Matches;
    var g := LiveFaults(nodes, spec.nodeSelector, s.managedBy, f);
    var cut := Deliver(nodes, NodeWrites(spec, s, nodes), g);
    forall n | n in nodes ensures Matches(spec.nodeSelector, map[]) ==> (Bare(cut[n]) <==> Bare(nodes[n])) {
      StepNodeAt(nodes, spec, s, g, n);
      NextNotBare(spec, s, nodes[n].labels);
      if Bare(nodes[n]) && Matches(spec.nodeSelector, map[]) {
        assert n in NotReached(s.managedBy, nodes);
      }
    }
  }

  // ---------------------------------------------------------------- stages

  /** Registering the finalizer is a step of its own in front of the rest. */
  lemma FinalizerFirstAt(h: Hashes, c: State, p: string, k: Found, f: set<Op>)
    requires p in c.policies && RELEASE_FINALIZER !in c.policies[p].finalizers
    ensures var c1 := c.(policies := c.policies[p := WithFinalizer(c.policies[p])]);
      ReconcileLiveAt(h, c, p, k, f) == if PutPolicy in f then Outcome(c, Failed, {PutPolicy})
        else var o := ReconcileLiveAt(h, c1, p, k, f); Outcome(o.state, o.result, {PutPolicy} + o.issued)
  {
    hide SetUpAt, FinishLive;
    var c1 := c.(policies := c.policies[p := WithFinalizer(c.policies[p])]);
    assert c1.policies[p := c1.policies[p]] == c1.policies;
    var s := SetUpAt(h, c.dp, c.mig, p, c.policies[p].spec, k, f);
    FinishLiveFrom(c1, p, s, {}, f);
    FinishLiveFrom(c1, p, s, {PutPolicy}, f);
  }

  lemma FinalizerFirst(h: Hashes, c: State, p: string, f: set<Op>)
    requires p in c.policies && RELEASE_FINALIZER !in c.policies[p].finalizers
    ensures var c1 := c.(policies := c.policies[p := WithFinalizer(c.policies[p])]);
      ReconcileLive(h, c, p, f) == if PutPolicy in f then Outcome(c, Failed, {PutPolicy})
        else var o := ReconcileLive(h, c1, p, f); Outcome(o.state, o.result, {PutPolicy} + o.issued)
  {
    hide ReconcileLiveAt;
    FinalizerFirstAt(h, c, p, FoundIn(c.dp, c.mig, p), f);
  }

  /** A reconcile of a registered policy, stage by stage. */
  lemma RegisteredIs(h: Hashes, c: State, p: string, k: Found, f: set<Op>)
    requires p in c.policies && RELEASE_FINALIZER in c.policies[p].finalizers
    ensures var s := SetUpAt(h, c.dp, c.mig, p, c.policies[p].spec, k, f);
      ReconcileLiveAt(h, c, p, k, f)
      == if ListNodes in f then Outcome(c, Failed, {})
         else if s.result != Done then Outcome(c.(dp := s.dp, mig := s.mig), s.result, s.issued)
         else FinishLive(c, p, s, {}, f)
  {
    hide SetUpAt, FinishLive;
    assert c.policies[p := c.policies[p]] == c.policies;
  }

  lemma FinishLiveFrom(c: State, p: string, s: Setup, w: set<Op>, f: set<Op>)
    requires p in c.policies
    ensures var o := FinishLive(c.(dp := s.dp, mig := s.mig), p, s.(issued := {}), {}, f);
      FinishLive(c, p, s, w, f) == Outcome(o.state, o.result, w + s.issued + o.issued)
  {
    hide NewStatus, NodeWrites, Deliver, Accepted, Select, WriteOps, Stops, NotReached;
  }

  lemma FinishDeletedFrom(c: State, p: string, k: Found, w: set<Op>, f: set<Op>)
    requires p in c.policies
    ensures var o := FinishDeletedAt(c, p, k, {}, f);
      FinishDeletedAt(c, p, k, w, f) == Outcome(o.state, o.result, w + o.issued)
  {
    hide RemoveAt, StorePolicy;
  }

  /** Removing the finalizer keeps every other one. */
  lemma {:induction false} WithoutFinalizerRemoves(fs: seq<string>, x: string)
    ensures x in WithoutFinalizer(fs) <==> x in fs && x != RELEASE_FINALIZER
  {
    if fs == [] {
    } else {
      WithoutFinalizerRemoves(fs[..|fs| - 1], x);
      assert fs == fs[..|fs| - 1] + [fs[|fs| - 1]];
    }
  }
}

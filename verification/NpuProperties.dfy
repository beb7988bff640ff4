/** What one reconcile of an NPU policy means for its nodes: who owns them, when the finalizer goes,
    what a deletion leaves behind, and which failures are retried. */
module NpuProperties {
  import opened Options
  import opened MergePatch
  import opened Api
  import opened GpuControls
  import opened NpuControls
  import opened Cluster
  import opened NodeLists
  import opened GpuProtocol
  import opened NodePasses
  import opened NpuReconciler
  import StepFacts

  // ---------------------------------------------------------------- node by node

  lemma NpuSend(e: NpuEdit, o: Obj)
    requires NpuWriteOf(e, o).Some?
    ensures Send(o, NpuWriteOf(e, o).value) == Some(Obj(o.version + 1, NpuEditLabels(e, o.labels)))
  {
    hide NpuEditLabels;
    ApplyDiff(o.labels, NpuEditLabels(e, o.labels));
  }

  /** A pass over items that are up to date edits exactly those, where the write arrives. */
  lemma NpuPassAt(nodes: Nodes, issued: set<Op>, e: NpuEdit, items: Nodes, f: set<Op>, n: string)
    requires n in nodes && (n in items ==> items[n] == nodes[n])
    ensures var after := NpuPass(nodes, issued, e, items, f).nodes;
      && n in after
      && after[n].labels == (if n in items && WriteNode(n) !in f then NpuEditLabels(e, nodes[n].labels)
          else nodes[n].labels)
      && (n !in items ==> after[n] == nodes[n])
  {
    hide NpuEditLabels, Send;
    if NpuWriteOf(e, nodes[n]).Some? {
      NpuSend(e, nodes[n]);
    }
  }

  /** Which pass of a living policy a node falls in. */
  function NpuEditFor(spec: NpuSpec, p: string, labels: Labels): Option<NpuEdit> {
    var claimed, mine := Matches(spec.nodeSelector, labels), Find(labels, NpuManagedBy) == Some(p);
    if claimed then Some(if mine then NpuUpdate(spec.mode, p) else NpuAdopt(spec.mode, p))
    else if mine then Some(NpuRelease) else None
  }

  lemma NpuSplitAt(c: NpuState, p: string, n: string)
    requires p in c.policies && n in c.nodes
    ensures var spec, mine := c.policies[p].spec, NpuMine(c, p);
      var claimed, e := Select(c.nodes, spec.nodeSelector), NpuEditFor(spec, p, c.nodes[n].labels);
      && (n in claimed - mine.Keys <==> e == Some(NpuAdopt(spec.mode, p)))
      && (n in Both(mine, claimed) <==> e == Some(NpuUpdate(spec.mode, p)))
      && (n in NpuLeaving(c, p) <==> e == Some(NpuRelease))
      && (n in claimed ==> claimed[n] == c.nodes[n]) && (n in mine ==> mine[n] == c.nodes[n])
  {
    assert Matches(map[NpuManagedBy := p], c.nodes[n].labels) <==> Find(c.nodes[n].labels, NpuManagedBy) == Some(p);
  }

  /** The pass comes to a node unless a bare node ends it before, which it does for all but those to adopt. */
  predicate ComesTo(c: NpuState, p: string, n: string)
    requires p in c.policies && n in c.nodes
  {
    Stops(c.policies[p].spec.nodeSelector, c.nodes)
    ==> !Bare(c.nodes[n]) && Find(c.nodes[n].labels, NpuManagedBy) != Some(p)
  }

  lemma FinishedNodeAt(c: NpuState, p: string, issued: set<Op>, f: set<Op>, n: string)
    requires p in c.policies && n in c.nodes
    ensures var after, e := NpuFinishLive(c, p, issued, f).state.nodes,
        NpuEditFor(c.policies[p].spec, p, c.nodes[n].labels);
      && n in after
      && after[n].labels == (if e.Some? && ComesTo(c, p, n) && WriteNode(n) !in f
          then NpuEditLabels(e.value, c.nodes[n].labels)
                             else c.nodes[n].labels)
  {
    hide NpuPass, NpuEditLabels, Matches, Select, Both, SetSync, AllRestored, NpuLeaving, Stops;
    var pol, mine := c.policies[p], NpuMine(c, p);
    var claimed := Select(c.nodes, pol.spec.nodeSelector);
    NpuSplitAt(c, p, n);
    var e1, e2 := NpuAdopt(pol.spec.mode, p), NpuUpdate(pol.spec.mode, p);
    NpuPassAt(c.nodes, issued, e1, NpuAdoptable(c, p), f, n);
    var p1 := NpuPass(c.nodes, issued, e1, claimed - mine.Keys, f);
    NpuPassAt(c.nodes, issued, e1, claimed - mine.Keys, f, n);
    var p2 := NpuPass(p1.nodes, p1.issued, e2, Both(mine, claimed), f);
    LeavingHas(c, p, n);
    NpuPassAt(p1.nodes, p1.issued, e2, Both(mine, claimed), f, n);
    NpuPassAt(p2.nodes, p2.issued, NpuRelease, NpuLeaving(c, p), f, n);
  }

  lemma LeavingHas(c: NpuState, p: string, n: string)
    requires p in c.policies && n in c.nodes
    ensures n in NpuLeaving(c, p) ==> NpuLeaving(c, p)[n] == c.nodes[n]
    ensures var claimed := Select(c.nodes, c.policies[p].spec.nodeSelector);
      n in Both(NpuMine(c, p), claimed) ==> Both(NpuMine(c, p), claimed)[n] == c.nodes[n]
  {
  }

  /** A living policy's reconcile, node by node and whichever calls fail: a node of another policy
      keeps every label; a claimed node ends up owned with exactly the mode's labels, or as it was;
      an own node that is no longer claimed loses all NPU labels unless it was already restored. */
  lemma NpuTakesOver(c: NpuState, p: string, f: set<Op>, n: string, k: LabelKey)
    requires p in c.policies && !c.policies[p].deleting && n in c.nodes
    requires GetPolicy !in f && ListNodes !in f && (PutPolicy in f ==> RELEASE_FINALIZER in c.policies[p].finalizers)
    ensures var spec, labels, after := c.policies[p].spec, c.nodes[n].labels, NpuStep(c, p, f).state.nodes;
      var owner, claimed := Find(labels, NpuManagedBy), Matches(spec.nodeSelector, labels);
      && n in after
      && Find(after[n].labels, k) ==
         if WriteNode(n) in f || !ComesTo(c, p, n) || (owner.Some? && owner != Some(p)) || (owner.None? && !claimed)
         then Find(labels, k)
         else if claimed then (match k
           case NpuManagedBy => Some(p)
           case NpuWorkloadConfig =>
             (match spec.mode
              case ContainerMode => Some("container")
              case VmMode => Some("vm")
              case OtherNpuMode(_) => None)
           case WorkerSelector => if spec.mode.OtherNpuMode? then None else Some("dls-worker-node")
           case _ => Find(labels, k))
         else if Restored(labels) || k !in NPU_KEYS then Find(labels, k) else None
  {
    hide NpuFinishLive, NpuUpdated, Matches, Restored, Stops;
    var pol, w := c.policies[p], if RELEASE_FINALIZER in c.policies[p].finalizers then {} else {PutPolicy};
    FinishedNodeAt(c.(policies := c.policies[p := WithNpuFinalizer(pol)]), p, w, f, n);
    NpuUpdatedAt(pol.spec.mode, p, c.nodes[n].labels, k);
  }

  // ---------------------------------------------------------------- what is retried

  /** A node whose adoption fails stays unowned, and short of a panic the reconcile asks for another try
      exactly when some node it lets go is not restored yet: the failure itself is forgotten. */
  lemma AdoptFailureRetriedIff(c: NpuState, p: string, f: set<Op>, n: string)
    requires p in c.policies && !c.policies[p].deleting
    requires {GetPolicy, ListNodes, PutPolicy, PutStatus} !! f
    requires n in c.nodes && Find(c.nodes[n].labels, NpuManagedBy) == None && WriteNode(n) in f
    ensures var o := NpuStep(c, p, f);
      && n in o.state.nodes && Find(o.state.nodes[n].labels, NpuManagedBy) == None
      && (o.result == Panicked <==> Stops(c.policies[p].spec.nodeSelector, c.nodes))
      && (o.result == Failed
          <==> o.result != Panicked && exists m :: m in NpuLeaving(c, p) && !Restored(NpuLeaving(c, p)[m].labels))
  {
    hide NpuPass, SetSync, Select, Restored, Matches, NpuStep, Stops;
    NpuTakesOver(c, p, f, n, NpuManagedBy);
    LiveResult(c, p, f);
  }

  lemma LiveResult(c: NpuState, p: string, f: set<Op>)
    requires p in c.policies && !c.policies[p].deleting
    requires {GetPolicy, ListNodes, PutPolicy, PutStatus} !! f
    ensures NpuStep(c, p, f).result ==
      if Stops(c.policies[p].spec.nodeSelector, c.nodes) then Panicked
      else if AllRestored(NpuLeaving(c, p)) then Done else Failed
  {
    hide NpuPass, SetSync, AllRestored, Select, Stops, NpuAdoptable;
    var c1 := c.(policies := c.policies[p := WithNpuFinalizer(c.policies[p])]);
    assert NpuLeaving(c1, p) == NpuLeaving(c, p);
  }

  /** The forgotten failure happens: a lone claimed node that is not adopted, and no retry. */
  lemma AdoptFailureForgotten(n: string, p: string)
    ensures var pol := NpuPolicy(NpuSpec(map[], ContainerMode), false, [RELEASE_FINALIZER], None);
      var c := NpuState(map[n := Obj(0, map[Custom("kubernetes.io/hostname") := n])], map[p := pol]);
      var o := NpuStep(c, p, {WriteNode(n)});
      && o.result == Done && n in Select(c.nodes, pol.spec.nodeSelector)
      && n in o.state.nodes && Find(o.state.nodes[n].labels, NpuManagedBy) == None
  {
    hide NpuStep;
    var pol := NpuPolicy(NpuSpec(map[], ContainerMode), false, [RELEASE_FINALIZER], None);
    var labels := map[Custom("kubernetes.io/hostname") := n];
    var c := NpuState(map[n := Obj(0, labels)], map[p := pol]);
    var f := {WriteNode(n)};
    LiveResult(c, p, f);
    assert Custom("kubernetes.io/hostname") in labels;
    assert !Bare(c.nodes[n]);
    NpuTakesOver(c, p, f, n, NpuManagedBy);
    assert NpuLeaving(c, p) == map[];
  }

  // ---------------------------------------------------------------- deletion

  /** The finalizer goes exactly on a pass that finds every selected node restored, and such a pass
      writes nothing but the policy. */
  lemma FinalizerAfterQuietPass(c: NpuState, p: string, f: set<Op>)
    requires p in c.policies && c.policies[p].deleting && RELEASE_FINALIZER in c.policies[p].finalizers
    ensures var o := NpuStep(c, p, f);
      var gone := p !in o.state.policies || RELEASE_FINALIZER !in o.state.policies[p].finalizers;
      && (gone <==> GetPolicy !in f && ListNodes !in f && PutPolicy !in f
                    && AllRestored(Select(c.nodes, c.policies[p].spec.nodeSelector)))
      && (gone ==> o.state.nodes == c.nodes && o.issued == {PutPolicy})
      && (forall q :: q != p ==> Find(o.state.policies, q) == Find(c.policies, q))
  {
    hide NpuPass, AllRestored, Select;
    StepFacts.WithoutFinalizerRemoves(c.policies[p].finalizers, RELEASE_FINALIZER);
  }

  lemma DeletedNodeAt(c: NpuState, p: string, f: set<Op>, n: string)
    requires p in c.policies && c.policies[p].deleting && RELEASE_FINALIZER in c.policies[p].finalizers
    requires n in c.nodes && GetPolicy !in f && ListNodes !in f
    ensures var after, labels := NpuStep(c, p, f).state.nodes, c.nodes[n].labels;
      && n in after
      && after[n].labels ==
         if Matches(c.policies[p].spec.nodeSelector, labels) && !Restored(labels) && WriteNode(n) !in f
         then NpuReleased(labels) else labels
  {
    hide NpuPass, NpuReleased, Matches, Restored;
    var selected := Select(c.nodes, c.policies[p].spec.nodeSelector);
    NpuPassAt(c.nodes, {}, NpuRelease, selected, f, n);
    if AllRestored(selected) && n in selected {
      assert Restored(selected[n].labels);
    }
  }

  /** NPU and GPU reconciles never touch each other's labels, nor any other label, whichever calls fail. */
  lemma KeysApart(k: LabelKey, c: NpuState, p: string, f: set<Op>, n: string)
    requires n in c.nodes && k !in NPU_KEYS
    ensures n in NpuStep(c, p, f).state.nodes
    ensures Find(NpuStep(c, p, f).state.nodes[n].labels, k) == Find(c.nodes[n].labels, k)
    ensures NPU_KEYS !! GPU_KEYS
  {
    hide NpuStep, Matches, Restored;
    if p !in c.policies || GetPolicy in f || ListNodes in f {
      NothingToDo(c, p, f);
    } else if !c.policies[p].deleting {
      if PutPolicy in f && RELEASE_FINALIZER !in c.policies[p].finalizers {
        NothingToDo(c, p, f);
      } else {
        NpuTakesOver(c, p, f, n, k);
      }
    } else if RELEASE_FINALIZER in c.policies[p].finalizers {
      DeletedNodeAt(c, p, f, n);
    } else {
      NothingToDo(c, p, f);
    }
  }

  lemma NothingToDo(c: NpuState, p: string, f: set<Op>)
    requires
      || p !in c.policies || GetPolicy in f || ListNodes in f
      || (RELEASE_FINALIZER !in c.policies[p].finalizers && (c.policies[p].deleting || PutPolicy in f))
    ensures NpuStep(c, p, f).state.nodes == c.nodes
  {
  }
}

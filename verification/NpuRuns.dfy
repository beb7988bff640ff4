/** Whole runs of the NPU controller: reconciles of any policies, each with any calls failing, between
    users creating, editing and deleting policies and labels, and the agents on the nodes reporting at
    any time, before a release as well as after it. */
module NpuRuns {
  import opened Options
  import opened Api
  import opened NpuControls
  import opened Cluster
  import opened GpuProtocol
  import opened NpuReconciler
  import opened NpuProperties

  datatype NpuAction =
    | NpuReconcile(policy: string, faults: set<Op>)
    | NpuCreate(policy: string, spec: NpuSpec)
    | NpuEditSpec(policy: string, spec: NpuSpec)
    | NpuDelete(policy: string)
    | AgentReport(node: string, state: string)
    | NpuUserLabel(node: string, key: LabelKey, value: Option<string>)

  /** Users leave the NPU labels to the controller and the state label to the agents. */
  predicate NpuAllowed(c: NpuState, a: NpuAction) {
    match a
    case NpuReconcile(_, _) => true
    case NpuCreate(p, _) => p !in c.policies
    case NpuEditSpec(p, spec) => p in c.policies && spec.mode == c.policies[p].spec.mode
    case NpuDelete(p) => p in c.policies
    case AgentReport(n, _) => n in c.nodes
    case NpuUserLabel(n, k, _) => n in c.nodes && k !in NPU_KEYS && k != NpuConfigState
  }

  function NpuRelabel(c: NpuState, n: string, labels: Labels): NpuState
    requires n in c.nodes
  {
    c.(nodes := c.nodes[n := Obj(c.nodes[n].version + 1, labels)])
  }

  /** The state after an action; what is not allowed does not happen. */
  function NpuNext(c: NpuState, a: NpuAction): NpuState {
    if !NpuAllowed(c, a) then c
    else match a
    case NpuReconcile(p, f) => NpuStep(c, p, f).state
    case NpuCreate(p, spec) => c.(policies := c.policies[p := NpuPolicy(spec, false, [], None)])
    case NpuEditSpec(p, spec) => c.(policies := c.policies[p := c.policies[p].(spec := spec)])
    case NpuDelete(p) => c.(policies := StoreNpu(c.policies, p, c.policies[p].(deleting := true)))
    case AgentReport(n, v) => NpuRelabel(c, n, c.nodes[n].labels[NpuConfigState := v])
    case NpuUserLabel(n, k, v) =>
      var labels := c.nodes[n].labels;
      NpuRelabel(c, n, if v.Some? then labels[k := v.value] else labels - {k})
  }

  function NpuRun(c: NpuState, acts: seq<NpuAction>): NpuState {
    if acts == [] then c else NpuNext(NpuRun(c, acts[..|acts| - 1]), acts[|acts| - 1])
  }

  // ---------------------------------------------------------------- the end of a policy

  /** The policy is being deleted, or gone. */
  predicate Ending(c: NpuState, p: string) {
    p in c.policies ==> c.policies[p].deleting
  }

  predicate NpuRegistered(c: NpuState, p: string) {
    p in c.policies && RELEASE_FINALIZER in c.policies[p].finalizers
  }

  /** A release write reaches the node: a deletion that selects it gets through to it before its agent
      has marked it restored. */
  predicate Releases(c: NpuState, a: NpuAction, n: string) {
    && a.NpuReconcile? && NpuRegistered(c, a.policy) && c.policies[a.policy].deleting
    && n in c.nodes && Matches(c.policies[a.policy].spec.nodeSelector, c.nodes[n].labels)
    && !Restored(c.nodes[n].labels)
    && GetPolicy !in a.faults && ListNodes !in a.faults && WriteNode(n) !in a.faults
  }

  predicate NpuClean(labels: Labels) {
    labels.Keys !! NPU_KEYS
  }

  predicate SameNpuLabels(a: Labels, b: Labels) {
    forall k :: k in NPU_KEYS ==> Find(a, k) == Find(b, k)
  }

  lemma EndingStays(c: NpuState, a: NpuAction, p: string)
    requires Ending(c, p) && !(a.NpuCreate? && a.policy == p)
    ensures Ending(NpuNext(c, a), p)
  {
    hide NpuPass, SetSync, AllRestored, Select, Stops, NpuAdoptable, WithoutFinalizer;
  }

  /** A living policy leaves the nodes of other policies alone. */
  lemma OthersLeftAlone(c: NpuState, p: string, f: set<Op>, n: string)
    requires p in c.policies && !c.policies[p].deleting && n in c.nodes
    requires Find(c.nodes[n].labels, NpuManagedBy) != None && Find(c.nodes[n].labels, NpuManagedBy) != Some(p)
    ensures var after := NpuStep(c, p, f).state.nodes; n in after && SameNpuLabels(after[n].labels, c.nodes[n].labels)
  {
    hide NpuStep, Matches, Restored, ComesTo;
    if GetPolicy in f || ListNodes in f || (PutPolicy in f && RELEASE_FINALIZER !in c.policies[p].finalizers) {
      NothingToDo(c, p, f);
    } else {
      NpuTakesOver(c, p, f, n, NpuManagedBy);
      forall k ensures Find(NpuStep(c, p, f).state.nodes[n].labels, k) == Find(c.nodes[n].labels, k) {
        NpuTakesOver(c, p, f, n, k);
      }
    }
  }

  /** What one action does to the NPU labels of a node that is not up for adoption by a living policy. */
  lemma ReleaseStep(c: NpuState, a: NpuAction, n: string)
    requires n in c.nodes
    requires a.NpuReconcile? && a.policy in c.policies && !c.policies[a.policy].deleting ==>
      Find(c.nodes[n].labels, NpuManagedBy) != None && Find(c.nodes[n].labels, NpuManagedBy) != Some(a.policy)
    ensures var after, labels := NpuNext(c, a).nodes, c.nodes[n].labels;
      && n in after
      && if Releases(c, a, n) then NpuClean(after[n].labels) else SameNpuLabels(after[n].labels, labels)
  {
    hide NpuStep, Matches, Restored;
    if a.NpuReconcile? {
      var p, f := a.policy, a.faults;
      if p !in c.policies || GetPolicy in f || ListNodes in f {
        NothingToDo(c, p, f);
      } else if !c.policies[p].deleting {
        OthersLeftAlone(c, p, f, n);
      } else if RELEASE_FINALIZER in c.policies[p].finalizers {
        DeletedNodeAt(c, p, f, n);
      } else {
        NothingToDo(c, p, f);
      }
    }
  }

  /** Some action of the run releases the node. */
  predicate EverReleases(c: NpuState, acts: seq<NpuAction>, n: string) {
    acts != [] && (EverReleases(c, acts[..|acts| - 1], n)
        || Releases(NpuRun(c, acts[..|acts| - 1]), acts[|acts| - 1], n))
  }

  lemma {:induction false} EverReleasesIff(c: NpuState, acts: seq<NpuAction>, n: string)
    ensures EverReleases(c, acts, n) <==> exists i :: 0 <= i < |acts| && Releases(NpuRun(c, acts[..i]), acts[i], n)
  {
    hide Releases, NpuRun;
    if acts != [] {
      var last := |acts| - 1;
      EverReleasesIff(c, acts[..last], n);
      assert forall i :: 0 <= i < last ==> acts[..last][..i] == acts[..i] && acts[..last][i] == acts[i];
    }
  }

  /** Of a deleted policy's nodes, in any run of any policies: a node stays owned, with all its NPU labels
      as they were, exactly until a release write reaches it. */
  lemma {:induction false} OwnedUntilReleased(c: NpuState, acts: seq<NpuAction>, p: string, n: string)
    requires Ending(c, p) && n in c.nodes && Find(c.nodes[n].labels, NpuManagedBy) == Some(p)
    requires forall i :: 0 <= i < |acts| ==> !(acts[i].NpuCreate? && acts[i].policy == p)
    ensures var o := NpuRun(c, acts);
      && Ending(o, p) && n in o.nodes
      && (Find(o.nodes[n].labels, NpuManagedBy) == Some(p) <==> !EverReleases(c, acts, n))
      && (!EverReleases(c, acts, n) ==> SameNpuLabels(o.nodes[n].labels, c.nodes[n].labels))
  {
    hide NpuNext, Releases, Ending;
    if acts == [] {
    } else {
      var last := |acts| - 1;
      var before := NpuRun(c, acts[..last]);
      OwnedUntilReleased(c, acts[..last], p, n);
      EndingStays(before, acts[last], p);
      if Find(before.nodes[n].labels, NpuManagedBy) == Some(p) {
        OwnedStep(before, acts[last], p, n);
      } else {
        NotTakenBack(before, acts[last], p, n);
      }
    }
  }

  lemma OwnedStep(c: NpuState, a: NpuAction, p: string, n: string)
    requires Ending(c, p) && n in c.nodes && Find(c.nodes[n].labels, NpuManagedBy) == Some(p)
    ensures var after := NpuNext(c, a).nodes;
      && n in after
      && if Releases(c, a, n) then Find(after[n].labels, NpuManagedBy) != Some(p)
         else SameNpuLabels(after[n].labels, c.nodes[n].labels) && Find(after[n].labels, NpuManagedBy) == Some(p)
  {
    hide NpuNext, Releases;
    ReleaseStep(c, a, n);
    assert NpuManagedBy in NPU_KEYS;
  }

  /** An ending policy adopts nothing. */
  lemma NotTakenBack(c: NpuState, a: NpuAction, p: string, n: string)
    requires Ending(c, p) && n in c.nodes && Find(c.nodes[n].labels, NpuManagedBy) != Some(p)
    ensures n in NpuNext(c, a).nodes && Find(NpuNext(c, a).nodes[n].labels, NpuManagedBy) != Some(p)
  {
    hide NpuStep, Matches, Restored, ComesTo;
    if a.NpuReconcile? {
      var q, f := a.policy, a.faults;
      if q !in c.policies || GetPolicy in f || ListNodes in f {
        NothingToDo(c, q, f);
      } else if c.policies[q].deleting {
        if RELEASE_FINALIZER in c.policies[q].finalizers {
          DeletedNodeAt(c, q, f, n);
        } else {
          NothingToDo(c, q, f);
        }
      } else if PutPolicy in f && RELEASE_FINALIZER !in c.policies[q].finalizers {
        NothingToDo(c, q, f);
      } else {
        NpuTakesOver(c, q, f, n, NpuManagedBy);
      }
    }
  }

  /** Where only the deleted policy is at work: a node ends clean exactly when it was clean at the start
      or a release write reached it before its agent had marked it restored. */
  lemma {:induction false} CleanIffReleased(c: NpuState, acts: seq<NpuAction>, p: string, n: string)
    requires Ending(c, p) && n in c.nodes
    requires forall i :: 0 <= i < |acts| ==>
      (acts[i].NpuReconcile? ==> acts[i].policy == p) && !(acts[i].NpuCreate? && acts[i].policy == p)
    ensures var o := NpuRun(c, acts);
      && Ending(o, p) && n in o.nodes
      && (NpuClean(o.nodes[n].labels) <==> NpuClean(c.nodes[n].labels) || EverReleases(c, acts, n))
  {
    hide NpuNext, Releases, NpuClean, SameNpuLabels;
    if acts == [] {
    } else {
      var last := |acts| - 1;
      var before := NpuRun(c, acts[..last]);
      CleanIffReleased(c, acts[..last], p, n);
      EndingStays(before, acts[last], p);
      ReleaseStep(before, acts[last], n);
      if !Releases(before, acts[last], n) {
        SameIsClean(NpuRun(c, acts).nodes[n].labels, before.nodes[n].labels);
      }
    }
  }

  lemma SameIsClean(a: Labels, b: Labels)
    requires SameNpuLabels(a, b)
    ensures NpuClean(a) <==> NpuClean(b)
  {
    if !NpuClean(a) {
      var k :| k in a.Keys && k in NPU_KEYS;
      assert Find(a, k) == Find(b, k);
    }
    if !NpuClean(b) {
      var k :| k in b.Keys && k in NPU_KEYS;
      assert Find(a, k) == Find(b, k);
    }
  }

  /** It does go wrong: the agent answers the deletion before the controller's first pass, the policy is
      let go, and its node keeps every NPU label. */
  lemma AgentFirst(c: NpuState, p: string, n: string)
    requires NpuRegistered(c, p) && c.policies[p].deleting
    requires c.nodes.Keys == {n} && Find(c.nodes[n].labels, NpuManagedBy) == Some(p)
    ensures var o := NpuRun(c, [AgentReport(n, RESTORED), NpuReconcile(p, {})]);
      && !NpuRegistered(o, p)
      && n in o.nodes && SameNpuLabels(o.nodes[n].labels, c.nodes[n].labels)
  {
    hide NpuStep, Matches;
    var acts := [AgentReport(n, RESTORED), NpuReconcile(p, {})];
    assert acts[..1] == [AgentReport(n, RESTORED)] && acts[..1][..0] == [];
    var mid := NpuNext(c, acts[0]);
    assert NpuRun(c, acts[..1]) == mid;
    assert AllRestored(Select(mid.nodes, mid.policies[p].spec.nodeSelector));
    FinalizerAfterQuietPass(mid, p, {});
  }
}

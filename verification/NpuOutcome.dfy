/** What a reconcile of an NPU policy does besides the labels of NpuProperties: to the policy object, to
    the status, to which writes are issued and to the result, in the terms of the cluster before it. */
module NpuOutcome {
  import opened Options
  import opened MergePatch
  import opened Api
  import opened NpuControls
  import opened Cluster
  import opened NodeLists
  import opened GpuProtocol
  import opened NodePasses
  import opened NpuReconciler
  import opened NpuProperties
  import opened NpuRuns
  import StepFacts

  // ---------------------------------------------------------------- one pass

  /** Of the nodes of a pass over items that are up to date: which are written, and which writes issued. */
  lemma NpuPassWrites(nodes: Nodes, issued: set<Op>, e: NpuEdit, items: Nodes, f: set<Op>, n: string)
    requires n in nodes && (n in items ==> items[n] == nodes[n])
    ensures var pass, edited := NpuPass(nodes, issued, e, items, f), n in items
        && NpuEditLabels(e, nodes[n].labels) != nodes[n].labels;
      && n in pass.nodes
      && (WriteNode(n) in pass.issued <==> WriteNode(n) in issued || edited)
      && (n in pass.written <==> edited && WriteNode(n) !in f)
      && pass.nodes[n]
         == if edited && WriteNode(n) !in f then Obj(nodes[n].version + 1, NpuEditLabels(e, nodes[n].labels))
             else nodes[n]
  {
    hide NpuEditLabels, Send;
    if NpuWriteOf(e, nodes[n]).Some? {
      NpuSend(e, nodes[n]);
    }
  }

  /** A pass issues node writes only. */
  lemma NpuPassCalls(nodes: Nodes, issued: set<Op>, e: NpuEdit, items: Nodes, f: set<Op>)
    ensures var pass := NpuPass(nodes, issued, e, items, f);
      && (PutStatus in pass.issued <==> PutStatus in issued) && (PutPolicy in pass.issued <==> PutPolicy in issued)
  {
    hide NpuWrites, Send;
  }

  lemma NpuPassFails(nodes: Nodes, issued: set<Op>, e: NpuEdit, items: Nodes, f: set<Op>)
    ensures var pass := NpuPass(nodes, issued, e, items, f);
      pass.failed == {} <==> forall n :: n in NpuWrites(e, items) ==> n in pass.written
  {
    hide NpuWrites, Send;
    var pass := NpuPass(nodes, issued, e, items, f);
    assert pass.failed == NpuWrites(e, items).Keys - pass.written;
    if pass.failed == {} {
      forall n | n in NpuWrites(e, items) ensures n in pass.written {
        assert n !in pass.failed;
      }
    }
  }

  // ---------------------------------------------------------------- a living policy

  /** The node is written: it falls in a pass that comes to it, the pass edits it, the write arrives. */
  predicate NpuEdits(c: NpuState, p: string, n: string)
    requires p in c.policies && n in c.nodes
  {
    var e := NpuEditFor(c.policies[p].spec, p, c.nodes[n].labels);
    e.Some? && ComesTo(c, p, n) && NpuEditLabels(e.value, c.nodes[n].labels) != c.nodes[n].labels
  }

  /** Node, write and record of a node after the node stage. */
  lemma FinishedAt(c: NpuState, p: string, f: set<Op>, n: string)
    requires p in c.policies && n in c.nodes
    ensures var r, pol := NpuFinishLive(c, p, {}, f), c.policies[p];
      var labels, written := c.nodes[n].labels, NpuEdits(c, p, n) && WriteNode(n) !in f;
      && n in r.state.nodes
      && (r.state.nodes[n] != c.nodes[n] <==> written)
      && (WriteNode(n) in r.issued <==> NpuEdits(c, p, n))
      && p in r.state.policies
      && (!Stops(pol.spec.nodeSelector, c.nodes) && PutStatus !in f ==>
            && r.state.policies[p].status.Some?
            && Find(r.state.policies[p].status.value, n)
               == if !Matches(pol.spec.nodeSelector, labels) then Find(NpuOrEmpty(pol.status), n)
                  else if written then Some("Initialized")
                  else if Lookup(NpuOrEmpty(pol.status), n) == "" then Some("Initializing")
                  else Some(NpuOrEmpty(pol.status)[n]))
  {
    hide NpuPass, NpuEditLabels, Matches, Select, Both, AllRestored, NpuLeaving, NpuAdoptable, Stops, SetSync;
    var pol, mine := c.policies[p], NpuMine(c, p);
    var claimed := Select(c.nodes, pol.spec.nodeSelector);
    var e1, e2 := NpuAdopt(pol.spec.mode, p), NpuUpdate(pol.spec.mode, p);
    NpuSplitAt(c, p, n);
    LeavingHas(c, p, n);
    AdoptableHas(c, p, n);
    NpuPassWrites(c.nodes, {}, e1, NpuAdoptable(c, p), f, n);
    NpuPassWrites(c.nodes, {}, e1, claimed - mine.Keys, f, n);
    var p1 := NpuPass(c.nodes, {}, e1, claimed - mine.Keys, f);
    NpuPassWrites(p1.nodes, p1.issued, e2, Both(mine, claimed), f, n);
    var p2 := NpuPass(p1.nodes, p1.issued, e2, Both(mine, claimed), f);
    NpuPassWrites(p2.nodes, p2.issued, NpuRelease, NpuLeaving(c, p), f, n);
    ClaimedIff(c.nodes, pol.spec.nodeSelector, n);
    RecordSteps(NpuOrEmpty(pol.status), claimed.Keys, p1.written, p2.written, n);
  }

  lemma ClaimedIff(nodes: Nodes, selector: Labels, n: string)
    ensures n in Select(nodes, selector).Keys <==> n in nodes && Matches(selector, nodes[n].labels)
  {
    hide Matches;
  }

  lemma AdoptableHas(c: NpuState, p: string, n: string)
    requires p in c.policies && n in c.nodes
    ensures n in NpuAdoptable(c, p) ==> NpuAdoptable(c, p)[n] == c.nodes[n]
    ensures var spec, o := c.policies[p].spec, c.nodes[n];
      n in NpuAdoptable(c, p) <==> !Bare(o) && NpuEditFor(spec, p, o.labels) == Some(NpuAdopt(spec.mode, p))
  {
    hide Matches;
  }

  lemma RecordSteps(status: map<string, string>, claimed: set<string>, w1: set<string>, w2: set<string>, n: string)
    ensures var listed := SetSync(status, claimed, INITIALIZING, false);
      var after := SetSync(SetSync(listed, w1, INITIALIZED, true), w2, INITIALIZED, true);
      && (n in w1 || n in w2 ==> Find(after, n) == Some("Initialized"))
      && (n !in w1 && n !in w2 ==>
            Find(after, n) == if n !in claimed then Find(status, n)
                              else if Lookup(status, n) == "" then Some("Initializing") else Some(status[n]))
  {
  }

  /** The living reconcile gets to the nodes. */
  predicate NpuReaches(c: NpuState, p: string, f: set<Op>)
    requires p in c.policies
  {
    GetPolicy !in f && ListNodes !in f && (PutPolicy in f ==> RELEASE_FINALIZER in c.policies[p].finalizers)
  }

  /** The policy object: the finalizer is registered behind the others before anything else, and only the
      status changes besides. */
  lemma NpuLivePolicy(c: NpuState, p: string, f: set<Op>)
    requires p in c.policies && !c.policies[p].deleting
    ensures var o, pol := NpuStep(c, p, f).state, c.policies[p];
      && o.policies.Keys == c.policies.Keys
      && (forall q :: q in c.policies && q != p ==> o.policies[q] == c.policies[q])
      && o.policies[p].spec == pol.spec && !o.policies[p].deleting
      && o.policies[p].finalizers
         == if "release.finalizers.ecns.easystack.io" in pol.finalizers || GetPolicy in f || PutPolicy in f
            then pol.finalizers else pol.finalizers + ["release.finalizers.ecns.easystack.io"]
  {
    hide NpuFinishLive;
    var pol, w := c.policies[p], if RELEASE_FINALIZER in c.policies[p].finalizers then {} else {PutPolicy};
    FinishedPolicies(c.(policies := c.policies[p := WithNpuFinalizer(pol)]), p, w, f);
  }

  lemma FinishedPolicies(c: NpuState, p: string, w: set<Op>, f: set<Op>)
    requires p in c.policies
    ensures var o := NpuFinishLive(c, p, w, f).state;
      p in o.policies && o.policies == c.policies[p := c.policies[p].(status := o.policies[p].status)]
  {
    hide NpuPass, SetSync, AllRestored, Select, Stops, NpuAdoptable, NpuMine, NpuLeaving, NpuOrEmpty;
  }

  /** The status, record by record: a written node is Initialized, another claimed one Initializing unless
      it has a record, and other records stay. It is stored only if the reconcile comes that far. */
  lemma NpuLiveStatus(c: NpuState, p: string, f: set<Op>, n: string)
    requires p in c.policies && !c.policies[p].deleting && n in c.nodes
    ensures var o, pol := NpuStep(c, p, f).state, c.policies[p];
      && p in o.policies && n in o.nodes
      && if NpuReaches(c, p, f) && !Stops(pol.spec.nodeSelector, c.nodes) && PutStatus !in f then
           var before := if pol.status.Some? then pol.status.value else map[];
           && o.policies[p].status.Some?
           && Find(o.policies[p].status.value, n)
              == if !Matches(pol.spec.nodeSelector, c.nodes[n].labels) then Find(before, n)
                 else if o.nodes[n] != c.nodes[n] then Some("Initialized")
                 else if Lookup(before, n) == "" then Some("Initializing")
                 else Some(before[n])
         else o.policies[p].status == pol.status
  {
    hide NpuFinishLive, Stops, Matches, NpuEdits;
    var pol, w := c.policies[p], if RELEASE_FINALIZER in c.policies[p].finalizers then {} else {PutPolicy};
    var c1 := c.(policies := c.policies[p := WithNpuFinalizer(pol)]);
    NpuIssuedFrom(c1, p, w, f);
    FinishedAt(c1, p, f, n);
    StatusKept(c1, p, f);
  }

  lemma StatusKept(c: NpuState, p: string, f: set<Op>)
    requires p in c.policies
    ensures var o := NpuFinishLive(c, p, {}, f).state;
      p in o.policies && (Stops(c.policies[p].spec.nodeSelector, c.nodes) || PutStatus in f ==>
                            o.policies[p].status == c.policies[p].status)
  {
    hide NpuPass, SetSync, AllRestored, Select, Stops, NpuAdoptable, Both;
  }

  /** The writes: the policy where its finalizer is missing, a node exactly where an undisturbed reconcile
      changes it, the status where it does. */
  lemma NpuLiveWrites(c: NpuState, p: string, f: set<Op>, n: string)
    requires p in c.policies && !c.policies[p].deleting && n in c.nodes && NpuReaches(c, p, f)
    ensures var r, clean, pol := NpuStep(c, p, f), NpuStep(c, p, {}), c.policies[p];
      && (PutPolicy in r.issued <==> "release.finalizers.ecns.easystack.io" !in pol.finalizers)
      && n in clean.state.nodes && (WriteNode(n) in r.issued <==> clean.state.nodes[n] != c.nodes[n])
      && n in r.state.nodes
      && (r.state.nodes[n] == if WriteNode(n) in f then c.nodes[n] else clean.state.nodes[n])
      && p in r.state.policies
      && (PutStatus !in f ==> (PutStatus in r.issued <==> r.state.policies[p].status != pol.status))
  {
    hide NpuFinishLive, Stops, Matches, NpuEdits;
    var pol := c.policies[p];
    var w: set<Op> := if RELEASE_FINALIZER in pol.finalizers then {} else {PutPolicy};
    var c1 := c.(policies := c.policies[p := WithNpuFinalizer(pol)]);
    NpuIssuedFrom(c1, p, w, f);
    NpuIssuedFrom(c1, p, w, {});
    FinishedAt(c1, p, f, n);
    FinishedAt(c1, p, {}, n);
    FinishedObj(c1, p, f, n);
    StatusIssued(c1, p, f);
  }

  lemma FinishedObj(c: NpuState, p: string, f: set<Op>, n: string)
    requires p in c.policies && n in c.nodes
    ensures var after, clean := NpuFinishLive(c, p, {}, f).state.nodes, NpuFinishLive(c, p, {}, {}).state.nodes;
      && n in after && n in clean
      && after[n] == if WriteNode(n) in f then c.nodes[n] else clean[n]
  {
    hide NpuPass, NpuEditLabels, Matches, Select, Both, AllRestored, NpuLeaving, NpuAdoptable, Stops, SetSync;
    forall g: set<Op> | g == f || g == {}
      ensures var after, e := NpuFinishLive(c, p, {}, g).state.nodes,
          NpuEditFor(c.policies[p].spec, p, c.nodes[n].labels);
        && n in after
        && after[n] == if NpuEdits(c, p, n) && WriteNode(n) !in g
                       then Obj(c.nodes[n].version + 1, NpuEditLabels(e.value, c.nodes[n].labels)) else c.nodes[n]
    {
      FinishedOne(c, p, g, n);
    }
  }

  lemma FinishedOne(c: NpuState, p: string, f: set<Op>, n: string)
    requires p in c.policies && n in c.nodes
    ensures var after, e := NpuFinishLive(c, p, {}, f).state.nodes,
        NpuEditFor(c.policies[p].spec, p, c.nodes[n].labels);
      && n in after
      && after[n] == if NpuEdits(c, p, n) && WriteNode(n) !in f
                     then Obj(c.nodes[n].version + 1, NpuEditLabels(e.value, c.nodes[n].labels)) else c.nodes[n]
  {
    hide NpuPass, NpuEditLabels, Matches, Select, Both, AllRestored, NpuLeaving, NpuAdoptable, Stops, SetSync;
    var pol, mine := c.policies[p], NpuMine(c, p);
    var claimed := Select(c.nodes, pol.spec.nodeSelector);
    var e1, e2 := NpuAdopt(pol.spec.mode, p), NpuUpdate(pol.spec.mode, p);
    NpuSplitAt(c, p, n);
    LeavingHas(c, p, n);
    AdoptableHas(c, p, n);
    NpuPassWrites(c.nodes, {}, e1, NpuAdoptable(c, p), f, n);
    NpuPassWrites(c.nodes, {}, e1, claimed - mine.Keys, f, n);
    var p1 := NpuPass(c.nodes, {}, e1, claimed - mine.Keys, f);
    NpuPassWrites(p1.nodes, p1.issued, e2, Both(mine, claimed), f, n);
    var p2 := NpuPass(p1.nodes, p1.issued, e2, Both(mine, claimed), f);
    NpuPassWrites(p2.nodes, p2.issued, NpuRelease, NpuLeaving(c, p), f, n);
  }

  lemma StatusIssued(c: NpuState, p: string, f: set<Op>)
    requires p in c.policies
    ensures var r := NpuFinishLive(c, p, {}, f);
      && p in r.state.policies
      && PutPolicy !in r.issued
      && (PutStatus !in f ==> (PutStatus in r.issued <==> r.state.policies[p].status != c.policies[p].status))
  {
    hide NpuPass, SetSync, AllRestored, Select, Stops, NpuAdoptable, Both, NpuLeaving, NpuMine, NpuOrEmpty;
    var pol, mine := c.policies[p], NpuMine(c, p);
    var claimed := Select(c.nodes, pol.spec.nodeSelector);
    var e1, e2 := NpuAdopt(pol.spec.mode, p), NpuUpdate(pol.spec.mode, p);
    NpuPassCalls(c.nodes, {}, e1, NpuAdoptable(c, p), f);
    NpuPassCalls(c.nodes, {}, e1, claimed - mine.Keys, f);
    var p1 := NpuPass(c.nodes, {}, e1, claimed - mine.Keys, f);
    NpuPassCalls(p1.nodes, p1.issued, e2, Both(mine, claimed), f);
    var p2 := NpuPass(p1.nodes, p1.issued, e2, Both(mine, claimed), f);
    NpuPassCalls(p2.nodes, p2.issued, NpuRelease, NpuLeaving(c, p), f);
  }

  /** The result: a failure where a call to the policy, a list or a changed status does not get through; a
      panic at a node without labels; otherwise it depends on the released nodes alone. */
  lemma NpuLiveResult(c: NpuState, p: string, f: set<Op>)
    requires p in c.policies && !c.policies[p].deleting
    ensures var r, clean, pol := NpuStep(c, p, f), NpuStep(c, p, {}), c.policies[p];
      var waits := exists n :: n in c.nodes && Find(c.nodes[n].labels, NpuManagedBy) == Some(p)
                         && !Matches(pol.spec.nodeSelector, c.nodes[n].labels)
                         && Lookup(c.nodes[n].labels, NpuConfigState) != "restored";
      && (!NpuReaches(c, p, f) ==> r.result == Failed && r.state.nodes == c.nodes)
      && (NpuReaches(c, p, f) && Stops(pol.spec.nodeSelector, c.nodes) ==> r.result == Panicked)
      && (NpuReaches(c, p, f) && !Stops(pol.spec.nodeSelector, c.nodes) ==>
            r.result == if PutStatus in f && PutStatus in r.issued then Failed else if waits then Failed else Done)
  {
    hide NpuFinishLive, Stops, Matches;
    var pol, w := c.policies[p], if RELEASE_FINALIZER in c.policies[p].finalizers then {} else {PutPolicy};
    var c1 := c.(policies := c.policies[p := WithNpuFinalizer(pol)]);
    NpuIssuedFrom(c1, p, w, f);
    FinishedResult(c1, p, f);
    WaitsFor(c1, p);
  }

  lemma FinishedResult(c: NpuState, p: string, f: set<Op>)
    requires p in c.policies
    ensures var r := NpuFinishLive(c, p, {}, f);
      r.result == if Stops(c.policies[p].spec.nodeSelector, c.nodes) then Panicked
                  else if (PutStatus in f && PutStatus in r.issued) || !AllRestored(NpuLeaving(c, p)) then Failed
                      else Done
  {
    hide NpuPass, SetSync, AllRestored, Select, Stops, NpuAdoptable, Both, NpuLeaving, NpuMine, NpuOrEmpty;
    var pol, mine := c.policies[p], NpuMine(c, p);
    var claimed := Select(c.nodes, pol.spec.nodeSelector);
    var e1, e2 := NpuAdopt(pol.spec.mode, p), NpuUpdate(pol.spec.mode, p);
    NpuPassCalls(c.nodes, {}, e1, claimed - mine.Keys, f);
    var p1 := NpuPass(c.nodes, {}, e1, claimed - mine.Keys, f);
    NpuPassCalls(p1.nodes, p1.issued, e2, Both(mine, claimed), f);
    var p2 := NpuPass(p1.nodes, p1.issued, e2, Both(mine, claimed), f);
    NpuPassCalls(p2.nodes, p2.issued, NpuRelease, NpuLeaving(c, p), f);
  }

  lemma WaitsFor(c: NpuState, p: string)
    requires p in c.policies
    ensures AllRestored(NpuLeaving(c, p)) <==>
            forall n | n in c.nodes && Find(c.nodes[n].labels, NpuManagedBy) == Some(p) ::
              Matches(c.policies[p].spec.nodeSelector, c.nodes[n].labels)
                  || Lookup(c.nodes[n].labels, NpuConfigState) == "restored"
  {
    hide Matches;
    var leaving := NpuLeaving(c, p);
    forall n | n in c.nodes
      ensures n in leaving <==>
              Find(c.nodes[n].labels, NpuManagedBy) == Some(p)
              && !Matches(c.policies[p].spec.nodeSelector, c.nodes[n].labels)
      ensures n in leaving ==> leaving[n] == c.nodes[n]
    {
      NpuMineIs(c.nodes, p, n);
      LeavingHas(c, p, n);
    }
  }

  // ---------------------------------------------------------------- a deleted policy

  /** An unfinished deletion pass: every selected node that is not restored is stripped of its NPU labels
      where its write arrives; the policy stays; the result asks for another pass, and is a failure where
      a write was lost. */
  lemma NpuUnfinishedPass(c: NpuState, p: string, f: set<Op>, n: string, k: LabelKey)
    requires NpuRegistered(c, p) && c.policies[p].deleting && GetPolicy !in f && ListNodes !in f && n in c.nodes
    requires exists m :: m in c.nodes && Matches(c.policies[p].spec.nodeSelector, c.nodes[m].labels)
                    && Lookup(c.nodes[m].labels, NpuConfigState) != "restored"
    ensures var r, labels, selector := NpuStep(c, p, f), c.nodes[n].labels, c.policies[p].spec.nodeSelector;
      var due := Matches(selector, labels) && Lookup(labels, NpuConfigState) != "restored";
      && r.state.policies == c.policies && n in r.state.nodes
      && Find(r.state.nodes[n].labels, k)
         == (if due && WriteNode(n) !in f && k in {NpuManagedBy, NpuWorkloadConfig, WorkerSelector} then None
             else Find(labels, k))
      && (r.result == Waiting || r.result == Failed)
      && (r.result == Failed <==>
            exists m :: m in c.nodes && NpuStrips(selector, c.nodes[m].labels) && WriteNode(m) in f)
  {
    hide NpuPass, Matches, Select, AllRestored, NpuStrips;
    var selected := Select(c.nodes, c.policies[p].spec.nodeSelector);
    NotAllRestored(c.nodes, c.policies[p].spec.nodeSelector);
    DeletedNodeAt(c, p, f, n);
    StripFails(c.nodes, c.policies[p].spec.nodeSelector, f);
  }

  /** The pass has something to strip off the node. */
  predicate NpuStrips(selector: Labels, labels: Labels) {
    && Matches(selector, labels) && Lookup(labels, NpuConfigState) != "restored"
    && (NpuManagedBy in labels || NpuWorkloadConfig in labels || WorkerSelector in labels)
  }

  lemma NotAllRestored(nodes: Nodes, selector: Labels)
    ensures AllRestored(Select(nodes, selector))
       <==> forall n | n in nodes && Matches(selector, nodes[n].labels) ::
              Lookup(nodes[n].labels, NpuConfigState) == "restored"
  {
    hide Matches;
    var selected := Select(nodes, selector);
    assert forall n :: n in selected ==> selected[n] == nodes[n];
    assert forall n :: n in nodes && Matches(selector, nodes[n].labels) ==> n in selected;
  }

  lemma StripFails(nodes: Nodes, selector: Labels, f: set<Op>)
    ensures NpuPass(nodes, {}, NpuRelease, Select(nodes, selector), f).failed == {}
       <==> forall n :: n in nodes && NpuStrips(selector, nodes[n].labels) ==> WriteNode(n) !in f
  {
    hide NpuPass, Matches, Select, NpuWrites, NpuStrips;
    var selected := Select(nodes, selector);
    var pass := NpuPass(nodes, {}, NpuRelease, selected, f);
    NpuPassFails(nodes, {}, NpuRelease, selected, f);
    forall n
      ensures n in NpuWrites(NpuRelease, selected) <==> n in nodes && NpuStrips(selector, nodes[n].labels)
      ensures n in NpuWrites(NpuRelease, selected) ==> (n in pass.written <==> WriteNode(n) !in f)
    {
      StripAt(nodes, selector, f, n);
    }
  }

  lemma StripAt(nodes: Nodes, selector: Labels, f: set<Op>, n: string)
    ensures var selected := Select(nodes, selector);
      && (n in NpuWrites(NpuRelease, selected) <==> n in nodes && NpuStrips(selector, nodes[n].labels))
      && (n in NpuWrites(NpuRelease, selected) ==>
            (n in NpuPass(nodes, {}, NpuRelease, selected, f).written <==> WriteNode(n) !in f))
  {
    hide Matches, NpuPass;
    var selected := Select(nodes, selector);
    if n in nodes {
      StripsLabels(selector, nodes[n].labels);
      NpuPassWrites(nodes, {}, NpuRelease, selected, f, n);
    }
  }

  lemma StripsLabels(selector: Labels, labels: Labels)
    ensures Matches(selector, labels) && Lookup(labels, NpuConfigState) != "restored" ==>
      (NpuReleased(labels) != labels <==> NpuStrips(selector, labels))
  {
    hide Matches;
    if NpuManagedBy in labels || NpuWorkloadConfig in labels || WorkerSelector in labels {
      assert NpuManagedBy !in NpuReleased(labels) && NpuWorkloadConfig !in NpuReleased(labels);
    }
  }

  /** The last pass: the policy loses this finalizer and no other, and goes with the last one. */
  lemma NpuLastPass(c: NpuState, p: string, f: set<Op>)
    requires NpuRegistered(c, p) && c.policies[p].deleting && GetPolicy !in f && ListNodes !in f
    requires forall n :: n in c.nodes && Matches(c.policies[p].spec.nodeSelector, c.nodes[n].labels) ==>
      Lookup(c.nodes[n].labels, NpuConfigState) == "restored"
    ensures var r, pol := NpuStep(c, p, f), c.policies[p];
      var others := exists x :: x in pol.finalizers && x != "release.finalizers.ecns.easystack.io";
      && r.state.nodes == c.nodes && r.issued == {PutPolicy}
      && (forall q :: q != p ==> Find(r.state.policies, q) == Find(c.policies, q))
      && if PutPolicy in f then r.result == Failed && r.state.policies == c.policies
         else
           && r.result == Done && (p in r.state.policies <==> others)
           && (others ==>
                 && r.state.policies[p] == pol.(finalizers := r.state.policies[p].finalizers)
                 && forall x :: x in r.state.policies[p].finalizers
                           <==> x in pol.finalizers && x != "release.finalizers.ecns.easystack.io")
  {
    hide NpuPass, Matches, Select, AllRestored, WithoutFinalizer;
    NotAllRestored(c.nodes, c.policies[p].spec.nodeSelector);
    var fs := c.policies[p].finalizers;
    forall x ensures x in WithoutFinalizer(fs) <==> x in fs && x != RELEASE_FINALIZER {
      StepFacts.WithoutFinalizerRemoves(fs, x);
    }
    if WithoutFinalizer(fs) != [] {
      assert WithoutFinalizer(fs)[0] in WithoutFinalizer(fs);
    }
  }

  /** Neither living nor registered: nothing to do. */
  lemma NpuNothingLeft(c: NpuState, p: string, f: set<Op>)
    requires GetPolicy !in f && !NpuRegistered(c, p) && (p in c.policies ==> c.policies[p].deleting)
    ensures NpuStep(c, p, f) == NpuOutcome(c, Done, {})
  {
  }

  /** A policy or list that cannot be read leaves everything as it is. */
  lemma NpuLostRead(c: NpuState, p: string, f: set<Op>)
    requires GetPolicy in f || (ListNodes in f && NpuRegistered(c, p) && c.policies[p].deleting)
    ensures NpuStep(c, p, f) == NpuOutcome(c, Failed, {})
  {
  }

  // ---------------------------------------------------------------- over runs

  /** Only a policy's own reconcile gives it a node, and leaves it registered. */
  lemma GivenIsRegistered(c: NpuState, a: NpuAction, p: string, n: string)
    requires n in c.nodes && Find(c.nodes[n].labels, NpuManagedBy) != Some(p)
    requires n in NpuNext(c, a).nodes && Find(NpuNext(c, a).nodes[n].labels, NpuManagedBy) == Some(p)
    ensures a.NpuReconcile? && a.policy == p && NpuRegistered(NpuNext(c, a), p)
  {
    hide NpuStep, Matches, Restored, ComesTo, Stops;
    if a.NpuReconcile? {
      var q, f := a.policy, a.faults;
      if q !in c.policies || GetPolicy in f || ListNodes in f {
        NothingToDo(c, q, f);
      } else if c.policies[q].deleting {
        if RELEASE_FINALIZER in c.policies[q].finalizers {
          DeletedNodeAt(c, q, f, n);
        } else {
          NothingToDo(c, q, f);
        }
      } else if PutPolicy in f && RELEASE_FINALIZER !in c.policies[q].finalizers {
        NothingToDo(c, q, f);
      } else {
        NpuTakesOver(c, q, f, n, NpuManagedBy);
        NpuLivePolicy(c, q, f);
      }
    }
  }

  /** So in any run: whenever a node becomes p's, that was a reconcile of p, and p is registered then. */
  lemma RunRegisters(c: NpuState, acts: seq<NpuAction>, j: nat, p: string, n: string)
    requires j < |acts|
    requires var before := NpuRun(c, acts[..j]);
      n in before.nodes && Find(before.nodes[n].labels, NpuManagedBy) != Some(p)
    requires var after := NpuRun(c, acts[..j + 1]);
      n in after.nodes && Find(after.nodes[n].labels, NpuManagedBy) == Some(p)
    ensures acts[j].NpuReconcile? && acts[j].policy == p && NpuRegistered(NpuRun(c, acts[..j + 1]), p)
  {
    hide NpuNext;
    assert acts[..j + 1][..j] == acts[..j];
    GivenIsRegistered(NpuRun(c, acts[..j]), acts[j], p, n);
  }
}

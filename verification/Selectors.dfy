/** Selectors that mention labels the controller itself writes. Nothing in the API forbids them; this
    module says exactly which ones a reconcile can settle under. */
module Selectors {
  import opened Options
  import opened Api
  import opened ModeTable
  import opened GpuControls
  import opened Cluster
  import opened GpuProtocol
  import opened StepFacts

  /** A node that carries just the selector still matches after an update, unless the selector asks
      for another owner, and a release does not make a node match. */
  predicate CanSettle(spec: GpuSpec, s: Stamp) {
    var sel := spec.nodeSelector;
    && (Owner(sel) == None || Owner(sel) == Some(s.managedBy) ==> Matches(sel, Updated(s, sel)))
    && !(Find(sel, Operands) == Some(FALSE) && Matches(sel, Released(sel)))
  }

  ghost predicate Settles(spec: GpuSpec, s: Stamp) {
    forall labels :: NextLabels(spec, s, NextLabels(spec, s, labels)) == NextLabels(spec, s, labels)
  }

  /** One reconcile brings every node to rest exactly under these selectors. */
  lemma SettlesIff(spec: GpuSpec, s: Stamp)
    ensures Settles(spec, s) <==> CanSettle(spec, s)
  {
    hide NextLabels, Matches, Updated, Released;
    if CanSettle(spec, s) {
      forall labels ensures NextLabels(spec, s, NextLabels(spec, s, labels)) == NextLabels(spec, s, labels) {
        SettledNode(spec, s, labels);
      }
    } else {
      RestlessNode(spec, s);
    }
  }

  lemma SettledNode(spec: GpuSpec, s: Stamp, labels: Labels)
    requires CanSettle(spec, s)
    ensures NextLabels(spec, s, NextLabels(spec, s, labels)) == NextLabels(spec, s, labels)
  {
    hide Matches, Updated, Released;
    OwnerNext(spec, s, labels);
    UpdatedIdempotent(s, labels);
    if Matches(spec.nodeSelector, labels) {
      if Owner(labels) == None || Owner(labels) == Some(s.managedBy) {
        StaysClaimed(spec, s, labels);
      }
    } else if Owner(labels) == Some(s.managedBy) {
      StaysUnclaimed(spec, s, labels);
    }
  }

  lemma StaysClaimed(spec: GpuSpec, s: Stamp, labels: Labels)
    requires CanSettle(spec, s) && Matches(spec.nodeSelector, labels)
    requires Owner(labels) == None || Owner(labels) == Some(s.managedBy)
    ensures Matches(spec.nodeSelector, Updated(s, labels))
  {
    hide Updated, Released;
    var sel := spec.nodeSelector;
    assert Owner(sel) == None || Owner(sel) == Some(s.managedBy);
    forall k | k in sel ensures Find(Updated(s, labels), k) == Some(sel[k]) {
      UpdatedAt(s, labels, k);
      UpdatedAt(s, sel, k);
      assert Find(labels, k) == Some(sel[k]) == Find(sel, k);
    }
  }

  lemma StaysUnclaimed(spec: GpuSpec, s: Stamp, labels: Labels)
    requires CanSettle(spec, s) && !Matches(spec.nodeSelector, labels)
    ensures !Matches(spec.nodeSelector, Released(labels))
  {
  }

  lemma RestlessNode(spec: GpuSpec, s: Stamp)
    requires !CanSettle(spec, s)
    ensures !Settles(spec, s)
  {
    hide Updated, Matches;
    var sel := spec.nodeSelector;
    UpdatedAt(s, sel, GpuManagedBy);
    if !Matches(sel, Updated(s, sel)) && (Owner(sel) == None || Owner(sel) == Some(s.managedBy)) {
      MatchesItself(sel);
      assert NextLabels(spec, s, sel) == Updated(s, sel);
      assert Owner(NextLabels(spec, s, Updated(s, sel))).None?;
    } else {
      var own := (sel - {Operands})[GpuManagedBy := s.managedBy];
      LacksOperands(sel, own);
      assert Released(own) == Released(sel);
      assert NextLabels(spec, s, own) == Released(sel);
      UpdatedAt(s, Released(sel), GpuManagedBy);
      assert Owner(NextLabels(spec, s, Released(sel))).Some?;
    }
  }

  lemma MatchesItself(sel: Labels)
    ensures Matches(sel, sel)
  {
  }

  lemma LacksOperands(sel: Labels, labels: Labels)
    requires Operands in sel && Operands !in labels
    ensures !Matches(sel, labels)
  {
  }

  /** Selectors that avoid the controller's labels are among them. */
  lemma SafeCanSettle(spec: GpuSpec, s: Stamp)
    requires SafeSelector(spec)
    ensures CanSettle(spec, s)
  {
    hide Updated;
    var sel := spec.nodeSelector;
    forall k | k in sel ensures Find(Updated(s, sel), k) == Some(sel[k]) {
      OnlyGpuKeys(s, sel, k);
    }
  }

  /** A policy that selects the nodes whose operands are switched off never comes to rest: what it
      adopts it no longer selects, and what it releases it selects again. */
  lemma NeverSettles(spec: GpuSpec, s: Stamp)
    requires spec.nodeSelector == map[Operands := FALSE] && s.workload != NoWorkload
    ensures var l := map[Operands := FALSE];
      NextLabels(spec, s, l) != l && NextLabels(spec, s, NextLabels(spec, s, l)) == l
  {
    hide Updated;
    var l: Labels := map[Operands := FALSE];
    var once := Updated(s, l);
    UpdatedAt(s, l, GpuManagedBy);
    UpdatedAt(s, l, Operands);
    assert NextLabels(spec, s, l) == once;
    assert !Matches(spec.nodeSelector, once) by {
      assert Find(once, Operands) != Some(spec.nodeSelector[Operands]);
    }
    forall k ensures Find(Released(once), k) == Find(l, k) {
      UpdatedAt(s, l, k);
    }
    SameFinds(Released(once), l);
  }
}

/** What one pass over a node list has done after any number of its items, as a closed form. The
    list may be outdated: each write meets the node as the server holds it. */
module NodePasses {
  import opened Options
  import opened Api
  import opened GpuControls
  import opened Cluster
  import opened NodeLists
  import opened GpuProtocol

  datatype Progress = Progress(nodes: Nodes, issued: set<Op>, failed: set<string>, written: set<string>)

  function AfterWrites(start: Progress, writes: map<string, Write>, faults: set<Op>): Progress {
    var accepted := Accepted(start.nodes, writes, faults);
    Progress(Deliver(start.nodes, writes, faults),
             start.issued + WriteOps(writes.Keys),
             start.failed + (writes.Keys - accepted),
             start.written + accepted)
  }

  /** The pass over all of `items`. */
  function AfterPass(start: Progress, e: Edit, items: Nodes, faults: set<Op>): Progress {
    AfterWrites(start, Writes(e, items), faults)
  }

  /** One write, which arrives or fails. */
  function AfterOne(p: Progress, n: string, w: Write, faults: set<Op>): Progress {
    var issued := p.issued + {WriteNode(n)};
    if n in Accepted(p.nodes, map[n := w], faults)
    then Progress(Deliver(p.nodes, map[n := w], faults), issued, p.failed, p.written + {n})
    else Progress(p.nodes, issued, p.failed + {n}, p.written)
  }

  /** One item: nothing to write, or one write. */
  function AfterItem(p: Progress, e: Edit, n: string, o: Obj, faults: set<Op>): Progress {
    var w := WriteOf(e, o);
    if w.None? then p else AfterOne(p, n, w.value, faults)
  }

  lemma PassOverNothing(start: Progress, e: Edit, faults: set<Op>)
    ensures AfterPass(start, e, map[], faults) == start
  {
  }

  lemma WritesStep(e: Edit, items: Nodes, n: string, o: Obj)
    requires n !in items
    ensures Writes(e, items[n := o])
         == if WriteOf(e, o).Some? then Writes(e, items)[n := WriteOf(e, o).value] else Writes(e, items)
    ensures n !in Writes(e, items)
  {
    hide WriteOf;
    var with := Writes(e, items[n := o]);
    assert forall k :: k in with <==> k in items[n := o] && WriteOf(e, items[n := o][k]).Some?;
  }

  lemma WriteStep(start: Progress, writes: map<string, Write>, n: string, w: Write, faults: set<Op>)
    requires n !in writes
    ensures AfterWrites(start, writes[n := w], faults) == AfterOne(AfterWrites(start, writes, faults), n, w, faults)
  {
    DeliverStep(start.nodes, writes, n, w, faults);
    WriteOpsStep(writes.Keys, n);
    assert writes[n := w].Keys == writes.Keys + {n};
  }

  /** Items of distinct names can be handled one at a time, in any order. */
  lemma PassStep(start: Progress, e: Edit, items: Nodes, n: string, o: Obj, faults: set<Op>)
    requires n !in items
    ensures AfterPass(start, e, items[n := o], faults) == AfterItem(AfterPass(start, e, items, faults), e, n, o, faults)
  {
    WritesStep(e, items, n, o);
    if WriteOf(e, o).Some? {
      WriteStep(start, Writes(e, items), n, WriteOf(e, o).value, faults);
    }
  }

  lemma TouchNothing(status: map<string, NodeStatus>, mode: DeviceMode, d: Option<bool>, m: Option<bool>)
    ensures Touch(status, mode, {}, d, m) == status
  {
  }

  lemma TouchStep(status: map<string, NodeStatus>, mode: DeviceMode, names: set<string>, n: string, d: Option<bool>,
                  m: Option<bool>)
    requires n !in names
    ensures Touch(Touch(status, mode, names, d, m), mode, {n}, d, m) == Touch(status, mode, names + {n}, d, m)
  {
  }

  lemma WrittenIn(start: Progress, e: Edit, items: Nodes, n: string, faults: set<Op>)
    requires n !in items && n !in start.written
    ensures n !in AfterPass(start, e, items, faults).written
  {
  }

  /** What one item adds does not depend on what came before, beyond the nodes themselves. */
  lemma ItemFrom(p: Progress, e: Edit, n: string, o: Obj, faults: set<Op>)
    ensures var q := AfterItem(Progress(p.nodes, p.issued, {}, {}), e, n, o, faults);
      AfterItem(p, e, n, o, faults) == Progress(q.nodes, q.issued, p.failed + q.failed, p.written + q.written)
      && q.failed <= {n} && q.written <= {n}
  {
  }

  lemma TouchMore(status: map<string, NodeStatus>, mode: DeviceMode, names: set<string>, n: string, d: Option<bool>,
                  m: Option<bool>)
    requires n !in names
    ensures forall more: set<string> :: more <= {n} ==>
      Touch(Touch(status, mode, names, d, m), mode, more, d, m) == Touch(status, mode, names + more, d, m)
  {
  }

  /** Two passes over different nodes are one pass. */
  lemma DeliverBoth(nodes: Nodes, w1: map<string, Write>, w2: map<string, Write>, faults: set<Op>)
    requires w1.Keys !! w2.Keys
    ensures Deliver(Deliver(nodes, w1, faults), w2, faults) == Deliver(nodes, w1 + w2, faults)
    ensures Accepted(nodes, w1 + w2, faults)
         == Accepted(nodes, w1, faults) + Accepted(Deliver(nodes, w1, faults), w2, faults)
  {
  }

  lemma AcceptedWithin(nodes: Nodes, writes: map<string, Write>, faults: set<Op>)
    ensures Accepted(nodes, writes, faults) <= writes.Keys
    ensures writes.Keys - Accepted(nodes, writes, faults) == {} <==> Accepted(nodes, writes, faults) == writes.Keys
  {
    forall n | n in writes.Keys
      ensures n in writes.Keys - Accepted(nodes, writes, faults) <==> n !in Accepted(nodes, writes, faults)
    {
    }
    if writes.Keys - Accepted(nodes, writes, faults) == {} {
      assert forall n | n in writes.Keys :: n in Accepted(nodes, writes, faults);
    }
  }

  lemma MineIs(nodes: Nodes, p: string, n: string)
    ensures n in Select(nodes, map[GpuManagedBy := p]) <==> n in nodes && Owner(nodes[n].labels) == Some(p)
    ensures n in Select(nodes, map[GpuManagedBy := p]) ==> Select(nodes, map[GpuManagedBy := p])[n] == nodes[n]
  {
  }

  lemma SplitAt(nodes: Nodes, spec: GpuSpec, s: Stamp, n: string)
    ensures var claimed, mine := Select(nodes, spec.nodeSelector), Select(nodes, map[GpuManagedBy := s.managedBy]);
      var a, u, r := Writes(Adopt(s), claimed - mine.Keys), Writes(Update(s), Both(mine, claimed)),
          Writes(Release, mine - claimed.Keys);
      && (n in NodeWrites(spec, s, nodes) <==> n in a || n in u || n in r)
      && (n in a ==> n in claimed && n !in mine && NodeWrites(spec, s, nodes)[n] == a[n])
      && (n in u ==> n in claimed && n in mine && NodeWrites(spec, s, nodes)[n] == u[n])
      && (n in r ==> n !in claimed && n in mine && NodeWrites(spec, s, nodes)[n] == r[n])
  {
    hide WriteOf, Owner;
    MineIs(nodes, s.managedBy, n);
  }

  /** The three lists of a fresh split, written pass by pass, make up the writes of the step. */
  lemma SplitWrites(nodes: Nodes, spec: GpuSpec, s: Stamp)
    ensures var claimed, mine := Select(nodes, spec.nodeSelector), Select(nodes, map[GpuManagedBy := s.managedBy]);
      var a, u, r := Writes(Adopt(s), claimed - mine.Keys), Writes(Update(s), Both(mine, claimed)),
          Writes(Release, mine - claimed.Keys);
      && a + u + r == NodeWrites(spec, s, nodes)
      && a.Keys !! u.Keys && (a + u).Keys !! r.Keys
      && (a + u).Keys <= claimed.Keys && r.Keys !! claimed.Keys
  {
    hide Writes, NodeWrites, Select, Both;
    forall n {
      SplitAt(nodes, spec, s, n);
    }
  }

  lemma ThreePasses(nodes: Nodes, spec: GpuSpec, s: Stamp, status: map<string, NodeStatus>, issued: set<Op>, f: set<Op>)
    ensures var claimed, mine := Select(nodes, spec.nodeSelector), Select(nodes, map[GpuManagedBy := s.managedBy]);
      var p1 := AfterPass(Progress(nodes, issued, {}, {}), Adopt(s), claimed - mine.Keys, f);
      var p2 := AfterPass(Progress(p1.nodes, p1.issued, {}, {}), Update(s), Both(mine, claimed), f);
      var p3 := AfterPass(Progress(p2.nodes, p2.issued, {}, {}), Release, mine - claimed.Keys, f);
      var writes := NodeWrites(spec, s, nodes);
      var accepted := Accepted(nodes, writes, f);
      && p3.nodes == Deliver(nodes, writes, f)
      && p3.issued == issued + WriteOps(writes.Keys)
      && (p1.failed == {} && p2.failed == {} && p3.failed == {} <==> accepted == writes.Keys)
      && Touch(Touch(status, spec.mode, p1.written, Some(false), Some(false)), spec.mode, p2.written, Some(false),
          Some(false))
         == Touch(status, spec.mode, accepted * claimed.Keys, Some(false), Some(false))
  {
    hide Select, Writes, NodeWrites, Deliver, Accepted, Touch, Both, WriteOps;
    var claimed, mine := Select(nodes, spec.nodeSelector), Select(nodes, map[GpuManagedBy := s.managedBy]);
    var a, u, r := Writes(Adopt(s), claimed - mine.Keys), Writes(Update(s), Both(mine, claimed)),
        Writes(Release, mine - claimed.Keys);
    SplitWrites(nodes, spec, s);
    DeliverBoth(nodes, a, u, f);
    DeliverBoth(nodes, a + u, r, f);
    var mid1 := Deliver(nodes, a, f);
    var mid2 := Deliver(mid1, u, f);
    AcceptedWithin(nodes, a, f);
    AcceptedWithin(mid1, u, f);
    AcceptedWithin(mid2, r, f);
    WriteOpsBoth(a.Keys, u.Keys);
    WriteOpsBoth((a + u).Keys, r.Keys);
    TouchBoth(status, spec.mode, Accepted(nodes, a, f), Accepted(mid1, u, f), Some(false), Some(false));
    var accepted := Accepted(nodes, a + u + r, f);
    assert accepted * claimed.Keys == Accepted(nodes, a, f) + Accepted(mid1, u, f);
    assert (a + u + r).Keys == a.Keys + u.Keys + r.Keys;
    assert {} + Accepted(nodes, a, f) == Accepted(nodes, a, f);
    assert {} + Accepted(mid1, u, f) == Accepted(mid1, u, f);
  }

  /** The first pass up to the point where it panics: what it did not reach is as if its writes had failed. */
  lemma PanicPass(nodes: Nodes, spec: GpuSpec, s: Stamp, reached: Nodes, issued: set<Op>, f: set<Op>)
    requires reached.Keys
          <= Select(nodes, spec.nodeSelector).Keys - Select(nodes, map[GpuManagedBy := s.managedBy]).Keys
    requires forall n :: n in reached ==> reached[n] == nodes[n] && !Bare(reached[n])
    ensures var claimed, mine := Select(nodes, spec.nodeSelector), Select(nodes, map[GpuManagedBy := s.managedBy]);
      var p1 := AfterPass(Progress(nodes, issued, {}, {}), Adopt(s), reached, f);
      var late := (claimed - mine.Keys).Keys - reached.Keys;
      var never, writes := NotReached(s.managedBy, nodes), NodeWrites(spec, s, nodes);
      && p1.nodes == Deliver(nodes, writes, f + WriteOps(late) + WriteOps(never))
      && p1.issued == issued + (WriteOps(writes.Keys - never) - WriteOps(late))
  {
    hide WriteOf, Send, Matches, NodeWrites;
    var claimed, mine := Select(nodes, spec.nodeSelector), Select(nodes, map[GpuManagedBy := s.managedBy]);
    var late := (claimed - mine.Keys).Keys - reached.Keys;
    var never, writes := NotReached(s.managedBy, nodes), NodeWrites(spec, s, nodes);
    var sent := Writes(Adopt(s), reached);
    forall n
      ensures n in sent <==> n in writes && n !in never && n !in late
      ensures n in sent ==> sent[n] == writes[n]
      ensures n in writes ==> n in nodes
    {
      SplitAt(nodes, spec, s, n);
      MineIs(nodes, s.managedBy, n);
    }
    assert sent.Keys == writes.Keys - never - late;
    SentOnly(nodes, writes, sent, f, f + WriteOps(late) + WriteOps(never));
  }

  /** Failing writes and writes never sent leave the same nodes. */
  lemma SentOnly(nodes: Nodes, writes: map<string, Write>, sent: map<string, Write>, f: set<Op>, g: set<Op>)
    requires forall n :: n in sent ==> n in writes && sent[n] == writes[n]
    requires forall n :: n in writes ==> (WriteNode(n) in g <==> WriteNode(n) in f || n !in sent)
    ensures Deliver(nodes, sent, f) == Deliver(nodes, writes, g)
  {
  }

  lemma WriteOpsBoth(a: set<string>, b: set<string>)
    ensures WriteOps(a + b) == WriteOps(a) + WriteOps(b)
  {
  }

  lemma TouchBoth(status: map<string, NodeStatus>, mode: DeviceMode, a: set<string>, b: set<string>, d: Option<bool>,
                  m: Option<bool>)
    requires a !! b
    ensures Touch(Touch(status, mode, a, d, m), mode, b, d, m) == Touch(status, mode, a + b, d, m)
  {
    hide Touched;
  }
}

/** Splitting the nodes a policy claims and the nodes it manages; the GPU and the NPU controller
    share this code. */
module NodeLists {
  import opened Options
  import opened Api
  import opened Cluster

  /** The nodes of `a` that are also in `b`, as listed in `a`. */
  function Both(a: Nodes, b: Nodes): Nodes {
    map n | n in a && n in b :: a[n]
  }

  lemma EmptyList(list: seq<Node>, m: Nodes)
    ensures DistinctNames([]) && ByName([]) == ByName(list[..0]) == map[]
    ensures Both(map[], m) == map[]
  {
  }

  lemma SplitStep(done: Nodes, claimed: Nodes, n: string, o: Obj)
    requires n !in done
    ensures claimed - done[n := o].Keys == (claimed - done.Keys) - {n}
    ensures n !in done - claimed.Keys && n !in Both(done, claimed)
    ensures done[n := o] - claimed.Keys == if n in claimed then done - claimed.Keys else (done - claimed.Keys)[n := o]
    ensures Both(done[n := o], claimed) == if n in claimed then Both(done, claimed)[n := o] else Both(done, claimed)
  {
  }

  /** The exact three-way split by name, each node once: claimed and not yet managed, both, and
      managed but no longer claimed. */
  method FilterNodes(claimNodes: seq<Node>, matchNodes: seq<Node>)
    returns (adopt: seq<Node>, keep: seq<Node>, release: seq<Node>)
    requires DistinctNames(claimNodes) && DistinctNames(matchNodes)
    ensures DistinctNames(adopt) && DistinctNames(keep) && DistinctNames(release)
    ensures ByName(adopt) == ByName(claimNodes) - ByName(matchNodes).Keys
    ensures ByName(keep) == Both(ByName(matchNodes), ByName(claimNodes))
    ensures forall n :: n in ByName(keep) ==> n in ByName(matchNodes) && ByName(keep)[n] == ByName(matchNodes)[n]
    ensures ByName(release) == ByName(matchNodes) - ByName(claimNodes).Keys
  {
    hide ByName, Both, DistinctNames;
    var claimNodeMap := IndexNodes(claimNodes);
    EmptyList(matchNodes, claimNodeMap);
    ghost var claimed := claimNodeMap;
    keep, release := [], [];
    for i := 0 to |matchNodes|
      invariant DistinctNames(keep) && DistinctNames(release)
      invariant claimNodeMap == claimed - ByName(matchNodes[..i]).Keys
      invariant ByName(release) == ByName(matchNodes[..i]) - claimed.Keys
      invariant ByName(keep) == Both(ByName(matchNodes[..i]), claimed)
    {
      ByNameStep(matchNodes, i);
      SplitStep(ByName(matchNodes[..i]), claimed, matchNodes[i].name, matchNodes[i].obj);
      if matchNodes[i].name !in claimNodeMap {
        AppendNode(release, matchNodes[i]);
        release := release + [matchNodes[i]];
        continue;
      }
      AppendNode(keep, matchNodes[i]);
      keep := keep + [matchNodes[i]];
      claimNodeMap := claimNodeMap - {matchNodes[i].name};
    }
    assert matchNodes[..|matchNodes|] == matchNodes;
    adopt := NodesOf(claimNodeMap);
    AsMatched(ByName(matchNodes), claimed);
  }

  lemma AsMatched(matched: Nodes, claimed: Nodes)
    ensures forall n :: n in Both(matched, claimed) ==> n in matched && Both(matched, claimed)[n] == matched[n]
  {
  }

  method IndexNodes(nodes: seq<Node>) returns (m: Nodes)
    requires DistinctNames(nodes)
    ensures m == ByName(nodes)
  {
    m := map[];
    for i := 0 to |nodes|
      invariant m == ByName(nodes[..i])
    {
      ByNameStep(nodes, i);
      m := m[nodes[i].name := nodes[i].obj];
    }
    assert nodes[..|nodes|] == nodes;
  }

  // ---------------------------------------------------------------- items without labels

  lemma Labelled(list: seq<Node>)
    requires DistinctNames(list) && forall n :: n in ByName(list) ==> !Bare(ByName(list)[n])
    ensures FirstBare(list) == |list|
  {
    hide FirstBare;
    var k := FirstBare(list);
    if k < |list| {
      ByNameAt(list, k);
    }
  }

  lemma {:induction false} ByNameAt(list: seq<Node>, i: nat)
    requires i < |list| && DistinctNames(list)
    ensures list[i].name in ByName(list) && ByName(list)[list[i].name] == list[i].obj
  {
    var last := |list| - 1;
    if i < last {
      assert list[..last][i] == list[i];
      ByNameAt(list[..last], i);
    }
  }

  /** The part of a list in front of its first bare item. */
  lemma FirstPart(list: seq<Node>)
    requires DistinctNames(list)
    ensures var reached, items := ByName(list[..FirstBare(list)]), ByName(list);
      && reached.Keys <= items.Keys
      && (forall n :: n in reached ==> reached[n] == items[n] && !Bare(reached[n]))
      && ((exists i :: 0 <= i < |list| && Bare(list[i].obj)) <==> exists n :: n in items && Bare(items[n]))
  {
    hide ByName, FirstBare;
    var k, items := FirstBare(list), ByName(list);
    forall n | n in ByName(list[..k])
      ensures n in items && ByName(list[..k])[n] == items[n] && !Bare(items[n])
    {
      ByNameHas(list[..k], n);
      var i :| 0 <= i < k && list[..k][i].name == n;
      ByNameAt(list[..k], i);
      ByNameAt(list, i);
    }
    if i :| 0 <= i < |list| && Bare(list[i].obj) {
      ByNameAt(list, i);
    }
    if n :| n in items && Bare(items[n]) {
      ByNameHas(list, n);
      var i :| 0 <= i < |list| && list[i].name == n;
      ByNameAt(list, i);
    }
  }

  /** Nodes selected by an owner label carry at least that label. */
  lemma OwnNotBare(nodes: Nodes, key: LabelKey, p: string)
    ensures var mine := Select(nodes, map[key := p]);
      forall n :: n in mine ==> n in nodes && mine[n] == nodes[n] && !Bare(nodes[n])
  {
    var selector := map[key := p];
    forall n | n in Select(nodes, selector) ensures !Bare(nodes[n]) {
      assert Find(nodes[n].labels, key) == Some(selector[key]);
    }
  }

  lemma SplitBare(nodes: Nodes, selector: Labels, key: LabelKey, p: string)
    ensures var claimed, mine := Select(nodes, selector), Select(nodes, map[key := p]);
      && (forall n :: n in Both(mine, claimed) ==> !Bare(Both(mine, claimed)[n]))
      && (forall n :: n in mine - claimed.Keys ==> !Bare((mine - claimed.Keys)[n]))
      && (forall n :: n in claimed - mine.Keys ==> n in nodes && (claimed - mine.Keys)[n] == nodes[n])
      && ((exists n :: n in claimed - mine.Keys && Bare((claimed - mine.Keys)[n])) <==> Stops(selector, nodes))
  {
    hide Matches;
    var claimed, mine := Select(nodes, selector), Select(nodes, map[key := p]);
    OwnNotBare(nodes, key, p);
    if n :| n in nodes && Bare(nodes[n]) && Matches(selector, nodes[n].labels) {
      assert n in claimed - mine.Keys;
    }
  }

  /** A fresh split: a bare node can only be one to adopt, and it is there exactly when adoption stops. */
  lemma SplitLabelled(nodes: Nodes, selector: Labels, key: LabelKey, p: string,
                      adopt: seq<Node>, keep: seq<Node>, release: seq<Node>)
    requires DistinctNames(adopt) && DistinctNames(keep) && DistinctNames(release)
    requires var claimed, mine := Select(nodes, selector), Select(nodes, map[key := p]);
      && ByName(adopt) == claimed - mine.Keys && ByName(keep) == Both(mine, claimed)
      && ByName(release) == mine - claimed.Keys
    ensures FirstBare(keep) == |keep| && FirstBare(release) == |release|
    ensures (exists i :: 0 <= i < |adopt| && Bare(adopt[i].obj)) <==> Stops(selector, nodes)
    ensures var reached := ByName(adopt[..FirstBare(adopt)]);
      && reached.Keys <= ByName(adopt).Keys
      && forall n :: n in reached ==> n in nodes && reached[n] == nodes[n] && !Bare(reached[n])
  {
    hide FirstBare, DistinctNames, ByName, Select, Both, Stops;
    SplitBare(nodes, selector, key, p);
    Labelled(keep);
    Labelled(release);
    FirstPart(adopt);
  }
}

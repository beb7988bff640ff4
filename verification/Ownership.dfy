/** Who owns which node, apart from everything else: policies claim fixed sets of nodes, a visit of
    a policy takes the unowned nodes it claims and lets go of those it no longer claims. */
module Ownership {
  import opened Options

  type Owners = map<string, Option<string>>
  type Claims = map<string, set<string>>

  function OwnerAfter(owner: Option<string>, p: string, claimed: bool): Option<string> {
    if claimed then (if owner.None? then Some(p) else owner)
    else if owner == Some(p) then None else owner
  }

  function Visit(o: Owners, claims: Claims, p: string): Owners
    requires p in claims
  {
    map n | n in o :: OwnerAfter(o[n], p, n in claims[p])
  }

  /** One node write of a visit. */
  function WriteOne(o: Owners, claims: Claims, p: string, n: string): Owners
    requires p in claims && n in o
  {
    o[n := OwnerAfter(o[n], p, n in claims[p])]
  }

  function VisitAll(o: Owners, claims: Claims, schedule: seq<string>): Owners
    requires forall p :: p in schedule ==> p in claims
  {
    if schedule == [] then o
    else Visit(VisitAll(o, claims, schedule[..|schedule| - 1]), claims, schedule[|schedule| - 1])
  }

  /** Owned by a live policy that does not claim it. */
  predicate Misplaced(o: Owners, claims: Claims, n: string) {
    n in o && o[n].Some? && o[n].value in claims && n !in claims[o[n].value]
  }

  /** Claimed by a live policy but owned by nobody. */
  predicate Open(o: Owners, claims: Claims, n: string) {
    n in o && o[n].None? && exists p :: p in claims && n in claims[p]
  }

  function MisplacedNodes(o: Owners, claims: Claims): set<string> {
    set n | n in o && Misplaced(o, claims, n)
  }

  function OpenNodes(o: Owners, claims: Claims): set<string> {
    set n | n in o && Open(o, claims, n)
  }

  ghost predicate Settled(o: Owners, claims: Claims) {
    forall n :: n in o ==> !Misplaced(o, claims, n) && !Open(o, claims, n)
  }

  /** Settled is exactly the fixpoint of every visit. */
  lemma SettledIffFixpoint(o: Owners, claims: Claims)
    ensures Settled(o, claims) <==> forall p :: p in claims ==> Visit(o, claims, p) == o
  {
  }

  // ---------------------------------------------------------------- two rounds

  /** A round visits every live policy at least once, in any order and as often as it likes. */
  ghost predicate IsRound(claims: Claims, schedule: seq<string>) {
    (forall p :: p in schedule ==> p in claims) && (forall p :: p in claims ==> p in schedule)
  }

  lemma VisitHelps(o: Owners, claims: Claims, p: string, n: string)
    requires p in claims && n in o
    ensures var o' := Visit(o, claims, p);
      && (!Misplaced(o, claims, n) ==> !Misplaced(o', claims, n))
      && (Misplaced(o', claims, n) ==> o[n] != Some(p))
      && (!Misplaced(o, claims, n) && !Open(o, claims, n) ==> !Open(o', claims, n))
      && (n in claims[p] && !Misplaced(o, claims, n) ==> !Open(o', claims, n))
      && (Open(o', claims, n) && !Misplaced(o, claims, n) ==> Open(o, claims, n))
  {
  }

  /** No visit misplaces a node, and a node misplaced throughout was never its owner's to visit. */
  lemma {:induction false} FirstRound(o: Owners, claims: Claims, schedule: seq<string>, n: string)
    requires n in o && forall p :: p in schedule ==> p in claims
    ensures var o' := VisitAll(o, claims, schedule);
      && n in o'
      && (!Misplaced(o, claims, n) ==> !Misplaced(o', claims, n))
      && (Misplaced(o', claims, n) ==> o'[n] == o[n] && o[n].value !in schedule)
  {
    if schedule != [] {
      var shorter, p := schedule[..|schedule| - 1], schedule[|schedule| - 1];
      FirstRound(o, claims, shorter, n);
      VisitHelps(VisitAll(o, claims, shorter), claims, p, n);
      assert schedule == shorter + [p];
    }
  }

  /** Once nothing is misplaced a node stays open only while no claimant has been visited. */
  lemma {:induction false} SecondRound(o: Owners, claims: Claims, schedule: seq<string>, n: string)
    requires n in o && !Misplaced(o, claims, n) && forall p :: p in schedule ==> p in claims
    ensures var o' := VisitAll(o, claims, schedule);
      && n in o' && !Misplaced(o', claims, n)
      && (Open(o', claims, n) ==> Open(o, claims, n) && forall p :: p in schedule ==> n !in claims[p])
  {
    if schedule != [] {
      var shorter, p := schedule[..|schedule| - 1], schedule[|schedule| - 1];
      SecondRound(o, claims, shorter, n);
      VisitHelps(VisitAll(o, claims, shorter), claims, p, n);
      assert schedule == shorter + [p];
    }
  }

  /** Any two rounds settle every node, from any owners. */
  lemma TwoRoundsSettle(o: Owners, claims: Claims, first: seq<string>, second: seq<string>)
    requires IsRound(claims, first) && IsRound(claims, second)
    ensures Settled(VisitAll(VisitAll(o, claims, first), claims, second), claims)
  {
    var mid := VisitAll(o, claims, first);
    VisitAllKeys(o, claims, first);
    VisitAllKeys(mid, claims, second);
    forall n | n in o
      ensures var end := VisitAll(mid, claims, second); !Misplaced(end, claims, n) && !Open(end, claims, n)
    {
      FirstRound(o, claims, first, n);
      SecondRound(mid, claims, second, n);
    }
  }

  lemma {:induction false} VisitAllKeys(o: Owners, claims: Claims, schedule: seq<string>)
    requires forall p :: p in schedule ==> p in claims
    ensures VisitAll(o, claims, schedule).Keys == o.Keys
  {
    if schedule != [] {
      VisitAllKeys(o, claims, schedule[..|schedule| - 1]);
    }
  }

  /** One round is not enough: the new claimant may come before the old owner lets go. */
  lemma OneRoundMayNotSettle(p: string, q: string, n: string)
    requires p != q
    ensures var claims: Claims := map[p := {n}, q := {}];
      var o: Owners := map[n := Some(q)];
      IsRound(claims, [p, q]) && !Settled(VisitAll(o, claims, [p, q]), claims)
  {
    var claims: Claims := map[p := {n}, q := {}];
    var o: Owners := map[n := Some(q)];
    assert [p, q][..1] == [p] && [p][..0] == [];
    assert VisitAll(o, claims, []) == o;
    assert VisitAll(o, claims, [p]) == o;
    var end := VisitAll(o, claims, [p, q]);
    assert end[n] == None && n in claims[p];
    assert Open(end, claims, n);
  }

  // ---------------------------------------------------------------- the measure

  /** Every node write that changes an owner strictly decreases the pair of misplaced and open nodes
      in lexicographic order; letting go may open a node, taking one never misplaces it. */
  lemma WriteDecreases(o: Owners, claims: Claims, p: string, n: string)
    requires p in claims && n in o && WriteOne(o, claims, p, n) != o
    ensures var o' := WriteOne(o, claims, p, n);
      || (|MisplacedNodes(o', claims)| == |MisplacedNodes(o, claims)| - 1
          && |OpenNodes(o', claims)| <= |OpenNodes(o, claims)| + 1)
      || (|MisplacedNodes(o', claims)| == |MisplacedNodes(o, claims)|
          && |OpenNodes(o', claims)| == |OpenNodes(o, claims)| - 1)
  {
    var o' := WriteOne(o, claims, p, n);
    if n in claims[p] {
      assert MisplacedNodes(o', claims) == MisplacedNodes(o, claims);
      assert OpenNodes(o', claims) == OpenNodes(o, claims) - {n};
      assert n in OpenNodes(o, claims);
    } else {
      assert MisplacedNodes(o', claims) == MisplacedNodes(o, claims) - {n};
      assert n in MisplacedNodes(o, claims);
      assert OpenNodes(o', claims) <= OpenNodes(o, claims) + {n};
      Cardinality(OpenNodes(o', claims), OpenNodes(o, claims) + {n});
    }
  }

  lemma {:induction false} Cardinality(a: set<string>, b: set<string>)
    requires a <= b
    ensures |a| <= |b|
    decreases |b|
  {
    if x :| x in b {
      Cardinality(a - {x}, b - {x});
    }
  }

  /** Two changes for every misplaced node, one for every open one. */
  function Measure(o: Owners, claims: Claims): nat {
    2 * |MisplacedNodes(o, claims)| + |OpenNodes(o, claims)|
  }

  datatype NodeWrite = NodeWrite(policy: string, node: string)

  function Writes(o: Owners, claims: Claims, ws: seq<NodeWrite>): Owners
    requires forall w :: w in ws ==> w.policy in claims && w.node in o
    ensures Writes(o, claims, ws).Keys == o.Keys
  {
    if ws == [] then o
    else
      var last := ws[|ws| - 1];
      WriteOne(Writes(o, claims, ws[..|ws| - 1]), claims, last.policy, last.node)
  }

  /** How many of the writes changed an owner. */
  function Changes(o: Owners, claims: Claims, ws: seq<NodeWrite>): nat
    requires forall w :: w in ws ==> w.policy in claims && w.node in o
  {
    if ws == [] then 0
    else
      var before := ws[..|ws| - 1];
      Changes(o, claims, before) + if Writes(o, claims, ws) != Writes(o, claims, before) then 1 else 0
  }

  /** However the visits are interleaved, write by write and for however long, ownership changes at
      most twice per misplaced node and once per open one. */
  lemma {:induction false} ChangesBounded(o: Owners, claims: Claims, ws: seq<NodeWrite>)
    requires forall w :: w in ws ==> w.policy in claims && w.node in o
    ensures Changes(o, claims, ws) + Measure(Writes(o, claims, ws), claims) <= Measure(o, claims)
  {
    if ws != [] {
      var before, last := ws[..|ws| - 1], ws[|ws| - 1];
      ChangesBounded(o, claims, before);
      var mid := Writes(o, claims, before);
      if WriteOne(mid, claims, last.policy, last.node) != mid {
        WriteDecreases(mid, claims, last.policy, last.node);
      }
    }
  }

  /** A visit that reached only some of its nodes is as many single writes as it changed owners. */
  lemma {:induction false} PartialVisit(o: Owners, o': Owners, claims: Claims, p: string, changed: set<string>)
    returns (ws: seq<NodeWrite>)
    requires p in claims && o'.Keys == o.Keys && changed <= o.Keys
    requires forall n :: n in changed ==> o'[n] == OwnerAfter(o[n], p, n in claims[p]) != o[n]
    requires forall n :: n in o && n !in changed ==> o'[n] == o[n]
    ensures forall w :: w in ws ==> w.policy in claims && w.node in o
    ensures Writes(o, claims, ws) == o' && Changes(o, claims, ws) == |changed|
    decreases |changed|
  {
    if changed == {} {
      ws := [];
      assert o' == o;
    } else {
      var n :| n in changed;
      var mid := o'[n := o[n]];
      var first := PartialVisit(o, mid, claims, p, changed - {n});
      ws := first + [NodeWrite(p, n)];
      assert ws[..|ws| - 1] == first;
      assert WriteOne(mid, claims, p, n) == o';
    }
  }

  /** So it is paid for by the measure, whichever of its nodes it reached. */
  lemma PartialVisitPaid(o: Owners, o': Owners, claims: Claims, p: string, changed: set<string>)
    requires p in claims && o'.Keys == o.Keys && changed <= o.Keys
    requires forall n :: n in changed ==> o'[n] == OwnerAfter(o[n], p, n in claims[p]) != o[n]
    requires forall n :: n in o && n !in changed ==> o'[n] == o[n]
    ensures |changed| + Measure(o', claims) <= Measure(o, claims)
  {
    var ws := PartialVisit(o, o', claims, p, changed);
    ChangesBounded(o, claims, ws);
  }
}

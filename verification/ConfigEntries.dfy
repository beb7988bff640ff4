/** One content-hashed entry per policy in a shared configuration: the lookup by name prefix, the
    replacement and the removal, generic in what an entry holds. The device-plugin ConfigMap and
    the mig-parted configuration are the two instances. */
module ConfigEntries {
  import opened Options
  import opened MergePatch

  /** strings.HasPrefix(key, policy + "-") */
  predicate Owns(policy: string, key: string) {
    policy + "-" <= key
  }

  function EntryName(policy: string, hash: string): string {
    policy + "-" + hash
  }

  predicate HyphenFree(s: string) {
    '-' !in s
  }

  /** No policy's prefix begins another policy's prefix. */
  ghost predicate PrefixFree(names: set<string>) {
    forall p, q :: p in names && q in names && p != q ==> !Owns(p, q)
  }

  function OwnKeys<T>(m: map<string, T>, policy: string): set<string> {
    set k | k in m && Owns(policy, k)
  }

  ghost function Pick(keys: set<string>): string {
    if keys == {} then "" else var k :| k in keys; k
  }

  /** The key FindPrefixKey reports when the policy has at most one. */
  ghost function OwnKey<T>(m: map<string, T>, policy: string): string {
    Pick(OwnKeys(m, policy))
  }

  /** What FindPrefixKey may report, depending on the order in which the map is visited. */
  predicate MayFind<T>(m: map<string, T>, policy: string, key: string) {
    if key == "" then OwnKeys(m, policy) == {} else key in OwnKeys(m, policy)
  }

  ghost predicate AtMostOne<T>(m: map<string, T>, policy: string) {
    forall k1, k2 :: k1 in m && k2 in m && Owns(policy, k1) && Owns(policy, k2) ==> k1 == k2
  }

  /** What the controller keeps for each policy: at most one entry, named after its content. */
  ghost predicate EntryOk<T>(m: map<string, T>, policy: string, hash: T -> string) {
    && "" !in m
    && AtMostOne(m, policy)
    && forall k :: k in m && Owns(policy, k) ==> k == EntryName(policy, hash(m[k]))
  }

  /** Some key with the policy's prefix, in whatever order the map is visited; "" for none. */
  method FindPrefixKey<T>(m: map<string, T>, policy: string) returns (key: string)
    ensures MayFind(m, policy, key)
    ensures key != "" ==> key in m && Owns(policy, key)
    ensures key == "" ==> forall k :: k in m ==> !Owns(policy, k)
  {
    var rest := m.Keys;
    while rest != {}
      invariant rest <= m.Keys
      invariant forall k :: k in m && k !in rest ==> !Owns(policy, k)
    {
      var k :| k in rest;
      rest := rest - {k};
      if policy + "-" <= k {
        return k;
      }
    }
    return "";
  }

  /** With at most one candidate the visiting order does not matter; with more it does. */
  lemma LookupByOwner<T>(m: map<string, T>, policy: string)
    ensures MayFind(m, policy, OwnKey(m, policy))
    ensures AtMostOne(m, policy) <==> forall key :: MayFind(m, policy, key) ==> key == OwnKey(m, policy)
  {
    OwnKeyIs(m, policy);
    if !AtMostOne(m, policy) {
      var k1, k2 :| k1 in m && k2 in m && Owns(policy, k1) && Owns(policy, k2) && k1 != k2;
      assert MayFind(m, policy, k1) && MayFind(m, policy, k2);
    }
  }

  lemma OwnKeyIs<T>(m: map<string, T>, policy: string)
    ensures OwnKey(m, policy) == "" <==> OwnKeys(m, policy) == {}
    ensures OwnKey(m, policy) != "" ==> OwnKey(m, policy) in m && Owns(policy, OwnKey(m, policy))
  {
  }

  /** Prefix lookup is exact up to prefix-related names: `p-` begins an entry of q only when p is q
      or `p-` begins q itself. */
  lemma ExactPrefix(p: string, q: string, hash: string)
    requires HyphenFree(hash)
    ensures Owns(p, EntryName(q, hash)) <==> p == q || Owns(p, q)
  {
    var key, prefix := EntryName(q, hash), p + "-";
    assert key == q + ("-" + hash);
    assert key[|q|] == '-' && key[..|q|] == q;
    assert prefix[|p|] == '-' && prefix[..|p|] == p;
    if p == q {
      assert key == prefix + hash;
    } else if |p| < |q| {
      assert key[..|p| + 1] == q[..|p| + 1];
    } else if |p| == |q| {
      assert key[..|p|] == q;
    } else if |p| < |key| {
      assert key[|p|] == hash[|p| - |q| - 1];
      assert key[|p|] in hash;
    }
  }

  lemma EntryNameInjective(p: string, q: string, h1: string, h2: string)
    requires HyphenFree(h1) && HyphenFree(h2) && EntryName(p, h1) == EntryName(q, h2)
    ensures p == q
  {
    ExactPrefix(p, p, h1);
    ExactPrefix(q, q, h2);
    ExactPrefix(p, q, h2);
    ExactPrefix(q, p, h1);
  }

  // ---------------------------------------------------------------- replace and remove

  datatype Placed<T> = Placed(entries: map<string, T>, name: string, changed: bool)

  /** Makes `want` the policy's entry, given the key the lookup reported. */
  function PlaceAt<T(==)>(m: map<string, T>, own: string, policy: string, hash: T -> string, want: T): Placed<T> {
    if own in m && m[own] == want then Placed(m, own, false)
    else var name := EntryName(policy, hash(want)); Placed((m - {own})[name := want], name, true)
  }

  ghost function Place<T>(m: map<string, T>, policy: string, hash: T -> string, want: T): Placed<T> {
    PlaceAt(m, OwnKey(m, policy), policy, hash, want)
  }

  ghost function Drop<T>(m: map<string, T>, policy: string): map<string, T> {
    m - {OwnKey(m, policy)}
  }

  /** Afterwards the policy has exactly one entry, under the returned name, holding `want`; nothing
      outside its prefix moved. */
  lemma PlaceDoes<T>(m: map<string, T>, policy: string, hash: T -> string, want: T)
    requires EntryOk(m, policy, hash)
    ensures var r := Place(m, policy, hash, want);
      && EntryOk(r.entries, policy, hash)
      && OwnKeys(r.entries, policy) == {r.name}
      && r.name == EntryName(policy, hash(want)) != ""
      && r.entries[r.name] == want
      && (r.changed <==> r.entries != m)
      && forall k :: !Owns(policy, k) ==> Find(r.entries, k) == Find(m, k)
  {
  }

  /** Placing the same content again changes nothing and finds the same name. */
  lemma PlaceTwice<T>(m: map<string, T>, policy: string, hash: T -> string, want: T)
    requires EntryOk(m, policy, hash)
    ensures var r := Place(m, policy, hash, want);
      Place(r.entries, policy, hash, want) == Placed(r.entries, r.name, false)
  {
    PlaceDoes(m, policy, hash, want);
    var r := Place(m, policy, hash, want);
    assert OwnKey(r.entries, policy) in OwnKeys(r.entries, policy) by { OwnKeyIs(r.entries, policy); }
  }

  lemma DropDoes<T>(m: map<string, T>, policy: string, hash: T -> string)
    requires EntryOk(m, policy, hash)
    ensures OwnKeys(Drop(m, policy), policy) == {}
    ensures EntryOk(Drop(m, policy), policy, hash)
    ensures forall k :: !Owns(policy, k) ==> Find(Drop(m, policy), k) == Find(m, k)
    ensures OwnKey(m, policy) in m <==> Drop(m, policy) != m
  {
  }

  /** Any edit confined to the prefix of p, which leaves at most the hashed name behind, keeps the
      entry of every other policy. */
  lemma OthersKept<T>(m: map<string, T>, m': map<string, T>, p: string, q: string, hash: T -> string,
                      names: set<string>)
    requires forall c :: HyphenFree(hash(c))
    requires PrefixFree(names) && p in names && q in names && p != q
    requires EntryOk(m, p, hash) && EntryOk(m, q, hash) && EntryOk(m', p, hash)
    requires forall k :: !Owns(p, k) ==> Find(m', k) == Find(m, k)
    ensures EntryOk(m', q, hash)
    ensures OwnKeys(m', q) == OwnKeys(m, q)
    ensures forall k :: Owns(q, k) ==> Find(m', k) == Find(m, k)
  {
    assert Find(m', "") == Find(m, "");
    forall k | Owns(q, k) ensures Find(m', k) == Find(m, k) {
      if Owns(p, k) && k in m {
        ExactPrefix(q, p, hash(m[k]));
      }
      if Owns(p, k) && k in m' {
        ExactPrefix(q, p, hash(m'[k]));
      }
    }
    forall k | Owns(q, k) ensures k in m' <==> k in m {
      assert Find(m', k) == Find(m, k);
    }
    forall k | k in m' && Owns(q, k) ensures k in m && m'[k] == m[k] {
      assert Find(m', k) == Find(m, k);
    }
  }

  /** Where names are prefix-related the lookup takes the other policy's entry, and only there: in
      any configuration, q's entry survives p placing different content exactly when `p-` does not
      begin q. */
  lemma HijackExactly<T>(m: map<string, T>, p: string, q: string, key: string, hash: T -> string, want: T)
    requires forall c :: HyphenFree(hash(c))
    requires AtMostOne(m, p) && key in m && key == EntryName(q, hash(m[key]))
    requires p != q && m[key] != want
    ensures key in Place(m, p, hash, want).entries <==> !Owns(p, q)
  {
    ExactPrefix(p, q, hash(m[key]));
    OwnKeyIs(m, p);
    if Owns(p, q) {
      assert key in OwnKeys(m, p);
      if EntryName(p, hash(want)) == key {
        EntryNameInjective(p, q, hash(want), hash(m[key]));
      }
    }
  }

  // ---------------------------------------------------------------- stale reads

  /** A replacement patch computed from an old copy of a per-key ConfigMap still leaves every key
      outside the policy's prefix alone on the current one. */
  lemma StalePlaceKeepsOthers<T>(current: map<string, T>, base: map<string, T>, policy: string, hash: T -> string,
                                 want: T, k: string)
    requires EntryOk(base, policy, hash) && !Owns(policy, k)
    ensures Find(Apply(current, Diff(base, Place(base, policy, hash, want).entries)), k) == Find(current, k)
  {
    PlaceDoes(base, policy, hash, want);
    var edited := Place(base, policy, hash, want).entries;
    assert edited != map[];
    assert Find(edited, k) == Find(base, k);
    ApplyElsewhere(current, base, edited, k);
  }

  /** A removal patch from an old copy does so except when the removed entry was the last one in
      that copy: then it wipes whatever was added since. */
  lemma StaleDropKeepsOthersIff<T>(current: map<string, T>, base: map<string, T>, policy: string, hash: T -> string,
                                   k: string)
    requires EntryOk(base, policy, hash) && !Owns(policy, k)
    ensures Find(Apply(current, Diff(base, Drop(base, policy))), k) == Find(current, k)
       <==> (base.Keys != {OwnKey(base, policy)} || k !in current)
  {
    DropDoes(base, policy, hash);
    assert Find(Drop(base, policy), k) == Find(base, k);
    UntouchedKeySurvives(current, base, Drop(base, policy), k);
    assert Drop(base, policy) == map[] <==> base.Keys <= {OwnKey(base, policy)};
    assert base.Keys <= {OwnKey(base, policy)} ==> base == map[] || base.Keys == {OwnKey(base, policy)};
  }

  /** Replacing from an old copy restores one entry per policy exactly when the current entries of
      the policy are the one deleted or the one written. */
  lemma StalePlaceUniqueIff<T>(current: map<string, T>, base: map<string, T>, policy: string, hash: T -> string,
                               want: T)
    requires EntryOk(base, policy, hash) && Place(base, policy, hash, want).changed
    ensures var r := Place(base, policy, hash, want);
      OwnKeys(Apply(current, Diff(base, r.entries)), policy) == {r.name}
      <==> OwnKeys(current, policy) <= {OwnKey(base, policy), r.name}
  {
    PlaceDoes(base, policy, hash, want);
    OwnKeyIs(base, policy);
    var r := Place(base, policy, hash, want);
    var after := Apply(current, Diff(base, r.entries));
    forall k | Owns(policy, k)
      ensures k in after <==> k == r.name || (k in current && k != OwnKey(base, policy))
    {
      ApplyElsewhere(current, base, r.entries, k);
      assert k in after <==> Find(after, k).Some?;
      assert k in base ==> k == OwnKey(base, policy);
      assert k in r.entries ==> k in OwnKeys(r.entries, policy);
    }
    if OwnKeys(current, policy) <= {OwnKey(base, policy), r.name} {
      assert forall k :: k in OwnKeys(after, policy) ==> k in OwnKeys(current, policy) || k == r.name;
    } else {
      var k :| k in OwnKeys(current, policy) && k !in {OwnKey(base, policy), r.name};
      assert k in OwnKeys(after, policy);
    }
  }

  /** The mig-parted configuration is one value under one data key, so a patch replaces all of it:
      an entry keeps its current value exactly when the old copy already had that value. */
  lemma StaleBlobKeepsIff<T>(current: map<string, T>, base: map<string, T>, edited: map<string, T>, file: string,
                             k: string)
    requires edited != base && Find(edited, k) == Find(base, k)
    ensures var after := Apply(map[file := current], Diff(map[file := base], map[file := edited]));
      file in after && (Find(after[file], k) == Find(current, k) <==> Find(base, k) == Find(current, k))
  {
  }
}

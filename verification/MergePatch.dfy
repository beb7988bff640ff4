/** Optional values and lookups, shared by every other module. */
module Options {
  datatype Option<+T> = None | Some(value: T)

  function Find<K, V>(m: map<K, V>, k: K): Option<V> {
    if k in m then Some(m[k]) else None
  }

  /** Go's map index with a string value type: a missing key reads as "". */
  function Lookup<K>(m: map<K, string>, k: K): string {
    if k in m then m[k] else ""
  }
}

/** JSON Merge Patch (section 2 of RFC 7396) on one map-valued member of an object,
    which is how client.MergeFrom compares the labels of a node and the data of a ConfigMap.
    A member that became empty is omitted from the serialized object, so the patch then carries
    a null for the member itself and not for its keys. */
module MergePatch {
  import opened Options

  datatype Patch<K, V> = Clear | Merge(entries: map<K, Option<V>>)

  function Diff<K, V(==)>(base: map<K, V>, edited: map<K, V>): Patch<K, V> {
    if edited == map[] && base != map[] then Clear
    else Merge(map k | k in base.Keys + edited.Keys && Find(base, k) != Find(edited, k) :: Find(edited, k))
  }

  function Apply<K, V>(target: map<K, V>, p: Patch<K, V>): map<K, V> {
    match p
    case Clear => map[]
    case Merge(e) =>
      map k | k in target.Keys + e.Keys && (k in e ==> e[k].Some?) :: if k in e then e[k].value else target[k]
  }

  /** Round trip: a patch applied to the object it was computed from yields the edited object. */
  lemma ApplyDiff<K, V>(base: map<K, V>, edited: map<K, V>)
    ensures Apply(base, Diff(base, edited)) == edited
  {
  }

  /** Applied to any other object, a patch sets exactly the keys that were edited. */
  lemma ApplyElsewhere<K, V>(target: map<K, V>, base: map<K, V>, edited: map<K, V>, k: K)
    requires edited != map[] || base == map[]
    ensures Find(Apply(target, Diff(base, edited)), k)
         == if Find(base, k) == Find(edited, k) then Find(target, k) else Find(edited, k)
  {
  }

  /** The exact limit of that guarantee: a key the edit left alone survives on a newer object
      unless the edit emptied the member, in which case nothing survives. */
  lemma UntouchedKeySurvives<K, V>(target: map<K, V>, base: map<K, V>, edited: map<K, V>, k: K)
    requires Find(base, k) == Find(edited, k)
    ensures Find(Apply(target, Diff(base, edited)), k) == Find(target, k)
       <==> (edited != map[] || base == map[] || k !in target)
  {
  }

  /** Nothing to send exactly when nothing was edited. */
  lemma EmptyDiff<K, V>(base: map<K, V>, edited: map<K, V>)
    ensures Diff(base, edited) == Merge(map[]) <==> base == edited
  {
    if Diff(base, edited) == Merge(map[]) {
      ApplyDiff(base, edited);
      assert Apply(base, Merge(map[])) == base;
    }
  }
}

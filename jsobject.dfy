/**
 * Plain JavaScript objects keyed by strings, as the controller code uses them for
 * layouts and button states, and the substring test `s.indexOf(sub) != -1`.
 */
module JsObject {

  predicate NoDups<T(==)>(s: seq<T>) {
    forall i, j :: 0 <= i < j < |s| ==> s[i] != s[j]
  }

  /** A plain object: its own keys in insertion order, and the value stored under each. */
  datatype Dict<V> = Dict(keys: seq<string>, at: map<string, V>) {
    ghost predicate Valid() {
      NoDups(keys) && forall k :: k in at <==> k in keys
    }
  }

  /** `{}` */
  function EmptyDict<V>(): (d: Dict<V>)
    ensures d.Valid() && d.keys == [] && d.at == map[]
  {
    Dict([], map[])
  }

  /** `obj[k] = v`: the value is replaced in place; a key not yet present goes last in the key order. */
  function Put<V>(d: Dict<V>, k: string, v: V): (r: Dict<V>)
    ensures d.Valid() ==> r.Valid()
    ensures k in r.at && r.at[k] == v
    ensures r.keys == if k in d.at then d.keys else d.keys + [k]
  {
    if k in d.at then Dict(d.keys, d.at[k := v])
    else
      assert forall i :: 0 <= i < |d.keys| ==> d.keys[i] in d.at ==> d.keys[i] != k;
      Dict(d.keys + [k], d.at[k := v])
  }

  /** `obj[k] = v` leaves every other key present or absent as it was, with its value. */
  lemma PutKeepsOthers<V>(d: Dict<V>, k: string, v: V, j: string)
    requires j != k
    ensures j in Put(d, k, v).at <==> j in d.at
    ensures j in d.at ==> Put(d, k, v).at[j] == d.at[j]
  {
  }

  /** `s` has `sub` starting at position `i`. */
  predicate OccursAt(s: string, sub: string, i: nat) {
    i + |sub| <= |s| && s[i..i + |sub|] == sub
  }

  /** `s.indexOf(sub) != -1` */
  predicate Contains(s: string, sub: string) {
    exists i | 0 <= i <= |s| :: OccursAt(s, sub, i)
  }

  /** The first position at or after `from` where `sub` occurs in `s`, or -1. */
  function IndexFrom(s: string, sub: string, from: nat): (r: int)
    ensures r == -1 || (from <= r && OccursAt(s, sub, r))
    ensures r == -1 <==> forall j :: from <= j <= |s| ==> !OccursAt(s, sub, j)
    ensures r != -1 ==> forall j :: from <= j < r ==> !OccursAt(s, sub, j)
    decreases |s| + 1 - from
  {
    if from > |s| then -1
    else if OccursAt(s, sub, from) then from
    else IndexFrom(s, sub, from + 1)
  }

  /** `s.indexOf(sub)`: the first occurrence of `sub` in `s`, or -1 when there is none. */
  function IndexOf(s: string, sub: string): (r: int)
    ensures r == -1 <==> !Contains(s, sub)
    ensures r != -1 ==> 0 <= r && OccursAt(s, sub, r) && forall j :: 0 <= j < r ==> !OccursAt(s, sub, j)
  {
    IndexFrom(s, sub, 0)
  }
}

/**
 * Python dictionaries keep their keys in insertion order, so a dictionary is modelled as
 * an association list with distinct string keys. Assigning to a present key replaces its value
 * where it stands; assigning to a new key appends it.
 */
module Assoc {
  import opened Wrappers

  type Dict<V> = seq<(string, V)>

  function Keys<V>(d: Dict<V>): (r: seq<string>)
    ensures |r| == |d|
    ensures forall i :: 0 <= i < |d| ==> r[i] == d[i].0
  {
    seq(|d|, i requires 0 <= i < |d| => d[i].0)
  }

  /** No key occurs twice, as in every real dictionary. */
  predicate Distinct(ks: seq<string>)
  {
    forall i, j :: 0 <= i < j < |ks| ==> ks[i] != ks[j]
  }

  /** `d.get(k)`. */
  function Find<V>(d: Dict<V>, k: string): (r: Option<V>)
    ensures r.None? <==> k !in Keys(d)
    ensures r.Some? ==> (k, r.value) in d
    decreases |d|
  {
    if d == [] then None
    else if d[|d| - 1].0 == k then Some(d[|d| - 1].1)
    else
      var r := Find(d[..|d| - 1], k);
      assert forall i :: 0 <= i < |d| - 1 ==> Keys(d[..|d| - 1])[i] == Keys(d)[i];
      assert Keys(d) == Keys(d[..|d| - 1]) + [d[|d| - 1].0];
      r
  }

  /** `d.get(k, default)`. */
  function FindOr<V>(d: Dict<V>, k: string, default: V): (r: V)
    ensures k in Keys(d) ==> Find(d, k) == Some(r)
    ensures k !in Keys(d) ==> r == default
  {
    match Find(d, k)
      case None => default
      case Some(v) => v
  }

  /** `d[k] = v`: a present key keeps its place, a new one goes last. */
  function Put<V>(d: Dict<V>, k: string, v: V): (r: Dict<V>)
    ensures Keys(r) == if k in Keys(d) then Keys(d) else Keys(d) + [k]
  {
    if k in Keys(d) then Overwrite(d, k, v) else d + [(k, v)]
  }

  function Overwrite<V>(d: Dict<V>, k: string, v: V): (r: Dict<V>)
    ensures Keys(r) == Keys(d)
  {
    seq(|d|, i requires 0 <= i < |d| => if d[i].0 == k then (k, v) else d[i])
  }

  lemma {:induction false} FindOverwrite<V>(d: Dict<V>, k: string, v: V, k': string)
    ensures Find(Overwrite(d, k, v), k') == if k' == k && k in Keys(d) then Some(v) else Find(d, k')
    decreases |d|
  {
    if d != [] {
      var front := d[..|d| - 1];
      var o := Overwrite(d, k, v);
      assert o[..|o| - 1] == Overwrite(front, k, v);
      FindOverwrite(front, k, v, k');
      assert Keys(d) == Keys(front) + [d[|d| - 1].0];
    }
  }

  lemma FindAppend<V>(d: Dict<V>, k: string, v: V, k': string)
    ensures Find(d + [(k, v)], k') == if k' == k then Some(v) else Find(d, k')
  {
    var p := d + [(k, v)];
    assert p[..|p| - 1] == d;
  }

  /** After `d[k] = v`, `k` maps to `v` and every other key to what it mapped to before. */
  lemma FindPut<V>(d: Dict<V>, k: string, v: V, k': string)
    ensures Find(Put(d, k, v), k') == if k' == k then Some(v) else Find(d, k')
  {
    if k in Keys(d) {
      FindOverwrite(d, k, v, k');
    } else {
      FindAppend(d, k, v, k');
    }
  }

  /** Each entry after `d[k] = v` is the new pair or the entry already at that position. */
  lemma PutEntries<V>(d: Dict<V>, k: string, v: V)
    ensures forall i :: 0 <= i < |Put(d, k, v)| ==>
      Put(d, k, v)[i] == (k, v) || (i < |d| && Put(d, k, v)[i] == d[i])
  {
  }

  /** Assignment never makes a key occur twice. */
  lemma PutDistinct<V>(d: Dict<V>, k: string, v: V)
    requires Distinct(Keys(d))
    ensures Distinct(Keys(Put(d, k, v)))
  {
  }

  /** `ks.index(k)`: the position of the first occurrence of `k`. */
  function FirstIndex(ks: seq<string>, k: string): (r: nat)
    requires k in ks
    ensures r < |ks| && ks[r] == k
    ensures forall i :: 0 <= i < r ==> ks[i] != k
  {
    if ks[0] == k then 0 else 1 + FirstIndex(ks[1..], k)
  }

  /** A key of the front of `ks` occurs first where it first occurs in the front. */
  lemma FirstIndexPrefix(ks: seq<string>)
    requires ks != []
    ensures forall k :: k in ks[..|ks| - 1] ==> FirstIndex(ks, k) == FirstIndex(ks[..|ks| - 1], k)
  {
    var front := ks[..|ks| - 1];
    forall k | k in front
      ensures FirstIndex(ks, k) == FirstIndex(front, k)
    {
      var a, b := FirstIndex(ks, k), FirstIndex(front, k);
      assert ks[b] == k;
      assert a < |front| ==> front[a] == k;
    }
  }

  /** The keys of `ks` in order of first occurrence (`DedupFirstOccurrence`), each once. */
  function Dedup(ks: seq<string>): (r: seq<string>)
    ensures Distinct(r)
    ensures forall k :: k in r <==> k in ks
    decreases |ks|
  {
    if ks == [] then []
    else
      var front := Dedup(ks[..|ks| - 1]);
      assert forall k :: k in ks <==> k in ks[..|ks| - 1] || k == ks[|ks| - 1];
      if ks[|ks| - 1] in front then front else front + [ks[|ks| - 1]]
  }

  /** The keys `Dedup` keeps are in the order of their first occurrence in `ks`. */
  lemma {:induction false} DedupFirstOccurrence(ks: seq<string>)
    ensures forall i, j :: 0 <= i < j < |Dedup(ks)| ==>
      FirstIndex(ks, Dedup(ks)[i]) < FirstIndex(ks, Dedup(ks)[j])
    decreases |ks|
  {
    if ks != [] {
      var front, last := ks[..|ks| - 1], ks[|ks| - 1];
      var d := Dedup(front);
      DedupFirstOccurrence(front);
      FirstIndexPrefix(ks);
      assert forall k :: k in ks <==> k in front || k == last;
      forall i | 0 <= i < |d|
        ensures FirstIndex(ks, d[i]) == FirstIndex(front, d[i]) < |front|
      {
        assert d[i] in front;
      }
      if last !in d {
        var r := d + [last];
        assert FirstIndex(ks, last) == |front|;
        assert forall i :: 0 <= i < |d| ==> r[i] == d[i];
        assert Dedup(ks) == r;
      } else {
        assert Dedup(ks) == d;
        forall i, j | 0 <= i < j < |d|
          ensures FirstIndex(ks, d[i]) < FirstIndex(ks, d[j])
        {
          assert FirstIndex(front, d[i]) < FirstIndex(front, d[j]);
        }
      }
    }
  }
}

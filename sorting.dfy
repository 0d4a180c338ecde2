/**
 * `sorted(meta_long, key=lambda x: (x["iso3"], x["lvl"], x["key"]))`: a stable sort of
 * records by their sort key. Stability is stated as "for every sort key, the records with
 * that key appear in the same order as in the input"; with sortedness this determines the
 * output completely (`StableSortUnique`).
 */
module Sorting {
  import opened Records
  import opened Seqs

  predicate Sorted(s: seq<Record>)
  {
    forall i, j :: 0 <= i < j < |s| ==> KeyLeq(KeyOf(s[i]), KeyOf(s[j]))
  }

  /** The records of `s` whose sort key is `k`, in their order in `s`. */
  function WithKey(s: seq<Record>, k: SortKey): (r: seq<Record>)
    ensures |r| <= |s|
    decreases |s|
  {
    if s == [] then []
    else WithKey(s[..|s| - 1], k) + (if KeyOf(s[|s| - 1]) == k then [s[|s| - 1]] else [])
  }

  /** `out` is what a stable sort of `s` returns. */
  ghost predicate IsStableSortOf(out: seq<Record>, s: seq<Record>)
  {
    && Sorted(out)
    && multiset(out) == multiset(s)
    && forall k :: WithKey(out, k) == WithKey(s, k)
  }

  /** Stable insertion sort: each record goes after every record whose key is not greater. */
  method SortRecords(rs: seq<Record>) returns (out: seq<Record>)
    ensures IsStableSortOf(out, rs)
  {
    out := [];
    for i := 0 to |rs|
      invariant IsStableSortOf(out, rs[..i])
    {
      var j := InsertionPoint(out, rs[i]);
      assert rs[..i + 1] == rs[..i] + [rs[i]];
      InsertStep(out, rs[..i], j, rs[i]);
      out := out[..j] + [rs[i]] + out[j..];
    }
    assert rs[..|rs|] == rs;
  }

  /** Scanning back from the end, the position just after the last record not greater than `x`. */
  method InsertionPoint(s: seq<Record>, x: Record) returns (j: nat)
    ensures j <= |s|
    ensures j > 0 ==> !KeyLess(KeyOf(x), KeyOf(s[j - 1]))
    ensures forall m :: j <= m < |s| ==> KeyLess(KeyOf(x), KeyOf(s[m]))
  {
    j := |s|;
    while j > 0 && KeyLess(KeyOf(x), KeyOf(s[j - 1]))
      invariant 0 <= j <= |s|
      invariant forall m :: j <= m < |s| ==> KeyLess(KeyOf(x), KeyOf(s[m]))
    {
      j := j - 1;
    }
  }

  /** One step of the insertion sort keeps the loop invariant. */
  lemma InsertStep(out: seq<Record>, done: seq<Record>, j: nat, x: Record)
    requires IsStableSortOf(out, done) && j <= |out|
    requires j > 0 ==> !KeyLess(KeyOf(x), KeyOf(out[j - 1]))
    requires forall m :: j <= m < |out| ==> KeyLess(KeyOf(x), KeyOf(out[m]))
    ensures IsStableSortOf(out[..j] + [x] + out[j..], done + [x])
  {
    InsertSorted(out, j, x);
    WithKeyAfter(out, j, x);
    InsertKeepsKeys(out, done, j, x);
    InsertMultiset(out, done, j, x);
  }

  lemma InsertKeepsKeys(out: seq<Record>, done: seq<Record>, j: nat, x: Record)
    requires j <= |out| && WithKey(out[j..], KeyOf(x)) == []
    requires forall k :: WithKey(out, k) == WithKey(done, k)
    ensures forall k :: WithKey(out[..j] + [x] + out[j..], k) == WithKey(done + [x], k)
  {
    forall k
      ensures WithKey(out[..j] + [x] + out[j..], k) == WithKey(done + [x], k)
    {
      InsertWithKey(out, j, x, k);
      WithKeyAppend(done, [x], k);
    }
  }

  lemma InsertMultiset(out: seq<Record>, done: seq<Record>, j: nat, x: Record)
    requires j <= |out| && multiset(out) == multiset(done)
    ensures multiset(out[..j] + [x] + out[j..]) == multiset(done + [x])
  {
    assert out == out[..j] + out[j..];
  }

  lemma {:induction false} WithKeyAppend(a: seq<Record>, b: seq<Record>, k: SortKey)
    ensures WithKey(a + b, k) == WithKey(a, k) + WithKey(b, k)
    decreases |b|
  {
    if b == [] {
      assert a + b == a;
    } else {
      assert (a + b)[..|a + b| - 1] == a + b[..|b| - 1];
      WithKeyAppend(a, b[..|b| - 1], k);
    }
  }

  lemma {:induction false} WithKeyNone(s: seq<Record>, k: SortKey)
    requires forall m :: 0 <= m < |s| ==> KeyOf(s[m]) != k
    ensures WithKey(s, k) == []
    decreases |s|
  {
    if s != [] {
      WithKeyNone(s[..|s| - 1], k);
    }
  }

  /** Putting `x` after the records not greater than it and before the greater ones keeps `s` sorted. */
  lemma InsertSorted(s: seq<Record>, j: nat, x: Record)
    requires Sorted(s) && j <= |s|
    requires j > 0 ==> !KeyLess(KeyOf(x), KeyOf(s[j - 1]))
    requires forall m :: j <= m < |s| ==> KeyLess(KeyOf(x), KeyOf(s[m]))
    ensures Sorted(s[..j] + [x] + s[j..])
  {
    var t := s[..j] + [x] + s[j..];
    forall m | 0 <= m < j
      ensures KeyLeq(KeyOf(s[m]), KeyOf(x))
    {
      if m < j - 1 {
        KeyLeqTransitive(KeyOf(s[m]), KeyOf(s[j - 1]), KeyOf(x));
      }
    }
    forall m | j <= m < |s|
      ensures KeyLeq(KeyOf(x), KeyOf(s[m]))
    {
      KeyLessAsymmetric(KeyOf(x), KeyOf(s[m]));
    }
    forall a, b | 0 <= a < b < |t|
      ensures KeyLeq(KeyOf(t[a]), KeyOf(t[b]))
    {
      if a < j && b == j {
      } else if a == j && b > j {
        assert t[b] == s[b - 1];
      } else if b < j {
      } else if a < j {
        assert t[b] == s[b - 1];
      } else {
        assert t[a] == s[a - 1] && t[b] == s[b - 1];
      }
    }
  }

  /** Inserting `x` there appends it to the records of its own key and leaves the other keys alone. */
  lemma InsertWithKey(s: seq<Record>, j: nat, x: Record, k: SortKey)
    requires j <= |s|
    requires WithKey(s[j..], KeyOf(x)) == []
    ensures WithKey(s[..j] + [x] + s[j..], k) == WithKey(s, k) + WithKey([x], k)
  {
    var front, back := s[..j], s[j..];
    assert s == front + back;
    WithKeyAppend(front, back, k);
    WithKeyAppend(front + [x], back, k);
    WithKeyAppend(front, [x], k);
    WithKeySingle(x, k);
    SwapEmpty(WithKey(front, k), WithKey([x], k), WithKey(back, k));
  }

  lemma SwapEmpty(a: seq<Record>, b: seq<Record>, c: seq<Record>)
    requires b == [] || c == []
    ensures a + b + c == a + c + b
  {
  }

  lemma WithKeySingle(x: Record, k: SortKey)
    ensures WithKey([x], k) == if KeyOf(x) == k then [x] else []
  {
    assert [x][..0] == [];
  }

  /** No record after position `j` has the key of `x` when all of them are greater. */
  lemma WithKeyAfter(s: seq<Record>, j: nat, x: Record)
    requires j <= |s|
    requires forall m :: j <= m < |s| ==> KeyLess(KeyOf(x), KeyOf(s[m]))
    ensures WithKey(s[j..], KeyOf(x)) == []
  {
    KeyLessIrreflexive(KeyOf(x));
    WithKeyNone(s[j..], KeyOf(x));
  }

  /** The specification of a stable sort leaves no freedom: any two results are equal. */
  lemma StableSortUnique(a: seq<Record>, b: seq<Record>, s: seq<Record>)
    requires IsStableSortOf(a, s) && IsStableSortOf(b, s)
    ensures a == b
  {
    SameGroupsEqual(a, b);
  }

  lemma {:induction false} SameGroupsEqual(a: seq<Record>, b: seq<Record>)
    requires Sorted(a) && Sorted(b) && multiset(a) == multiset(b)
    requires forall k :: WithKey(a, k) == WithKey(b, k)
    ensures a == b
    decreases |a|
  {
    assert |a| == |multiset(a)| == |multiset(b)| == |b|;
    if a != [] {
      var n := |a|;
      SameLastRecord(a, b);
      var a', b' := a[..n - 1], b[..n - 1];
      assert a == a' + [a[n - 1]] && b == b' + [a[n - 1]];
      SameGroupsDropLast(a', b', a[n - 1]);
      MultisetDropLast(a', b', a[n - 1]);
      SortedPrefix(a, n - 1);
      SortedPrefix(b, n - 1);
      SameGroupsEqual(a', b');
    }
  }

  /** Two sorted sequences with the same records and the same groups end in the same record. */
  lemma SameLastRecord(a: seq<Record>, b: seq<Record>)
    requires Sorted(a) && Sorted(b) && multiset(a) == multiset(b)
    requires forall k :: WithKey(a, k) == WithKey(b, k)
    requires |a| == |b| > 0
    ensures a[|a| - 1] == b[|b| - 1]
  {
    var n := |a|;
    var x, y := a[n - 1], b[n - 1];
    assert x in a && y in b;
    assert x in multiset(b) && y in multiset(a);
    LastIsGreatest(a, y);
    LastIsGreatest(b, x);
    KeyLeqAntisymmetric(KeyOf(x), KeyOf(y));
    SameLast(a, b);
  }

  /** Two sequences with the same groups whose last records share a key end in the same record. */
  lemma SameLast(a: seq<Record>, b: seq<Record>)
    requires |a| == |b| > 0 && KeyOf(a[|a| - 1]) == KeyOf(b[|b| - 1])
    requires forall k :: WithKey(a, k) == WithKey(b, k)
    ensures a[|a| - 1] == b[|b| - 1]
  {
    var k := KeyOf(a[|a| - 1]);
    assert WithKey(a, k) == WithKey(a[..|a| - 1], k) + [a[|a| - 1]];
    assert WithKey(b, k) == WithKey(b[..|b| - 1], k) + [b[|b| - 1]];
  }

  /** Dropping the same last record from both keeps the groups equal. */
  lemma SameGroupsDropLast(a: seq<Record>, b: seq<Record>, x: Record)
    requires forall k :: WithKey(a + [x], k) == WithKey(b + [x], k)
    ensures forall k :: WithKey(a, k) == WithKey(b, k)
  {
    forall k
      ensures WithKey(a, k) == WithKey(b, k)
    {
      WithKeyAppend(a, [x], k);
      WithKeyAppend(b, [x], k);
      var tail := WithKey([x], k);
      assert WithKey(a, k) + tail == WithKey(b, k) + tail;
      assert WithKey(a, k) == (WithKey(a, k) + tail)[..|WithKey(a, k)|];
    }
  }

  lemma MultisetDropLast(a: seq<Record>, b: seq<Record>, x: Record)
    requires multiset(a + [x]) == multiset(b + [x])
    ensures multiset(a) == multiset(b)
  {
    assert multiset(a + [x]) == multiset(a) + multiset{x};
    assert multiset(b + [x]) == multiset(b) + multiset{x};
    assert forall z :: multiset(a)[z] == multiset(a + [x])[z] - multiset{x}[z];
    assert forall z :: multiset(b)[z] == multiset(b + [x])[z] - multiset{x}[z];
  }

  /** Every record of a sorted non-empty sequence has a key not above its last record's. */
  lemma LastIsGreatest(s: seq<Record>, x: Record)
    requires Sorted(s) && x in multiset(s)
    ensures KeyLeq(KeyOf(x), KeyOf(s[|s| - 1]))
  {
    var i :| 0 <= i < |s| && s[i] == x;
    if i < |s| - 1 {
    } else {
      KeyLessIrreflexive(KeyOf(x));
    }
  }

  lemma SortedPrefix(s: seq<Record>, n: nat)
    requires Sorted(s) && n <= |s|
    ensures Sorted(s[..n])
  {
  }

  /** The tuple order is asymmetric. */
  lemma KeyLessAsymmetric(x: SortKey, y: SortKey)
    requires KeyLess(x, y)
    ensures !KeyLess(y, x)
  {
    if KeyLess(y, x) {
      KeyLessTransitive(x, y, x);
      KeyLessIrreflexive(x);
    }
  }

  /** Dropping records keeps a sorted sequence sorted. */
  lemma {:induction false} FilterSorted(p: Record -> bool, s: seq<Record>)
    requires Sorted(s)
    ensures Sorted(Filter(p, s))
    decreases |s|
  {
    if s != [] {
      var u, x := s[..|s| - 1], s[|s| - 1];
      SortedPrefix(s, |s| - 1);
      FilterSorted(p, u);
      if p(x) {
        forall y | y in Filter(p, u)
          ensures KeyLeq(KeyOf(y), KeyOf(x))
        {
          BeforeLast(s, y);
        }
        SortedSnoc(Filter(p, u), x);
      }
    }
  }

  lemma BeforeLast(s: seq<Record>, y: Record)
    requires Sorted(s) && s != [] && y in s[..|s| - 1]
    ensures KeyLeq(KeyOf(y), KeyOf(s[|s| - 1]))
  {
    var m :| 0 <= m < |s| - 1 && s[m] == y;
  }

  lemma SortedSnoc(s: seq<Record>, x: Record)
    requires Sorted(s)
    requires forall y :: y in s ==> KeyLeq(KeyOf(y), KeyOf(x))
    ensures Sorted(s + [x])
  {
    var t := s + [x];
    forall a, b | 0 <= a < b < |t|
      ensures KeyLeq(KeyOf(t[a]), KeyOf(t[b]))
    {
      assert t[a] == s[a];
      if b == |s| {
        assert s[a] in s;
      }
    }
  }
}

/**
 * The canonical long-form record `{"iso3", "lvl", "key", "value"}`, the typed value it
 * carries, the errors the pipeline raises, and the order `sorted` puts records in:
 * the tuple `(iso3, lvl, key)`, strings compared code point by code point as Python does.
 */
module Records {

  /** A typed metadata value: `str`, `int`, `bool` or `None`. */
  datatype Value = VStr(s: string) | VInt(n: int) | VBool(b: bool) | VNull

  /** The exceptions that abort the whole pipeline. */
  datatype PipelineError =
    | MalformedLevel        // `int(row[LVL])` raised
    | MalformedDate(text: string)  // `strptime(text, "%B %Y")` raised

  datatype Record = Record(iso3: string, lvl: int, key: string, value: Value)

  type SortKey = (string, int, string)

  function KeyOf(r: Record): SortKey
  {
    (r.iso3, r.lvl, r.key)
  }

  /** Python's `<` on strings: lexicographic by code point, a proper prefix first. */
  predicate StrLess(a: string, b: string)
    decreases |a|
  {
    if a == [] then b != []
    else if b == [] then false
    else if a[0] != b[0] then a[0] < b[0]
    else StrLess(a[1..], b[1..])
  }

  /** Python's `<` on `(str, int, str)` tuples. */
  predicate KeyLess(x: SortKey, y: SortKey)
  {
    StrLess(x.0, y.0) || (x.0 == y.0 && (x.1 < y.1 || (x.1 == y.1 && StrLess(x.2, y.2))))
  }

  predicate KeyLeq(x: SortKey, y: SortKey)
  {
    !KeyLess(y, x)
  }

  lemma {:induction false} StrLessIrreflexive(a: string)
    ensures !StrLess(a, a)
    decreases |a|
  {
    if a != [] {
      StrLessIrreflexive(a[1..]);
    }
  }

  lemma {:induction false} StrLessTransitive(a: string, b: string, c: string)
    requires StrLess(a, b) && StrLess(b, c)
    ensures StrLess(a, c)
    decreases |a|
  {
    if a != [] && b != [] && c != [] && a[0] == b[0] && b[0] == c[0] {
      StrLessTransitive(a[1..], b[1..], c[1..]);
    }
  }

  lemma {:induction false} StrLessTotal(a: string, b: string)
    ensures a == b || StrLess(a, b) || StrLess(b, a)
    decreases |a|
  {
    if a != [] && b != [] && a[0] == b[0] {
      StrLessTotal(a[1..], b[1..]);
      if a[1..] == b[1..] {
        assert a == [a[0]] + a[1..] && b == [b[0]] + b[1..];
      }
    }
  }

  /** The tuple order is a strict total order, so `KeyLeq` is a total preorder with equality as its kernel. */
  lemma KeyLessIrreflexive(x: SortKey)
    ensures !KeyLess(x, x)
  {
    StrLessIrreflexive(x.0);
    StrLessIrreflexive(x.2);
  }

  lemma KeyLessTransitive(x: SortKey, y: SortKey, z: SortKey)
    requires KeyLess(x, y) && KeyLess(y, z)
    ensures KeyLess(x, z)
  {
    if StrLess(x.0, y.0) && StrLess(y.0, z.0) {
      StrLessTransitive(x.0, y.0, z.0);
    }
    if x.0 == y.0 == z.0 && x.1 == y.1 == z.1 && StrLess(x.2, y.2) && StrLess(y.2, z.2) {
      StrLessTransitive(x.2, y.2, z.2);
    }
  }

  lemma KeyLessTotal(x: SortKey, y: SortKey)
    ensures x == y || KeyLess(x, y) || KeyLess(y, x)
  {
    StrLessTotal(x.0, y.0);
    StrLessTotal(x.2, y.2);
  }

  lemma KeyLeqTransitive(x: SortKey, y: SortKey, z: SortKey)
    requires KeyLeq(x, y) && KeyLeq(y, z)
    ensures KeyLeq(x, z)
  {
    if KeyLess(z, x) {
      KeyLessTotal(x, y);
      if x == y {
      } else if KeyLess(x, y) {
        KeyLessTransitive(z, x, y);
      }
    }
  }

  lemma KeyLeqAntisymmetric(x: SortKey, y: SortKey)
    requires KeyLeq(x, y) && KeyLeq(y, x)
    ensures x == y
  {
    KeyLessTotal(x, y);
  }
}

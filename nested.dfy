/**
 * `process_dict`: the long form folded into location -> level label -> key -> value, where
 * a key seen once holds its value and a key seen again becomes the list of all its values
 * in the order met. Every dictionary keeps insertion order (`Assoc`). `Builder` is the
 * mutable `meta_dict` of the source; `Fold` is what it holds after a prefix of the records.
 */
module Nested {
  import opened Wrappers
  import opened Seqs
  import opened Text
  import opened Assoc
  import opened Records

  /** A value at a path: one scalar, or the list a duplicate key turns it into. */
  datatype Slot = One(v: Value) | Many(vs: seq<Value>)

  type KeyDict = Dict<Slot>
  type LevelDict = Dict<KeyDict>
  type Tree = Dict<LevelDict>

  type Path = (string, string, string)

  /** What `process_dict` returns: the whole tree, or the levels of one location. */
  datatype Export = Everything(tree: Tree) | OneLocation(levels: LevelDict)

  /** `"all"` for the dataset level -1, `"adm<n>"` otherwise. */
  /** `"all" if lvl == -1 else f"adm{lvl}"`. */
  function LevelLabel(lvl: int): (r: string)
    ensures (r == "all") == (lvl == -1)
    ensures lvl != -1 ==> |r| > 3 && r[..3] == "adm" && r[3..] == IntToString(lvl)
  {
    if lvl == -1 then "all" else "adm" + IntToString(lvl)
  }

  function PathOf(r: Record): Path
  {
    (LocationOf(r), LevelOf(r), r.key)
  }

  /** The three parts of a record's path, and its value, as functions over records. */
  function LocationOf(r: Record): string
  {
    Lower(r.iso3)
  }

  function LevelOf(r: Record): string
  {
    LevelLabel(r.lvl)
  }

  function KeyIn(r: Record): string
  {
    r.key
  }

  function ValueOf(r: Record): Value
  {
    r.value
  }

  /** The records at one location, at one level of one location, and at one path. */
  function AtLocation(loc: string): Record -> bool
  {
    (r: Record) => LocationOf(r) == loc
  }

  function AtLevel(loc: string, lvl: string): Record -> bool
  {
    (r: Record) => LocationOf(r) == loc && LevelOf(r) == lvl
  }

  function AtPath(path: Path): Record -> bool
  {
    (r: Record) => PathOf(r) == path
  }

  /** The duplicate rule: absent -> scalar, scalar -> two-element list, list -> appended. */
  function Merge(s: Option<Slot>, v: Value): Slot
  {
    match s
      case None => One(v)
      case Some(One(x)) => Many([x, v])
      case Some(Many(xs)) => Many(xs + [v])
  }

  /** The slot at `path`, reading a missing dictionary as empty. */
  function Lookup(t: Tree, path: Path): Option<Slot>
  {
    Find(FindOr(FindOr(t, path.0, []), path.1, []), path.2)
  }

  /** One iteration of the loop. */
  function Insert(t: Tree, r: Record): Tree
  {
    var (loc, lvl, key) := PathOf(r);
    var levels := FindOr(t, loc, []);
    var keys := FindOr(levels, lvl, []);
    Put(t, loc, Put(levels, lvl, Put(keys, key, Merge(Find(keys, key), r.value))))
  }

  /** The tree after folding `rs` in order. */
  function Fold(rs: seq<Record>): Tree
    decreases |rs|
  {
    if rs == [] then [] else Insert(Fold(rs[..|rs| - 1]), rs[|rs| - 1])
  }

  /** The values of the records at `path`, in long-form order. */
  function ValuesAt(rs: seq<Record>, path: Path): seq<Value>
  {
    Map(ValueOf, Filter(AtPath(path), rs))
  }

  /** What a path holds after seeing `vs` there: nothing, the scalar, or the list. */
  function SlotOf(vs: seq<Value>): Option<Slot>
  {
    if vs == [] then None else if |vs| == 1 then Some(One(vs[0])) else Some(Many(vs))
  }

  /** Every dictionary of the tree has distinct keys. */
  predicate Valid(t: Tree)
  {
    && Distinct(Keys(t))
    && forall i :: 0 <= i < |t| ==> ValidLevels(t[i].1)
  }

  predicate ValidLevels(l: LevelDict)
  {
    && Distinct(Keys(l))
    && forall j :: 0 <= j < |l| ==> Distinct(Keys(l[j].1))
  }

  class Builder {
    var tree: Tree

    constructor()
      ensures tree == []
    {
      tree := [];
    }

    /** Lines 134-145 for one record. The inner dictionaries are values here, so each updated one is written back. */
    method Add(r: Record)
      requires Valid(tree)
      modifies this
      ensures tree == Insert(old(tree), r)
      ensures Valid(tree)
    {
      var iso3 := Lower(r.iso3);
      var lvl := LevelLabel(r.lvl);
      var levels := FindOr(tree, iso3, []);
      var keys := FindOr(levels, lvl, []);
      var slot: Slot;
      var existing: Option<Slot> := Find(keys, r.key);
      match existing {
        case None =>
          slot := One(r.value);
        case Some(One(x)) =>
          slot := Many([x, r.value]);
        case Some(Many(xs)) =>
          slot := Many(xs + [r.value]);
      }
      InsertValid(tree, r);
      tree := Put(tree, iso3, Put(levels, lvl, Put(keys, r.key, slot)));
    }
  }

  /** `process_dict(meta_long, iso3_val)`; an empty `iso3_val` means no filter. */
  method ProcessDict(rs: seq<Record>, iso3Val: string) returns (out: Export)
    ensures iso3Val == "" ==> out == Everything(Fold(rs))
    ensures iso3Val != "" ==> out == OneLocation(FindOr(Fold(rs), Lower(iso3Val), []))
  {
    var b := new Builder();
    for i := 0 to |rs|
      invariant b.tree == Fold(rs[..i]) && Valid(b.tree)
    {
      FoldStep(rs, i);
      b.Add(rs[i]);
    }
    assert rs[..|rs|] == rs;
    if iso3Val != "" {
      out := OneLocation(FindOr(b.tree, Lower(iso3Val), []));
    } else {
      out := Everything(b.tree);
    }
  }

  lemma FoldStep(rs: seq<Record>, i: nat)
    requires i < |rs|
    ensures Fold(rs[..i + 1]) == Insert(Fold(rs[..i]), rs[i])
  {
    assert rs[..i + 1][..i] == rs[..i];
  }

  /** Folding keeps every dictionary free of duplicate keys. */
  lemma {:induction false} FoldValid(rs: seq<Record>)
    ensures Valid(Fold(rs))
    decreases |rs|
  {
    if rs != [] {
      FoldValid(rs[..|rs| - 1]);
      InsertValid(Fold(rs[..|rs| - 1]), rs[|rs| - 1]);
    }
  }

  lemma InsertValid(t: Tree, r: Record)
    requires Valid(t)
    ensures Valid(Insert(t, r))
  {
    var (loc, lvl, key) := PathOf(r);
    var levels := FindOr(t, loc, []);
    FoundLevelsValid(t, loc);
    var keys := FindOr(levels, lvl, []);
    FoundKeysValid(levels, lvl);
    var keys' := Put(keys, key, Merge(Find(keys, key), r.value));
    PutDistinct(keys, key, Merge(Find(keys, key), r.value));
    var levels' := Put(levels, lvl, keys');
    PutDistinct(levels, lvl, keys');
    PutEntries(levels, lvl, keys');
    assert ValidLevels(levels');
    PutDistinct(t, loc, levels');
    PutEntries(t, loc, levels');
  }

  lemma FoundLevelsValid(t: Tree, loc: string)
    requires Valid(t)
    ensures ValidLevels(FindOr(t, loc, []))
  {
    if Find(t, loc).Some? {
      var i :| 0 <= i < |t| && t[i] == (loc, Find(t, loc).value);
    }
  }

  lemma FoundKeysValid(l: LevelDict, lvl: string)
    requires ValidLevels(l)
    ensures Distinct(Keys(FindOr(l, lvl, [])))
  {
    if Find(l, lvl).Some? {
      var j :| 0 <= j < |l| && l[j] == (lvl, Find(l, lvl).value);
    }
  }

  /** One insertion changes the record's own path, by the duplicate rule, and no other. */
  lemma LookupInsert(t: Tree, r: Record, path: Path)
    ensures Lookup(Insert(t, r), path) ==
      if path == PathOf(r) then Some(Merge(Lookup(t, path), r.value)) else Lookup(t, path)
  {
    var (loc, lvl, key) := PathOf(r);
    var levels := FindOr(t, loc, []);
    var keys := FindOr(levels, lvl, []);
    var keys' := Put(keys, key, Merge(Find(keys, key), r.value));
    var levels' := Put(levels, lvl, keys');
    FindPut(t, loc, levels', path.0);
    FindPut(levels, lvl, keys', path.1);
    FindPut(keys, key, Merge(Find(keys, key), r.value), path.2);
  }

  /** The duplicate rule applied to what a path held gives what it holds with one more value. */
  lemma MergeSlotOf(vs: seq<Value>, v: Value)
    ensures Merge(SlotOf(vs), v) == SlotOf(vs + [v]).value
  {
    if |vs| == 1 {
      assert vs == [vs[0]];
    }
  }

  lemma ValuesAtSnoc(rs: seq<Record>, path: Path)
    requires rs != []
    ensures ValuesAt(rs, path) ==
      ValuesAt(rs[..|rs| - 1], path) + (if PathOf(rs[|rs| - 1]) == path then [rs[|rs| - 1].value] else [])
  {
    var x := rs[|rs| - 1];
    if AtPath(path)(x) {
      MapSnoc(ValueOf, Filter(AtPath(path), rs[..|rs| - 1]), x);
    }
  }

  /**
   * The main property: a path no record reaches is absent, a path one record reaches holds
   * that record's value, and a path n >= 2 records reach holds their n values in order.
   */
  lemma {:induction false} FoldLookup(rs: seq<Record>, path: Path)
    ensures Lookup(Fold(rs), path) == SlotOf(ValuesAt(rs, path))
    decreases |rs|
  {
    if rs != [] {
      var front, x := rs[..|rs| - 1], rs[|rs| - 1];
      FoldLookup(front, path);
      LookupInsert(Fold(front), x, path);
      ValuesAtSnoc(rs, path);
      if PathOf(x) == path {
        MergeSlotOf(ValuesAt(front, path), x.value);
      }
    }
  }

  /** Locations appear in the order their first record does, each once. */
  lemma {:induction false} FoldLocations(rs: seq<Record>)
    ensures Keys(Fold(rs)) == Dedup(Map(LocationOf, rs))
    decreases |rs|
  {
    if rs != [] {
      FoldLocations(rs[..|rs| - 1]);
      LocationsStep(rs);
    }
  }

  lemma LocationsStep(rs: seq<Record>)
    requires rs != []
    requires Keys(Fold(rs[..|rs| - 1])) == Dedup(Map(LocationOf, rs[..|rs| - 1]))
    ensures Keys(Fold(rs)) == Dedup(Map(LocationOf, rs))
  {
    FoldLocationsSnoc(rs);
    DedupLocationsSnoc(rs);
  }

  lemma FoldLocationsSnoc(rs: seq<Record>)
    requires rs != []
    ensures var t, l := Fold(rs[..|rs| - 1]), LocationOf(rs[|rs| - 1]);
      Keys(Fold(rs)) == if l in Keys(t) then Keys(t) else Keys(t) + [l]
  {
    InsertLocations(Fold(rs[..|rs| - 1]), rs[|rs| - 1]);
  }

  lemma DedupLocationsSnoc(rs: seq<Record>)
    requires rs != []
    ensures var d, l := Dedup(Map(LocationOf, rs[..|rs| - 1])), LocationOf(rs[|rs| - 1]);
      Dedup(Map(LocationOf, rs)) == if l in d then d else d + [l]
  {
    var ks := Map(LocationOf, rs);
    assert Map(LocationOf, rs[..|rs| - 1]) == ks[..|ks| - 1];
  }

  /** Inserting a record appends its location if it is new and otherwise keeps the locations. */
  lemma InsertLocations(t: Tree, r: Record)
    ensures Keys(Insert(t, r)) == if LocationOf(r) in Keys(t) then Keys(t) else Keys(t) + [LocationOf(r)]
  {
  }

  /** Within a location, level labels appear in the order their first record does. */
  lemma {:induction false} FoldLevels(rs: seq<Record>, loc: string)
    ensures Keys(FindOr(Fold(rs), loc, [])) ==
      Dedup(Map(LevelOf, Filter(AtLocation(loc), rs)))
    decreases |rs|
  {
    var at := AtLocation(loc);
    var labelOf := LevelOf;
    if rs != [] {
      var front, x := rs[..|rs| - 1], rs[|rs| - 1];
      FoldLevels(front, loc);
      var (xloc, xlvl, xkey) := PathOf(x);
      var levels := FindOr(Fold(front), xloc, []);
      var keys := FindOr(levels, xlvl, []);
      var levels' := Put(levels, xlvl, Put(keys, xkey, Merge(Find(keys, xkey), x.value)));
      FindPut(Fold(front), xloc, levels', loc);
      if at(x) {
        var f := Filter(at, front);
        MapSnoc(labelOf, f, x);
        var m := Map(labelOf, f + [x]);
        assert m[..|m| - 1] == Map(labelOf, f);
      }
    }
  }

  /** Within a location and level, keys appear in the order their first record does. */
  lemma {:induction false} FoldKeys(rs: seq<Record>, loc: string, lvl: string)
    ensures Keys(FindOr(FindOr(Fold(rs), loc, []), lvl, [])) ==
      Dedup(Map(KeyIn, Filter(AtLevel(loc, lvl), rs)))
    decreases |rs|
  {
    var at := AtLevel(loc, lvl);
    var key := KeyIn;
    if rs != [] {
      var front, x := rs[..|rs| - 1], rs[|rs| - 1];
      FoldKeys(front, loc, lvl);
      var (xloc, xlvl, xkey) := PathOf(x);
      var levels := FindOr(Fold(front), xloc, []);
      var keys := FindOr(levels, xlvl, []);
      var keys' := Put(keys, xkey, Merge(Find(keys, xkey), x.value));
      var levels' := Put(levels, xlvl, keys');
      FindPut(Fold(front), xloc, levels', loc);
      FindPut(levels, xlvl, keys', lvl);
      if at(x) {
        var f := Filter(at, front);
        MapSnoc(key, f, x);
        var m := Map(key, f + [x]);
        assert m[..|m| - 1] == Map(key, f);
      }
    }
  }

  /** Two records with the same path: the path holds both values, first one first. */
  lemma DuplicateBecomesList(r1: Record, r2: Record)
    requires PathOf(r1) == PathOf(r2)
    ensures Lookup(Fold([r1, r2]), PathOf(r1)) == Some(Many([r1.value, r2.value]))
  {
    FoldLookup([r1, r2], PathOf(r1));
    ValuesOfPair(r1, r2);
  }

  lemma ValuesOfPair(r1: Record, r2: Record)
    requires PathOf(r1) == PathOf(r2)
    ensures ValuesAt([r1, r2], PathOf(r1)) == [r1.value, r2.value]
  {
    var path := PathOf(r1);
    assert [r1, r2][..1] == [r1];
    assert [r1][..0] == [];
    ValuesAtSnoc([r1, r2], path);
    ValuesAtSnoc([r1], path);
  }

  /** Distinct levels get distinct labels, so records at different levels never merge. */
  lemma LevelLabelInjective(a: int, b: int)
    requires LevelLabel(a) == LevelLabel(b)
    ensures a == b
  {
    if a != -1 && b != -1 {
      assert IntToString(a) == LevelLabel(a)[3..];
      assert IntToString(b) == LevelLabel(b)[3..];
      IntToStringInjective(a, b);
    }
  }

  /** With a filter, the export holds exactly the filtered location's paths. */
  lemma FilteredLookup(rs: seq<Record>, iso3Val: string, lvl: string, key: string)
    ensures Find(FindOr(FindOr(Fold(rs), Lower(iso3Val), []), lvl, []), key)
      == SlotOf(ValuesAt(rs, (Lower(iso3Val), lvl, key)))
  {
    FoldLookup(rs, (Lower(iso3Val), lvl, key));
  }
}

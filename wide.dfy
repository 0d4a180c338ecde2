/**
 * `process_wide`: the sorted long form split into the three sheets exported for pivoting.
 * A record whose key is "notes" goes to the notes sheet without its key; any other record
 * goes to the level sheet when its level is not -1, and otherwise to the dataset sheet
 * without its level. Each sheet keeps the order of the long form.
 */
module Wide {
  import opened Seqs
  import opened Records
  import opened Sorting

  const NotesKey := "notes"
  /** The level of a record about the dataset as a whole rather than one admin level. */
  const DatasetLevel := -1

  datatype NoteRow = NoteRow(iso3: string, lvl: int, value: Value)
  datatype DatasetRow = DatasetRow(iso3: string, key: string, value: Value)

  /** `{"dataset": [...], "level": [...], "notes": [...]}`. */
  datatype Sheets = Sheets(dataset: seq<DatasetRow>, level: seq<Record>, notes: seq<NoteRow>)

  predicate IsNote(r: Record) { r.key == NotesKey }
  predicate IsLevel(r: Record) { r.key != NotesKey && r.lvl != DatasetLevel }
  predicate IsDataset(r: Record) { r.key != NotesKey && r.lvl == DatasetLevel }

  function ToNote(r: Record): NoteRow { NoteRow(r.iso3, r.lvl, r.value) }
  function ToDataset(r: Record): DatasetRow { DatasetRow(r.iso3, r.key, r.value) }

  /** The records a sheet row stands for: the dropped field is the one its sheet fixes. */
  function FromNote(n: NoteRow): (r: Record)
    ensures IsNote(r) && ToNote(r) == n
  {
    Record(n.iso3, n.lvl, NotesKey, n.value)
  }

  function FromDataset(d: DatasetRow): (r: Record)
    ensures r.lvl == DatasetLevel && ToDataset(r) == d
    ensures d.key != NotesKey ==> IsDataset(r)
  {
    Record(d.iso3, DatasetLevel, d.key, d.value)
  }

  /** The three sheets, each the records of its kind in long-form order. */
  function Split(rs: seq<Record>): (w: Sheets)
    ensures forall r :: r in w.level <==> r in rs && IsLevel(r)
    ensures |w.dataset| <= |rs| && |w.level| <= |rs| && |w.notes| <= |rs|
  {
    forall r { FilterMembership(IsLevel, rs, r); }
    Sheets(Map(ToDataset, Filter(IsDataset, rs)), Filter(IsLevel, rs), Map(ToNote, Filter(IsNote, rs)))
  }

  /** `process_wide`: one pass over the long form, appending each record to its sheet. */
  method ProcessWide(rs: seq<Record>) returns (w: Sheets)
    ensures w == Split(rs)
  {
    var dataset, level, notes := [], [], [];
    for i := 0 to |rs|
      invariant dataset == Map(ToDataset, Filter(IsDataset, rs[..i]))
      invariant level == Filter(IsLevel, rs[..i])
      invariant notes == Map(ToNote, Filter(IsNote, rs[..i]))
    {
      var r := rs[i];
      assert rs[..i + 1][..i] == rs[..i];
      if r.key == NotesKey {
        MapSnoc(ToNote, Filter(IsNote, rs[..i]), r);
        notes := notes + [NoteRow(r.iso3, r.lvl, r.value)];
      } else if r.lvl != DatasetLevel {
        level := level + [r];
      } else {
        MapSnoc(ToDataset, Filter(IsDataset, rs[..i]), r);
        dataset := dataset + [DatasetRow(r.iso3, r.key, r.value)];
      }
    }
    assert rs[..|rs|] == rs;
    w := Sheets(dataset, level, notes);
  }

  /** Every record lands in exactly one sheet. */
  lemma KindsPartition()
    ensures forall r :: ExactlyOne(IsDataset(r), IsLevel(r), IsNote(r))
  {
  }

  /** Nothing is lost or duplicated: the sheets, read back as records, are the long form. */
  lemma SplitLossless(rs: seq<Record>)
    ensures var w := Split(rs);
      && |w.dataset| + |w.level| + |w.notes| == |rs|
      && (forall d :: d in w.dataset ==> d.key != NotesKey)
      && multiset(Map(FromDataset, w.dataset)) + multiset(w.level) + multiset(Map(FromNote, w.notes))
         == multiset(rs)
  {
    var w := Split(rs);
    KindsPartition();
    FilterPartition(IsDataset, IsLevel, IsNote, rs);
    var ds, ns := Filter(IsDataset, rs), Filter(IsNote, rs);
    assert forall i :: 0 <= i < |ds| ==> ds[i] in ds;
    assert forall i :: 0 <= i < |ns| ==> ns[i] in ns;
    MapInverse(ToDataset, FromDataset, ds);
    MapInverse(ToNote, FromNote, ns);
    forall d | d in w.dataset
      ensures d.key != NotesKey
    {
      var i :| 0 <= i < |ds| && w.dataset[i] == d;
      assert ds[i] in ds;
    }
  }

  /** A sorted long form gives a sorted level sheet. */
  lemma LevelSheetSorted(rs: seq<Record>)
    requires Sorted(rs)
    ensures Sorted(Split(rs).level)
  {
    FilterSorted(IsLevel, rs);
  }
}

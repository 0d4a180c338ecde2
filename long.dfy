/**
 * `process_long`: raw spreadsheet rows become canonical long-form records. A row with a
 * missing cell or an ignored key is skipped, an unreadable level or date aborts the whole
 * run, and the records that remain are returned stably sorted by `(iso3, lvl, key)`.
 *
 * `Emitted` is the unsorted list the loop builds, defined row by row; the method
 * `ProcessLong` is proved against it and the lemmas below say what it contains.
 */
module Long {
  import opened Wrappers
  import opened Seqs
  import opened Loops
  import opened Config
  import opened Keys
  import opened Sanitizer
  import opened Values
  import opened Records
  import opened Sorting

  /** The administrative level cell: `int(cell)` either gives a number or raises. */
  datatype LevelCell = Level(n: int) | Unparsable

  /** One row of the sheet; `None` is a missing (NaN) cell. */
  datatype RawRow = RawRow(
    iso3: Option<string>,
    lvl: Option<LevelCell>,
    key: Option<string>,
    value: Option<string>)

  predicate Complete(row: RawRow)
  {
    row.iso3.Some? && row.lvl.Some? && row.key.Some? && row.value.Some?
  }

  /** The row survives the two `continue`s: every cell present and its key not ignored. */
  predicate Kept(row: RawRow)
  {
    Complete(row) && row.lvl.value.Level? && ProcessKey(row.key.value) !in IgnoredColumns
  }

  /** What one loop iteration does with a row: skip it (`Ok(None)`), emit a record, or raise. */
  function ProcessRow(row: RawRow): (r: Result<Option<Record>, PipelineError>)
    ensures r.Ok? && r.value.Some? ==>
      var rec := r.value.value;
      && Complete(row)
      && rec.iso3 == row.iso3.value && row.lvl.value == Level(rec.lvl)
      && rec.key !in IgnoredColumns && rec.key !in RenameColumns && KeyShaped(rec.key)
  {
    if !Complete(row) then Ok(None)
    else match row.lvl.value
      case Unparsable => Err(MalformedLevel)
      case Level(n) =>
        var key := ProcessKey(row.key.value);
        if key in IgnoredColumns then Ok(None)
        else match ProcessValue(key, row.value.value)
          case Err(e) => Err(e)
          case Ok(v) => Ok(Some(Record(row.iso3.value, n, key, v)))
  }

  /** The records the loop has appended after `rows`, or the first error it raised. */
  function Emitted(rows: seq<RawRow>): (r: Result<seq<Record>, PipelineError>)
    ensures r.Ok? <==> forall i :: 0 <= i < |rows| ==> ProcessRow(rows[i]).Ok?
    ensures r.Ok? ==> |r.value| <= |rows|
  {
    CollectOk(ProcessRow, rows);
    Collect(ProcessRow, rows)
  }

  /** `process_long`: the loop over the rows, then the stable sort. */
  method ProcessLong(rows: seq<RawRow>) returns (r: Result<seq<Record>, PipelineError>)
    ensures r.Err? ==> r == Emitted(rows)
    ensures r.Ok? ==> Emitted(rows).Ok? && IsStableSortOf(r.value, Emitted(rows).value)
  {
    var acc := [];
    for i := 0 to |rows|
      invariant Collect(ProcessRow, rows[..i]) == Ok(acc)
    {
      var row := rows[i];
      assert rows[..i + 1][..i] == rows[..i];
      if row.iso3.None? || row.lvl.None? || row.key.None? || row.value.None? {
        continue;
      }
      if row.lvl.value.Unparsable? {
        ErrSticks(ProcessRow, rows, i + 1);
        return Err(MalformedLevel);
      }
      var n := row.lvl.value.n;
      var key := ProcessKey(row.key.value);
      if key in IgnoredColumns {
        continue;
      }
      var text := ProcessString(row.value.value);
      var v := TypeValue(key, text);
      if v.Err? {
        ErrSticks(ProcessRow, rows, i + 1);
        return Err(v.error);
      }
      acc := acc + [Record(row.iso3.value, n, key, v.value)];
    }
    assert rows[..|rows|] == rows;
    var sorted := SortRecords(acc);
    return Ok(sorted);
  }

  /**
   * A successful run emits one record per kept row, in row order: the row's own `iso3`
   * (case kept), its level, its processed key and its processed value.
   */
  lemma EmittedExactly(rows: seq<RawRow>, out: seq<Record>)
    requires Emitted(rows) == Ok(out)
    ensures var ks := Filter(Kept, rows);
      && |out| == |ks|
      && forall i :: 0 <= i < |ks| ==>
        && Kept(ks[i])
        && out[i].iso3 == ks[i].iso3.value
        && Level(out[i].lvl) == ks[i].lvl.value
        && out[i].key == ProcessKey(ks[i].key.value)
        && ProcessValue(out[i].key, ks[i].value.value) == Ok(out[i].value)
  {
    CollectOk(ProcessRow, rows);
    forall i | 0 <= i < |rows|
      ensures Kept(rows[i]) == (ProcessRow(rows[i]).Ok? && ProcessRow(rows[i]).value.Some?)
    {
      assert ProcessRow(rows[i]).Ok?;
    }
    Outputs(ProcessRow, Kept, rows, out);
    var ks := Filter(Kept, rows);
    assert forall i :: 0 <= i < |ks| ==> ks[i] in ks;
  }

  /** The sorted result holds exactly the records some row produces. */
  lemma SortedMembership(rows: seq<RawRow>, sorted: seq<Record>, rec: Record)
    requires Emitted(rows).Ok? && IsStableSortOf(sorted, Emitted(rows).value)
    ensures rec in sorted <==> exists i :: 0 <= i < |rows| && ProcessRow(rows[i]) == Ok(Some(rec))
  {
    var out := Emitted(rows).value;
    assert rec in sorted <==> rec in multiset(out);
    if rec in out {
      OutputSound(ProcessRow, rows, out, rec);
    }
    if exists i :: 0 <= i < |rows| && ProcessRow(rows[i]) == Ok(Some(rec)) {
      var i :| 0 <= i < |rows| && ProcessRow(rows[i]) == Ok(Some(rec));
      OutputComplete(ProcessRow, rows, out, i, rec);
    }
  }

  /** Every record in the long form carries a canonical key that is not on the ignore list. */
  lemma EmittedKeysCanonical(rows: seq<RawRow>, out: seq<Record>)
    requires Emitted(rows) == Ok(out)
    ensures forall rec :: rec in out ==>
      rec.key !in IgnoredColumns && rec.key !in RenameColumns && KeyShaped(rec.key)
  {
    forall rec | rec in out
      ensures rec.key !in IgnoredColumns && rec.key !in RenameColumns && KeyShaped(rec.key)
    {
      OutputSound(ProcessRow, rows, out, rec);
      var i :| 0 <= i < |rows| && ProcessRow(rows[i]) == Ok(Some(rec));
    }
  }

  /** A row is dropped exactly when a cell is missing or its key is ignored. */
  lemma RowSkipped(row: RawRow)
    ensures ProcessRow(row) == Ok(None) <==>
      !Complete(row) || (row.lvl.value.Level? && ProcessKey(row.key.value) in IgnoredColumns)
  {
  }

  /** An unreadable level raises, and is checked before the key. */
  lemma RowBadLevel(row: RawRow)
    ensures ProcessRow(row) == Err(MalformedLevel) <==> Complete(row) && row.lvl.value.Unparsable?
  {
  }
}

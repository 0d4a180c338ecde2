/**
 * `process_value`: the sanitised text of a cell becomes a boolean, an integer, an ISO date,
 * `None` or stays a string. The rules are tried in a fixed order; the first that applies wins,
 * and the two rules that look only at the text come before every rule that looks at the key.
 */
module Values {
  import opened Wrappers
  import opened Text
  import opened Config
  import opened Sanitizer
  import opened Dates
  import opened Records
  import Seqs

  /** The rule chain of `process_value`, applied to an already sanitised string `v`. */
  function TypeValue(key: string, v: string): (r: Result<Value, PipelineError>)
    ensures r.Err? ==> StartsWith(key, "date_") && r == Err(MalformedDate(v))
    ensures r.Ok? && r.value.VInt? ==> key in IntegerColumns && r.value.n >= 0
    ensures r.Ok? && r.value.VStr? ==> r.value.s == v || (StartsWith(key, "date_") && IsFirstOfMonth(r.value.s))
  {
    var low := Lower(v);
    if low == "true" || low == "false" then Ok(VBool(low == "true"))
    else if Contains(low, "currently not known") then Ok(VNull)
    else if key in IntegerColumns then
      var ds := Digits(v);
      Ok(if ds == "" then VNull else VInt(DecimalValue(ds)))
    else if StartsWith(key, "date_") then
      if Contains(low, "unknown") then Ok(VNull)
      else match ParseUtcDate(v)
        case None => Err(MalformedDate(v))
        case Some((month, year)) =>
          IsoDateFields(year, month);
          Ok(VStr(IsoDate(year, month)))
    else if key == RequiresImprovementKey then Ok(VBool(Contains(low, "improvement")))
    else if key == QualityCheckedKey then Ok(VBool(Contains(low, "enhanced")))
    else if key == OperationalCountryKey then Ok(VBool(Contains(low, "operational")))
    else if key in AvailableKeys then Ok(VBool(v != ""))
    else Ok(VStr(v))
  }

  /** `process_value(key, value)` for a string cell. */
  function ProcessValue(key: string, value: string): (r: Result<Value, PipelineError>)
    ensures r.Err? ==> StartsWith(key, "date_")
  {
    TypeValue(key, Sanitize(value))
  }

  /** Neither text-only rule applies to the sanitised value. */
  predicate PlainText(value: string)
  {
    PlainTyped(Sanitize(value))
  }

  /** The same for text that is already sanitised. */
  predicate PlainTyped(v: string)
  {
    var low := Lower(v);
    low != "true" && low != "false" && !Contains(low, "currently not known")
  }

  // The text-only rules, for every key.

  /** "true" and "false", in any letter case, are booleans whatever the key. */
  lemma BooleanText(key: string, value: string)
    requires Lower(Sanitize(value)) in ["true", "false"]
    ensures ProcessValue(key, value) == Ok(VBool(Lower(Sanitize(value)) == "true"))
  {
  }

  /** Otherwise "currently not known", anywhere and in any case, is `None` whatever the key. */
  lemma NotKnownText(key: string, value: string)
    requires Lower(Sanitize(value)) !in ["true", "false"]
    requires Contains(Lower(Sanitize(value)), "currently not known")
    ensures ProcessValue(key, value) == Ok(VNull)
  {
  }

  // The key-specific rules, reached only by plain text.

  /** An integer column keeps the digits in order and reads them as one number; no digit gives `None`. */
  lemma IntegerColumn(key: string, value: string)
    requires key in IntegerColumns && PlainText(value)
    ensures var ds := Digits(Sanitize(value));
      ProcessValue(key, value) == Ok(if ds == [] then VNull else VInt(DecimalValue(ds)))
  {
    IntegerTyped(key, Sanitize(value));
  }

  lemma IntegerTyped(key: string, v: string)
    requires key in IntegerColumns && PlainTyped(v)
    ensures var ds := Digits(v);
      TypeValue(key, v) == Ok(if ds == [] then VNull else VInt(DecimalValue(ds)))
  {
  }

  /** A `date_` key: "unknown" gives `None`; a month and year give their first day; anything else fails. */
  lemma DateColumn(key: string, value: string)
    requires StartsWith(key, "date_") && PlainText(value)
    ensures var v := Sanitize(value);
      && (Contains(Lower(v), "unknown") ==> ProcessValue(key, value) == Ok(VNull))
      && (!Contains(Lower(v), "unknown") && ParseUtcDate(v).None? ==>
            ProcessValue(key, value) == Err(MalformedDate(v)))
      && (!Contains(Lower(v), "unknown") && ParseUtcDate(v).Some? ==>
            var (month, year) := ParseUtcDate(v).value;
            ProcessValue(key, value) == Ok(VStr(IsoDate(year, month))))
  {
    DateTyped(key, Sanitize(value));
  }

  lemma DateTyped(key: string, v: string)
    requires StartsWith(key, "date_") && PlainTyped(v)
    ensures && (Contains(Lower(v), "unknown") ==> TypeValue(key, v) == Ok(VNull))
      && (!Contains(Lower(v), "unknown") && ParseUtcDate(v).None? ==> TypeValue(key, v) == Err(MalformedDate(v)))
      && (!Contains(Lower(v), "unknown") && ParseUtcDate(v).Some? ==>
            var (month, year) := ParseUtcDate(v).value;
            TypeValue(key, v) == Ok(VStr(IsoDate(year, month))))
  {
    KeyTablesDisjoint();
    assert key !in IntegerColumns;
  }

  /** The three flag keys are true exactly when their keyword occurs, in any case. */
  lemma FlagColumns(key: string, value: string)
    requires PlainText(value)
    ensures var low := Lower(Sanitize(value));
      && (key == RequiresImprovementKey ==> ProcessValue(key, value) == Ok(VBool(Contains(low, "improvement"))))
      && (key == QualityCheckedKey ==> ProcessValue(key, value) == Ok(VBool(Contains(low, "enhanced"))))
      && (key == OperationalCountryKey ==> ProcessValue(key, value) == Ok(VBool(Contains(low, "operational"))))
  {
    FlagTyped(key, Sanitize(value));
  }

  lemma FlagTyped(key: string, v: string)
    requires PlainTyped(v)
    ensures var low := Lower(v);
      && (key == RequiresImprovementKey ==> TypeValue(key, v) == Ok(VBool(Contains(low, "improvement"))))
      && (key == QualityCheckedKey ==> TypeValue(key, v) == Ok(VBool(Contains(low, "enhanced"))))
      && (key == OperationalCountryKey ==> TypeValue(key, v) == Ok(VBool(Contains(low, "operational"))))
  {
    SpecialKeysAreTargets();
  }

  /** The two availability keys are false only for the empty string. */
  lemma AvailableColumns(key: string, value: string)
    requires key in AvailableKeys && PlainText(value)
    ensures ProcessValue(key, value) == Ok(VBool(Sanitize(value) != ""))
  {
    AvailableTyped(key, Sanitize(value));
  }

  lemma AvailableTyped(key: string, v: string)
    requires key in AvailableKeys && PlainTyped(v)
    ensures TypeValue(key, v) == Ok(VBool(v != ""))
  {
    SpecialKeysAreTargets();
    AvailableKeysHaveNoFlag();
  }

  lemma AvailableKeysHaveNoFlag()
    ensures forall k :: k in AvailableKeys ==>
      k != RequiresImprovementKey && k != QualityCheckedKey && k != OperationalCountryKey
  {
  }

  /** Every other key keeps the sanitised string. */
  lemma OtherColumns(key: string, value: string)
    requires PlainText(value)
    requires key !in IntegerColumns && !StartsWith(key, "date_")
    requires key != RequiresImprovementKey && key != QualityCheckedKey && key != OperationalCountryKey
    requires key !in AvailableKeys
    ensures ProcessValue(key, value) == Ok(VStr(Sanitize(value)))
  {
  }

  /** Typing an already sanitised cell gives the same result: sanitising is idempotent. */
  lemma ProcessValueSanitised(key: string, value: string)
    ensures ProcessValue(key, Sanitize(value)) == ProcessValue(key, value)
  {
    SanitizeIdempotent(value);
  }

  // Worked cases.

  lemma NotContainsMissingChar(s: string, w: string, j: nat)
    requires j < |w| && w[j] !in s
    ensures !Contains(s, w)
  {
  }

  /** "January 2020" under a date key is 2020-01-01. */
  lemma DateExample()
    ensures ProcessValue("date_established", "January 2020") == Ok(VStr("2020-01-01"))
  {
    CleanIsFixed("January 2020");
    DateExampleTyped();
  }

  lemma DateExampleTyped()
    ensures TypeValue("date_established", "January 2020") == Ok(VStr("2020-01-01"))
  {
    var v := "January 2020";
    LowerJanuaryExample();
    NotContainsMissingChar("january 2020", "unknown", 2);
    NotContainsMissingChar("january 2020", "currently not known", 0);
    ParseExample();
    DateKeyExample();
    DateTyped("date_established", v);
  }

  lemma LowerJanuaryExample()
    ensures Lower("January 2020") == "january 2020"
  {
    var s := "January 2020";
    assert forall i :: 0 <= i < |s| ==> Lower(s)[i] == "january 2020"[i];
  }

  lemma DateKeyExample()
    ensures StartsWith("date_established", "date_")
  {
    assert "date_established"[..5] == "date_";
  }

  /** "January 0001" parses as a month and year, but its conversion to UTC raises. */
  lemma YearOneDateExample()
    ensures ProcessValue("date_established", "January 0001") == Err(MalformedDate("January 0001"))
  {
    CleanIsFixed("January 0001");
    YearOneDateExampleTyped();
  }

  lemma YearOneDateExampleTyped()
    ensures TypeValue("date_established", "January 0001") == Err(MalformedDate("January 0001"))
  {
    var v := "January 0001";
    assert Lower(v) == "january 0001" by {
      assert forall i :: 0 <= i < |v| ==> Lower(v)[i] == "january 0001"[i];
    }
    NotContainsMissingChar("january 0001", "unknown", 2);
    NotContainsMissingChar("january 0001", "currently not known", 0);
    YearOneRejected();
    DateKeyExample();
    DateTyped("date_established", v);
  }

  /** "Unknown" under a date key is `None`. */
  lemma UnknownDateExample()
    ensures ProcessValue("date_established", "Unknown") == Ok(VNull)
  {
    CleanIsFixed("Unknown");
    UnknownDateExampleTyped();
  }

  lemma UnknownDateExampleTyped()
    ensures TypeValue("date_established", "Unknown") == Ok(VNull)
  {
    assert Lower("Unknown") == "unknown";
    assert OccursAt("unknown", "unknown", 0);
    NotContainsMissingChar("unknown", "currently not known", 0);
    DateKeyExample();
    DateTyped("date_established", "Unknown");
  }

  /** Text that is no month and year under a date key aborts the pipeline. */
  lemma BadDateExample()
    ensures ProcessValue("date_established", "garbage") == Err(MalformedDate("garbage"))
  {
    CleanIsFixed("garbage");
    BadDateExampleTyped();
  }

  lemma BadDateExampleTyped()
    ensures TypeValue("date_established", "garbage") == Err(MalformedDate("garbage"))
  {
    assert Lower("garbage") == "garbage";
    NotContainsMissingChar("garbage", "unknown", 0);
    NotContainsMissingChar("garbage", "currently not known", 0);
    ParseRejects();
    DateKeyExample();
    DateTyped("date_established", "garbage");
  }

  /** "Level 3 boundary" in an integer column is 3. */
  lemma IntegerExample()
    ensures ProcessValue("level_deepest", "Level 3 boundary") == Ok(VInt(3))
  {
    CleanIsFixed("Level 3 boundary");
    IntegerExampleTyped();
  }

  lemma IntegerExampleTyped()
    ensures TypeValue("level_deepest", "Level 3 boundary") == Ok(VInt(3))
  {
    var v := "Level 3 boundary";
    LowerLevelExample();
    NotContainsMissingChar("level 3 boundary", "currently not known", 0);
    assert "level_deepest" in IntegerColumns;
    IntegerTyped("level_deepest", v);
    DigitsExample();
    assert DecimalValue("3") == 3;
  }

  lemma LowerLevelExample()
    ensures Lower("Level 3 boundary") == "level 3 boundary"
  {
    var s := "Level 3 boundary";
    assert forall i :: 0 <= i < |s| ==> Lower(s)[i] == "level 3 boundary"[i];
  }

  lemma DigitsExample()
    ensures Digits("Level 3 boundary") == "3"
  {
    assert "Level " + "3" + " boundary" == "Level 3 boundary";
    NoDigitsAround();
    Seqs.FilterAppend(IsDigit, "Level " + "3", " boundary");
    Seqs.FilterAppend(IsDigit, "Level ", "3");
    assert Seqs.Filter(IsDigit, "3") == "3";
  }

  /** Neither side of the digit holds a digit. */
  lemma NoDigitsAround()
    ensures Seqs.Filter(IsDigit, "Level ") == [] && Seqs.Filter(IsDigit, " boundary") == []
  {
    Seqs.FilterNone(IsDigit, "Level ");
    Seqs.FilterNone(IsDigit, " boundary");
  }

  /** The text check comes first, so "false" is false even under an availability key ... */
  lemma AvailableFalseExample()
    ensures ProcessValue("cod_em_available", "false") == Ok(VBool(false))
  {
    CleanIsFixed("false");
    AvailableFalseExampleTyped();
  }

  lemma AvailableFalseExampleTyped()
    ensures TypeValue("cod_em_available", "false") == Ok(VBool(false))
  {
    assert Lower("false") == "false";
  }

  /** ... while any other non-empty text there is true. */
  lemma AvailableTextExample()
    ensures ProcessValue("cod_em_available", "No") == Ok(VBool(true))
  {
    CleanIsFixed("No");
    AvailableTextExampleTyped();
  }

  lemma AvailableTextExampleTyped()
    ensures TypeValue("cod_em_available", "No") == Ok(VBool(true))
  {
    assert Lower("No") == "no";
    SpecialKeysAreTargets();
  }
}

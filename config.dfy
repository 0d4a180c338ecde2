/**
 * The lookup tables (app/config.py) that drive key renaming, row dropping, integer coercion
 * and character repair, and the facts about them that the rest of the pipeline relies on.
 */
module Config {
  import opened Text

  /** Normalised keys whose rows are dropped from the long form. */
  const IgnoredColumns: seq<string> :=
    ["header", "live_featureserver", "live_mapserver", "live_lines_featureserver", "live_lines_mapserver"]

  /** Legacy normalised key -> canonical key. */
  const RenameColumns: map<string, string> := map[
    "boundaries_established" := "date_established",
    "cod_ab_quality_level" := "cod_ab_quality_checked",
    "cod_ab_review_conclusion" := "cod_ab_requires_improvement",
    "cod_ab_review_date" := "date_reviewed",
    "cod_em" := "cod_em_available",
    "cod_ps_compatibility" := "cod_ps_match",
    "cod_ps" := "cod_ps_available",
    "deepest_complete" := "level_complete",
    "deepest_level" := "level_deepest",
    "ideal_depth" := "level_ideal",
    "note" := "notes",
    "ocha_country_status" := "ocha_operational_country"
  ]

  const IntegerColumns: seq<string> := ["level_ideal", "level_complete", "feature_count", "level_deepest"]

  /** The character tables as the configuration spells them: `U+` and four hex digits. */
  const InvisibleCodes: seq<string> :=
    ["U+0009", "U+000A", "U+000D", "U+00A0", "U+200C", "U+200E", "U+200F", "U+FEFF"]
  const ApostropheCodes: seq<string> := ["U+0060", "U+2019", "U+2032"]
  const QuoteCodes: seq<string> := ["U+201C", "U+201D"]

  /** The same tables decoded (`chr(int(code[2:], 16))`); see `CharTablesDecode`. */
  const InvisibleChars: seq<char> :=
    ['\t', '\n', '\r', '\U{A0}', '\U{200C}', '\U{200E}', '\U{200F}', '\U{FEFF}']
  const ApostropheChars: seq<char> := ['\U{60}', '\U{2019}', '\U{2032}']
  const QuoteChars: seq<char> := ['\U{201C}', '\U{201D}']

  /** The keys `process_value` gives a boolean rule of their own. */
  const RequiresImprovementKey := "cod_ab_requires_improvement"
  const QualityCheckedKey := "cod_ab_quality_checked"
  const OperationalCountryKey := "ocha_operational_country"
  const AvailableKeys: seq<string> := ["cod_em_available", "cod_ps_available"]

  function HexDigit(c: char): nat
  {
    if '0' <= c <= '9' then (c as int - '0' as int) as nat
    else if 'A' <= c <= 'F' then (c as int - 'A' as int + 10) as nat
    else if 'a' <= c <= 'f' then (c as int - 'a' as int + 10) as nat
    else 0
  }

  /** `int(code[2:], 16)` for a code of the form `U+hhhh`, the only form the tables use. */
  function CodePoint(code: string): nat
    requires |code| == 6
  {
    4096 * HexDigit(code[2]) + 256 * HexDigit(code[3]) + 16 * HexDigit(code[4]) + HexDigit(code[5])
  }

  /** A string `process_key` can produce: no capital letter, no space, no hyphen. */
  predicate KeyShaped(s: string)
  {
    IsLower(s) && ' ' !in s && '-' !in s
  }

  /** Lower-case letters, digits and underscores only: the alphabet of every table entry. */
  predicate SnakeCase(s: string)
  {
    forall c :: c in s ==> 'a' <= c <= 'z' || '0' <= c <= '9' || c == '_'
  }

  lemma SnakeCaseIsKeyShaped(s: string)
    requires SnakeCase(s)
    ensures KeyShaped(s)
  {
    assert forall i :: 0 <= i < |s| ==> s[i] in s;
  }

  lemma DifferentFirstChar(s: string, p: string)
    requires |s| > 0 && |p| > 0 && s[0] != p[0]
    ensures !StartsWith(s, p)
  {
  }

  lemma CharTablesDecode()
    ensures |InvisibleCodes| == |InvisibleChars| && |ApostropheCodes| == |ApostropheChars|
    ensures |QuoteCodes| == |QuoteChars|
    ensures forall i :: 0 <= i < |InvisibleCodes| ==>
              |InvisibleCodes[i]| == 6 && CodePoint(InvisibleCodes[i]) == InvisibleChars[i] as int
    ensures forall i :: 0 <= i < |ApostropheCodes| ==>
              |ApostropheCodes[i]| == 6 && CodePoint(ApostropheCodes[i]) == ApostropheChars[i] as int
    ensures forall i :: 0 <= i < |QuoteCodes| ==>
              |QuoteCodes[i]| == 6 && CodePoint(QuoteCodes[i]) == QuoteChars[i] as int
  {
  }

  /** No rename target is itself renamed, so renaming twice is renaming once. */
  lemma RenameTargetsAreFixed()
    ensures forall k :: k in RenameColumns ==> RenameColumns[k] !in RenameColumns
  {
  }

  /** Both sides of every rename entry are snake_case. */
  lemma RenameEntriesSnakeCase()
    ensures forall k :: k in RenameColumns ==> SnakeCase(k) && SnakeCase(RenameColumns[k])
  {
    BoundariesEstablishedSnakeCase();
    CodAbQualityLevelSnakeCase();
    CodAbReviewConclusionSnakeCase();
    CodAbReviewDateSnakeCase();
    CodEmSnakeCase();
    CodPsCompatibilitySnakeCase();
    CodPsSnakeCase();
    DeepestCompleteSnakeCase();
    DeepestLevelSnakeCase();
    IdealDepthSnakeCase();
    NoteSnakeCase();
    OchaCountryStatusSnakeCase();
  }

  // One lemma per rename entry keeps each literal check small.

  lemma BoundariesEstablishedSnakeCase()
    ensures SnakeCase("boundaries_established") && SnakeCase("date_established")
  {
  }

  lemma CodAbQualityLevelSnakeCase()
    ensures SnakeCase("cod_ab_quality_level") && SnakeCase("cod_ab_quality_checked")
  {
  }

  lemma CodAbReviewConclusionSnakeCase()
    ensures SnakeCase("cod_ab_review_conclusion") && SnakeCase("cod_ab_requires_improvement")
  {
  }

  lemma CodAbReviewDateSnakeCase()
    ensures SnakeCase("cod_ab_review_date") && SnakeCase("date_reviewed")
  {
  }

  lemma CodEmSnakeCase()
    ensures SnakeCase("cod_em") && SnakeCase("cod_em_available")
  {
  }

  lemma CodPsCompatibilitySnakeCase()
    ensures SnakeCase("cod_ps_compatibility") && SnakeCase("cod_ps_match")
  {
  }

  lemma CodPsSnakeCase()
    ensures SnakeCase("cod_ps") && SnakeCase("cod_ps_available")
  {
  }

  lemma DeepestCompleteSnakeCase()
    ensures SnakeCase("deepest_complete") && SnakeCase("level_complete")
  {
  }

  lemma DeepestLevelSnakeCase()
    ensures SnakeCase("deepest_level") && SnakeCase("level_deepest")
  {
  }

  lemma IdealDepthSnakeCase()
    ensures SnakeCase("ideal_depth") && SnakeCase("level_ideal")
  {
  }

  lemma NoteSnakeCase()
    ensures SnakeCase("note") && SnakeCase("notes")
  {
  }

  lemma OchaCountryStatusSnakeCase()
    ensures SnakeCase("ocha_country_status") && SnakeCase("ocha_operational_country")
  {
  }

  lemma ListTablesSnakeCase()
    ensures forall k :: k in IgnoredColumns + IntegerColumns ==> SnakeCase(k)
  {
  }

  /** Every table entry is already in the form `process_key` produces. */
  lemma TablesKeyShaped()
    ensures forall k :: k in RenameColumns ==> KeyShaped(k) && KeyShaped(RenameColumns[k])
    ensures forall k :: k in IgnoredColumns ==> KeyShaped(k)
    ensures forall k :: k in IntegerColumns ==> KeyShaped(k)
  {
    RenameEntriesSnakeCase();
    ListTablesSnakeCase();
    forall k | k in RenameColumns ensures KeyShaped(k) && KeyShaped(RenameColumns[k]) {
      SnakeCaseIsKeyShaped(k);
      SnakeCaseIsKeyShaped(RenameColumns[k]);
    }
    forall k | k in IgnoredColumns + IntegerColumns ensures KeyShaped(k) {
      SnakeCaseIsKeyShaped(k);
    }
  }

  /** What is ignored is never produced by renaming nor typed as an integer; no integer column is a date. */
  lemma KeyTablesDisjoint()
    ensures forall k :: k in RenameColumns ==> RenameColumns[k] !in IgnoredColumns
    ensures forall k :: k in IgnoredColumns ==> k !in IntegerColumns
    ensures forall k :: k in IntegerColumns ==> !StartsWith(k, "date_")
  {
    forall k | k in IntegerColumns ensures !StartsWith(k, "date_") {
      DifferentFirstChar(k, "date_");
    }
  }

  /**
   * The three character tables share no character and none holds the characters the repair
   * passes write or collapse (space, `'`, `"`), so a later pass never undoes an earlier one.
   */
  lemma CharTablesDisjoint()
    ensures forall c :: c in ApostropheChars ==> c !in QuoteChars && c !in InvisibleChars
    ensures forall c :: c in QuoteChars ==> c !in InvisibleChars
    ensures forall c :: c in ApostropheChars + QuoteChars + InvisibleChars ==> c != ' ' && c != '\'' && c != '"'
  {
  }

  /** The keys with rules of their own in `process_value` are canonical names, and reach no earlier rule. */
  lemma SpecialKeysAreTargets()
    ensures RequiresImprovementKey in RenameColumns.Values
    ensures QualityCheckedKey in RenameColumns.Values
    ensures OperationalCountryKey in RenameColumns.Values
    ensures forall k :: k in AvailableKeys ==> k in RenameColumns.Values
    ensures forall k :: k in [RequiresImprovementKey, QualityCheckedKey, OperationalCountryKey] + AvailableKeys ==>
              k !in IntegerColumns && !StartsWith(k, "date_")
  {
    assert RenameColumns["cod_ab_review_conclusion"] == RequiresImprovementKey;
    assert RenameColumns["cod_ab_quality_level"] == QualityCheckedKey;
    assert RenameColumns["ocha_country_status"] == OperationalCountryKey;
    assert RenameColumns["cod_em"] == AvailableKeys[0];
    assert RenameColumns["cod_ps"] == AvailableKeys[1];
    forall k | k in [RequiresImprovementKey, QualityCheckedKey, OperationalCountryKey] + AvailableKeys
      ensures !StartsWith(k, "date_")
    {
      DifferentFirstChar(k, "date_");
    }
  }
}

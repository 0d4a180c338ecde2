/**
 * `process_string`: three character-repair passes over the configured tables (apostrophe-like
 * characters become `'`, curly double quotes become `"`, invisible characters are deleted),
 * then every run of spaces becomes one space and surrounding whitespace is stripped.
 *
 * The method `ProcessString` performs the passes one table entry at a time, as the source
 * does; `Sanitize` is its specification, written as a single per-character translation.
 */
module Sanitizer {
  import opened Text
  import opened Config
  import opened Seqs

  function SetOf(s: seq<char>): set<char>
  {
    set c | c in s
  }

  const ApostropheSet: set<char> := SetOf(ApostropheChars)
  const QuoteSet: set<char> := SetOf(QuoteChars)
  const InvisibleSet: set<char> := SetOf(InvisibleChars)

  /**
   * What one input character has become once the characters in `apos`, `quotes` and `invis`
   * have been processed: the first table that holds it decides.
   */
  function Repair(c: char, apos: set<char>, quotes: set<char>, invis: set<char>): (r: string)
    ensures |r| <= 1
  {
    if c in apos then "'" else if c in quotes then "\"" else if c in invis then "" else [c]
  }

  function RepairAll(s: string, apos: set<char>, quotes: set<char>, invis: set<char>): (r: string)
    ensures |r| <= |s|
    decreases |s|
  {
    if s == [] then [] else Repair(s[0], apos, quotes, invis) + RepairAll(s[1..], apos, quotes, invis)
  }

  /** The three table passes together. */
  function Translate(s: string): string
  {
    RepairAll(s, ApostropheSet, QuoteSet, InvisibleSet)
  }

  /** `re.sub(" +", " ", s)`: each run of spaces becomes a single space. */
  function Collapse(s: string): (r: string)
    ensures |r| <= |s|
    ensures s != [] ==> r != [] && r[0] == s[0]
    decreases |s|
  {
    if |s| < 2 then s
    else if s[0] == ' ' && s[1] == ' ' then Collapse(s[1..])
    else [s[0]] + Collapse(s[1..])
  }

  function StripStart(s: string): (r: string)
    ensures |r| <= |s| && r == s[|s| - |r|..]
    ensures AllSpace(s[..|s| - |r|])
    ensures r != [] ==> !IsSpace(r[0])
    decreases |s|
  {
    if s != [] && IsSpace(s[0]) then
      var r := StripStart(s[1..]);
      assert s[..|s| - |r|] == [s[0]] + s[1..][..|s| - 1 - |r|];
      r
    else s
  }

  function StripEnd(s: string): (r: string)
    ensures |r| <= |s| && r == s[..|r|]
    ensures AllSpace(s[|r|..])
    ensures r != [] ==> !IsSpace(r[|r| - 1])
    decreases |s|
  {
    if s != [] && IsSpace(s[|s| - 1]) then
      var r := StripEnd(s[..|s| - 1]);
      assert s[|r|..] == s[..|s| - 1][|r|..] + [s[|s| - 1]];
      r
    else s
  }

  /** `s.strip()`: only whitespace is removed, and only from the two ends. */
  function Strip(s: string): (r: string)
    ensures |r| <= |s|
    ensures Contains(s, r)
    ensures r != [] ==> !IsSpace(r[0]) && !IsSpace(r[|r| - 1])
    ensures exists i, j :: 0 <= i <= j <= |s| && r == s[i..j] && AllSpace(s[..i]) && AllSpace(s[j..])
  {
    var t := StripStart(s);
    var r := StripEnd(t);
    StripSlice(s, t, r);
    r
  }

  /** What is left between the leading and the trailing whitespace is a slice of `s`. */
  lemma StripSlice(s: string, t: string, r: string)
    requires |t| <= |s| && t == s[|s| - |t|..] && AllSpace(s[..|s| - |t|])
    requires |r| <= |t| && r == t[..|r|] && AllSpace(t[|r|..])
    requires t != [] ==> !IsSpace(t[0])
    requires r != [] ==> !IsSpace(r[|r| - 1])
    ensures Contains(s, r)
    ensures r != [] ==> !IsSpace(r[0]) && !IsSpace(r[|r| - 1])
    ensures exists i, j :: 0 <= i <= j <= |s| && r == s[i..j] && AllSpace(s[..i]) && AllSpace(s[j..])
  {
    var i := |s| - |t|;
    assert r == s[i..i + |r|] && s[i + |r|..] == t[|r|..];
    assert OccursAt(s, r, i);
    assert r != [] ==> r[0] == t[0];
  }

  /** The specification of `process_string`. */
  function Sanitize(s: string): string
  {
    Strip(Collapse(Translate(s)))
  }

  predicate NoDoubleSpace(s: string)
  {
    forall i :: 0 <= i < |s| - 1 ==> !(s[i] == ' ' && s[i + 1] == ' ')
  }

  /** What `process_string` guarantees of its output, and what makes it leave a string alone. */
  ghost predicate Clean(s: string)
  {
    && (forall c :: c in s ==> c !in ApostropheSet && c !in QuoteSet && c !in InvisibleSet)
    && NoDoubleSpace(s)
    && (s != [] ==> !IsSpace(s[0]) && !IsSpace(s[|s| - 1]))
  }

  /** `process_string`, pass by pass. */
  method ProcessString(value: string) returns (r: string)
    ensures r == Sanitize(value)
  {
    CharTablesDecode();
    var v := value;
    RepairNothing(value);
    assert SetOf(ApostropheChars[..0]) == {};
    for k := 0 to |ApostropheCodes|
      invariant v == RepairAll(value, SetOf(ApostropheChars[..k]), {}, {})
    {
      ApostropheStep(value, k);
      v := Replace(v, CodePoint(ApostropheCodes[k]) as char, "'");
    }
    assert ApostropheChars[..|ApostropheCodes|] == ApostropheChars;
    assert SetOf(QuoteChars[..0]) == {};
    for k := 0 to |QuoteCodes|
      invariant v == RepairAll(value, ApostropheSet, SetOf(QuoteChars[..k]), {})
    {
      QuoteStep(value, k);
      v := Replace(v, CodePoint(QuoteCodes[k]) as char, "\"");
    }
    assert QuoteChars[..|QuoteCodes|] == QuoteChars;
    assert SetOf(InvisibleChars[..0]) == {};
    for k := 0 to |InvisibleCodes|
      invariant v == RepairAll(value, ApostropheSet, QuoteSet, SetOf(InvisibleChars[..k]))
    {
      InvisibleStep(value, k);
      v := Replace(v, CodePoint(InvisibleCodes[k]) as char, "");
    }
    assert InvisibleChars[..|InvisibleCodes|] == InvisibleChars;
    v := Collapse(v);
    r := Strip(v);
  }

  /** The pass for the `k`-th apostrophe code adds its decoded character to the repaired set. */
  lemma ApostropheStep(value: string, k: nat)
    requires k < |ApostropheCodes|
    ensures |ApostropheCodes[k]| == 6 && CodePoint(ApostropheCodes[k]) == ApostropheChars[k] as int
    ensures Replace(RepairAll(value, SetOf(ApostropheChars[..k]), {}, {}), CodePoint(ApostropheCodes[k]) as char, "'")
      == RepairAll(value, SetOf(ApostropheChars[..k + 1]), {}, {})
  {
    CharTablesDecode();
    CharTablesDisjoint();
    var ch := ApostropheChars[k];
    assert ch in ApostropheChars;
    assert SetOf(ApostropheChars[..k + 1]) == SetOf(ApostropheChars[..k]) + {ch};
    ApostrophePass(value, SetOf(ApostropheChars[..k]), ch);
  }

  lemma QuoteStep(value: string, k: nat)
    requires k < |QuoteCodes|
    ensures |QuoteCodes[k]| == 6 && CodePoint(QuoteCodes[k]) == QuoteChars[k] as int
    ensures Replace(RepairAll(value, ApostropheSet, SetOf(QuoteChars[..k]), {}), CodePoint(QuoteCodes[k]) as char, "\"")
      == RepairAll(value, ApostropheSet, SetOf(QuoteChars[..k + 1]), {})
  {
    CharTablesDecode();
    CharTablesDisjoint();
    var ch := QuoteChars[k];
    assert ch in QuoteChars;
    assert SetOf(QuoteChars[..k + 1]) == SetOf(QuoteChars[..k]) + {ch};
    QuotePass(value, ApostropheSet, SetOf(QuoteChars[..k]), ch);
  }

  lemma InvisibleStep(value: string, k: nat)
    requires k < |InvisibleCodes|
    ensures |InvisibleCodes[k]| == 6 && CodePoint(InvisibleCodes[k]) == InvisibleChars[k] as int
    ensures Replace(RepairAll(value, ApostropheSet, QuoteSet, SetOf(InvisibleChars[..k])), CodePoint(InvisibleCodes[k]) as char, "")
      == RepairAll(value, ApostropheSet, QuoteSet, SetOf(InvisibleChars[..k + 1]))
  {
    CharTablesDecode();
    CharTablesDisjoint();
    var ch := InvisibleChars[k];
    assert ch in InvisibleChars;
    assert SetOf(InvisibleChars[..k + 1]) == SetOf(InvisibleChars[..k]) + {ch};
    InvisiblePass(value, ApostropheSet, QuoteSet, SetOf(InvisibleChars[..k]), ch);
  }

  lemma {:induction false} RepairNothing(s: string)
    ensures RepairAll(s, {}, {}, {}) == s
    decreases |s|
  {
    if s != [] {
      RepairNothing(s[1..]);
    }
  }

  // One pass of `str.replace` takes the repair of every character one table entry further.
  // The side conditions are the table facts of `CharTablesDisjoint`: a pass never touches what
  // an earlier pass wrote.

  lemma {:induction false} ApostrophePass(s: string, apos: set<char>, c: char)
    requires c != '\''
    ensures Replace(RepairAll(s, apos, {}, {}), c, "'") == RepairAll(s, apos + {c}, {}, {})
    decreases |s|
  {
    if s != [] {
      ReplaceAppend(Repair(s[0], apos, {}, {}), RepairAll(s[1..], apos, {}, {}), c, "'");
      ApostrophePass(s[1..], apos, c);
    }
  }

  lemma {:induction false} QuotePass(s: string, apos: set<char>, quotes: set<char>, c: char)
    requires c != '\'' && c != '"'
    ensures Replace(RepairAll(s, apos, quotes, {}), c, "\"") == RepairAll(s, apos, quotes + {c}, {})
    decreases |s|
  {
    if s != [] {
      ReplaceAppend(Repair(s[0], apos, quotes, {}), RepairAll(s[1..], apos, quotes, {}), c, "\"");
      QuotePass(s[1..], apos, quotes, c);
    }
  }

  lemma {:induction false} InvisiblePass(s: string, apos: set<char>, quotes: set<char>, invis: set<char>, c: char)
    requires c != '\'' && c != '"'
    ensures Replace(RepairAll(s, apos, quotes, invis), c, "") == RepairAll(s, apos, quotes, invis + {c})
    decreases |s|
  {
    if s != [] {
      ReplaceAppend(Repair(s[0], apos, quotes, invis), RepairAll(s[1..], apos, quotes, invis), c, "");
      InvisiblePass(s[1..], apos, quotes, invis, c);
    }
  }

  // What the output of `process_string` looks like.

  /** The output holds no listed character, no two adjacent spaces and no surrounding whitespace. */
  lemma SanitizeIsClean(s: string)
    ensures Clean(Sanitize(s))
  {
    var u := Collapse(Translate(s));
    var r := Strip(u);
    TranslateAvoidsTables(s);
    forall c | c in r
      ensures c !in ApostropheSet && c !in QuoteSet && c !in InvisibleSet
    {
      ContainsMembership(u, r, c);
      CollapseMembership(Translate(s), c);
    }
    CollapseNoDoubleSpace(Translate(s));
    InfixNoDoubleSpace(u, r);
  }

  /** After the three passes no character of any table is left. */
  lemma TranslateAvoidsTables(s: string)
    ensures forall c :: c in Translate(s) ==> c !in ApostropheSet && c !in QuoteSet && c !in InvisibleSet
  {
    CharTablesDisjoint();
    forall c | c in Translate(s)
      ensures c !in ApostropheSet && c !in QuoteSet && c !in InvisibleSet
    {
      RepairAllMembership(s, ApostropheSet, QuoteSet, InvisibleSet, c);
    }
  }

  /** `process_string` never lengthens its input. */
  lemma SanitizeShorter(s: string)
    ensures |Sanitize(s)| <= |s|
  {
  }

  /** A clean string is left exactly as it is. */
  lemma CleanIsFixed(s: string)
    requires Clean(s)
    ensures Sanitize(s) == s
  {
    RepairAllIdentity(s, ApostropheSet, QuoteSet, InvisibleSet);
    CollapseIdentity(s);
    StripIdentity(s);
  }

  /** `process_string` is idempotent. */
  lemma SanitizeIdempotent(s: string)
    ensures Sanitize(Sanitize(s)) == Sanitize(s)
  {
    SanitizeIsClean(s);
    CleanIsFixed(Sanitize(s));
  }

  /** Each listed character is replaced as its table says, and every other character is kept. */
  lemma TranslateChar(c: char)
    ensures c in ApostropheChars ==> Translate([c]) == "'"
    ensures c in QuoteChars ==> Translate([c]) == "\""
    ensures c in InvisibleChars ==> Translate([c]) == ""
    ensures c !in ApostropheChars + QuoteChars + InvisibleChars ==> Translate([c]) == [c]
  {
    CharTablesDisjoint();
    assert [c][1..] == [];
  }

  /** A left single quotation mark (U+2018) is not in the apostrophe table and survives. */
  lemma LeftSingleQuoteKept()
    ensures Sanitize("\U{2018}") == "\U{2018}"
  {
    assert Clean("\U{2018}");
    CleanIsFixed("\U{2018}");
  }

  lemma {:induction false} RepairAllMembership(s: string, apos: set<char>, quotes: set<char>, invis: set<char>, x: char)
    requires x in RepairAll(s, apos, quotes, invis)
    ensures (x in s && x !in apos && x !in quotes && x !in invis) || x == '\'' || x == '"'
    decreases |s|
  {
    if x !in Repair(s[0], apos, quotes, invis) {
      RepairAllMembership(s[1..], apos, quotes, invis, x);
    }
  }

  lemma {:induction false} RepairAllIdentity(s: string, apos: set<char>, quotes: set<char>, invis: set<char>)
    requires forall c :: c in s ==> c !in apos && c !in quotes && c !in invis
    ensures RepairAll(s, apos, quotes, invis) == s
    decreases |s|
  {
    if s != [] {
      assert s[0] in s;
      assert forall c :: c in s[1..] ==> c in s;
      RepairAllIdentity(s[1..], apos, quotes, invis);
    }
  }

  lemma {:induction false} CollapseMembership(s: string, x: char)
    requires x in Collapse(s)
    ensures x in s
    decreases |s|
  {
    if |s| >= 2 {
      if s[0] == ' ' && s[1] == ' ' {
        CollapseMembership(s[1..], x);
      } else if x != s[0] {
        CollapseMembership(s[1..], x);
      }
    }
  }

  lemma {:induction false} CollapseNoDoubleSpace(s: string)
    ensures NoDoubleSpace(Collapse(s))
    decreases |s|
  {
    if |s| >= 2 {
      CollapseNoDoubleSpace(s[1..]);
    }
  }

  predicate NotSpace(c: char) { c != ' ' }

  /**
   * The collapse removes spaces only: every other character stays, in order, and the result
   * has a space exactly when the input has one.
   */
  lemma {:induction false} CollapseKeepsText(s: string)
    ensures Filter(NotSpace, Collapse(s)) == Filter(NotSpace, s)
    ensures (' ' in Collapse(s)) == (' ' in s)
    decreases |s|
  {
    if |s| >= 2 {
      CollapseKeepsText(s[1..]);
      assert s == [s[0]] + s[1..];
      FilterAppend(NotSpace, [s[0]], s[1..]);
      if !(s[0] == ' ' && s[1] == ' ') {
        FilterAppend(NotSpace, [s[0]], Collapse(s[1..]));
      }
    }
  }

  /**
   * A space next to a space disappears where it stands. With `CollapseIdentity` this fixes
   * `Collapse` completely: each run of spaces becomes one space in the same place.
   */
  lemma {:induction false} CollapseDropsRepeat(a: string, b: string)
    ensures Collapse(a + [' ', ' '] + b) == Collapse(a + [' '] + b)
    decreases |a|
  {
    var s, t := a + [' ', ' '] + b, a + [' '] + b;
    if a == [] {
      assert s[1..] == t;
    } else {
      CollapseDropsRepeat(a[1..], b);
      assert s[1..] == a[1..] + [' ', ' '] + b;
      assert t[1..] == a[1..] + [' '] + b;
      assert s[0] == t[0] && s[1] == t[1];
    }
  }

  lemma {:induction false} CollapseIdentity(s: string)
    requires NoDoubleSpace(s)
    ensures Collapse(s) == s
    decreases |s|
  {
    if |s| >= 2 {
      assert NoDoubleSpace(s[1..]);
      CollapseIdentity(s[1..]);
    }
  }

  lemma StripIdentity(s: string)
    requires s != [] ==> !IsSpace(s[0]) && !IsSpace(s[|s| - 1])
    ensures Strip(s) == s
  {
  }

  lemma ContainsMembership(s: string, r: string, x: char)
    requires Contains(s, r) && x in r
    ensures x in s
  {
    var i :| 0 <= i <= |s| - |r| && OccursAt(s, r, i);
    var j :| 0 <= j < |r| && r[j] == x;
    assert s[i + j] == x;
  }

  lemma InfixNoDoubleSpace(s: string, r: string)
    requires Contains(s, r) && NoDoubleSpace(s)
    ensures NoDoubleSpace(r)
  {
    var i :| 0 <= i <= |s| - |r| && OccursAt(s, r, i);
    forall j | 0 <= j < |r| - 1
      ensures !(r[j] == ' ' && r[j + 1] == ' ')
    {
      assert r[j] == s[i + j] && r[j + 1] == s[i + j + 1];
    }
  }
}

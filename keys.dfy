/** `process_key`: the text of a "Metadata type" cell becomes a canonical snake_case key. */
module Keys {
  import opened Text
  import opened Config

  /** The raw with spaces and hyphens turned into underscores, then lower-cased. */
  function Normalise(raw: string): (k: string)
    ensures |k| == |raw|
    ensures forall i :: 0 <= i < |raw| ==>
      k[i] == if raw[i] == ' ' || raw[i] == '-' then '_' else LowerChar(raw[i])
    ensures KeyShaped(k)
  {
    var spaced := Replace(raw, ' ', "_");
    var hyphened := Replace(spaced, '-', "_");
    ReplaceByChar(raw, ' ', '_');
    ReplaceByChar(spaced, '-', '_');
    Lower(hyphened)
  }

  /** `process_key`: normalise, then map a legacy name to its canonical one. */
  function ProcessKey(raw: string): (k: string)
    ensures Normalise(raw) in RenameColumns ==> k == RenameColumns[Normalise(raw)]
    ensures Normalise(raw) !in RenameColumns ==> k == Normalise(raw)
    ensures KeyShaped(k)
    ensures k !in RenameColumns
  {
    var n := Normalise(raw);
    TablesKeyShaped();
    RenameTargetsAreFixed();
    if n in RenameColumns then RenameColumns[n] else n
  }

  /** Replacing a character by a one-character string changes exactly the positions that held it. */
  lemma {:induction false} ReplaceByChar(s: string, c: char, d: char)
    ensures |Replace(s, c, [d])| == |s|
    ensures forall i :: 0 <= i < |s| ==> Replace(s, c, [d])[i] == if s[i] == c then d else s[i]
    decreases |s|
  {
    if s != [] {
      ReplaceByChar(s[1..], c, d);
    }
  }

  /** A key already in canonical form normalises to itself. */
  lemma {:induction false} NormaliseCanonical(k: string)
    requires KeyShaped(k)
    ensures Normalise(k) == k
  {
    ReplaceAbsent(k, ' ', "_");
    ReplaceAbsent(k, '-', "_");
    LowerOfLower(k);
  }

  /** `process_key` is idempotent, because no rename target is itself renamed. */
  lemma {:induction false} ProcessKeyIdempotent(raw: string)
    ensures ProcessKey(ProcessKey(raw)) == ProcessKey(raw)
  {
    var k := ProcessKey(raw);
    NormaliseCanonical(k);
    RenameTargetsAreFixed();
    var n := Normalise(raw);
    if n in RenameColumns {
      assert k == RenameColumns[n];
    } else {
      assert k == n;
    }
  }

  /** A canonical key that is not a legacy name passes through unchanged. */
  lemma {:induction false} ProcessKeyKeepsCanonical(k: string)
    requires KeyShaped(k) && k !in RenameColumns
    ensures ProcessKey(k) == k
  {
    NormaliseCanonical(k);
  }

  /** The legacy label "COD-EM" reaches its canonical name. */
  lemma ProcessKeyExample()
    ensures ProcessKey("COD-EM") == "cod_em_available"
  {
    NormaliseExample();
    assert "cod_em" in RenameColumns;
  }

  lemma NormaliseExample()
    ensures Normalise("COD-EM") == "cod_em"
  {
    var raw := "COD-EM";
    ReplaceAbsent(raw, ' ', "_");
    assert Replace(raw, ' ', "_") == raw;
    HyphenExample();
    LowerExample();
  }

  lemma LowerExample()
    ensures Lower("COD_EM") == "cod_em"
  {
    var s := "COD_EM";
    assert forall i :: 0 <= i < |s| ==> Lower(s)[i] == "cod_em"[i];
  }

  lemma HyphenExample()
    ensures Replace("COD-EM", '-', "_") == "COD_EM"
  {
    var a, b, c := "COD", "-", "EM";
    assert a + b + c == "COD-EM";
    ReplaceAppend(a + b, c, '-', "_");
    ReplaceAppend(a, b, '-', "_");
    ReplaceAbsent(a, '-', "_");
    ReplaceAbsent(c, '-', "_");
    assert b[1..] == [];
    assert Replace(b, '-', "_") == "_";
    assert a + "_" + c == "COD_EM";
  }
}

/**
 * Column-name normalisation of the listening log (MP1.py line 31): every
 * header is stripped of surrounding white space, lower-cased, and has each
 * 'é' replaced by 'e', so that " Durée" and "duree" name the same column.
 */
module Headers {
  import Tally

  /** The characters Python's str.strip() removes when called without arguments. */
  predicate IsSpace(c: char) {
    c in {'\t', '\n', '\U{0B}', '\U{0C}', '\r', '\U{1C}', '\U{1D}', '\U{1E}', '\U{1F}', ' ',
          '\U{85}', '\U{A0}', '\U{1680}', '\U{2028}', '\U{2029}', '\U{202F}', '\U{205F}', '\U{3000}'}
    || '\U{2000}' <= c <= '\U{200A}'
  }

  /** Upper-case letters of Basic Latin and Latin-1 that str.lower() maps one step down. */
  predicate IsUpper(c: char) {
    'A' <= c <= 'Z' || '\U{C0}' <= c <= '\U{D6}' || '\U{D8}' <= c <= '\U{DE}'
  }

  function LowerChar(c: char): char {
    if IsUpper(c) then (c as int + 32) as char else c
  }

  /** Leading white space removed. */
  function TrimStart(s: string): string {
    if |s| > 0 && IsSpace(s[0]) then TrimStart(s[1..]) else s
  }

  /** Trailing white space removed. */
  function TrimEnd(s: string): string {
    if |s| > 0 && IsSpace(s[|s| - 1]) then TrimEnd(s[..|s| - 1]) else s
  }

  /** str.strip() */
  function Strip(s: string): string {
    TrimEnd(TrimStart(s))
  }

  /** str.lower() */
  function Lower(s: string): string {
    seq(|s|, i requires 0 <= i < |s| => LowerChar(s[i]))
  }

  /** str.replace('é', 'e') */
  function ReplaceEAcute(s: string): string {
    seq(|s|, i requires 0 <= i < |s| => if s[i] == '\U{E9}' then 'e' else s[i])
  }

  /** A header as the script stores it: strip, then lower, then replace. */
  function Normalize(h: string): string {
    ReplaceEAcute(Lower(Strip(h)))
  }

  /** The header row after normalisation. */
  function NormalizeAll(hs: seq<string>): (r: seq<string>)
    ensures |r| == |hs|
    ensures forall i :: 0 <= i < |hs| ==> r[i] == Normalize(hs[i])
  {
    if |hs| == 0 then [] else NormalizeAll(hs[..|hs| - 1]) + [Normalize(hs[|hs| - 1])]
  }

  /** What df[name] finds among the columns once their names are normalised. */
  datatype Selection =
    | Column(index: nat)   // exactly one column has that name
    | Missing              // no column has it: pandas raises KeyError
    | Doubled              // several have it: pandas selects a table, not a column

  /**
   * The column df[name] selects in a table whose header row is hs (the
   * columns as read_csv returns them, normalised at line 31).
   */
  function Select(hs: seq<string>, name: string): Selection {
    var ns := NormalizeAll(hs);
    var n := Tally.Count(ns, name);
    if n == 0 then Missing
    else if n >= 2 then Doubled
    else Column(Tally.FirstIndex(ns, name))
  }

  /** What a normalised header looks like. */
  ghost predicate IsNormalized(h: string) {
    && (|h| > 0 ==> !IsSpace(h[0]) && !IsSpace(h[|h| - 1]))
    && (forall i :: 0 <= i < |h| ==> !IsUpper(h[i]) && h[i] != '\U{E9}')
  }

  // ---------------------------------------------------------------------------
  // Lemmas
  // ---------------------------------------------------------------------------

  lemma {:induction false} TrimStartShape(s: string)
    ensures |TrimStart(s)| <= |s|
    ensures TrimStart(s) == s[|s| - |TrimStart(s)|..]
    ensures |TrimStart(s)| > 0 ==> !IsSpace(TrimStart(s)[0])
    ensures forall i :: 0 <= i < |s| - |TrimStart(s)| ==> IsSpace(s[i])
  {
    if |s| > 0 && IsSpace(s[0]) {
      TrimStartShape(s[1..]);
    }
  }

  lemma {:induction false} TrimEndShape(s: string)
    ensures |TrimEnd(s)| <= |s|
    ensures TrimEnd(s) == s[..|TrimEnd(s)|]
    ensures |TrimEnd(s)| > 0 ==> !IsSpace(TrimEnd(s)[|TrimEnd(s)| - 1])
    ensures forall i :: |TrimEnd(s)| <= i < |s| ==> IsSpace(s[i])
  {
    if |s| > 0 && IsSpace(s[|s| - 1]) {
      TrimEndShape(s[..|s| - 1]);
    }
  }

  /**
   * Strip keeps a middle stretch of the text, removes only white space
   * around it, and leaves no white space at either end.
   */
  lemma StripShape(s: string)
    ensures |Strip(s)| > 0 ==> !IsSpace(Strip(s)[0]) && !IsSpace(Strip(s)[|Strip(s)| - 1])
    ensures exists a, b ::
      && 0 <= a <= b <= |s|
      && Strip(s) == s[a..b]
      && forall i :: 0 <= i < |s| && (i < a || b <= i) ==> IsSpace(s[i])
  {
    var t := TrimStart(s);
    TrimStartShape(s);
    TrimEndShape(t);
    var a := |s| - |t|;
    var b := a + |TrimEnd(t)|;
    assert Strip(s) == s[a..b];
    forall i | 0 <= i < |s| && (i < a || b <= i) ensures IsSpace(s[i]) {
      if b <= i {
        assert s[i] == t[i - a];
      }
    }
  }

  /**
   * A normalised header has no white space at either end, no upper-case
   * letter and no 'é'.
   */
  lemma NormalizeShape(h: string)
    ensures IsNormalized(Normalize(h))
  {
    StripShape(h);
  }

  /** A header already in normal form is left as it is. */
  lemma NormalizeFixesNormalized(h: string)
    requires IsNormalized(h)
    ensures Normalize(h) == h
  {
    assert Strip(h) == h;
    assert Lower(h) == h;
    assert ReplaceEAcute(h) == h;
  }

  /** Normalising twice is normalising once. */
  lemma NormalizeIdempotent(h: string)
    ensures Normalize(Normalize(h)) == Normalize(h)
  {
    NormalizeShape(h);
    NormalizeFixesNormalized(Normalize(h));
  }

  /** A header written with capitals, an accent or surrounding blanks still selects its column. */
  lemma SelectIgnoresSpellingOfHeader(hs: seq<string>, k: nat)
    requires k < |hs|
    requires forall j :: 0 <= j < |hs| && j != k ==> Normalize(hs[j]) != Normalize(hs[k])
    ensures Select(hs, Normalize(hs[k])) == Column(k)
  {
    SelectCorrect(hs, Normalize(hs[k]));
  }
  /**
   * df[name] fails with KeyError exactly when no header normalises to name,
   * selects several columns exactly when two do, and otherwise selects the one
   * column whose header does.
   */
  lemma SelectCorrect(hs: seq<string>, name: string)
    ensures Select(hs, name).Missing? <==> forall j :: 0 <= j < |hs| ==> Normalize(hs[j]) != name
    ensures Select(hs, name).Doubled? <==>
      exists i, j :: 0 <= i < j < |hs| && Normalize(hs[i]) == name && Normalize(hs[j]) == name
    ensures Select(hs, name).Column? ==>
      && Select(hs, name).index < |hs| && Normalize(hs[Select(hs, name).index]) == name
      && forall j :: 0 <= j < |hs| && Normalize(hs[j]) == name ==> j == Select(hs, name).index
  {
    var ns := NormalizeAll(hs);
    Tally.CountAtLeastTwo(ns, name);
    assert forall j :: 0 <= j < |hs| ==> (ns[j] == name <==> Normalize(hs[j]) == name);
  }
}

/**
 * The character and string primitives the calculator relies on, as Python
 * defines them for text decoded as Latin-1 (every character of a cell lies in
 * U+0000..U+00FF, because the sheets are read with encoding='latin-1').
 */
module Text {

  /**
   * One cell of a sheet as pandas holds it: a missing value (NaN) or text.
   * Numeric cells are taken in the text form str() gives them.
   */
  datatype Cell = NA | Str(text: string)

  /** astype(str) on a cell: a missing value reads "nan". */
  function CellText(c: Cell): string {
    match c
    case NA => "nan"
    case Str(s) => s
  }

  /** '0'..'9', the only characters int() and float() accept as digits here. */
  predicate IsAsciiDigit(c: char) {
    '0' <= c <= '9'
  }

  /** Python's str.isdigit on Latin-1: the ASCII digits and the superscripts ¹, ² and ³. */
  predicate IsDigit(c: char) {
    IsAsciiDigit(c) || c == '\U{B9}' || c == '\U{B2}' || c == '\U{B3}'
  }

  /** Python's str.isspace on Latin-1, the characters str.strip() removes. */
  predicate IsSpace(c: char) {
    c == ' ' || '\t' <= c <= '\r' || '\U{1C}' <= c <= '\U{1F}' || c == '\U{85}' || c == '\U{A0}'
  }

  predicate IsUpper(c: char) {
    'A' <= c <= 'Z' || ('\U{C0}' <= c <= '\U{DE}' && c != '\U{D7}')
  }

  /** Python's str.lower on one Latin-1 character (Æ becomes æ, T becomes t). */
  function Lower(c: char): (r: char)
    ensures !IsUpper(r)
    ensures IsUpper(c) ==> r as int == c as int + 32
    ensures !IsUpper(c) ==> r == c
  {
    if IsUpper(c) then (c as int + 32) as char else c
  }

  function LowerStr(s: string): (r: string)
    ensures |r| == |s|
    ensures forall i :: 0 <= i < |s| ==> r[i] == Lower(s[i])
  {
    seq(|s|, i requires 0 <= i < |s| => Lower(s[i]))
  }

  /** Python's `p in s`: p occurs in s as a contiguous substring. */
  predicate Contains(s: string, p: string)
    decreases |s|
  {
    |p| <= |s| && (s[..|p|] == p || Contains(s[1..], p))
  }

  /** A case-insensitive substring test: `p.lower() in s.lower()`. */
  predicate ContainsIgnoreCase(s: string, p: string) {
    Contains(LowerStr(s), LowerStr(p))
  }

  /** Python's str.strip(): drops leading and trailing whitespace (StripDrops says exactly what is left). */
  function Strip(s: string): (r: string)
    ensures |r| <= |s|
  {
    StripRight(StripLeft(s))
  }

  function StripLeft(s: string): (r: string)
    ensures |r| <= |s|
  {
    if s != [] && IsSpace(s[0]) then StripLeft(s[1..]) else s
  }

  function StripRight(s: string): (r: string)
    ensures |r| <= |s|
  {
    if s != [] && IsSpace(s[|s| - 1]) then StripRight(s[..|s| - 1]) else s
  }

  /** Text without whitespace is left as it is by Strip. */
  lemma StripWithoutSpace(s: string)
    requires forall i :: 0 <= i < |s| ==> !IsSpace(s[i])
    ensures Strip(s) == s
  {
  }

  /** The position of the first c in s, if there is one. */
  function Find(s: string, c: char): (r: nat)
    ensures r <= |s|
    ensures r < |s| ==> s[r] == c
    ensures forall j :: 0 <= j < r ==> s[j] != c
  {
    if s == [] then 0
    else if s[0] == c then 0
    else 1 + Find(s[1..], c)
  }

  // ---- Occurrences, and what stripping keeps ----

  /** An occurrence of p at position i makes Contains(s, p) hold. */
  lemma {:induction false} ContainsAt(s: string, p: string, i: nat)
    requires i + |p| <= |s| && s[i..i + |p|] == p
    ensures Contains(s, p)
  {
    if i > 0 {
      assert s[1..][i - 1..i - 1 + |p|] == s[i..i + |p|];
      ContainsAt(s[1..], p, i - 1);
    }
  }

  /** Where Contains(s, p) holds, p occurs at some position of s. */
  lemma {:induction false} ContainsWitness(s: string, p: string) returns (i: nat)
    requires Contains(s, p)
    ensures i + |p| <= |s| && s[i..i + |p|] == p
    decreases |s|
  {
    if s[..|p|] == p {
      i := 0;
    } else {
      var k := ContainsWitness(s[1..], p);
      i := k + 1;
      assert s[1..][k..k + |p|] == s[i..i + |p|];
    }
  }

  /** StripLeft drops the longest prefix made of whitespace. */
  lemma {:induction false} StripLeftDrops(s: string) returns (a: nat)
    ensures a <= |s| && StripLeft(s) == s[a..]
    ensures forall k :: 0 <= k < a ==> IsSpace(s[k])
    ensures a < |s| ==> !IsSpace(s[a])
    decreases |s|
  {
    if s != [] && IsSpace(s[0]) {
      var a' := StripLeftDrops(s[1..]);
      a := a' + 1;
      assert s[1..][a'..] == s[a..];
    } else {
      a := 0;
    }
  }

  /** StripRight drops the longest suffix made of whitespace. */
  lemma {:induction false} StripRightDrops(s: string) returns (b: nat)
    ensures b <= |s| && StripRight(s) == s[..b]
    ensures forall k :: b <= k < |s| ==> IsSpace(s[k])
    ensures b > 0 ==> !IsSpace(s[b - 1])
    decreases |s|
  {
    if s != [] && IsSpace(s[|s| - 1]) {
      b := StripRightDrops(s[..|s| - 1]);
      assert s[..|s| - 1][..b] == s[..b];
    } else {
      b := |s|;
    }
  }

  /**
   * All the surrounding whitespace is gone, and nothing else: Strip(s) is the
   * slice s[a..b] between a whitespace prefix and a whitespace suffix, and
   * when it is not empty it starts and ends with a character that is not
   * whitespace.
   */
  lemma StripDrops(s: string) returns (a: nat, b: nat)
    ensures a <= b <= |s| && Strip(s) == s[a..b]
    ensures forall k :: 0 <= k < a ==> IsSpace(s[k])
    ensures forall k :: b <= k < |s| ==> IsSpace(s[k])
    ensures a < b ==> !IsSpace(s[a]) && !IsSpace(s[b - 1])
  {
    a := StripLeftDrops(s);
    var b' := StripRightDrops(s[a..]);
    b := a + b';
    assert s[a..][..b'] == s[a..b];
  }

  lemma LowerStrOfSlice(s: string, a: nat, b: nat)
    requires a <= b <= |s|
    ensures LowerStr(s[a..b]) == LowerStr(s)[a..b]
  {
    var x, y := LowerStr(s[a..b]), LowerStr(s)[a..b];
    forall k | 0 <= k < b - a
      ensures x[k] == y[k]
    {
      assert s[a..b][k] == s[a + k];
    }
  }

  /** Whitespace has no upper case. */
  lemma LowerOfSpace(c: char)
    ensures IsSpace(c) ==> Lower(c) == c
  {
  }

  /** The characters under an occurrence of a word without whitespace in LowerStr(s) are not whitespace. */
  lemma OccurrenceIsNotSpace(s: string, p: string, i: nat)
    requires forall k :: 0 <= k < |p| ==> !IsSpace(p[k])
    requires i + |p| <= |s| && LowerStr(s)[i..i + |p|] == p
    ensures forall k :: i <= k < i + |p| ==> !IsSpace(s[k])
  {
    forall k | i <= k < i + |p|
      ensures !IsSpace(s[k])
    {
      assert LowerStr(s)[k] == p[k - i];
      LowerOfSpace(s[k]);
    }
  }

  /** An occurrence inside x[a..b] is an occurrence in that slice. */
  lemma OccurrenceInSlice(x: string, p: string, i: nat, a: nat, b: nat)
    requires a <= i && i + |p| <= b <= |x| && x[i..i + |p|] == p
    ensures x[a..b][i - a..i - a + |p|] == p
  {
    forall k | 0 <= k < |p|
      ensures x[a..b][i - a..i - a + |p|][k] == p[k]
    {
      assert x[a..b][i - a + k] == x[i + k] == x[i..i + |p|][k];
    }
  }

  /**
   * Stripping a name never removes an occurrence of a word without
   * whitespace in its lower-cased form.
   */
  lemma ContainsAfterStrip(s: string, p: string)
    requires p != [] && forall k :: 0 <= k < |p| ==> !IsSpace(p[k])
    requires Contains(LowerStr(s), p)
    ensures Contains(LowerStr(Strip(s)), p)
  {
    var i := ContainsWitness(LowerStr(s), p);
    var a, b := StripDrops(s);
    OccurrenceIsNotSpace(s, p, i);
    assert a <= i by {
      assert !IsSpace(s[i]);
    }
    assert i + |p| <= b by {
      assert !IsSpace(s[i + |p| - 1]);
    }
    OccurrenceSurvivesSlice(s, p, i, a, b);
  }

  /** An occurrence in LowerStr(s) that lies inside s[a..b] is one in LowerStr(s[a..b]). */
  lemma OccurrenceSurvivesSlice(s: string, p: string, i: nat, a: nat, b: nat)
    requires a <= i && i + |p| <= b <= |s| && LowerStr(s)[i..i + |p|] == p
    ensures Contains(LowerStr(s[a..b]), p)
  {
    LowerStrOfSlice(s, a, b);
    var y := LowerStr(s[a..b]);
    OccurrenceInSlice(LowerStr(s), p, i, a, b);
    var j: nat := i - a;
    assert j + |p| <= |y| && y[j..j + |p|] == p;
    ContainsAt(y, p, j);
  }
}

/** Character classes, case mapping and trimming over `string` (`seq<char>`).
    Only the ASCII letters take part in case mapping and in "alphanumeric";
    whitespace covers the characters of Foundation's whitespace-and-newline set. */
module Text {

  predicate IsAsciiLower(c: char) { 'a' <= c <= 'z' }

  predicate IsAsciiUpper(c: char) { 'A' <= c <= 'Z' }

  predicate IsAsciiDigit(c: char) { '0' <= c <= '9' }

  predicate IsAlphanumeric(c: char) {
    IsAsciiLower(c) || IsAsciiUpper(c) || IsAsciiDigit(c)
  }

  /** Tab to carriage return, NEL, and the Unicode space and line/paragraph separators. */
  predicate IsWhitespaceOrNewline(c: char) {
    || c == ' '
    || ('\t' <= c <= '\r')
    || c == '\U{85}'
    || c == '\U{A0}'
    || c == '\U{1680}'
    || ('\U{2000}' <= c <= '\U{200A}')
    || c == '\U{2028}'
    || c == '\U{2029}'
    || c == '\U{202F}'
    || c == '\U{205F}'
    || c == '\U{3000}'
  }

  function UpperChar(c: char): (d: char)
    ensures !IsAsciiLower(d)
    ensures IsAsciiLower(c) ==> IsAsciiUpper(d) && d as int + 32 == c as int
    ensures !IsAsciiLower(c) ==> d == c
  {
    if IsAsciiLower(c) then (c as int - 32) as char else c
  }

  function LowerChar(c: char): (d: char)
    ensures !IsAsciiUpper(d)
    ensures IsAsciiUpper(c) ==> IsAsciiLower(d) && d as int == c as int + 32
    ensures !IsAsciiUpper(c) ==> d == c
  {
    if IsAsciiUpper(c) then (c as int + 32) as char else c
  }

  /** Swift's `uppercased()`, restricted to ASCII letters. */
  function Upper(s: string): (r: string)
    ensures |r| == |s|
    ensures forall i :: 0 <= i < |s| ==> r[i] == UpperChar(s[i])
  {
    seq(|s|, i requires 0 <= i < |s| => UpperChar(s[i]))
  }

  /** Swift's `lowercased()`, restricted to ASCII letters. */
  function Lower(s: string): (r: string)
    ensures |r| == |s|
    ensures forall i :: 0 <= i < |s| ==> r[i] == LowerChar(s[i])
  {
    seq(|s|, i requires 0 <= i < |s| => LowerChar(s[i]))
  }

  predicate NoLower(s: string) {
    forall i :: 0 <= i < |s| ==> !IsAsciiLower(s[i])
  }

  /** A string without lower-case letters is its own upper-case form. */
  lemma UpperFixesNoLower(s: string)
    requires NoLower(s)
    ensures Upper(s) == s
  {
  }

  lemma UpperIdempotent(s: string)
    ensures Upper(Upper(s)) == Upper(s)
  {
    UpperFixesNoLower(Upper(s));
  }

  /** A contiguous part of a text without lower-case letters has none either. */
  lemma InfixNoLower(u: string, i: nat, t: string)
    requires NoLower(u) && i + |t| <= |u| && t == u[i..i + |t|]
    ensures NoLower(t)
  {
    forall k | 0 <= k < |t|
      ensures !IsAsciiLower(t[k])
    {
      assert t[k] == u[i + k];
    }
  }

  /** Trimming an upper-cased string leaves no lower-case letter. */
  lemma UpperTrimNoLower(s: string, drop: char -> bool)
    ensures NoLower(Trim(Upper(s), drop))
  {
    var u := Upper(s);
    assert NoLower(u);
    TrimIsInfix(u, drop);
    InfixNoLower(u, TrimOffset(u, drop), Trim(u, drop));
  }

  /** Drops the leading characters that satisfy `drop`. */
  function TrimStart(s: string, drop: char -> bool): (r: string)
    ensures |r| <= |s| && r == s[|s| - |r|..]
    ensures forall k :: 0 <= k < |s| - |r| ==> drop(s[k])
    ensures |r| > 0 ==> !drop(r[0])
    decreases |s|
  {
    if |s| > 0 && drop(s[0]) then TrimStart(s[1..], drop) else s
  }

  /** Drops the trailing characters that satisfy `drop`. */
  function TrimEnd(s: string, drop: char -> bool): (r: string)
    ensures |r| <= |s| && r == s[..|r|]
    ensures forall k :: |r| <= k < |s| ==> drop(s[k])
    ensures |r| > 0 ==> !drop(r[|r| - 1])
    decreases |s|
  {
    if |s| > 0 && drop(s[|s| - 1]) then TrimEnd(s[..|s| - 1], drop) else s
  }

  /** Swift's `trimmingCharacters(in:)`: the longest infix that neither starts nor
      ends with a character of the set, every dropped character being in the set. */
  function Trim(s: string, drop: char -> bool): (r: string)
  {
    TrimEnd(TrimStart(s, drop), drop)
  }

  /** How many characters the trim removes from the front. */
  function TrimOffset(s: string, drop: char -> bool): (i: nat)
    ensures i <= |s|
  {
    |s| - |TrimStart(s, drop)|
  }

  /** `r` is `s` with only characters satisfying `drop` removed, all of them from
      the two ends: the `i` before and whatever follows `r`. */
  predicate TrimmedAt(r: string, s: string, i: nat, drop: char -> bool) {
    && i + |r| <= |s|
    && r == s[i..i + |r|]
    && (forall k :: 0 <= k < i ==> drop(s[k]))
    && (forall k :: i + |r| <= k < |s| ==> drop(s[k]))
  }

  /** Where the trimmed string sits inside the original, and that only characters
      of the set were removed around it. */
  lemma TrimIsInfix(s: string, drop: char -> bool)
    ensures var r, i := Trim(s, drop), TrimOffset(s, drop);
      && i + |r| <= |s|
      && r == s[i..i + |r|]
      && (forall k :: 0 <= k < i ==> drop(s[k]))
      && (forall k :: i + |r| <= k < |s| ==> drop(s[k]))
  {
    var t := TrimStart(s, drop);
    var r := TrimEnd(t, drop);
    var i := |s| - |t|;
    assert t == s[i..];
    assert r == t[..|r|];
    assert r == s[i..i + |r|];
    forall k | i + |r| <= k < |s|
      ensures drop(s[k])
    {
      assert s[k] == t[k - i];
    }
  }

  lemma TrimEnds(s: string, drop: char -> bool)
    ensures var r := Trim(s, drop);
      |r| > 0 ==> !drop(r[0]) && !drop(r[|r| - 1])
  {
    var t := TrimStart(s, drop);
    var r := TrimEnd(t, drop);
    if |r| > 0 {
      assert r == t[..|r|];
      assert r[0] == t[0];
      assert !drop(t[0]);
      assert !drop(r[|r| - 1]);
    }
  }

  lemma TrimStartFixes(r: string, drop: char -> bool)
    requires |r| > 0 ==> !drop(r[0])
    ensures TrimStart(r, drop) == r
  {
  }

  lemma TrimEndFixes(r: string, drop: char -> bool)
    requires |r| > 0 ==> !drop(r[|r| - 1])
    ensures TrimEnd(r, drop) == r
  {
  }

  lemma TrimIdempotent(s: string, drop: char -> bool)
    ensures Trim(Trim(s, drop), drop) == Trim(s, drop)
  {
    var r := Trim(s, drop);
    TrimEnds(s, drop);
    TrimStartFixes(r, drop);
    TrimEndFixes(r, drop);
  }

  /** Characters the trim removes from the front do not change the result. */
  lemma TrimSkipsDroppedPrefix(p: string, s: string, drop: char -> bool)
    requires forall k :: 0 <= k < |p| ==> drop(p[k])
    ensures Trim(p + s, drop) == Trim(s, drop)
    decreases |p|
  {
    if |p| > 0 {
      assert (p + s)[1..] == p[1..] + s;
      TrimSkipsDroppedPrefix(p[1..], s, drop);
    } else {
      assert p + s == s;
    }
  }
}

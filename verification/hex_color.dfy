/** `Color(hex:)`: trimming, the hexadecimal scan, and the split of the scanned
    number into alpha, red, green and blue bytes by the length of the text. The
    final division by 255 into floating-point channels is not part of this model. */
module HexColor {
  import opened Text

  /** Channel values in 0..255 (when in range), alpha first. */
  datatype Argb = Argb(a: nat, r: nat, g: nat, b: nat)

  predicate InByteRange(c: Argb) {
    c.a <= 255 && c.r <= 255 && c.g <= 255 && c.b <= 255
  }

  predicate IsHexDigit(c: char) {
    IsAsciiDigit(c) || ('a' <= c <= 'f') || ('A' <= c <= 'F')
  }

  function DigitValue(c: char): (d: nat)
    requires IsHexDigit(c)
    ensures d < 16
  {
    if IsAsciiDigit(c) then c as int - '0' as int
    else if 'a' <= c <= 'f' then c as int - 'a' as int + 10
    else c as int - 'A' as int + 10
  }

  predicate AllHex(s: string) {
    forall k :: 0 <= k < |s| ==> IsHexDigit(s[k])
  }

  function Pow16(n: nat): (p: nat)
    ensures p >= 1
  {
    if n == 0 then 1 else 16 * Pow16(n - 1)
  }

  /** The number a string of hexadecimal digits denotes, most significant first. */
  function HexValue(s: string): nat
    requires AllHex(s)
    decreases |s|
  {
    if s == [] then 0 else HexValue(s[..|s| - 1]) * 16 + DigitValue(s[|s| - 1])
  }

  lemma {:induction false} HexValueBound(s: string)
    requires AllHex(s)
    ensures HexValue(s) < Pow16(|s|)
    decreases |s|
  {
    if s != [] {
      HexValueBound(s[..|s| - 1]);
    }
  }

  /** The number of hexadecimal digits at the front of `s`. */
  function HexRun(s: string): (n: nat)
    ensures n <= |s| && AllHex(s[..n])
    ensures n < |s| ==> !IsHexDigit(s[n])
    decreases |s|
  {
    if s != [] && IsHexDigit(s[0]) then
      var n := 1 + HexRun(s[1..]);
      assert s[..n] == [s[0]] + s[1..][..n - 1];
      n
    else 0
  }

  /** The `0x`/`0X` prefix the scanner skips; it counts only when a digit follows. */
  predicate HasHexPrefix(s: string) {
    |s| >= 3 && s[0] == '0' && (s[1] == 'x' || s[1] == 'X') && IsHexDigit(s[2])
  }

  /** `s[p..p + n]` is a longest run of hexadecimal digits starting at `p`. */
  predicate LongestRunAt(s: string, p: nat, n: nat) {
    && p + n <= |s|
    && AllHex(s[p..p + n])
    && (p + n == |s| || !IsHexDigit(s[p + n]))
  }

  /** `Scanner.scanHexInt64`: an optional `0x`/`0X` prefix, then the longest run
      of hexadecimal digits; zero when there is none (the value is left untouched).
      The value never has more digits than the text, and a text made of digits
      only is read whole (it cannot start with `0x`, since `x` is not a digit). */
  function ScanHex(s: string): (v: nat)
    ensures v < Pow16(|s|)
    ensures AllHex(s) ==> v == HexValue(s)
    ensures HasHexPrefix(s) ==> exists n: nat :: LongestRunAt(s, 2, n) && v == HexValue(s[2..2 + n])
    ensures !HasHexPrefix(s) ==> exists n: nat :: LongestRunAt(s, 0, n) && v == HexValue(s[..n])
  {
    var p := if HasHexPrefix(s) then 2 else 0;
    var n := HexRun(s[p..]);
    assert s[p..][..n] == s[p..p + n] && s[0..n] == s[..n];
    assert LongestRunAt(s, p, n) by {
      if p + n < |s| {
        assert s[p + n] == s[p..][n];
      }
    }
    PrefixValueBound(s[p..], n, |s|);
    assert AllHex(s) ==> p == 0 && n == |s| && s[..n] == s;
    HexValue(s[p..p + n])
  }

  /** After a `0x`/`0X` prefix, a text of digits is read whole. */
  lemma PrefixedDigitsScan(s: string)
    requires HasHexPrefix(s) && AllHex(s[2..])
    ensures ScanHex(s) == HexValue(s[2..])
  {
    var v := ScanHex(s);
    var n: nat :| LongestRunAt(s, 2, n) && v == HexValue(s[2..2 + n]);
    forall j | 2 <= j < |s|
      ensures IsHexDigit(s[j])
    {
      assert s[j] == s[2..][j - 2];
    }
    assert 2 + n == |s|;
    assert s[2..2 + n] == s[2..];
  }

  /** The first `n` digits of a text are worth less than 16 to the `m`. */
  lemma PrefixValueBound(s: string, n: nat, m: nat)
    requires n <= |s| <= m && AllHex(s[..n])
    ensures HexValue(s[..n]) < Pow16(m)
  {
    HexValueBound(s[..n]);
    Pow16Monotone(n, m);
  }

  lemma {:induction false} Pow16Monotone(m: nat, n: nat)
    requires m <= n
    ensures Pow16(m) <= Pow16(n)
    decreases n
  {
    if m < n {
      Pow16Monotone(m, n - 1);
    }
  }

  /** The characters the trim removes: everything but letters and digits. */
  predicate NotAlphanumeric(c: char) {
    !IsAlphanumeric(c)
  }

  /** The switch on the length of the trimmed text; shifts and masks are written
      as division and remainder by powers of two. Only the eight-digit form
      carries its own alpha; every channel is a byte whenever the scanned value
      has no more digits than the text. */
  function Components(len: nat, v: nat): (c: Argb)
    ensures len != 8 ==> c.a == 255
    ensures len !in {3, 6, 8} ==> c == Argb(255, 0, 0, 0)
    ensures v < Pow16(len) ==> InByteRange(c)
  {
    Pow16Values();
    match len
    case 3 => Argb(255, (v / 256) * 17, ((v / 16) % 16) * 17, (v % 16) * 17)
    case 6 => Argb(255, v / 65536, (v / 256) % 256, v % 256)
    case 8 => Argb(v / 16777216, (v / 65536) % 256, (v / 256) % 256, v % 256)
    case _ => Argb(255, 0, 0, 0)
  }

  lemma Pow16Values()
    ensures Pow16(3) == 4096 && Pow16(6) == 16777216 && Pow16(8) == 4294967296
  {
  }

  /** `Color(hex:)` up to the conversion to floating-point channels. */
  function ColorFromHex(hex: string): (c: Argb)
    ensures InByteRange(c)
  {
    var t := Trim(hex, NotAlphanumeric);
    Components(|t|, ScanHex(t))
  }

  lemma {:induction false} HexValueAppend(x: string, y: string)
    requires AllHex(x) && AllHex(y)
    ensures AllHex(x + y)
    ensures HexValue(x + y) == HexValue(x) * Pow16(|y|) + HexValue(y)
    decreases |y|
  {
    AllHexAppend(x, y);
    if y == [] {
      assert x + y == x;
    } else {
      var y' := y[..|y| - 1];
      var d := DigitValue(y[|y| - 1]);
      HexValueAppend(x, y');
      var xy := x + y;
      assert xy[..|xy| - 1] == x + y' && xy[|xy| - 1] == y[|y| - 1];
      assert HexValue(xy) == HexValue(x + y') * 16 + d;
      assert HexValue(y) == HexValue(y') * 16 + d;
      assert Pow16(|y|) == 16 * Pow16(|y'|);
      AppendArithmetic(HexValue(x), Pow16(|y'|), HexValue(y'), d);
    }
  }

  lemma AllHexAppend(x: string, y: string)
    requires AllHex(x) && AllHex(y)
    ensures AllHex(x + y)
  {
    forall k | 0 <= k < |x + y|
      ensures IsHexDigit((x + y)[k])
    {
      if k >= |x| {
        assert (x + y)[k] == y[k - |x|];
      }
    }
  }

  /** One more digit on the right multiplies the left part's place value by 16. */
  lemma AppendArithmetic(hx: nat, p: nat, hy: nat, d: nat)
    ensures (hx * p + hy) * 16 + d == hx * (16 * p) + (hy * 16 + d)
  {
  }

  /** Division and remainder by a power of two of a number written in that base. */
  lemma DivMod16(q: nat, r: nat)
    requires r < 16
    ensures (q * 16 + r) / 16 == q && (q * 16 + r) % 16 == r
  {
  }

  lemma DivMod256(q: nat, r: nat)
    requires r < 256
    ensures (q * 256 + r) / 256 == q && (q * 256 + r) % 256 == r
  {
  }

  lemma DivMod65536(q: nat, r: nat)
    requires r < 65536
    ensures (q * 65536 + r) / 65536 == q && (q * 65536 + r) % 65536 == r
  {
  }

  lemma DivMod16777216(q: nat, r: nat)
    requires r < 16777216
    ensures (q * 16777216 + r) / 16777216 == q && (q * 16777216 + r) % 16777216 == r
  {
  }

  /** A text of hexadecimal digits is untouched by the trim. */
  lemma HexTextTrimsToItself(s: string)
    requires AllHex(s)
    ensures Trim(s, NotAlphanumeric) == s
  {
    TrimStartFixes(s, NotAlphanumeric);
    TrimEndFixes(s, NotAlphanumeric);
  }

  /** A text of hexadecimal digits is read whole by `Color(hex:)`. */
  lemma HexTextColor(s: string)
    requires AllHex(s)
    ensures ColorFromHex(s) == Components(|s|, HexValue(s))
  {
    HexTextTrimsToItself(s);
  }

  /** The value of two digits. */
  lemma PairValue(s: string)
    requires |s| == 2 && AllHex(s)
    ensures HexValue(s) == DigitValue(s[0]) * 16 + DigitValue(s[1])
  {
    assert s[..1][..0] == [];
    assert HexValue(s[..1]) == DigitValue(s[0]);
  }

  /** Six-digit switch arm: three bytes come back out of the value they spell. */
  lemma SixBytes(r: nat, g: nat, b: nat)
    requires r < 256 && g < 256 && b < 256
    ensures Components(6, (r * 256 + g) * 256 + b) == Argb(255, r, g, b)
  {
    var v := (r * 256 + g) * 256 + b;
    DivMod256(r * 256 + g, b);
    DivMod256(r, g);
    assert v == r * 65536 + (g * 256 + b);
    DivMod65536(r, g * 256 + b);
  }

  /** Eight-digit switch arm: alpha comes from the most significant byte. */
  lemma EightBytes(a: nat, r: nat, g: nat, b: nat)
    requires a < 256 && r < 256 && g < 256 && b < 256
    ensures Components(8, ((a * 256 + r) * 256 + g) * 256 + b) == Argb(a, r, g, b)
  {
    var v := ((a * 256 + r) * 256 + g) * 256 + b;
    DivMod256((a * 256 + r) * 256 + g, b);
    DivMod256(a * 256 + r, g);
    DivMod256(a, r);
    assert v == (a * 256 + r) * 65536 + (g * 256 + b);
    DivMod65536(a * 256 + r, g * 256 + b);
    assert v == a * 16777216 + ((r * 256 + g) * 256 + b);
    DivMod16777216(a, (r * 256 + g) * 256 + b);
  }

  /** Three-digit switch arm: each nibble is scaled by 17. */
  lemma ThreeNibbles(r: nat, g: nat, b: nat)
    requires r < 16 && g < 16 && b < 16
    ensures Components(3, (r * 16 + g) * 16 + b) == Argb(255, r * 17, g * 17, b * 17)
  {
    var v := (r * 16 + g) * 16 + b;
    DivMod16(r * 16 + g, b);
    DivMod16(r, g);
    assert v == r * 256 + (g * 16 + b);
    DivMod256(r, g * 16 + b);
  }

  /** Six digits: opaque, with red, green and blue read from successive digit pairs. */
  lemma SixDigitColor(s: string)
    requires |s| == 6 && AllHex(s)
    ensures ColorFromHex(s) == Argb(255, HexValue(s[..2]), HexValue(s[2..4]), HexValue(s[4..]))
  {
    HexTextColor(s);
    SixDigitComponents(s);
  }

  lemma SixDigitComponents(s: string)
    requires |s| == 6 && AllHex(s)
    ensures Components(6, HexValue(s)) == Argb(255, HexValue(s[..2]), HexValue(s[2..4]), HexValue(s[4..]))
  {
    var r, g, b := HexValue(s[..2]), HexValue(s[2..4]), HexValue(s[4..]);
    HexValueBound(s[..2]);
    HexValueBound(s[2..4]);
    HexValueBound(s[4..]);
    SixBytes(r, g, b);
    SixDigitValue(s);
    var v := HexValue(s);
    assert v == (r * 256 + g) * 256 + b;
    assert Components(6, v) == Argb(255, r, g, b);
  }

  /** Three digits: opaque, each digit scaled by 17 so that `F` gives 255. */
  lemma ThreeDigitColor(s: string)
    requires |s| == 3 && AllHex(s)
    ensures ColorFromHex(s) == Argb(255, DigitValue(s[0]) * 17, DigitValue(s[1]) * 17, DigitValue(s[2]) * 17)
  {
    HexTextColor(s);
    ThreeDigitComponents(s);
  }

  lemma ThreeDigitComponents(s: string)
    requires |s| == 3 && AllHex(s)
    ensures Components(3, HexValue(s)) == Argb(255, DigitValue(s[0]) * 17, DigitValue(s[1]) * 17, DigitValue(s[2]) * 17)
  {
    var d0, d1, d2 := DigitValue(s[0]), DigitValue(s[1]), DigitValue(s[2]);
    assert s[..2][..1] == s[..1];
    assert s[..1][..0] == [];
    assert HexValue(s[..1]) == d0;
    assert HexValue(s[..2]) == d0 * 16 + d1;
    assert HexValue(s) == (d0 * 16 + d1) * 16 + d2;
    ThreeNibbles(d0, d1, d2);
  }

  /** Splitting a text of digits at any point splits its value. */
  lemma HexValueSplit(s: string, k: nat)
    requires k <= |s| && AllHex(s)
    ensures HexValue(s) == HexValue(s[..k]) * Pow16(|s| - k) + HexValue(s[k..])
  {
    assert s == s[..k] + s[k..];
    HexValueAppend(s[..k], s[k..]);
  }

  /** The last two digits are the low byte. */
  lemma LowByteSplit(s: string)
    requires |s| >= 2 && AllHex(s)
    ensures HexValue(s) == HexValue(s[..|s| - 2]) * 256 + HexValue(s[|s| - 2..])
  {
    HexValueSplit(s, |s| - 2);
    assert Pow16(2) == 256;
  }

  /** Six digits spell three bytes, most significant first. */
  lemma SixDigitValue(s: string)
    requires |s| == 6 && AllHex(s)
    ensures HexValue(s) == (HexValue(s[..2]) * 256 + HexValue(s[2..4])) * 256 + HexValue(s[4..])
  {
    var u := s[..4];
    LowByteSplit(s);
    LowByteSplit(u);
    assert u[2..] == s[2..4] && u[..2] == s[..2];
  }

  /** Eight digits spell four bytes, most significant first. */
  lemma EightDigitValue(s: string)
    requires |s| == 8 && AllHex(s)
    ensures HexValue(s) == ((HexValue(s[..2]) * 256 + HexValue(s[2..4])) * 256 + HexValue(s[4..6])) * 256 + HexValue(s[6..])
  {
    var t, u := s[..6], s[..4];
    LowByteSplit(s);
    LowByteSplit(t);
    LowByteSplit(u);
    assert t[4..] == s[4..6] && t[..4] == u;
    assert u[2..] == s[2..4] && u[..2] == s[..2];
  }

  /** Eight digits: alpha, red, green and blue from successive digit pairs, alpha first. */
  lemma EightDigitColor(s: string)
    requires |s| == 8 && AllHex(s)
    ensures ColorFromHex(s) == Argb(HexValue(s[..2]), HexValue(s[2..4]), HexValue(s[4..6]), HexValue(s[6..]))
  {
    HexTextColor(s);
    EightDigitComponents(s);
  }

  lemma EightDigitComponents(s: string)
    requires |s| == 8 && AllHex(s)
    ensures Components(8, HexValue(s)) == Argb(HexValue(s[..2]), HexValue(s[2..4]), HexValue(s[4..6]), HexValue(s[6..]))
  {
    var a, r, g, b := HexValue(s[..2]), HexValue(s[2..4]), HexValue(s[4..6]), HexValue(s[6..]);
    HexValueBound(s[..2]);
    HexValueBound(s[2..4]);
    HexValueBound(s[4..6]);
    HexValueBound(s[6..]);
    EightBytes(a, r, g, b);
    EightDigitValue(s);
    var v := HexValue(s);
    assert v == ((a * 256 + r) * 256 + g) * 256 + b;
    assert Components(8, v) == Argb(a, r, g, b);
  }

  /** Any other trimmed length, the empty text included, gives opaque black. */
  lemma OtherLengthIsBlack(hex: string)
    requires |Trim(hex, NotAlphanumeric)| !in {3, 6, 8}
    ensures ColorFromHex(hex) == Argb(255, 0, 0, 0)
  {
  }

  /** Leading punctuation such as `#` is trimmed away: "#006D77" and "006D77" agree. */
  lemma LeadingPunctuationIgnored(p: string, hex: string)
    requires forall k :: 0 <= k < |p| ==> NotAlphanumeric(p[k])
    ensures ColorFromHex(p + hex) == ColorFromHex(hex)
  {
    TrimSkipsDroppedPrefix(p, hex, NotAlphanumeric);
  }

  /** The brand's primary colour, a deep teal. The text is a parameter fixed by
      the precondition rather than a literal in the conclusion, so that the
      verifier does not unfold the recursive trim and scan over the literal
      character by character; the proof goes through the digit-level lemmas. */
  lemma PrimaryColor(hex: string)
    requires hex == "#006D77"
    ensures ColorFromHex(hex) == Argb(255, 0x00, 0x6D, 0x77)
  {
    var s := hex[1..];
    assert hex == hex[..1] + s;
    LeadingPunctuationIgnored(hex[..1], s);
    TealDigits(s);
    SixDigitColor(s);
  }

  lemma TealDigits(s: string)
    requires s == "006D77"
    ensures AllHex(s)
    ensures HexValue(s[..2]) == 0x00 && HexValue(s[2..4]) == 0x6D && HexValue(s[4..]) == 0x77
  {
    PairValue(s[..2]);
    PairValue(s[2..4]);
    PairValue(s[4..]);
  }

  /** The shorthand for pure red; the text is a parameter for the same reason as above. */
  lemma RedShorthand(hex: string)
    requires hex == "F00"
    ensures ColorFromHex(hex) == Argb(255, 255, 0, 0)
  {
    assert AllHex(hex);
    ThreeDigitColor(hex);
  }
}

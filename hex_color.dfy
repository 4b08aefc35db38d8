/**
 * The hex colour parser `UIColor(hexString:)` of the example app, which the
 * library itself uses for its default colours. The model stops at the integer
 * ARGB channels, before the division by 255 into floating point.
 */
module HexColor {

  /** The four 8-bit channels of a colour, alpha first. */
  datatype Argb = Argb(a: nat, r: nat, g: nat, b: nat)

  /** Largest value `Scanner.scanHexInt32` can store (UInt32.max). */
  const MaxUInt32: nat := 0xFFFF_FFFF

  predicate IsAlphanumeric(c: char) {
    ('a' <= c <= 'z') || ('A' <= c <= 'Z') || ('0' <= c <= '9')
  }

  /** Every character of `s` is stripped by the trimming step. */
  predicate AllJunk(s: string) {
    forall i :: 0 <= i < |s| ==> !IsAlphanumeric(s[i])
  }

  /** Drops the leading characters that are not alphanumeric. */
  function TrimLeading(s: string): (r: string)
    ensures |r| <= |s| && r == s[|s| - |r|..]
    ensures AllJunk(s[..|s| - |r|])
    ensures r != [] ==> IsAlphanumeric(r[0])
  {
    if s == [] || IsAlphanumeric(s[0]) then s else TrimLeading(s[1..])
  }

  /** Drops the trailing characters that are not alphanumeric. */
  function TrimTrailing(s: string): (r: string)
    ensures |r| <= |s| && r == s[..|r|]
    ensures AllJunk(s[|r|..])
    ensures r != [] ==> IsAlphanumeric(r[|r| - 1])
  {
    if s == [] || IsAlphanumeric(s[|s| - 1]) then s else TrimTrailing(s[..|s| - 1])
  }

  /**
   * `trimmingCharacters(in: CharacterSet.alphanumerics.inverted)`: the longest
   * slice of `s` that starts and ends with an alphanumeric character, with only
   * non-alphanumeric characters cut off on either side.
   */
  function Trim(s: string): (r: string)
    ensures r == [] || (IsAlphanumeric(r[0]) && IsAlphanumeric(r[|r| - 1]))
  {
    TrimTrailing(TrimLeading(s))
  }

  /** Where the trimmed text starts in `s`. */
  function TrimStart(s: string): nat {
    |s| - |TrimLeading(s)|
  }

  /**
   * The trimmed text is the slice of `s` at `TrimStart(s)`, and only
   * non-alphanumeric characters lie before and after it.
   */
  lemma TrimIsSlice(s: string)
    ensures TrimStart(s) + |Trim(s)| <= |s|
    ensures Trim(s) == s[TrimStart(s)..TrimStart(s) + |Trim(s)|]
    ensures AllJunk(s[..TrimStart(s)]) && AllJunk(s[TrimStart(s) + |Trim(s)|..])
  {
    var lead := TrimLeading(s);
    var r := TrimTrailing(lead);
    var i := TrimStart(s);
    assert Trim(s) == r && i == |s| - |lead|;
    SliceOfSuffix(s, i, |r|);
  }

  /** Slicing a suffix of `s` is slicing `s` itself. */
  lemma SliceOfSuffix(s: string, i: nat, n: nat)
    requires i + n <= |s|
    ensures s[i..][..n] == s[i..i + n] && s[i..][n..] == s[i + n..]
  {
  }

  predicate IsHexDigit(c: char) {
    ('0' <= c <= '9') || ('a' <= c <= 'f') || ('A' <= c <= 'F')
  }

  predicate AllHexDigits(s: string) {
    forall i :: 0 <= i < |s| ==> IsHexDigit(s[i])
  }

  function DigitValue(c: char): (v: nat)
    requires IsHexDigit(c)
    ensures v < 16
  {
    if '0' <= c <= '9' then c as nat - '0' as nat
    else if 'a' <= c <= 'f' then c as nat - 'a' as nat + 10
    else c as nat - 'A' as nat + 10
  }

  function Pow16(n: nat): (p: nat)
    ensures p >= 1
  {
    if n == 0 then 1 else 16 * Pow16(n - 1)
  }

  /** The value of a string of hex digits, most significant digit first. */
  function HexValue(digits: string): (v: nat)
    requires AllHexDigits(digits)
    ensures v < Pow16(|digits|)
  {
    if digits == [] then 0
    else HexValue(digits[..|digits| - 1]) * 16 + DigitValue(digits[|digits| - 1])
  }

  /** The longest prefix of `s` made of hex digits. */
  function LeadingHexDigits(s: string): (r: string)
    ensures |r| <= |s| && r == s[..|r|]
    ensures AllHexDigits(r)
    ensures |r| < |s| ==> !IsHexDigit(s[|r|])
  {
    if s == [] || !IsHexDigit(s[0]) then [] else [s[0]] + LeadingHexDigits(s[1..])
  }

  predicate HasHexPrefix(s: string) {
    |s| >= 2 && s[0] == '0' && (s[1] == 'x' || s[1] == 'X')
  }

  /**
   * `Scanner.scanHexInt32`: an optional "0x"/"0X" prefix, then the leading hex
   * digits; a value past UInt32.max saturates at UInt32.max, and a string
   * without digits leaves the variable at its initial 0.
   */
  function ScanHex(s: string): (v: nat)
    ensures v <= MaxUInt32
    ensures v < Pow16(|s|)
  {
    var body := if HasHexPrefix(s) then s[2..] else s;
    var digits := LeadingHexDigits(body);
    PowMonotone(|digits|, |s|);
    var value := HexValue(digits);
    if value <= MaxUInt32 then value else MaxUInt32
  }

  lemma {:induction false} PowMonotone(m: nat, n: nat)
    requires m <= n
    ensures Pow16(m) <= Pow16(n)
  {
    if m < n {
      PowMonotone(m, n - 1);
    }
  }

  /**
   * `UIColor(hexString:)` up to its final division by 255: trim, scan, then
   * split the value into channels by the trimmed length. Every channel lies in
   * 0..255 whatever the input, and only the 8-digit form sets alpha.
   */
  function ColorFromHex(hexString: string): (c: Argb)
    ensures InByteRange(c)
    ensures |Trim(hexString)| != 8 ==> c.a == 255
  {
    var hex := Trim(hexString);
    var v := ScanHex(hex);
    ChannelBounds(v, |hex|);
    match |hex|
    case 3 => Argb(255, (v / 0x100) * 17, ((v / 0x10) % 0x10) * 17, (v % 0x10) * 17)
    case 6 => Argb(255, v / 0x1_0000, (v / 0x100) % 0x100, v % 0x100)
    case 8 => Argb(v / 0x100_0000, (v / 0x1_0000) % 0x100, (v / 0x100) % 0x100, v % 0x100)
    case _ => Argb(255, 0, 0, 0)
  }

  predicate InByteRange(c: Argb) {
    c.a <= 255 && c.r <= 255 && c.g <= 255 && c.b <= 255
  }

  /** The top field of a value of 3, 6 or 8 hex digits is one digit or one byte. */
  lemma ChannelBounds(v: nat, n: nat)
    requires v < Pow16(n)
    ensures n == 3 ==> v / 0x100 < 0x10
    ensures n == 6 ==> v / 0x1_0000 < 0x100
    ensures n == 8 ==> v / 0x100_0000 < 0x100
  {
    if n == 3 {
      assert Pow16(3) == 0x1000;
    } else if n == 6 {
      assert Pow16(6) == 0x100_0000;
    } else if n == 8 {
      assert Pow16(8) == 0x1_0000_0000;
    }
  }

  /** Any trimmed length other than 3, 6 or 8 gives opaque black. */
  lemma OtherLengthIsOpaqueBlack(hexString: string)
    requires |Trim(hexString)| != 3 && |Trim(hexString)| != 6 && |Trim(hexString)| != 8
    ensures ColorFromHex(hexString) == Argb(255, 0, 0, 0)
  {
  }

  // ---------------------------------------------------------------------------
  // Trimming: what is cut off on either side does not matter

  lemma {:induction false} TrimLeadingSkipsJunk(p: string, s: string)
    requires AllJunk(p)
    ensures TrimLeading(p + s) == TrimLeading(s)
  {
    if p != [] {
      assert (p + s)[0] == p[0] && !IsAlphanumeric(p[0]);
      assert (p + s)[1..] == p[1..] + s;
      TrimLeadingSkipsJunk(p[1..], s);
    } else {
      assert p + s == s;
    }
  }

  lemma {:induction false} TrimTrailingSkipsJunk(s: string, q: string)
    requires AllJunk(q)
    ensures TrimTrailing(s + q) == TrimTrailing(s)
  {
    if q != [] {
      assert (s + q)[|s + q| - 1] == q[|q| - 1] && !IsAlphanumeric(q[|q| - 1]);
      assert (s + q)[..|s + q| - 1] == s + q[..|q| - 1];
      TrimTrailingSkipsJunk(s, q[..|q| - 1]);
    } else {
      assert s + q == s;
    }
  }

  /** An all-junk string trims to nothing, whatever junk follows it. */
  lemma {:induction false} TrimLeadingAllJunk(s: string)
    requires AllJunk(s)
    ensures TrimLeading(s) == []
  {
    if s != [] {
      TrimLeadingAllJunk(s[1..]);
    }
  }

  /**
   * Non-alphanumeric characters around the text are ignored: "#c62828" and
   * "c62828" trim to the same string.
   */
  lemma TrimIgnoresSurroundingJunk(p: string, s: string, q: string)
    requires AllJunk(p) && AllJunk(q)
    ensures Trim(p + s + q) == Trim(s)
  {
    assert p + s + q == p + (s + q);
    TrimLeadingSkipsJunk(p, s + q);
    assert Trim(p + s + q) == TrimTrailing(TrimLeading(s + q));
    var lead := TrimLeading(s);
    if lead == [] {
      TrimLeadingJunkThenJunk(s, q);
    } else {
      TrimLeadingPrefix(s, q);
      TrimTrailingSkipsJunk(lead, q);
      assert TrimTrailing(TrimLeading(s + q)) == TrimTrailing(lead);
    }
  }

  /** A string that trims to nothing, followed by junk, still trims to nothing. */
  lemma TrimLeadingJunkThenJunk(s: string, q: string)
    requires TrimLeading(s) == [] && AllJunk(q)
    ensures TrimLeading(s + q) == []
  {
    assert s[..|s|] == s;
    assert AllJunk(s + q);
    TrimLeadingAllJunk(s + q);
  }

  /** Appending to a string that still holds an alphanumeric only extends its trimmed start. */
  lemma {:induction false} TrimLeadingPrefix(s: string, q: string)
    requires TrimLeading(s) != []
    ensures TrimLeading(s + q) == TrimLeading(s) + q
  {
    assert s != [] && (s + q)[0] == s[0];
    if !IsAlphanumeric(s[0]) {
      assert (s + q)[1..] == s[1..] + q;
      TrimLeadingPrefix(s[1..], q);
    }
  }

  /** Trimming a trimmed string changes nothing. */
  lemma TrimIdempotent(s: string)
    ensures Trim(Trim(s)) == Trim(s)
  {
  }

  // ---------------------------------------------------------------------------
  // Scanning strings made only of hex digits

  /** The byte written as the two hex digits `hi`, `lo`. */
  function ByteValue(hi: char, lo: char): (v: nat)
    requires IsHexDigit(hi) && IsHexDigit(lo)
    ensures v < 0x100
    ensures v / 0x10 == DigitValue(hi) && v % 0x10 == DigitValue(lo)
  {
    DigitValue(hi) * 0x10 + DigitValue(lo)
  }

  lemma HexValueAppendPair(x: string, hi: char, lo: char)
    requires AllHexDigits(x) && IsHexDigit(hi) && IsHexDigit(lo)
    ensures AllHexDigits(x + [hi, lo])
    ensures HexValue(x + [hi, lo]) == HexValue(x) * 0x100 + ByteValue(hi, lo)
  {
    var y := x + [hi, lo];
    assert y[..|y| - 1] == x + [hi];
    assert (x + [hi])[..|x|] == x;
  }

  lemma {:induction false} LeadingHexDigitsOfHex(s: string)
    requires AllHexDigits(s)
    ensures LeadingHexDigits(s) == s
  {
    if s != [] {
      LeadingHexDigitsOfHex(s[1..]);
    }
  }

  /** With no "0x" prefix possible, the scanner reads every digit. */
  lemma ScanHexOfDigits(s: string)
    requires AllHexDigits(s) && |s| <= 8
    ensures ScanHex(s) == HexValue(s)
  {
    assert !HasHexPrefix(s) by {
      if |s| >= 2 {
        assert IsHexDigit(s[1]);
      }
    }
    LeadingHexDigitsOfHex(s);
    PowMonotone(|s|, 8);
    assert Pow16(8) == MaxUInt32 + 1;
  }

  lemma TrimOfHexDigits(s: string)
    requires AllHexDigits(s)
    ensures Trim(s) == s
  {
    if s != [] {
      assert IsHexDigit(s[0]) && IsHexDigit(s[|s| - 1]);
    }
  }

  /** A string that starts and ends with an alphanumeric is its own trimmed form. */
  lemma TrimOfAlphanumericEnds(s: string)
    requires s != [] && IsAlphanumeric(s[0]) && IsAlphanumeric(s[|s| - 1])
    ensures Trim(s) == s
  {
    assert TrimLeading(s) == s;
  }

  /** A "0x" or "0X" prefix is skipped: up to eight digits after it scan to their value. */
  lemma ScanHexPrefixed(x: char, digits: string)
    requires x == 'x' || x == 'X'
    requires AllHexDigits(digits) && |digits| <= 8
    ensures ScanHex(['0', x] + digits) == HexValue(digits)
  {
    var s := ['0', x] + digits;
    assert HasHexPrefix(s) && s[2..] == digits;
    LeadingHexDigitsOfHex(digits);
    PowMonotone(|digits|, 8);
    assert Pow16(8) == MaxUInt32 + 1;
  }

  /** Without a prefix, scanning stops at the first character that is not a hex digit. */
  lemma ScanHexStopsAtNonHex(s: string)
    requires !HasHexPrefix(s)
    ensures ScanHex(s) == ScanHex(LeadingHexDigits(s))
  {
    var r := LeadingHexDigits(s);
    if |r| >= 2 {
      assert IsHexDigit(r[1]);
    }
    LeadingHexDigitsOfHex(r);
  }

  /** Without a prefix or a leading hex digit nothing is scanned, and the value stays 0. */
  lemma ScanHexNoDigits(s: string)
    requires !HasHexPrefix(s) && (s == [] || !IsHexDigit(s[0]))
    ensures ScanHex(s) == 0
  {
    assert LeadingHexDigits(s) == [];
  }

  /** The leading digit of a hex string weighs 16 to the power of the digits after it. */
  lemma {:induction false} HexValueAtLeastLeading(digits: string)
    requires AllHexDigits(digits) && digits != []
    ensures HexValue(digits) >= DigitValue(digits[0]) * Pow16(|digits| - 1)
  {
    var n := |digits|;
    if n > 1 {
      var init := digits[..n - 1];
      assert init[0] == digits[0];
      HexValueAtLeastLeading(init);
      assert HexValue(digits) == HexValue(init) * 16 + DigitValue(digits[n - 1]);
      ScaleLowerBound(HexValue(init), DigitValue(digits[0]), Pow16(n - 2));
    }
  }

  lemma ScaleLowerBound(a: nat, d: nat, w: nat)
    requires a >= d * w
    ensures a * 16 >= d * (16 * w)
  {
    MultiplyMonotone(d * w, a, 16);
  }

  /** Nine or more digits led by a non-zero one overflow a UInt32: the scanner saturates. */
  lemma ScanHexSaturates(s: string)
    requires AllHexDigits(s) && |s| >= 9 && DigitValue(s[0]) != 0
    ensures ScanHex(s) == MaxUInt32
  {
    assert !HasHexPrefix(s) by {
      assert IsHexDigit(s[1]);
    }
    LeadingHexDigitsOfHex(s);
    HexValueOverflows(s);
  }

  /** Nine or more digits led by a non-zero digit exceed 32 bits. */
  lemma HexValueOverflows(s: string)
    requires AllHexDigits(s) && |s| >= 9 && DigitValue(s[0]) != 0
    ensures HexValue(s) > MaxUInt32
  {
    HexValueAtLeastLeading(s);
    PowMonotone(8, |s| - 1);
    assert Pow16(8) == MaxUInt32 + 1;
    MultiplyMonotone(1, DigitValue(s[0]), Pow16(|s| - 1));
  }

  /** The string `p + digits + q` trims to `digits` and scans to their value. */
  lemma ScanSurrounded(p: string, digits: string, q: string)
    requires AllJunk(p) && AllJunk(q) && AllHexDigits(digits) && |digits| <= 8
    ensures Trim(p + digits + q) == digits
    ensures ScanHex(digits) == HexValue(digits)
  {
    TrimIgnoresSurroundingJunk(p, digits, q);
    TrimOfHexDigits(digits);
    ScanHexOfDigits(digits);
  }

  // ---------------------------------------------------------------------------
  // Channel extraction by length

  /** The colour of any string whose trimmed form is `hex`, once its scanned value is known. */
  lemma ColorOfTrimmed(hexString: string, hex: string, v: nat)
    requires Trim(hexString) == hex && ScanHex(hex) == v
    ensures |hex| == 3 ==> (ColorFromHex(hexString) ==
      Argb(255, (v / 0x100) * 17, ((v / 0x10) % 0x10) * 17, (v % 0x10) * 17))
    ensures |hex| == 6 ==> (ColorFromHex(hexString) ==
      Argb(255, v / 0x1_0000, (v / 0x100) % 0x100, v % 0x100))
    ensures |hex| == 8 ==> (ColorFromHex(hexString) ==
      Argb(v / 0x100_0000, (v / 0x1_0000) % 0x100, (v / 0x100) % 0x100, v % 0x100))
  {
  }

  /** Three hex digits, most significant first. */
  lemma HexValueOfThree(digits: string)
    requires AllHexDigits(digits) && |digits| == 3
    ensures HexValue(digits) ==
      (DigitValue(digits[0]) * 0x10 + DigitValue(digits[1])) * 0x10 + DigitValue(digits[2])
  {
    assert digits[..2][..1] == [digits[0]] && digits[..2][1] == digits[1];
    assert digits[..2][..1][..0] == [];
  }

  /** Splitting a value built from three nibbles back into those nibbles. */
  lemma SplitNibbles(v: nat, d0: nat, d1: nat, d2: nat)
    requires d0 < 0x10 && d1 < 0x10 && d2 < 0x10
    requires v == (d0 * 0x10 + d1) * 0x10 + d2
    ensures v / 0x100 == d0 && (v / 0x10) % 0x10 == d1 && v % 0x10 == d2
  {
  }

  /** "RGB" (12-bit): each digit `n` becomes the channel `n * 17`, so 0xA gives 0xAA. */
  lemma ThreeDigitColor(p: string, digits: string, q: string)
    requires AllJunk(p) && AllJunk(q) && AllHexDigits(digits) && |digits| == 3
    ensures ColorFromHex(p + digits + q) == Argb(255, DigitValue(digits[0]) * 17,
                                                  DigitValue(digits[1]) * 17,
                                                  DigitValue(digits[2]) * 17)
  {
    ScanSurrounded(p, digits, q);
    HexValueOfThree(digits);
    var v := HexValue(digits);
    SplitNibbles(v, DigitValue(digits[0]), DigitValue(digits[1]), DigitValue(digits[2]));
    ColorOfTrimmed(p + digits + q, digits, v);
  }

  /** Splitting a value built from bytes back into those bytes. */
  lemma SplitBytes(v: nat, a: nat, r: nat, g: nat, b: nat)
    requires a < 0x100 && r < 0x100 && g < 0x100 && b < 0x100
    requires v == a * 0x100_0000 + r * 0x1_0000 + g * 0x100 + b
    ensures v / 0x100_0000 == a && (v / 0x1_0000) % 0x100 == r
    ensures (v / 0x100) % 0x100 == g && v % 0x100 == b
    ensures a == 0 ==> v / 0x1_0000 == r
  {
    DivideExactly(v, a, 0x100_0000, r * 0x1_0000 + g * 0x100 + b);
    DivideExactly(v, a * 0x100 + r, 0x1_0000, g * 0x100 + b);
    DivideExactly(a * 0x100 + r, a, 0x100, r);
    DivideExactly(v, a * 0x1_0000 + r * 0x100 + g, 0x100, b);
    DivideExactly(a * 0x1_0000 + r * 0x100 + g, a * 0x100 + r, 0x100, g);
  }

  /** Division by `m` recovers the quotient and remainder a value was built from. */
  lemma DivideExactly(v: nat, q: nat, m: nat, rem: nat)
    requires 0 < m && rem < m && v == q * m + rem
    ensures v / m == q && v % m == rem
  {
    var q', rem' := v / m, v % m;
    assert v == q' * m + rem';
    if q' < q {
      assert q' * m + m <= q * m by { MultiplyMonotone(q' + 1, q, m); }
    } else if q < q' {
      assert q * m + m <= q' * m by { MultiplyMonotone(q + 1, q', m); }
    }
  }

  lemma MultiplyMonotone(x: nat, y: nat, m: nat)
    requires x <= y
    ensures x * m <= y * m
  {
  }

  /** The value of a six-digit string, read a pair at a time. */
  lemma HexValueOfSixDigits(digits: string)
    requires AllHexDigits(digits) && |digits| == 6
    ensures HexValue(digits) == ByteValue(digits[0], digits[1]) * 0x1_0000
                                + ByteValue(digits[2], digits[3]) * 0x100
                                + ByteValue(digits[4], digits[5])
  {
    HexValueAppendPair([], digits[0], digits[1]);
    assert [] + [digits[0], digits[1]] == digits[..2];
    HexValueAppendPair(digits[..2], digits[2], digits[3]);
    assert digits[..2] + [digits[2], digits[3]] == digits[..4];
    HexValueAppendPair(digits[..4], digits[4], digits[5]);
    assert digits[..4] + [digits[4], digits[5]] == digits;
  }

  /** The value of an eight-digit string, read a pair at a time. */
  lemma HexValueOfEightDigits(digits: string)
    requires AllHexDigits(digits) && |digits| == 8
    ensures HexValue(digits) == ByteValue(digits[0], digits[1]) * 0x100_0000
                                + ByteValue(digits[2], digits[3]) * 0x1_0000
                                + ByteValue(digits[4], digits[5]) * 0x100
                                + ByteValue(digits[6], digits[7])
  {
    HexValueAppendPair([], digits[0], digits[1]);
    assert [] + [digits[0], digits[1]] == digits[..2];
    HexValueAppendPair(digits[..2], digits[2], digits[3]);
    assert digits[..2] + [digits[2], digits[3]] == digits[..4];
    HexValueAppendPair(digits[..4], digits[4], digits[5]);
    assert digits[..4] + [digits[4], digits[5]] == digits[..6];
    HexValueAppendPair(digits[..6], digits[6], digits[7]);
    assert digits[..6] + [digits[6], digits[7]] == digits;
  }

  /** "RRGGBB" (24-bit): each pair of digits is one channel, alpha is opaque. */
  lemma SixDigitColor(p: string, digits: string, q: string)
    requires AllJunk(p) && AllJunk(q) && AllHexDigits(digits) && |digits| == 6
    ensures ColorFromHex(p + digits + q) == Argb(255, ByteValue(digits[0], digits[1]),
                                                  ByteValue(digits[2], digits[3]),
                                                  ByteValue(digits[4], digits[5]))
  {
    ScanSurrounded(p, digits, q);
    HexValueOfSixDigits(digits);
    var v := HexValue(digits);
    SplitBytes(v, 0, ByteValue(digits[0], digits[1]), ByteValue(digits[2], digits[3]),
               ByteValue(digits[4], digits[5]));
    ColorOfTrimmed(p + digits + q, digits, v);
  }

  /** "AARRGGBB" (32-bit): the first pair of digits is alpha, then red, green, blue. */
  lemma EightDigitColor(p: string, digits: string, q: string)
    requires AllJunk(p) && AllJunk(q) && AllHexDigits(digits) && |digits| == 8
    ensures ColorFromHex(p + digits + q) == Argb(ByteValue(digits[0], digits[1]),
                                                  ByteValue(digits[2], digits[3]),
                                                  ByteValue(digits[4], digits[5]),
                                                  ByteValue(digits[6], digits[7]))
  {
    ScanSurrounded(p, digits, q);
    HexValueOfEightDigits(digits);
    var v := HexValue(digits);
    SplitBytes(v, ByteValue(digits[0], digits[1]), ByteValue(digits[2], digits[3]),
               ByteValue(digits[4], digits[5]), ByteValue(digits[6], digits[7]));
    ColorOfTrimmed(p + digits + q, digits, v);
  }

  /**
   * "0xRRGGBB" trims to eight characters, so it takes the 32-bit branch: the
   * scanner skips the prefix and the colour comes out with alpha 0.
   */
  lemma PrefixedSixDigitColor(p: string, x: char, digits: string, q: string)
    requires AllJunk(p) && AllJunk(q) && (x == 'x' || x == 'X')
    requires AllHexDigits(digits) && |digits| == 6
    ensures ColorFromHex(p + (['0', x] + digits) + q) == Argb(0, ByteValue(digits[0], digits[1]),
                                                               ByteValue(digits[2], digits[3]),
                                                               ByteValue(digits[4], digits[5]))
  {
    var hex := ['0', x] + digits;
    assert hex[|hex| - 1] == digits[5] && IsHexDigit(digits[5]);
    TrimIgnoresSurroundingJunk(p, hex, q);
    TrimOfAlphanumericEnds(hex);
    ScanHexPrefixed(x, digits);
    HexValueOfSixDigits(digits);
    var v := HexValue(digits);
    SplitBytes(v, 0, ByteValue(digits[0], digits[1]), ByteValue(digits[2], digits[3]),
               ByteValue(digits[4], digits[5]));
    ColorOfTrimmed(p + hex + q, hex, v);
  }

  // ---------------------------------------------------------------------------
  // Formatting and the round trip

  /** The lower-case hex digit for `n`. */
  function HexChar(n: nat): (c: char)
    requires n < 16
    ensures IsHexDigit(c) && DigitValue(c) == n
  {
    if n < 10 then ('0' as nat + n) as char else ('a' as nat + n - 10) as char
  }

  /** A channel as two hex digits. */
  function FormatByte(v: nat): (s: string)
    requires v < 0x100
    ensures |s| == 2 && AllHexDigits(s) && ByteValue(s[0], s[1]) == v
  {
    [HexChar(v / 0x10), HexChar(v % 0x10)]
  }

  /** `r`, `g`, `b` written as the six hex digits "rrggbb". */
  function FormatRgb(r: nat, g: nat, b: nat): (s: string)
    requires r < 0x100 && g < 0x100 && b < 0x100
    ensures |s| == 6 && AllHexDigits(s)
  {
    FormatByte(r) + FormatByte(g) + FormatByte(b)
  }

  /** Each pair of digits of `FormatRgb` reads back as its channel. */
  lemma FormatRgbPairs(r: nat, g: nat, b: nat)
    requires r < 0x100 && g < 0x100 && b < 0x100
    ensures ByteValue(FormatRgb(r, g, b)[0], FormatRgb(r, g, b)[1]) == r
    ensures ByteValue(FormatRgb(r, g, b)[2], FormatRgb(r, g, b)[3]) == g
    ensures ByteValue(FormatRgb(r, g, b)[4], FormatRgb(r, g, b)[5]) == b
  {
    var s, fr, fg, fb := FormatRgb(r, g, b), FormatByte(r), FormatByte(g), FormatByte(b);
    assert s == fr + fg + fb;
    assert s[0] == fr[0] && s[1] == fr[1];
    assert s[2] == fg[0] && s[3] == fg[1];
    assert s[4] == fb[0] && s[5] == fb[1];
  }

  /** Formatting a colour as "#rrggbb" and parsing it gives the colour back, opaque. */
  lemma FormatRgbRoundTrip(r: nat, g: nat, b: nat)
    requires r < 0x100 && g < 0x100 && b < 0x100
    ensures ColorFromHex("#" + FormatRgb(r, g, b)) == Argb(255, r, g, b)
    ensures ColorFromHex(FormatRgb(r, g, b)) == Argb(255, r, g, b)
  {
    var s := FormatRgb(r, g, b);
    FormatRgbPairs(r, g, b);
    assert AllJunk("#") && AllJunk("");
    assert "#" + s + "" == "#" + s;
    SixDigitColor("#", s, "");
    assert "" + s + "" == s;
    SixDigitColor("", s, "");
  }

  /** The library's default active colour, "#c62828" (red). */
  lemma DefaultActiveColor()
    ensures ColorFromHex("#c62828") == Argb(255, 0xC6, 0x28, 0x28)
  {
    var digits := "c62828";
    assert AllJunk("#") && AllHexDigits(digits);
    assert ByteValue(digits[0], digits[1]) == 0xC6;
    assert ByteValue(digits[2], digits[3]) == 0x28;
    assert "#c62828" == "#" + digits + "";
    SixDigitColor("#", digits, "");
  }

  /** The library's default title and touch-point colour, "#212121" (dark gray). */
  lemma DefaultTitleColor()
    ensures ColorFromHex("#212121") == Argb(255, 0x21, 0x21, 0x21)
  {
    var digits := "212121";
    assert AllJunk("#") && AllHexDigits(digits);
    assert ByteValue(digits[0], digits[1]) == 0x21;
    assert "#212121" == "#" + digits + "";
    SixDigitColor("#", digits, "");
  }
}

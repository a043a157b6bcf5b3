/**
 * `hexToRgba`: turns a CSS hex colour ("#ca25ae" or the short "#c2a") into
 * the text `rgba(r, g, b, alpha)`.
 *
 * The source removes the first `#`, doubles every digit of a three-digit
 * remainder, parses the result in base 16 and takes the three bytes out of
 * the 24-bit value with `>>` and `& 255`. Only well-formed input (three or
 * six hex digits once the `#` is gone) is modelled; for such input the
 * value is below 2^24, so the 32-bit shift and mask are exactly division
 * and remainder on natural numbers.
 */
module HexColor {
  import opened Wrappers

  /* ---------------- Removing the `#` ---------------- */

  /** Where the first `#` is, or the length when there is none. */
  function FirstHash(s: string): (k: nat)
    ensures k <= |s|
    ensures k < |s| ==> s[k] == '#'
    ensures forall j :: 0 <= j < k ==> s[j] != '#'
  {
    if |s| == 0 || s[0] == '#' then 0
    else 1 + FirstHash(s[1..])
  }

  /** `s.replace("#", "")` with a string pattern: at most one character, a `#`, goes. */
  function StripHash(s: string): (h: string)
    ensures '#' !in s ==> h == s
    ensures '#' in s ==> |h| == |s| - 1
  {
    var k := FirstHash(s);
    if k == |s| then s else s[..k] + s[k + 1..]
  }

  /**
   * Only the FIRST `#` goes: without one the text is unchanged, with one the
   * result is the text without its first `#`.
   */
  lemma StripHashRemovesFirst(s: string)
    ensures '#' !in s ==> StripHash(s) == s
    ensures '#' in s ==> |StripHash(s)| == |s| - 1
    ensures '#' in s ==> exists i :: 0 <= i < |s| && s[i] == '#' && '#' !in s[..i] && StripHash(s) == s[..i] + s[i + 1..]
  {
    var k := FirstHash(s);
    if k == |s| {
      assert '#' !in s;
    } else {
      assert s[k] == '#' && '#' !in s[..k];
    }
  }

  /** A leading `#` is the one removed. */
  lemma LeadingHash(h: string)
    ensures StripHash("#" + h) == h
  {
    assert FirstHash("#" + h) == 0;
    assert ("#" + h)[1..] == h;
  }

  /* ---------------- Short form ---------------- */

  /** `h.split("").map(c => c + c).join("")`: every character written twice. */
  function Double(s: string): (r: string)
    ensures |r| == 2 * |s|
    ensures forall i :: 0 <= i < |s| ==> r[2 * i] == s[i] && r[2 * i + 1] == s[i]
  {
    if |s| == 0 then []
    else
      var tail := Double(s[1..]);
      assert forall i :: 1 <= i < |s| ==> s[i] == s[1..][i - 1];
      [s[0], s[0]] + tail
  }

  /* ---------------- Base-16 digits ---------------- */

  predicate IsHexDigit(c: char) {
    ('0' <= c <= '9') || ('a' <= c <= 'f') || ('A' <= c <= 'F')
  }

  predicate AllHex(s: string) {
    forall i :: 0 <= i < |s| ==> IsHexDigit(s[i])
  }

  /** The value of one digit; `parseInt(_, 16)` accepts both letter cases. */
  function DigitValue(c: char): (d: nat)
    requires IsHexDigit(c)
    ensures d < 16
  {
    if '0' <= c <= '9' then c as int - '0' as int
    else if 'a' <= c <= 'f' then c as int - 'a' as int + 10
    else c as int - 'A' as int + 10
  }

  /** The lower-case digit for a value below 16. */
  function DigitChar(d: nat): (c: char)
    requires d < 16
    ensures IsHexDigit(c) && DigitValue(c) == d
    ensures !('A' <= c <= 'F')
  {
    if d < 10 then ('0' as int + d) as char else ('a' as int + d - 10) as char
  }

  function Pow16(n: nat): (p: nat)
    ensures p >= 1
  {
    if n == 0 then 1 else 16 * Pow16(n - 1)
  }

  /** `parseInt(s, 16)` for a string made only of hex digits, most significant first. */
  function HexValue(s: string): (v: nat)
    requires AllHex(s)
    ensures v < Pow16(|s|)
  {
    if |s| == 0 then 0
    else
      var init := HexValue(s[..|s| - 1]);
      init * 16 + DigitValue(s[|s| - 1])
  }

  /** Place value: the digits of `a` count `16^|b|` times over when `b` follows them. */
  lemma {:induction false} HexValueAppend(a: string, b: string)
    requires AllHex(a) && AllHex(b)
    ensures AllHex(a + b)
    ensures HexValue(a + b) == HexValue(a) * Pow16(|b|) + HexValue(b)
    decreases |b|
  {
    assert AllHex(a + b) by {
      forall i | 0 <= i < |a + b| ensures IsHexDigit((a + b)[i]) {
        if i < |a| { assert (a + b)[i] == a[i]; } else { assert (a + b)[i] == b[i - |a|]; }
      }
    }
    if |b| == 0 {
      assert a + b == a;
    } else {
      var init := b[..|b| - 1];
      var last := b[|b| - 1];
      assert AllHex(init) by {
        forall i | 0 <= i < |init| ensures IsHexDigit(init[i]) { assert init[i] == b[i]; }
      }
      assert (a + b)[..|a + b| - 1] == a + init;
      assert (a + b)[|a + b| - 1] == last;
      HexValueAppend(a, init);
      var x, y, d := HexValue(a), HexValue(init), DigitValue(last);
      calc {
        HexValue(a + b);
        HexValue(a + init) * 16 + d;
        (x * Pow16(|init|) + y) * 16 + d;
        { PlaceStep(x, Pow16(|init|), y); }
        x * Pow16(|b|) + (y * 16 + d);
      }
    }
  }

  lemma PlaceStep(x: nat, p: nat, y: nat)
    ensures (x * p + y) * 16 == x * (16 * p) + y * 16
  {
    calc {
      (x * p + y) * 16;
      x * p * 16 + y * 16;
      x * (p * 16) + y * 16;
    }
  }

  /** Division by 256 of a number written as `q * 256 + r` with a byte `r`. */
  lemma DivMod256(q: nat, r: nat)
    requires r < 256
    ensures (q * 256 + r) / 256 == q && (q * 256 + r) % 256 == r
  {
  }

  /** Division by 65536 of a number written as `q * 65536 + r` with `r` below 65536. */
  lemma DivMod65536(q: nat, r: nat)
    requires r < 65536
    ensures (q * 65536 + r) / 65536 == q && (q * 65536 + r) % 65536 == r
  {
  }

  /** A two-digit string is one byte: sixteen times its first digit plus its second. */
  lemma TwoDigits(s: string)
    requires |s| == 2 && AllHex(s)
    ensures HexValue(s) == 16 * DigitValue(s[0]) + DigitValue(s[1])
  {
    assert s[..1][..0] == [];
  }

  /* ---------------- Decoding ---------------- */

  /** Input the model accepts: three or six hex digits once the first `#` is removed. */
  predicate WellFormed(hex: string) {
    var h := StripHash(hex);
    (|h| == 3 || |h| == 6) && AllHex(h)
  }

  /** The six digits `parseInt` reads for a well-formed colour. */
  function SixDigits(hex: string): (d: string)
    requires WellFormed(hex)
    ensures |d| == 6 && AllHex(d)
    ensures |StripHash(hex)| == 6 ==> d == StripHash(hex)
    ensures |StripHash(hex)| == 3 ==> forall i :: 0 <= i < 6 ==> d[i] == StripHash(hex)[i / 2]
  {
    var h := StripHash(hex);
    if |h| == 3 then
      var e := Double(h);
      assert forall i :: 0 <= i < 6 ==> e[i] == h[i / 2];
      e
    else h
  }

  /** The three colour channels. */
  datatype Rgb = Rgb(r: nat, g: nat, b: nat)

  predicate IsByte(n: nat) { n < 256 }

  /** `bigint >> 16` for a non-negative value below 2^31: the low sixteen bits are dropped. */
  function ShiftRight16(v: nat): nat {
    v / 65536
  }

  /** `bigint >> 8` for a non-negative value below 2^31: the low eight bits are dropped. */
  function ShiftRight8(v: nat): nat {
    v / 256
  }

  /** `x & 255` for a non-negative value: keeps the low eight bits. */
  function LowByte(v: nat): nat {
    v % 256
  }

  /**
   * Lines 10-13 of the source: parse, then split into bytes. Each channel is
   * exactly the value of its two digits, every channel is a byte, and the
   * channels put back together give the parsed number (nothing is lost).
   */
  function Decode(hex: string): (c: Rgb)
    requires WellFormed(hex)
    ensures IsByte(c.r) && IsByte(c.g) && IsByte(c.b)
    ensures c.r * 65536 + c.g * 256 + c.b == HexValue(SixDigits(hex))
    ensures c.r == HexValue(SixDigits(hex)[0..2])
    ensures c.g == HexValue(SixDigits(hex)[2..4])
    ensures c.b == HexValue(SixDigits(hex)[4..6])
  {
    var d := SixDigits(hex);
    var v := HexValue(d);
    ChannelsOfSix(d);
    HexValueSix(d);
    Rgb(LowByte(ShiftRight16(v)), LowByte(ShiftRight8(v)), LowByte(v))
  }

  /** The value of two digits followed by the rest: peeling the last digit off twice. */
  lemma HexValueSix(d: string)
    requires |d| == 6 && AllHex(d)
    ensures HexValue(d) == HexValue(d[0..2]) * 65536 + HexValue(d[2..4]) * 256 + HexValue(d[4..6])
  {
    var v := seq(6, i requires 0 <= i < 6 => DigitValue(d[i]));
    assert d[..5][..4] == d[..4];
    assert d[..4][..3] == d[..3];
    assert d[..3][..2] == d[..2];
    assert d[..2][..1] == d[..1];
    assert d[..1][..0] == [];
    assert HexValue(d[..1]) == v[0];
    assert HexValue(d[..2]) == v[0] * 16 + v[1];
    assert HexValue(d[..3]) == (v[0] * 16 + v[1]) * 16 + v[2];
    assert HexValue(d[..4]) == ((v[0] * 16 + v[1]) * 16 + v[2]) * 16 + v[3];
    assert HexValue(d[..5]) == (((v[0] * 16 + v[1]) * 16 + v[2]) * 16 + v[3]) * 16 + v[4];
    assert HexValue(d) == ((((v[0] * 16 + v[1]) * 16 + v[2]) * 16 + v[3]) * 16 + v[4]) * 16 + v[5];
    TwoDigits(d[0..2]);
    TwoDigits(d[2..4]);
    TwoDigits(d[4..6]);
  }

  /** The byte arithmetic of `Decode` recovers the digit pairs. */
  lemma ChannelsOfSix(d: string)
    requires |d| == 6 && AllHex(d)
    ensures HexValue(d) / 65536 % 256 == HexValue(d[0..2])
    ensures HexValue(d) / 256 % 256 == HexValue(d[2..4])
    ensures HexValue(d) % 256 == HexValue(d[4..6])
  {
    HexValueSix(d);
    var hx, hy, hz := HexValue(d[0..2]), HexValue(d[2..4]), HexValue(d[4..6]);
    assert hx < 256 && hy < 256 && hz < 256 by {
      assert Pow16(2) == 256;
    }
    assert HexValue(d) == (hx * 256 + hy) * 256 + hz;
    DivMod256(hx * 256 + hy, hz);
    DivMod256(hx, hy);
    DivMod65536(hx, hy * 256 + hz);
    DivMod256(0, hx);
  }

  /* ---------------- Properties of decoding ---------------- */

  /** A three-digit colour decodes exactly like its doubled six-digit spelling ("#abc" as "#aabbcc"). */
  lemma ShortFormIsDoubled(h: string)
    requires |h| == 3 && AllHex(h)
    ensures WellFormed("#" + h) && WellFormed("#" + Double(h))
    ensures Decode("#" + h) == Decode("#" + Double(h))
  {
    LeadingHash(h);
    var e := Double(h);
    LeadingHash(e);
    assert SixDigits("#" + h) == e;
    assert SixDigits("#" + e) == e;
    var c1, c2 := Decode("#" + h), Decode("#" + e);
    assert c1.r == c2.r && c1.g == c2.g && c1.b == c2.b;
  }

  /** A digit written twice is worth seventeen times the digit. */
  lemma DoubledDigit(c: char)
    requires IsHexDigit(c)
    ensures AllHex([c, c]) && HexValue([c, c]) == 17 * DigitValue(c)
  {
    TwoDigits([c, c]);
  }

  /** The doubled spelling of a short colour has channels worth seventeen times each digit. */
  lemma DoubledChannels(h: string)
    requires |h| == 3 && AllHex(h)
    ensures |Double(h)| == 6 && AllHex(Double(h))
    ensures WellFormed("#" + Double(h))
    ensures Decode("#" + Double(h)) == Rgb(17 * DigitValue(h[0]), 17 * DigitValue(h[1]), 17 * DigitValue(h[2]))
  {
    var e := Double(h);
    assert e[0..2] == [h[0], h[0]] && e[2..4] == [h[1], h[1]] && e[4..6] == [h[2], h[2]];
    DoubledDigit(h[0]);
    DoubledDigit(h[1]);
    DoubledDigit(h[2]);
    DecodePlain(e);
  }

  /** Each digit of a short colour becomes one channel worth seventeen times the digit. */
  lemma ShortFormChannels(h: string)
    requires |h| == 3 && AllHex(h)
    ensures WellFormed("#" + h)
    ensures Decode("#" + h) == Rgb(17 * DigitValue(h[0]), 17 * DigitValue(h[1]), 17 * DigitValue(h[2]))
  {
    ShortFormIsDoubled(h);
    DoubledChannels(h);
  }

  /** The channels of a decoded colour are distinct exactly when the parsed values are: decoding is injective. */
  lemma DecodeInjective(x: string, y: string)
    requires WellFormed(x) && WellFormed(y)
    ensures Decode(x) == Decode(y) <==> HexValue(SixDigits(x)) == HexValue(SixDigits(y))
  {
    var cx, cy := Decode(x), Decode(y);
    if HexValue(SixDigits(x)) == HexValue(SixDigits(y)) {
      ChannelsOfSix(SixDigits(x));
      ChannelsOfSix(SixDigits(y));
    }
  }

  /** Two lower-case digits for a byte. */
  function ByteHex(n: nat): (s: string)
    requires IsByte(n)
    ensures |s| == 2 && AllHex(s)
  {
    [DigitChar(n / 16), DigitChar(n % 16)]
  }

  /** The six-digit spelling of a colour, the inverse of `Decode`. */
  function EncodeHex(c: Rgb): (s: string)
    requires IsByte(c.r) && IsByte(c.g) && IsByte(c.b)
    ensures |s| == 7 && s[0] == '#'
  {
    "#" + ByteHex(c.r) + ByteHex(c.g) + ByteHex(c.b)
  }

  lemma ByteHexValue(n: nat)
    requires IsByte(n)
    ensures HexValue(ByteHex(n)) == n
  {
    TwoDigits(ByteHex(n));
  }

  /** Decoding the spelling of any byte triple gives the triple back. */
  lemma DecodeEncode(c: Rgb)
    requires IsByte(c.r) && IsByte(c.g) && IsByte(c.b)
    ensures WellFormed(EncodeHex(c))
    ensures Decode(EncodeHex(c)) == c
  {
    var s := EncodeHex(c);
    var d := ByteHex(c.r) + ByteHex(c.g) + ByteHex(c.b);
    assert s == "#" + d;
    assert StripHash(s) == d by { assert s[1..] == d; }
    assert d[0..2] == ByteHex(c.r) && d[2..4] == ByteHex(c.g) && d[4..6] == ByteHex(c.b);
    ByteHexValue(c.r);
    ByteHexValue(c.g);
    ByteHexValue(c.b);
  }

  predicate IsLowerHex(s: string) {
    AllHex(s) && forall i :: 0 <= i < |s| ==> !('A' <= s[i] <= 'F')
  }

  lemma ByteHexOfDigits(p: string)
    requires |p| == 2 && IsLowerHex(p)
    ensures IsByte(HexValue(p)) && ByteHex(HexValue(p)) == p
  {
    TwoDigits(p);
    var n := HexValue(p);
    DivMod16(DigitValue(p[0]), DigitValue(p[1]));
    LowerDigitChar(p[0]);
    LowerDigitChar(p[1]);
  }

  lemma DivMod16(q: nat, r: nat)
    requires r < 16
    ensures (16 * q + r) / 16 == q && (16 * q + r) % 16 == r
  {
  }

  lemma LowerDigitChar(c: char)
    requires IsHexDigit(c) && !('A' <= c <= 'F')
    ensures DigitChar(DigitValue(c)) == c
  {
  }

  /** A `#` followed by six digits decodes to the values of its three digit pairs. */
  lemma DecodePlain(h: string)
    requires |h| == 6 && AllHex(h)
    ensures WellFormed("#" + h)
    ensures Decode("#" + h) == Rgb(HexValue(h[0..2]), HexValue(h[2..4]), HexValue(h[4..6]))
  {
    LeadingHash(h);
    assert WellFormed("#" + h);
    assert SixDigits("#" + h) == h;
    var c := Decode("#" + h);
    assert c.r == HexValue(h[0..2]) && c.g == HexValue(h[2..4]) && c.b == HexValue(h[4..6]);
  }

  /** A lower-case six-digit colour is spelled back exactly: decoding loses nothing. */
  lemma EncodeDecode(h: string)
    requires |h| == 6 && IsLowerHex(h)
    ensures WellFormed("#" + h)
    ensures EncodeHex(Decode("#" + h)) == "#" + h
  {
    var x, y, z := h[0..2], h[2..4], h[4..6];
    assert IsLowerHex(x) && IsLowerHex(y) && IsLowerHex(z);
    assert h == x + y + z;
    EncodePairs(x, y, z);
  }

  lemma EncodePairs(x: string, y: string, z: string)
    requires |x| == 2 && IsLowerHex(x)
    requires |y| == 2 && IsLowerHex(y)
    requires |z| == 2 && IsLowerHex(z)
    ensures WellFormed("#" + (x + y + z))
    ensures EncodeHex(Decode("#" + (x + y + z))) == "#" + (x + y + z)
  {
    var h := x + y + z;
    assert AllHex(h);
    assert h[0..2] == x && h[2..4] == y && h[4..6] == z;
    DecodePlain(h);
    var c := Decode("#" + h);
    assert c == Rgb(HexValue(x), HexValue(y), HexValue(z));
    ByteHexOfDigits(x);
    ByteHexOfDigits(y);
    ByteHexOfDigits(z);
    assert EncodeHex(c) == "#" + x + y + z;
    assert "#" + x + y + z == "#" + h;
  }

  /** The widget's default accent colour, "#ca25ae", is the triple (202, 37, 174). */
  lemma DefaultAccentColour()
    ensures WellFormed("#ca25ae")
    ensures Decode("#ca25ae") == Rgb(202, 37, 174)
  {
    var h := "ca25ae";
    assert "#ca25ae" == "#" + h;
    assert h[0..2] == "ca" && h[2..4] == "25" && h[4..6] == "ae";
    assert HexValue("ca") == 202 by { TwoDigits("ca"); }
    assert HexValue("25") == 37 by { TwoDigits("25"); }
    assert HexValue("ae") == 174 by { TwoDigits("ae"); }
    DecodePlain(h);
  }

  /* ---------------- Formatting ---------------- */

  /** A decimal digit's character. */
  function DecimalChar(d: nat): (c: char)
    requires d < 10
    ensures '0' <= c <= '9' && c as int - '0' as int == d
  {
    ('0' as int + d) as char
  }

  predicate AllDecimal(s: string) {
    forall i :: 0 <= i < |s| ==> '0' <= s[i] <= '9'
  }

  /** How JavaScript renders a non-negative integer inside a template literal. */
  function DecimalString(n: nat): (s: string)
    ensures |s| >= 1 && AllDecimal(s)
    ensures |s| > 1 ==> s[0] != '0'
    decreases n
  {
    if n < 10 then [DecimalChar(n)]
    else
      var init := DecimalString(n / 10);
      init + [DecimalChar(n % 10)]
  }

  /** Reading decimal digits back: the partner of `DecimalString`. */
  function ParseDecimal(s: string): nat
    requires AllDecimal(s)
  {
    if |s| == 0 then 0
    else ParseDecimal(s[..|s| - 1]) * 10 + (s[|s| - 1] as int - '0' as int)
  }

  lemma {:induction false} DecimalRoundTrip(n: nat)
    ensures ParseDecimal(DecimalString(n)) == n
    decreases n
  {
    if n >= 10 {
      var s := DecimalString(n);
      assert s[..|s| - 1] == DecimalString(n / 10);
      DecimalRoundTrip(n / 10);
    }
  }

  /** The rendered result; `alpha` is the text its value renders as. */
  datatype Rgba = Rgba(r: nat, g: nat, b: nat, alpha: string)

  /**
   * Line 14 of the source: the template `rgba(${r}, ${g}, ${b}, ${alpha})`.
   * Nothing is lost: the independent reader recovers the channels and the
   * alpha text.
   */
  function Format(c: Rgba): (s: string)
    ensures ParseRgba(s) == Some(c)
  {
    var s := "rgba(" + (DecimalString(c.r) + ", " + (DecimalString(c.g) + ", " + (DecimalString(c.b) + ", " + c.alpha))) + ")";
    ReadTemplate(c, s);
    s
  }

  /** The reader takes the template apart field by field. */
  lemma ReadTemplate(c: Rgba, s: string)
    requires s == "rgba(" + (DecimalString(c.r) + ", " + (DecimalString(c.g) + ", " + (DecimalString(c.b) + ", " + c.alpha))) + ")"
    ensures ParseRgba(s) == Some(c)
  {
    var dr, dg, db := DecimalString(c.r), DecimalString(c.g), DecimalString(c.b);
    var tail2 := db + ", " + c.alpha;
    var tail1 := dg + ", " + tail2;
    var inner := dr + ", " + tail1;
    assert |s| >= 6 && s[..5] == "rgba(" && s[|s| - 1] == ')' && s[5..|s| - 1] == inner;
    assert Field(inner) == Some((c.r, tail1)) by { FieldOfDecimal(c.r, tail1); }
    assert Field(tail1) == Some((c.g, tail2)) by { FieldOfDecimal(c.g, tail2); }
    assert Field(tail2) == Some((c.b, c.alpha)) by { FieldOfDecimal(c.b, c.alpha); }
    ReadParts(s, inner, tail1, tail2, c);
  }

  /** The reader's steps, one field after another. */
  lemma ReadParts(s: string, inner: string, tail1: string, tail2: string, c: Rgba)
    requires |s| >= 6 && s[..5] == "rgba(" && s[|s| - 1] == ')' && s[5..|s| - 1] == inner
    requires Field(inner) == Some((c.r, tail1))
    requires Field(tail1) == Some((c.g, tail2))
    requires Field(tail2) == Some((c.b, c.alpha))
    ensures ParseRgba(s) == Some(c)
  {
  }

  /** The source's default `alpha = 1`, as rendered. */
  const DefaultAlpha: string := "1"

  /**
   * `hexToRgba(hex, alpha)`, with the source's default for `alpha`. The
   * result is the one text that reads back as the decoded channels and the
   * given alpha.
   */
  function HexToRgba(hex: string, alpha: string := DefaultAlpha): (s: string)
    requires WellFormed(hex)
    ensures ParseRgba(s) == Some(Rgba(Decode(hex).r, Decode(hex).g, Decode(hex).b, alpha))
    ensures forall t :: ParseRgba(t) == Some(Rgba(Decode(hex).r, Decode(hex).g, Decode(hex).b, alpha)) ==> t == s
  {
    var c := Decode(hex);
    var out := Rgba(c.r, c.g, c.b, alpha);
    assert forall t :: ParseRgba(t) == Some(out) ==> t == Format(out) by {
      forall t | ParseRgba(t) == Some(out)
        ensures t == Format(out)
      {
        ParseRgbaOnlyFormat(t, out);
      }
    }
    Format(out)
  }

  /* ---------------- Reading an `rgba(...)` string back ---------------- */

  /** Length of the longest prefix of decimal digits. */
  function DigitSpan(s: string): (k: nat)
    ensures k <= |s| && AllDecimal(s[..k])
    ensures k < |s| ==> !('0' <= s[k] <= '9')
  {
    if |s| > 0 && '0' <= s[0] <= '9' then
      var k := 1 + DigitSpan(s[1..]);
      assert s[..k] == [s[0]] + s[1..][..k - 1];
      k
    else 0
  }

  /** One channel: digits without a leading zero (a lone `0` is fine), then the separator ", ". */
  function Field(s: string): Option<(nat, string)> {
    var k := DigitSpan(s);
    if k == 0 || (k > 1 && s[0] == '0') || |s| < k + 2 || s[k..k + 2] != ", " then None
    else Some((ParseDecimal(s[..k]), s[k + 2..]))
  }

  /** An independent reader for the text `Format` produces; the rest after the third field is the alpha. */
  function ParseRgba(s: string): Option<Rgba> {
    if |s| < 6 || s[..5] != "rgba(" || s[|s| - 1] != ')' then None
    else
      match Field(s[5..|s| - 1])
      case None => None
      case Some((r, s1)) =>
        match Field(s1)
        case None => None
        case Some((g, s2)) =>
          match Field(s2)
          case None => None
          case Some((b, alpha)) => Some(Rgba(r, g, b, alpha))
  }

  lemma {:induction false} DigitSpanOfDecimal(d: string, rest: string)
    requires AllDecimal(d)
    requires |rest| > 0 && !('0' <= rest[0] <= '9')
    ensures DigitSpan(d + rest) == |d|
  {
    if |d| > 0 {
      assert (d + rest)[1..] == d[1..] + rest;
      DigitSpanOfDecimal(d[1..], rest);
    } else {
      assert d + rest == rest;
    }
  }

  lemma FieldOfDecimal(n: nat, rest: string)
    ensures Field(DecimalString(n) + ", " + rest) == Some((n, rest))
  {
    var d := DecimalString(n);
    var s := d + ", " + rest;
    assert s == d + (", " + rest);
    DigitSpanOfDecimal(d, ", " + rest);
    assert s[..|d|] == d;
    assert s[|d|..|d| + 2] == ", ";
    assert s[|d| + 2..] == rest;
    DecimalRoundTrip(n);
  }

  /** A leading digit other than zero makes the value at least one. */
  lemma {:induction false} LeadingDigitPositive(d: string)
    requires |d| >= 1 && AllDecimal(d) && d[0] != '0'
    ensures ParseDecimal(d) >= 1
  {
    if |d| > 1 {
      var init := d[..|d| - 1];
      assert init[0] == d[0];
      LeadingDigitPositive(init);
    }
  }

  /** Digits without a leading zero are exactly how their value renders. */
  lemma {:induction false} CanonicalDecimal(d: string)
    requires |d| >= 1 && AllDecimal(d)
    requires |d| > 1 ==> d[0] != '0'
    ensures DecimalString(ParseDecimal(d)) == d
  {
    var init := d[..|d| - 1];
    var v := d[|d| - 1] as int - '0' as int;
    if |d| == 1 {
      assert init == [];
    } else {
      assert init[0] == d[0];
      LeadingDigitPositive(init);
      CanonicalDecimal(init);
      var n := ParseDecimal(d);
      assert n == ParseDecimal(init) * 10 + v;
      assert n / 10 == ParseDecimal(init) && n % 10 == v;
      assert d == init + [d[|d| - 1]];
    }
  }

  /** A field the reader accepts is the rendering of its value followed by ", ". */
  lemma FieldExact(s: string, n: nat, rest: string)
    requires Field(s) == Some((n, rest))
    ensures s == DecimalString(n) + ", " + rest
  {
    var k := DigitSpan(s);
    CanonicalDecimal(s[..k]);
    assert s == s[..k] + s[k..k + 2] + s[k + 2..];
  }

  /** The reader accepts nothing but the rendering: `Format` is the only text read as `c`. */
  lemma ParseRgbaOnlyFormat(s: string, c: Rgba)
    requires ParseRgba(s) == Some(c)
    ensures s == Format(c)
  {
    var inner := s[5..|s| - 1];
    var (r, s1) := Field(inner).value;
    var (g, s2) := Field(s1).value;
    var (b, alpha) := Field(s2).value;
    FieldExact(s2, b, alpha);
    FieldExact(s1, g, s2);
    FieldExact(inner, r, s1);
    Reassemble(s, inner, s1, s2, c);
  }

  /** Putting the fields back together gives the rendering. */
  lemma Reassemble(s: string, inner: string, s1: string, s2: string, c: Rgba)
    requires |s| >= 6 && s[..5] == "rgba(" && s[|s| - 1] == ')' && s[5..|s| - 1] == inner
    requires inner == DecimalString(c.r) + ", " + s1
    requires s1 == DecimalString(c.g) + ", " + s2
    requires s2 == DecimalString(c.b) + ", " + c.alpha
    ensures s == Format(c)
  {
    assert s == s[..5] + s[5..|s| - 1] + s[|s| - 1..];
  }

  /** Without an alpha argument the text ends in the source's default `1`. */
  lemma DefaultAlphaRendered(hex: string)
    requires WellFormed(hex)
    ensures var p := ParseRgba(HexToRgba(hex)); p.Some? && p.value.alpha == "1"
  {
  }
}

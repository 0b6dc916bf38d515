/**
 The background colour picker: the picker's `#rrggbb` value is cut into
 three two-character slices, each read with `parseInt(…, 16)` and divided
 by 255. `NaN` is `None`; numbers are exact reals.
 */
module HexColour {
  import opened Results
  import opened JsStrings

  /** The value of one hexadecimal digit, either case. */
  function HexDigit(c: char): (d: Option<nat>)
    ensures d.Some? <==> ('0' <= c <= '9' || 'a' <= c <= 'f' || 'A' <= c <= 'F')
    ensures d.Some? ==> d.value < 16
  {
    if '0' <= c <= '9' then Some(c as nat - '0' as nat)
    else if 'a' <= c <= 'f' then Some(c as nat - 'a' as nat + 10)
    else if 'A' <= c <= 'F' then Some(c as nat - 'A' as nat + 10)
    else None
  }

  predicate IsHexDigit(c: char) {
    HexDigit(c).Some?
  }

  predicate AllHex(s: string) {
    forall k :: 0 <= k < |s| ==> IsHexDigit(s[k])
  }

  function Pow16(n: nat): (p: nat)
    ensures p >= 1
  {
    if n == 0 then 1 else 16 * Pow16(n - 1)
  }

  /** Length of the longest prefix of hexadecimal digits. */
  function HexRun(s: string): (n: nat)
    ensures n <= |s| && AllHex(s[..n])
    ensures n < |s| ==> !IsHexDigit(s[n])
  {
    if |s| > 0 && IsHexDigit(s[0]) then
      var n := 1 + HexRun(s[1..]);
      assert forall k :: 1 <= k < n ==> s[..n][k] == s[1..][..n - 1][k - 1];
      n
    else 0
  }

  /** Big-endian value of a string of hexadecimal digits. */
  function HexValue(s: string): (v: nat)
    requires AllHex(s)
    ensures v < Pow16(|s|)
  {
    if |s| == 0 then 0
    else HexValue(s[..|s| - 1]) * 16 + HexDigit(s[|s| - 1]).value
  }

  /** The digits after an optional `0x`/`0X`, which radix 16 skips. */
  function DropHexPrefix(s: string): (t: string)
    ensures t == s || (|s| >= 2 && s[0] == '0' && (s[1] == 'x' || s[1] == 'X') && t == s[2..])
    ensures |s| >= 2 && s[0] == '0' && (s[1] == 'x' || s[1] == 'X') ==> t == s[2..]
  {
    if |s| >= 2 && s[0] == '0' && (s[1] == 'x' || s[1] == 'X') then s[2..] else s
  }

  /** `parseInt(s, 16)`: leading white space is skipped, then an optional
      sign, then an optional `0x`; the longest run of hexadecimal digits is
      read; no digits gives `NaN`. */
  function ParseIntHex(s: string): (r: Option<int>)
  {
    ReadSigned(TrimStart(s))
  }

  /** After the white space: an optional sign, then the digits. */
  function ReadSigned(t: string): (r: Option<int>) {
    if |t| > 0 && t[0] == '-' then
      match ReadDigits(t[1..])
      case None => None
      case Some(v) => Some(-v)
    else if |t| > 0 && t[0] == '+' then ReadDigits(t[1..])
    else ReadDigits(t)
  }

  /** After the sign: an optional `0x`, then the longest run of digits. */
  function ReadDigits(u: string): Option<int> {
    var digits := DropHexPrefix(u);
    var n := HexRun(digits);
    if n == 0 then None else Some(HexValue(digits[..n]))
  }

  /** A string with no hexadecimal digit anywhere reads as `NaN`,
      whatever white space, sign or `x` it holds. */
  lemma ParseIntHexNoDigits(s: string)
    requires forall k :: 0 <= k < |s| ==> !IsHexDigit(s[k])
    ensures ParseIntHex(s).None?
  {
    var t := TrimStart(s);
    var u := if |t| > 0 && (t[0] == '-' || t[0] == '+') then t[1..] else t;
    var digits := DropHexPrefix(u);
    if |digits| > 0 {
      var k := |s| - |digits|;
      assert u == t[|t| - |u|..];
      assert digits == u[|u| - |digits|..];
      assert digits[0] == u[|u| - |digits|] == t[|t| - |digits|] == s[k];
    }
  }

  /** Leading white space and line terminators are skipped. */
  lemma ParseIntHexSkipsSpace(s: string)
    ensures ParseIntHex(s) == ParseIntHex(TrimStart(s))
  {
    TrimStartIdempotent(s);
  }

  lemma TrimStartIdempotent(s: string)
    ensures TrimStart(TrimStart(s)) == TrimStart(s)
  {
    var t := TrimStart(s);
    if |t| > 0 {
      assert !IsWhiteSpace(t[0]);
    }
  }

  /** The digits read by `parseInt`, with neither white space nor a sign before them. */
  predicate Unsigned(u: string) {
    |u| > 0 ==> !IsWhiteSpace(u[0]) && u[0] != '-' && u[0] != '+'
  }

  /** A `-` negates the value read after it, a `+` leaves it as it is,
      and either gives `NaN` where the rest does. */
  lemma ParseIntHexSign(u: string, sign: char)
    requires Unsigned(u) && (sign == '-' || sign == '+')
    ensures ParseIntHex([sign] + u) == (if ParseIntHex(u).None? then None
                                        else if sign == '-' then Some(-ParseIntHex(u).value)
                                        else ParseIntHex(u))
  {
    SignedHasNoSpace(u, sign);
    UnsignedReadsDigits(u);
    assert ([sign] + u)[1..] == u;
  }

  lemma SignedHasNoSpace(u: string, sign: char)
    requires sign == '-' || sign == '+'
    ensures TrimStart([sign] + u) == [sign] + u
  {
    assert ([sign] + u)[0] == sign;
  }

  lemma UnsignedReadsDigits(u: string)
    requires Unsigned(u)
    ensures ParseIntHex(u) == ReadDigits(u)
  {
    if |u| > 0 {
      assert !IsWhiteSpace(u[0]);
    }
    assert TrimStart(u) == u;
  }

  /** A `0x` or `0X` prefix is skipped once: what follows is read as
      plain digits, and nothing readable after it gives `NaN`. */
  lemma ParseIntHexPrefix(u: string, prefix: string)
    requires prefix == "0x" || prefix == "0X"
    ensures ParseIntHex(prefix + u) == (if |u| > 0 && IsHexDigit(u[0]) then Some(HexValue(u[..HexRun(u)])) else None)
  {
    PrefixIsUnsigned(u, prefix);
    UnsignedReadsDigits(prefix + u);
    HexRunStarts(u);
  }

  lemma PrefixIsUnsigned(u: string, prefix: string)
    requires prefix == "0x" || prefix == "0X"
    ensures Unsigned(prefix + u) && DropHexPrefix(prefix + u) == u
  {
    var s := prefix + u;
    assert s[0] == '0' && s[1] == prefix[1];
    assert s[2..] == u;
  }

  lemma HexRunStarts(u: string)
    ensures HexRun(u) > 0 <==> |u| > 0 && IsHexDigit(u[0])
  {
  }

  /** `s.slice(from, to)` for non-negative bounds: both are clamped to the
      length and an empty string results when they cross. */
  function Slice(s: string, from: nat, to: nat): (r: string)
    ensures from <= to ==> |r| <= to - from
    ensures from <= to <= |s| ==> r == s[from..to]
    ensures |s| <= from || to <= from ==> r == []
    ensures from < |s| < to ==> r == s[from..]
  {
    var a := if from < |s| then from else |s|;
    var b := if to < |s| then to else |s|;
    if a < b then s[a..b] else []
  }

  /** The colour channel whose digits sit at `from` and `from + 1`:
      `parseInt(hex.slice(from, from + 2), 16) / 255`. */
  function Channel(hex: string, from: nat): (r: Option<real>)
    ensures from >= |hex| ==> r.None?
  {
    match ParseIntHex(Slice(hex, from, from + 2))
    case None => None
    case Some(v) => Some(Unit(v))
  }

  /** A channel read as a number over 255. */
  function Unit(v: int): real {
    v as real / 255.0
  }

  /** The three values given to `backgroundColor.value.set`. */
  datatype Rgb = Rgb(r: Option<real>, g: Option<real>, b: Option<real>)

  function HexToRgb(hex: string): (c: Rgb)
    ensures |hex| <= 1 ==> c.r.None?
    ensures |hex| <= 3 ==> c.g.None?
    ensures |hex| <= 5 ==> c.b.None?
  {
    Rgb(Channel(hex, 1), Channel(hex, 3), Channel(hex, 5))
  }

  /** A lower-case hexadecimal digit. */
  function HexChar(d: nat): (c: char)
    requires d < 16
    ensures HexDigit(c) == Some(d)
    ensures !('A' <= c <= 'F')
  {
    if d < 10 then ('0' as nat + d) as char else ('a' as nat + d - 10) as char
  }

  function TwoDigits(n: nat): (s: string)
    requires n < 256
    ensures |s| == 2 && AllHex(s)
  {
    [HexChar(n / 16), HexChar(n % 16)]
  }

  /** What a colour input reports: `#` and six lower-case hex digits. */
  function FormatHex(r: nat, g: nat, b: nat): (s: string)
    requires r < 256 && g < 256 && b < 256
    ensures |s| == 7 && s[0] == '#'
  {
    "#" + TwoDigits(r) + TwoDigits(g) + TwoDigits(b)
  }

  predicate IsColourValue(s: string) {
    && |s| == 7 && s[0] == '#'
    && (forall k :: 1 <= k < 7 ==> IsHexDigit(s[k]) && !('A' <= s[k] <= 'F'))
  }

  /** A string of hexadecimal digits not opening with `0x` reads as its
      big-endian value. */
  lemma ParseIntHexDigits(s: string)
    requires |s| > 0 && AllHex(s)
    ensures ParseIntHex(s) == Some(HexValue(s))
  {
    assert !IsWhiteSpace(s[0]);
    assert TrimStart(s) == s;
    if |s| >= 2 {
      assert IsHexDigit(s[1]);
    }
    ParseIntHexPlain(s);
    HexRunAll(s);
    assert s[..|s|] == s;
  }

  /** A string opening with a hex digit and no `0x` has no white space,
      sign or prefix to skip. */
  lemma ParseIntHexPlain(s: string)
    requires |s| > 0 && IsHexDigit(s[0])
    requires !(|s| >= 2 && s[0] == '0' && (s[1] == 'x' || s[1] == 'X'))
    ensures ParseIntHex(s) == Some(HexValue(s[..HexRun(s)]))
  {
    assert !IsWhiteSpace(s[0]);
    assert TrimStart(s) == s;
    assert DropHexPrefix(s) == s;
  }

  lemma {:induction false} HexRunAll(s: string)
    requires AllHex(s)
    ensures HexRun(s) == |s|
  {
    if |s| > 0 {
      HexRunAll(s[1..]);
    }
  }

  lemma TwoDigitValue(a: char, b: char)
    requires IsHexDigit(a) && IsHexDigit(b)
    ensures AllHex([a, b]) && HexValue([a, b]) == 16 * HexDigit(a).value + HexDigit(b).value
  {
    assert [a, b][..1] == [a];
    assert [a][..0] == [];
  }

  /** Reading stops at the first character that is not a hex digit,
      except that a lone `0` followed by `x` or `X` is a prefix. */
  lemma ParseIntHexStops(d: string, rest: string)
    requires |d| > 0 && AllHex(d)
    requires |rest| > 0 ==> !IsHexDigit(rest[0])
    requires !(d == "0" && |rest| > 0 && (rest[0] == 'x' || rest[0] == 'X'))
    ensures ParseIntHex(d + rest) == Some(HexValue(d))
  {
    var s := d + rest;
    assert s[0] == d[0];
    if |s| >= 2 {
      if |d| >= 2 {
        assert s[1] == d[1];
        assert IsHexDigit(d[1]);
      } else {
        assert s[1] == rest[0];
        assert d == [d[0]];
      }
    }
    ParseIntHexPlain(s);
    HexRunStops(d, rest);
    assert s[..|d|] == d;
  }

  lemma {:induction false} HexRunStops(d: string, rest: string)
    requires AllHex(d)
    requires |rest| > 0 ==> !IsHexDigit(rest[0])
    ensures HexRun(d + rest) == |d|
  {
    if |d| > 0 {
      assert (d + rest)[1..] == d[1..] + rest;
      HexRunStops(d[1..], rest);
    } else {
      assert d + rest == rest;
    }
  }

  /** The largest value two characters can spell: `ff`. */
  lemma TwoCharsAtMost255(s: string)
    requires |s| <= 2
    ensures ParseIntHex(s).Some? ==> -15 <= ParseIntHex(s).value <= 255
  {
    var t := TrimStart(s);
    var unsigned := if |t| > 0 && (t[0] == '-' || t[0] == '+') then t[1..] else t;
    var digits := DropHexPrefix(unsigned);
    var n := HexRun(digits);
    if n > 0 {
      assert Pow16(2) == 256;
      assert Pow16(1) == 16;
      if |t| > 0 && t[0] == '-' {
        assert |digits| <= 1;
        assert HexValue(digits[..n]) < 16;
      } else {
        assert |digits| <= 2;
        assert HexValue(digits[..n]) < Pow16(n);
      }
    }
  }

  /** Whatever string the picker reports, every channel it sets is NaN
      or lies in [-1/17, 1]: two characters read at most `ff` and at least
      `-f`. */
  lemma ChannelRange(hex: string, from: nat)
    ensures Channel(hex, from).Some? ==> -1.0 / 17.0 <= Channel(hex, from).value <= 1.0
  {
    TwoCharsAtMost255(Slice(hex, from, from + 2));
  }

  /** The byte a pair of hex digits spells. */
  function ChannelByte(s: string, i: nat): (n: nat)
    requires i + 2 <= |s| && IsHexDigit(s[i]) && IsHexDigit(s[i + 1])
    ensures n < 256
  {
    16 * HexDigit(s[i]).value + HexDigit(s[i + 1]).value
  }

  lemma PairSlice(s: string, i: nat)
    requires i + 2 <= |s|
    ensures Slice(s, i, i + 2) == [s[i], s[i + 1]]
  {
  }

  /** Two hex digits at `i` give the channel their byte over 255. */
  lemma ChannelOfPair(s: string, i: nat)
    requires i + 2 <= |s| && IsHexDigit(s[i]) && IsHexDigit(s[i + 1])
    ensures Channel(s, i) == Some(Unit(ChannelByte(s, i)))
  {
    PairSlice(s, i);
    PairValue(Slice(s, i, i + 2), s[i], s[i + 1]);
  }

  lemma PairValue(p: string, a: char, b: char)
    requires p == [a, b] && IsHexDigit(a) && IsHexDigit(b)
    ensures ParseIntHex(p) == Some(16 * HexDigit(a).value + HexDigit(b).value)
  {
    TwoDigitValue(a, b);
    ParseIntHexDigits(p);
  }

  lemma ByteOver255(n: nat)
    requires n < 256
    ensures 0.0 <= Unit(n) <= 1.0
  {
  }

  /** A colour input value gives channels in [0, 1]. */
  lemma ColourValueChannels(s: string)
    requires IsColourValue(s)
    ensures var c := HexToRgb(s);
            c.r.Some? && c.g.Some? && c.b.Some?
            && 0.0 <= c.r.value <= 1.0 && 0.0 <= c.g.value <= 1.0 && 0.0 <= c.b.value <= 1.0
  {
    ChannelOfPair(s, 1);
    ChannelOfPair(s, 3);
    ChannelOfPair(s, 5);
    ByteOver255(ChannelByte(s, 1));
    ByteOver255(ChannelByte(s, 3));
    ByteOver255(ChannelByte(s, 5));
  }

  lemma FormatFields(r: nat, g: nat, b: nat)
    requires r < 256 && g < 256 && b < 256
    ensures var s := FormatHex(r, g, b);
            && s[1] == HexChar(r / 16) && s[2] == HexChar(r % 16)
            && s[3] == HexChar(g / 16) && s[4] == HexChar(g % 16)
            && s[5] == HexChar(b / 16) && s[6] == HexChar(b % 16)
  {
  }

  /** The three channels of a colour input value are its bytes over 255. */
  lemma ColourValueRgb(s: string)
    requires IsColourValue(s)
    ensures HexToRgb(s) == Rgb(Some(Unit(ChannelByte(s, 1))),
                               Some(Unit(ChannelByte(s, 3))),
                               Some(Unit(ChannelByte(s, 5))))
  {
    ChannelOfPair(s, 1);
    ChannelOfPair(s, 3);
    ChannelOfPair(s, 5);
  }

  lemma RgbOfBytes(s: string, r: nat, g: nat, b: nat)
    requires IsColourValue(s)
    requires ChannelByte(s, 1) == r && ChannelByte(s, 3) == g && ChannelByte(s, 5) == b
    ensures HexToRgb(s) == Rgb(Some(Unit(r)), Some(Unit(g)), Some(Unit(b)))
  {
    ChannelOfPair(s, 1);
    ChannelOfPair(s, 3);
    ChannelOfPair(s, 5);
  }

  lemma FormatIsColourValue(r: nat, g: nat, b: nat)
    requires r < 256 && g < 256 && b < 256
    ensures IsColourValue(FormatHex(r, g, b))
    ensures ChannelByte(FormatHex(r, g, b), 1) == r
    ensures ChannelByte(FormatHex(r, g, b), 3) == g
    ensures ChannelByte(FormatHex(r, g, b), 5) == b
  {
    FormatFields(r, g, b);
  }

  /** Picking a colour sets the channels it was formatted from, over 255. */
  lemma FormatThenParse(r: nat, g: nat, b: nat)
    requires r < 256 && g < 256 && b < 256
    ensures IsColourValue(FormatHex(r, g, b))
    ensures HexToRgb(FormatHex(r, g, b)) == Rgb(Some(Unit(r)), Some(Unit(g)), Some(Unit(b)))
  {
    FormatIsColourValue(r, g, b);
    RgbOfBytes(FormatHex(r, g, b), r, g, b);
  }

  lemma DigitOfHexChar(c: char)
    requires IsHexDigit(c) && !('A' <= c <= 'F')
    ensures HexChar(HexDigit(c).value) == c
  {
  }

  lemma PairOfByte(s: string, i: nat)
    requires i + 2 <= |s| && IsHexDigit(s[i]) && IsHexDigit(s[i + 1])
    requires !('A' <= s[i] <= 'F') && !('A' <= s[i + 1] <= 'F')
    ensures HexChar(ChannelByte(s, i) / 16) == s[i] && HexChar(ChannelByte(s, i) % 16) == s[i + 1]
  {
    DigitOfHexChar(s[i]);
    DigitOfHexChar(s[i + 1]);
  }

  /** Every colour input value is the formatting of the bytes its channels
      are read as, so parsing loses nothing. */
  lemma ParseThenFormat(s: string)
    requires IsColourValue(s)
    ensures var r, g, b := ChannelByte(s, 1), ChannelByte(s, 3), ChannelByte(s, 5);
            FormatHex(r, g, b) == s
            && HexToRgb(s) == Rgb(Some(Unit(r)), Some(Unit(g)), Some(Unit(b)))
  {
    var r, g, b := ChannelByte(s, 1), ChannelByte(s, 3), ChannelByte(s, 5);
    PairOfByte(s, 1);
    PairOfByte(s, 3);
    PairOfByte(s, 5);
    FormatFields(r, g, b);
    var f := FormatHex(r, g, b);
    assert forall k :: 0 <= k < 7 ==> f[k] == s[k];
    ColourValueRgb(s);
  }

  /** The picker's default `#000000` and white `#ffffff`. */
  lemma WhiteBytes(white: string)
    requires white == "#ffffff"
    ensures IsColourValue(white)
    ensures ChannelByte(white, 1) == 255 && ChannelByte(white, 3) == 255 && ChannelByte(white, 5) == 255
  {
    assert HexDigit('f') == Some(15);
    assert forall k :: 1 <= k < 7 ==> white[k] == 'f';
  }

  lemma BlackAndWhite(black: string, white: string)
    requires black == "#000000" && white == "#ffffff"
    ensures HexToRgb(black) == Rgb(Some(0.0), Some(0.0), Some(0.0))
    ensures HexToRgb(white) == Rgb(Some(1.0), Some(1.0), Some(1.0))
  {
    RgbOfBytes(black, 0, 0, 0);
    WhiteBytes(white);
    RgbOfBytes(white, 255, 255, 255);
  }

  /** `0.1` is no whole number over 255. */
  lemma UnitNotTenth(n: int)
    ensures Unit(n) != 0.1
  {
  }

  /** The Dark Blue and Dark Purple preset buttons set channels of 0.1,
      which no picked colour can produce: 0.1 × 255 is 25.5. */
  lemma TenthNotPickable(s: string)
    requires IsColourValue(s)
    ensures HexToRgb(s).r != Some(0.1) && HexToRgb(s).g != Some(0.1) && HexToRgb(s).b != Some(0.1)
  {
    ColourValueRgb(s);
    UnitNotTenth(ChannelByte(s, 1));
    UnitNotTenth(ChannelByte(s, 3));
    UnitNotTenth(ChannelByte(s, 5));
  }
}

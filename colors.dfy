/** The hexadecimal colour helpers of gradia/utils/colors.py, which the
    gradient and solid backgrounds share: `"#rrggbb"` in, three channel
    integers out, and back. */
module Colors {
  import opened Wrappers
  import opened Numbers
  import opened Strings

  /** A colour as three channel integers. */
  datatype Rgb = Rgb(r: int, g: int, b: int)

  /** Python's `s[i:j]` for `0 <= i <= j`: the slice is cut short at the end
      of the string and is empty past it. */
  function Slice(s: string, i: nat, j: nat): (r: string)
    requires i <= j
    ensures |r| == if i >= |s| then 0 else Min(j, |s|) - i
    ensures i < |s| ==> r == s[i..Min(j, |s|)]
  {
    if i >= |s| then "" else s[i..Min(j, |s|)]
  }

  /** `hex_to_rgb`: every leading '#' is dropped, then characters 0-2, 2-4
      and 4-6 are each read by `int(..., 16)`; the first one that does not
      read raises `ValueError`. */
  function HexToRgb(hex: string): Result<Rgb> {
    var t := LStripChar(hex, '#');
    match (ParseInt(Slice(t, 0, 2), 16), ParseInt(Slice(t, 2, 4), 16), ParseInt(Slice(t, 4, 6), 16))
    case (Some(r), Some(g), Some(b)) => Ok(Rgb(r, g, b))
    case _ => Err(ValueError)
  }

  /** `rgba_to_hex`: each channel (0..1) times 255, truncated, as two
      lower-case hex digits after a '#'. */
  function RgbaToHex(red: real, green: real, blue: real): string {
    "#" + Hex02(Trunc(red * 255.0)) + Hex02(Trunc(green * 255.0)) + Hex02(Trunc(blue * 255.0))
  }

  /** `"#%02x%02x%02x"` of three integers. */
  function HexText(c: Rgb): string {
    "#" + Hex02(c.r) + Hex02(c.g) + Hex02(c.b)
  }

  predicate IsByte(n: int) { 0 <= n < 256 }

  predicate IsLowerHex(c: char) { '0' <= c <= '9' || 'a' <= c <= 'f' }

  // ---------------------------------------------------------------------
  // Reading

  /** Leading '#'s do not matter: one more is stripped like the others. */
  lemma ExtraHash(s: string)
    ensures HexToRgb("#" + s) == HexToRgb(s)
  {
    assert ("#" + s)[1..] == s;
    assert LStripChar("#" + s, '#') == LStripChar(s, '#');
  }

  /** With at most four characters after the '#'s, the third field is
      empty and the text does not read. */
  lemma ShortHexFails(hex: string)
    requires |LStripChar(hex, '#')| <= 4
    ensures HexToRgb(hex) == Err(ValueError)
  {
    var t := LStripChar(hex, '#');
    assert Slice(t, 4, 6) == "";
    EmptyNotInt();
  }

  lemma EmptyNotInt()
    ensures ParseInt("", 16) == None
  {
    assert LStrip("") == "";
    assert RStrip("") == "";
  }

  /** Six hex digits after the '#'s read as their three pairs, whatever
      follows them. */
  lemma SixDigits(hex: string)
    requires var t := LStripChar(hex, '#'); |t| >= 6 && forall i :: 0 <= i < 6 ==> IsHexDigit(t[i])
    ensures var t := LStripChar(hex, '#');
      HexToRgb(hex) == Ok(Rgb(PairValue(t[0], t[1]), PairValue(t[2], t[3]), PairValue(t[4], t[5])))
  {
    var t := LStripChar(hex, '#');
    PairReads(t, 0);
    PairReads(t, 2);
    PairReads(t, 4);
  }

  /** The value of two hex digits. */
  function PairValue(hi: char, lo: char): int {
    DigitValue(hi) * 16 + DigitValue(lo)
  }

  /** Two hex digits read as their value. */
  lemma PairReads(t: string, i: nat)
    requires i + 2 <= |t| && IsHexDigit(t[i]) && IsHexDigit(t[i + 1])
    ensures ParseInt(Slice(t, i, i + 2), 16) == Some(PairValue(t[i], t[i + 1]))
  {
    var p := t[i..i + 2];
    var q := p[..1];
    assert q == [t[i]] && q[..0] == "" && p[1] == t[i + 1];
    assert AllDigits(q, 16);
    assert DigitsValue(q, 16) == DigitValue(t[i]);
    assert AllDigits(p, 16);
    assert Slice(t, i, i + 2) == p;
    ParseDigits(p, 16);
  }

  /** Every channel that reads is between -15 ("-f") and 255 ("ff"): two
      characters hold at most two digits, or a sign and one digit. */
  lemma HexToRgbRange(hex: string)
    requires HexToRgb(hex).Ok?
    ensures var c := HexToRgb(hex).value; -15 <= c.r <= 255 && -15 <= c.g <= 255 && -15 <= c.b <= 255
  {
    var t := LStripChar(hex, '#');
    PairRange(Slice(t, 0, 2));
    PairRange(Slice(t, 2, 4));
    PairRange(Slice(t, 4, 6));
  }

  /** A text of at most two characters reads as a base-16 integer in -15..255. */
  lemma PairRange(s: string)
    requires |s| <= 2 && ParseInt(s, 16).Some?
    ensures -15 <= ParseInt(s, 16).value <= 255
  {
    var t := Strip(s);
    assert |t| <= |s|;
    var body := if t[0] == '-' || t[0] == '+' then t[1..] else t;
    DigitsBound(body);
  }

  /** One hex digit is below 16, two are below 256. */
  lemma DigitsBound(s: string)
    requires |s| <= 2 && AllDigits(s, 16)
    ensures DigitsValue(s, 16) < if |s| <= 1 then 16 else 256
  {
    if s != "" {
      var p := s[..|s| - 1];
      assert IsHexDigit(s[|s| - 1]);
      if p != "" {
        assert p[..|p| - 1] == "";
        assert IsHexDigit(p[|p| - 1]);
      }
    }
  }

  // ---------------------------------------------------------------------
  // Writing and round trips

  /** Two lower-case hex digits for every byte value. */
  lemma Hex02Digits(n: int)
    requires IsByte(n)
    ensures var h := Hex02(n); |h| == 2 && IsLowerHex(h[0]) && IsLowerHex(h[1])
  {
    if n < 16 {
      assert Hex02(n) == "0" + [HexDigitChar(n)];
    } else {
      assert NatToHex(n / 16) == [HexDigitChar(n / 16)];
      assert Hex02(n) == [HexDigitChar(n / 16), HexDigitChar(n % 16)];
    }
  }

  /** Channels in 0..1 become bytes. */
  lemma ChannelByte(x: real)
    requires 0.0 <= x <= 1.0
    ensures IsByte(Trunc(x * 255.0))
  {
  }

  /** For channels in 0..1 the text is '#' and six lower-case hex digits. */
  lemma RgbaToHexShape(red: real, green: real, blue: real)
    requires 0.0 <= red <= 1.0 && 0.0 <= green <= 1.0 && 0.0 <= blue <= 1.0
    ensures var h := RgbaToHex(red, green, blue);
      |h| == 7 && h[0] == '#' && forall i :: 1 <= i < 7 ==> IsLowerHex(h[i])
  {
    ChannelByte(red);
    ChannelByte(green);
    ChannelByte(blue);
    var x, y, z := Hex02(Trunc(red * 255.0)), Hex02(Trunc(green * 255.0)), Hex02(Trunc(blue * 255.0));
    Hex02Digits(Trunc(red * 255.0));
    Hex02Digits(Trunc(green * 255.0));
    Hex02Digits(Trunc(blue * 255.0));
    var h := RgbaToHex(red, green, blue);
    assert h == "#" + x + y + z;
    assert h[1] == x[0] && h[2] == x[1] && h[3] == y[0] && h[4] == y[1] && h[5] == z[0] && h[6] == z[1];
  }

  /** A byte written with `%02x` reads back by `int(..., 16)`. */
  lemma PairRoundTrip(t: string, i: nat, n: int)
    requires IsByte(n) && i + 2 <= |t| && t[i..i + 2] == Hex02(n)
    ensures ParseInt(Slice(t, i, i + 2), 16) == Some(n)
  {
    Hex02RoundTrip(n);
    assert Slice(t, i, i + 2) == t[i..i + 2];
  }

  /** The '#' of `"#%02x%02x%02x"` is the only one stripped. */
  lemma HexTextStripped(c: Rgb, rest: string)
    requires IsByte(c.r)
    ensures LStripChar(HexText(c) + rest, '#') == Hex02(c.r) + Hex02(c.g) + Hex02(c.b) + rest
  {
    Hex02Digits(c.r);
    var t := Hex02(c.r) + Hex02(c.g) + Hex02(c.b) + rest;
    assert HexText(c) + rest == "#" + t;
    assert ("#" + t)[1..] == t;
    assert t[0] == Hex02(c.r)[0];
  }

  /** Three two-character pieces at offsets 0, 2 and 4. */
  lemma Pieces(x: string, y: string, z: string, rest: string)
    requires |x| == 2 && |y| == 2 && |z| == 2
    ensures var t := x + y + z + rest; t[0..2] == x && t[2..4] == y && t[4..6] == z
  {
  }

  /** `hex_to_rgb("#%02x%02x%02x" % c) == c` for bytes, and characters after
      the sixth digit are ignored. */
  lemma HexRoundTrip(c: Rgb, rest: string)
    requires IsByte(c.r) && IsByte(c.g) && IsByte(c.b)
    ensures HexToRgb(HexText(c) + rest) == Ok(c)
  {
    var t := Hex02(c.r) + Hex02(c.g) + Hex02(c.b) + rest;
    HexTextStripped(c, rest);
    Hex02Digits(c.r);
    Hex02Digits(c.g);
    Hex02Digits(c.b);
    Pieces(Hex02(c.r), Hex02(c.g), Hex02(c.b), rest);
    PairRoundTrip(t, 0, c.r);
    PairRoundTrip(t, 2, c.g);
    PairRoundTrip(t, 4, c.b);
  }

  /** What `rgba_to_hex` writes for channels in 0..1, `hex_to_rgb` reads
      back as the truncated channels. */
  lemma RgbaRoundTrip(red: real, green: real, blue: real)
    requires 0.0 <= red <= 1.0 && 0.0 <= green <= 1.0 && 0.0 <= blue <= 1.0
    ensures HexToRgb(RgbaToHex(red, green, blue))
         == Ok(Rgb(Trunc(red * 255.0), Trunc(green * 255.0), Trunc(blue * 255.0)))
  {
    ChannelByte(red);
    ChannelByte(green);
    ChannelByte(blue);
    var c := Rgb(Trunc(red * 255.0), Trunc(green * 255.0), Trunc(blue * 255.0));
    assert RgbaToHex(red, green, blue) + "" == HexText(c);
    HexRoundTrip(c, "");
  }
}

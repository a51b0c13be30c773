/** The solid-colour background of gradia/graphics/solid.py: a colour text
    and an opacity, the fill colour they give, and the swatches of the
    colour picker, whose eight-digit entries carry the opacity in front. */
module Solid {
  import opened Wrappers
  import opened Numbers
  import opened Strings
  import Colors

  /** The four channels every pixel of the background gets. */
  datatype Rgba = Rgba(r: int, g: int, b: int, a: int)

  /** A picker swatch: the colour text and the opacity it selects. */
  datatype Swatch = Swatch(color: string, alpha: real)

  /** How a swatch button is painted: the checkerboard of a transparent
      colour, or the colour itself. */
  datatype Style = Checkerboard | Plain(color: string, alpha: real)

  /** The grid position of a swatch button. */
  datatype Cell = Cell(row: int, column: int)

  /** `columns` of `_common_colors_row`. */
  const Columns := 4

  /** `COMMON_COLORS`: opacity first, then red, green and blue. */
  const CommonColors: seq<string> := [
    "#ffffffff", "#ff000000", "#fff66151", "#ff33d17a",
    "#ff3584e4", "#fff6d32d", "#ffc061cb", "#00000000"
  ]

  /** `get_name`; `alphaText` is Python's rendering of the opacity. */
  function SolidName(color: string, alphaText: string): string {
    "solid-" + color + "-" + alphaText
  }

  /** `int(alpha * 255)`. */
  function AlphaValue(alpha: real): int {
    Trunc(alpha * 255.0)
  }

  /** `prepare_image`: the colour of the whole picture, or the `ValueError`
      of `_hex_to_rgb` (the same code as `hex_to_rgb`). */
  function FillColor(color: string, alpha: real): Result<Rgba> {
    match Colors.HexToRgb(color)
    case Ok(c) => Ok(Rgba(c.r, c.g, c.b, AlphaValue(alpha)))
    case Err(e) => Err(e)
  }

  /** The split of a `COMMON_COLORS` entry: with eight characters after the
      '#'s, the first two are the opacity over 255 and the other six the
      colour; any other length is the colour at full opacity. An opacity
      that does not read raises `ValueError`. */
  function SplitEntry(entry: string): Result<Swatch> {
    var t := LStripChar(entry, '#');
    if |t| == 8 then
      match ParseInt(Colors.Slice(t, 0, 2), 16)
      case Some(v) => Ok(Swatch("#" + t[2..], v as real / 255.0))
      case None => Err(ValueError)
    else Ok(Swatch("#" + t, 1.0))
  }

  /** The CSS choice: an opacity of exactly 0 gets the checkerboard. */
  function StyleOf(s: Swatch): Style {
    if s.alpha == 0.0 then Checkerboard else Plain(s.color, s.alpha)
  }

  /** `(index // columns, index % columns)`. */
  function CellOf(index: nat): Cell {
    Cell(index / Columns, index % Columns)
  }

  /** `SolidBackground`. */
  class SolidBackground {
    var color: string
    var alpha: real

    constructor(color: string, alpha: real)
      ensures this.color == color && this.alpha == alpha
    {
      this.color := color;
      this.alpha := alpha;
    }

    function Name(alphaText: string): string
      reads this
    {
      SolidName(color, alphaText)
    }

    function Prepare(): Result<Rgba>
      reads this
    {
      FillColor(color, alpha)
    }
  }

  /** The colour picker's handlers, which change the background they edit. */
  class SolidSelector {
    const solid: SolidBackground

    constructor(solid: SolidBackground)
      ensures this.solid == solid
    {
      this.solid := solid;
    }

    /** `_on_common_color_clicked`: the swatch's colour and opacity. */
    method OnCommonColorClicked(s: Swatch)
      modifies solid
      ensures solid.color == s.color && solid.alpha == s.alpha
    {
      solid.color := s.color;
      solid.alpha := s.alpha;
    }

    /** `_on_color_changed`: the picked channels (0..1) as `#rrggbb` and the
        picked opacity. The new colour reads back as the truncated channels. */
    method OnColorChanged(red: real, green: real, blue: real, alpha: real)
      modifies solid
      requires 0.0 <= red <= 1.0 && 0.0 <= green <= 1.0 && 0.0 <= blue <= 1.0
      ensures solid.color == Colors.RgbaToHex(red, green, blue) && solid.alpha == alpha
      ensures Colors.HexToRgb(solid.color)
           == Ok(Colors.Rgb(Trunc(red * 255.0), Trunc(green * 255.0), Trunc(blue * 255.0)))
    {
      solid.color := Colors.RgbaToHex(red, green, blue);
      solid.alpha := alpha;
      Colors.RgbaRoundTrip(red, green, blue);
    }
  }

  // ---------------------------------------------------------------------
  // Fill colour and name

  /** A pair of hex digits is a byte. */
  lemma PairByte(hi: char, lo: char)
    requires IsHexDigit(hi) && IsHexDigit(lo)
    ensures Colors.IsByte(Colors.PairValue(hi, lo))
  {
  }

  /** Six hex digits after the '#'s give three bytes, read pair by pair, and
      an opacity in 0..1 gives a fourth. */
  lemma FillBytes(color: string, alpha: real)
    requires var t := LStripChar(color, '#'); |t| >= 6 && forall i :: 0 <= i < 6 ==> IsHexDigit(t[i])
    requires 0.0 <= alpha <= 1.0
    ensures var t := LStripChar(color, '#');
      FillColor(color, alpha) == Ok(Rgba(Colors.PairValue(t[0], t[1]), Colors.PairValue(t[2], t[3]),
                                         Colors.PairValue(t[4], t[5]), AlphaValue(alpha)))
    ensures var f := FillColor(color, alpha).value;
      Colors.IsByte(f.r) && Colors.IsByte(f.g) && Colors.IsByte(f.b) && Colors.IsByte(f.a)
  {
    var t := LStripChar(color, '#');
    Colors.SixDigits(color);
    PairByte(t[0], t[1]);
    PairByte(t[2], t[3]);
    PairByte(t[4], t[5]);
    Colors.ChannelByte(alpha);
  }

  /** A colour that does not read gives `ValueError`, whatever the opacity. */
  lemma FillFails(color: string, alpha: real)
    requires Colors.HexToRgb(color).Err?
    ensures FillColor(color, alpha) == Err(ValueError)
  {
  }

  /** Splitting a name on '-' gives "solid", the colour and the opacity text
      when neither holds a '-'. */
  lemma NameFields(color: string, alphaText: string)
    requires '-' !in color && '-' !in alphaText
    ensures Split(SolidName(color, alphaText), '-') == ["solid", color, alphaText]
  {
    NameShape(color, alphaText);
    SplitAfter("solid", color + ['-'] + alphaText, '-');
    SplitAfter(color, alphaText, '-');
    assert ["solid"] + ([color] + [alphaText]) == ["solid", color, alphaText];
  }

  lemma NameShape(color: string, alphaText: string)
    ensures "solid-" + color + "-" + alphaText == "solid" + ['-'] + (color + ['-'] + alphaText)
  {
    assert "solid-" == "solid" + ['-'];
  }

  // ---------------------------------------------------------------------
  // Swatches

  /** An eight-digit entry whose first two characters are hex digits has the
      opacity `int(first two, 16) / 255`, in 0..1, and the last six as its
      colour. */
  lemma EightDigits(entry: string)
    requires var t := LStripChar(entry, '#'); |t| == 8 && IsHexDigit(t[0]) && IsHexDigit(t[1])
    ensures var t := LStripChar(entry, '#');
      SplitEntry(entry) == Ok(Swatch("#" + t[2..], Colors.PairValue(t[0], t[1]) as real / 255.0))
    ensures 0.0 <= SplitEntry(entry).value.alpha <= 1.0
  {
    var t := LStripChar(entry, '#');
    Colors.PairReads(t, 0);
    PairByte(t[0], t[1]);
  }

  /** An entry of any other length keeps all its characters as the colour,
      at full opacity. */
  lemma OtherLengths(entry: string)
    requires |LStripChar(entry, '#')| != 8
    ensures SplitEntry(entry) == Ok(Swatch("#" + LStripChar(entry, '#'), 1.0))
  {
  }

  /** An eight-digit entry is painted as a checkerboard exactly when its
      opacity digits are "00". */
  lemma TransparentEntry(entry: string)
    requires var t := LStripChar(entry, '#'); |t| == 8 && IsHexDigit(t[0]) && IsHexDigit(t[1])
    ensures SplitEntry(entry).Ok?
    ensures var t := LStripChar(entry, '#');
      StyleOf(SplitEntry(entry).value).Checkerboard? <==> t[0] == '0' && t[1] == '0'
  {
    var t := LStripChar(entry, '#');
    EightDigits(entry);
    DigitZero(t[0]);
    DigitZero(t[1]);
  }

  /** '0' is the only hex digit worth nothing. */
  lemma DigitZero(c: char)
    requires IsHexDigit(c)
    ensures DigitValue(c) == 0 <==> c == '0'
  {
  }

  /** Only the checkerboard hides the colour: every other swatch is painted
      with its own colour and opacity. */
  lemma StyleKeeps(s: Swatch)
    ensures StyleOf(s).Checkerboard? <==> s.alpha == 0.0
    ensures StyleOf(s).Plain? ==> StyleOf(s).color == s.color && StyleOf(s).alpha == s.alpha
  {
  }

  /** An entry "#ff" + six characters is its last six at full opacity. */
  lemma OpaqueEntry(entry: string, rest: string)
    requires entry == "#ff" + rest && |rest| == 6
    ensures SplitEntry(entry) == Ok(Swatch("#" + rest, 1.0))
  {
    var t := "ff" + rest;
    assert entry == "#" + t;
    assert LStripChar(entry, '#') == LStripChar(t, '#');
    assert t[0] == 'f';
    assert t[2..] == rest;
    EightDigits(entry);
  }

  /** The first seven common colours are opaque and painted as themselves;
      the last is fully transparent and painted as a checkerboard. */
  lemma CommonSwatches(i: nat)
    requires i < |CommonColors|
    ensures SplitEntry(CommonColors[i]).Ok?
    ensures i < 7 ==> SplitEntry(CommonColors[i]).value.alpha == 1.0
    ensures StyleOf(SplitEntry(CommonColors[i]).value).Checkerboard? <==> i == 7
  {
    if i < 7 {
      var rest := CommonColors[i][3..];
      assert CommonColors[i] == "#ff" + rest;
      OpaqueEntry(CommonColors[i], rest);
    } else {
      var t := "00000000";
      assert CommonColors[7] == "#" + t;
      assert LStripChar("#" + t, '#') == LStripChar(t, '#');
      TransparentEntry("#" + t);
    }
  }

  // ---------------------------------------------------------------------
  // Grid

  /** Swatch `i` goes to row `i // 4`, column `i % 4`: four to a row, filled
      left to right, and no two swatches share a cell. */
  lemma CellLayout(i: nat, j: nat)
    ensures 0 <= CellOf(i).column < Columns && CellOf(i).row >= 0
    ensures i == CellOf(i).row * Columns + CellOf(i).column
    ensures CellOf(i) == CellOf(j) ==> i == j
  {
  }

  /** The eight common colours fill two full rows. */
  lemma CommonGrid(i: nat)
    requires i < |CommonColors|
    ensures CellOf(i).row < 2
    ensures CellOf(i).row == 0 <==> i < 4
  {
  }
}

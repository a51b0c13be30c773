/** Text captions of gradia/graphics/text.py (and its earlier copy
    src/graphics/text.py): gravity normalisation, gravity-based placement,
    the `rgb(...)` colour parse, and the selector that edits a caption. Font
    loading and the text measurement are outside the model: the text's
    width and height are inputs. */
module Captions {
  import opened Wrappers
  import opened Numbers
  import opened Strings

  const ValidGravities: seq<string> :=
    ["northwest", "north", "northeast", "west", "center", "east", "southwest", "south", "southeast"]

  const DefaultFontPath := "/usr/share/fonts/Adwaita/AdwaitaSans-Regular.ttf"
  const DefaultIcon := "arrow1-down-symbolic"
  const Margin := 25

  datatype Rgb = Rgb(r: int, g: int, b: int)

  const White := Rgb(255, 255, 255)

  /** One button of the gravity grid: its gravity, icon, column and row. */
  datatype GravityCell = GravityCell(gravity: string, icon: string, col: int, row: int)

  const GravityPositions: seq<GravityCell> := [
    GravityCell("northwest", "arrow1-top-left-symbolic", 0, 0),
    GravityCell("north", "arrow1-up-symbolic", 1, 0),
    GravityCell("northeast", "arrow1-top-right-symbolic", 2, 0),
    GravityCell("west", "arrow1-left-symbolic", 0, 1),
    GravityCell("center", "circle-anchor-center-symbolic", 1, 1),
    GravityCell("east", "arrow1-right-symbolic", 2, 1),
    GravityCell("southwest", "arrow1-bottom-left-symbolic", 0, 2),
    GravityCell("south", "arrow1-down-symbolic", 1, 2),
    GravityCell("southeast", "arrow1-bottom-right-symbolic", 2, 2)
  ]

  // ---------------------------------------------------------------------
  // Gravity

  /** The constructor's gravity: the lower-cased input when it names one of
      the nine positions, otherwise "south". */
  function NormalGravity(g: string): (r: string)
    ensures r in ValidGravities
  {
    if Lower(g) in ValidGravities then Lower(g) else "south"
  }

  predicate NoUpper(s: string) {
    forall i :: 0 <= i < |s| ==> !('A' <= s[i] <= 'Z')
  }

  lemma LowerKeeps(s: string)
    requires NoUpper(s)
    ensures Lower(s) == s
  {
  }

  lemma ValidAreLower(v: string)
    requires v in ValidGravities
    ensures NoUpper(v)
  {
  }

  /** A valid gravity normalises to itself, so normalising twice is
      normalising once; any other spelling of a valid name normalises to it
      and every other text to "south". */
  lemma NormalGravityLaws(g: string)
    ensures g in ValidGravities ==> NormalGravity(g) == g
    ensures NormalGravity(NormalGravity(g)) == NormalGravity(g)
    ensures Lower(g) !in ValidGravities ==> NormalGravity(g) == "south"
  {
    if g in ValidGravities {
      ValidAreLower(g);
      LowerKeeps(g);
    }
    var n := NormalGravity(g);
    ValidAreLower(n);
    LowerKeeps(n);
  }

  /** Normalisation ignores case. */
  lemma NormalGravityCaseless(a: string, b: string)
    requires Lower(a) == Lower(b)
    ensures NormalGravity(a) == NormalGravity(b)
  {
  }

  /** `get_valid_gravities`: the nine names (a copy: sequences are values). */
  function GetValidGravities(): (r: seq<string>)
    ensures |r| == 9
    ensures forall i :: 0 <= i < |r| ==> NormalGravity(r[i]) == r[i]
  {
    var r := ValidGravities;
    assert forall i :: 0 <= i < |r| ==> NormalGravity(r[i]) == r[i] by {
      forall i | 0 <= i < |r| {
        NormalGravityLaws(r[i]);
      }
    }
    r
  }

  /** The gravity grid lists the valid names in order, laid out three to a
      row: name `i` sits at column `i % 3` and row `i / 3`. */
  lemma GridMatchesNames()
    ensures |GravityPositions| == |ValidGravities|
    ensures forall i :: 0 <= i < |GravityPositions| ==>
      GravityPositions[i].gravity == ValidGravities[i]
      && GravityPositions[i].col == i % 3 && GravityPositions[i].row == i / 3
  {
  }

  // ---------------------------------------------------------------------
  // Placement

  /** `_calculate_horizontal_position`: "west" anywhere in the gravity puts
      the text at the offset, else "east" right-aligns it, else it is centred. */
  function Horizontal(gravity: string, textW: int, imageW: int, offset: int): int {
    if Contains(gravity, "west") then offset
    else if Contains(gravity, "east") then imageW - textW - offset
    else (imageW - textW) / 2
  }

  /** `_calculate_vertical_position`: the same with "north" and "south". */
  function Vertical(gravity: string, textH: int, imageH: int, offset: int): int {
    if Contains(gravity, "north") then offset
    else if Contains(gravity, "south") then imageH - textH - offset
    else (imageH - textH) / 2
  }

  /** The position of a text of column `col` (0 left, 1 centre, 2 right). */
  function AlongAxis(col: int, textW: int, imageW: int, offset: int): int {
    if col == 0 then offset else if col == 2 then imageW - textW - offset else (imageW - textW) / 2
  }

  lemma OccursContains(s: string, sub: string, i: int)
    requires OccursAt(s, sub, i)
    ensures Contains(s, sub)
  {
    ContainsIff(s, sub);
  }

  lemma ContainsChar(s: string, sub: string, c: char)
    requires Contains(s, sub) && c in sub
    ensures c in s
  {
    ContainsIff(s, sub);
    var i :| OccursAt(s, sub, i);
    var k :| 0 <= k < |sub| && sub[k] == c;
    assert s[i + k] == s[i..i + |sub|][k];
  }

  lemma Absent(s: string, sub: string, c: char)
    requires c in sub && c !in s
    ensures !Contains(s, sub)
  {
    if Contains(s, sub) {
      ContainsChar(s, sub, c);
    }
  }

  /** A string contains any of its suffixes. */
  lemma {:induction false} ContainsTail(a: string, b: string)
    ensures Contains(a + b, b)
    decreases |a|
  {
    if a == [] {
      assert a + b == b;
    } else {
      ContainsTail(a[1..], b);
      assert (a + b)[1..] == a[1..] + b;
    }
  }

  /** "west" occurs exactly in the names of the left column. */
  lemma WestAt(i: int)
    requires 0 <= i < |ValidGravities|
    ensures Contains(ValidGravities[i], "west") <==> i % 3 == 0
  {
    var g := ValidGravities[i];
    if i % 3 == 0 {
      var h := if i == 0 then "north" else if i == 3 then "" else "south";
      assert g == h + "west";
      ContainsTail(h, "west");
    } else {
      assert 'w' !in g;
      Absent(g, "west", 'w');
    }
  }

  /** "east" occurs exactly in the names of the right column. */
  lemma EastAt(i: int)
    requires 0 <= i < |ValidGravities|
    ensures Contains(ValidGravities[i], "east") <==> i % 3 == 2
  {
    var g := ValidGravities[i];
    if i % 3 == 2 {
      var h := if i == 2 then "north" else if i == 5 then "" else "south";
      assert g == h + "east";
      ContainsTail(h, "east");
    } else {
      assert 'a' !in g;
      Absent(g, "east", 'a');
    }
  }

  /** "north" occurs exactly in the names of the top row. */
  lemma NorthAt(i: int)
    requires 0 <= i < |ValidGravities|
    ensures Contains(ValidGravities[i], "north") <==> i / 3 == 0
  {
    var g := ValidGravities[i];
    if i / 3 == 0 {
      OccursContains(g, "north", 0);
    } else if i == 4 {
      Absent(g, "north", 'o');
    } else {
      Absent(g, "north", 'r');
    }
  }

  /** "south" occurs exactly in the names of the bottom row. */
  lemma SouthAt(i: int)
    requires 0 <= i < |ValidGravities|
    ensures Contains(ValidGravities[i], "south") <==> i / 3 == 2
  {
    var g := ValidGravities[i];
    if i / 3 == 2 {
      OccursContains(g, "south", 0);
    } else {
      Absent(g, "south", 'u');
    }
  }

  /** Every button of the grid places the text where its cell is: column 0
      at the left offset, column 2 right-aligned, column 1 centred, and the
      same for rows. */
  lemma PlacementFollowsGrid(i: int, textW: int, textH: int, imageW: int, imageH: int, offset: int)
    requires 0 <= i < |GravityPositions|
    ensures var c := GravityPositions[i];
      && Horizontal(c.gravity, textW, imageW, offset) == AlongAxis(c.col, textW, imageW, offset)
      && Vertical(c.gravity, textH, imageH, offset) == AlongAxis(c.row, textH, imageH, offset)
  {
    GridMatchesNames();
    WestAt(i);
    EastAt(i);
    NorthAt(i);
    SouthAt(i);
  }

  /** The three placements along one axis: the near edge at the offset, the
      far edge at the offset, or centred with margins at most a pixel apart. */
  lemma AxisMargins(col: int, textW: int, imageW: int, offset: int)
    ensures var x := AlongAxis(col, textW, imageW, offset);
      && (col == 0 ==> x == offset)
      && (col == 2 ==> imageW - (x + textW) == offset)
      && (col != 0 && col != 2 ==> x <= imageW - (x + textW) <= x + 1)
  {
  }

  /** What `apply_to_image` draws: where, and in which colour. */
  datatype Placement = Placement(x: int, y: int, fill: Rgb)

  // ---------------------------------------------------------------------
  // Colour

  /** Python's `s[4:-1]`. */
  function Inner(s: string): (r: string)
    ensures |s| >= 5 ==> r == s[4..|s| - 1]
  {
    if |s| >= 5 then s[4..|s| - 1] else ""
  }

  /** `_parse_color` of gradia/graphics/text.py: after a case-insensitive
      "rgb(" prefix, the first three comma fields of `color[4:-1]` must read
      as integers; anything else gives white. */
  function ParseColor(color: string): Rgb {
    if !StartsWith(Lower(color), "rgb(") then White
    else
      var parts := Split(Inner(color), ',');
      if |parts| < 3 then White
      else
        match (ParseInt(parts[0], 10), ParseInt(parts[1], 10), ParseInt(parts[2], 10))
        case (Some(r), Some(g), Some(b)) => Rgb(r, g, b)
        case _ => White
  }

  /** The `{r},{g},{b}` of a colour text. */
  function Channels(r: int, g: int, b: int): string {
    IntToString(r) + "," + IntToString(g) + "," + IntToString(b)
  }

  /** `"rgb(" + body + ")"`. */
  function Wrapped(body: string): string {
    "rgb(" + body + ")"
  }

  /** What the selector's colour button writes: `f"rgb({r},{g},{b})"`. */
  function ColorText(r: int, g: int, b: int): string {
    Wrapped(Channels(r, g, b))
  }

  /** A wrapped body starts with "rgb(" in any case, ends with ")", and its
      `[4:-1]` is the body again. */
  lemma WrappedParts(body: string)
    ensures var t := Wrapped(body);
      && StartsWith(t, "rgb(") && StartsWith(Lower(t), "rgb(") && EndsWith(t, ")")
      && t[0] == 'r' && t[|t| - 1] == ')' && Inner(t) == body
  {
    var t := Wrapped(body);
    assert t[..4] == "rgb(";
    assert t[4..|t| - 1] == body;
    RgbPrefix(t);
  }

  lemma RgbPrefix(s: string)
    requires StartsWith(s, "rgb(")
    ensures StartsWith(Lower(s), "rgb(")
  {
    assert s[0] == 'r' && s[1] == 'g' && s[2] == 'b' && s[3] == '(';
    assert Lower(s)[..4] == "rgb(";
  }

  /** Splitting a separator-free field, a comma and the rest. */
  lemma SplitLead(x: string, rest: string)
    requires ',' !in x
    ensures Split(x + "," + rest, ',') == [x] + Split(rest, ',')
  {
    assert x + "," + rest == x + [','] + rest;
    SplitAfter(x, rest, ',');
  }

  /** The three channels of a colour and what may follow them, regrouped
      from the right. */
  lemma Regroup(a: string, b: string, c: string, d: string)
    ensures a + "," + b + "," + c == a + "," + (b + "," + c)
    ensures a + "," + b + "," + c + "," + d == a + "," + (b + "," + (c + "," + d))
  {
  }

  lemma SplitThree(x: string, y: string, z: string)
    requires ',' !in x && ',' !in y && ',' !in z
    ensures Split(x + "," + y + "," + z, ',') == [x, y, z]
  {
    Regroup(x, y, z, "");
    SplitLead(x, y + "," + z);
    SplitTwo(y, z);
    assert [x] + [y, z] == [x, y, z];
  }

  lemma SplitTwo(y: string, z: string)
    requires ',' !in y && ',' !in z
    ensures Split(y + "," + z, ',') == [y, z]
  {
    SplitLead(y, z);
    assert [y] + [z] == [y, z];
  }

  lemma SplitThreeMore(x: string, y: string, z: string, extra: string)
    requires ',' !in x && ',' !in y && ',' !in z
    ensures var parts := Split(x + "," + y + "," + z + "," + extra, ',');
      |parts| >= 3 && parts[0] == x && parts[1] == y && parts[2] == z
  {
    Regroup(x, y, z, extra);
    SplitLead(x, y + "," + (z + "," + extra));
    SplitTwoMore(y, z, extra);
  }

  lemma SplitTwoMore(y: string, z: string, extra: string)
    requires ',' !in y && ',' !in z
    ensures var parts := Split(y + "," + (z + "," + extra), ',');
      |parts| >= 2 && parts[0] == y && parts[1] == z
  {
    SplitLead(y, z + "," + extra);
    SplitLead(z, extra);
  }

  /** The three channels split into their own texts; with a fourth field
      after them, the split starts with them. */
  lemma ChannelsSplit(r: int, g: int, b: int, extra: string)
    ensures Split(Channels(r, g, b), ',') == [IntToString(r), IntToString(g), IntToString(b)]
    ensures var parts := Split(Channels(r, g, b) + "," + extra, ',');
      |parts| >= 3 && parts[0] == IntToString(r) && parts[1] == IntToString(g) && parts[2] == IntToString(b)
  {
    IntToStringChars(r, ',');
    IntToStringChars(g, ',');
    IntToStringChars(b, ',');
    SplitThree(IntToString(r), IntToString(g), IntToString(b));
    SplitThreeMore(IntToString(r), IntToString(g), IntToString(b), extra);
  }

  /** The colour the selector writes is read back exactly. */
  lemma ColorRoundTrip(r: int, g: int, b: int)
    ensures ParseColor(ColorText(r, g, b)) == Rgb(r, g, b)
  {
    WrappedParts(Channels(r, g, b));
    ChannelsSplit(r, g, b, "");
    IntToStringRoundTrip(r);
    IntToStringRoundTrip(g);
    IntToStringRoundTrip(b);
  }

  /** Only the first three fields are read: a fourth one, whatever it holds,
      is ignored. */
  lemma ExtraFieldIgnored(r: int, g: int, b: int, extra: string)
    ensures ParseColor(Wrapped(Channels(r, g, b) + "," + extra)) == Rgb(r, g, b)
  {
    WrappedParts(Channels(r, g, b) + "," + extra);
    ChannelsSplit(r, g, b, extra);
    IntToStringRoundTrip(r);
    IntToStringRoundTrip(g);
    IntToStringRoundTrip(b);
  }

  /** A colour without the "rgb(" prefix, or with fewer than three fields, is white. */
  lemma ColorFallback(color: string)
    ensures !StartsWith(Lower(color), "rgb(") ==> ParseColor(color) == White
    ensures |Split(Inner(color), ',')| < 3 ==> ParseColor(color) == White
  {
  }

  /** Each field read as an integer on its own (`int(p.strip())`). */
  function ParsedFields(parts: seq<string>): (r: seq<Option<int>>)
    ensures |r| == |parts|
  {
    if parts == [] then [] else [ParseInt(parts[0], 10)] + ParsedFields(parts[1..])
  }

  lemma {:induction false} ParsedAt(parts: seq<string>, i: int)
    requires 0 <= i < |parts|
    ensures ParsedFields(parts)[i] == ParseInt(parts[i], 10)
    decreases |parts|
  {
    if i > 0 {
      ParsedAt(parts[1..], i - 1);
      assert parts[1..][i - 1] == parts[i];
    }
  }

  /** The values when every field was read, `None` as soon as one was not. */
  function Collect(vs: seq<Option<int>>): (r: Option<seq<int>>)
    ensures r.Some? ==> |r.value| == |vs|
  {
    if vs == [] then Some([])
    else if vs[0].Some? && Collect(vs[1..]).Some? then Some([vs[0].value] + Collect(vs[1..]).value)
    else None
  }

  /** The tuple of every field, or `None` when one of them is not an integer. */
  function ParseFields(parts: seq<string>): Option<seq<int>> {
    Collect(ParsedFields(parts))
  }

  /** Collecting succeeds exactly when every value is present, and then
      lists them in order. */
  lemma {:induction false} CollectMeaning(vs: seq<Option<int>>)
    ensures Collect(vs).Some? <==> forall i :: 0 <= i < |vs| ==> vs[i].Some?
    ensures Collect(vs).Some? ==> forall i :: 0 <= i < |vs| ==> vs[i] == Some(Collect(vs).value[i])
  {
    if vs != [] {
      var tail := vs[1..];
      CollectMeaning(tail);
      assert forall i :: 1 <= i < |vs| ==> vs[i] == tail[i - 1];
    }
  }

  /** The fields parse exactly when each of them does, to their values in order. */
  lemma ParseFieldsMeaning(parts: seq<string>)
    ensures ParseFields(parts).Some? <==> forall i :: 0 <= i < |parts| ==> ParseInt(parts[i], 10).Some?
    ensures ParseFields(parts).Some? ==>
      |ParseFields(parts).value| == |parts|
      && forall i :: 0 <= i < |parts| ==> ParseInt(parts[i], 10) == Some(ParseFields(parts).value[i])
  {
    var vs := ParsedFields(parts);
    CollectMeaning(vs);
    forall i | 0 <= i < |parts|
      ensures vs[i] == ParseInt(parts[i], 10)
    {
      ParsedAt(parts, i);
    }
  }

  /** `_parse_color` of src/graphics/text.py: every comma field, however many. */
  function ParseColorFields(color: string): seq<int> {
    if !StartsWith(Lower(color), "rgb(") then [255, 255, 255]
    else
      match ParseFields(Split(Inner(color), ','))
      case Some(vs) => vs
      case None => [255, 255, 255]
  }

  lemma CollectCons(v: int, vs: seq<Option<int>>)
    ensures Collect([Some(v)] + vs) == if Collect(vs).Some? then Some([v] + Collect(vs).value) else None
  {
    assert ([Some(v)] + vs)[1..] == vs;
  }

  lemma CollectThree(a: int, b: int, c: int)
    ensures Collect([Some(a), Some(b), Some(c)]) == Some([a, b, c])
  {
    var e: seq<Option<int>> := [];
    assert Collect(e) == Some([]);
    CollectCons(c, e);
    assert [Some(c)] + e == [Some(c)] && [c] + [] == [c];
    CollectCons(b, [Some(c)]);
    assert [Some(b)] + [Some(c)] == [Some(b), Some(c)] && [b] + [c] == [b, c];
    CollectCons(a, [Some(b), Some(c)]);
    assert [Some(a)] + [Some(b), Some(c)] == [Some(a), Some(b), Some(c)] && [a] + [b, c] == [a, b, c];
  }

  lemma ParsedThree(x: string, y: string, z: string, r: int, g: int, b: int)
    requires ParseInt(x, 10) == Some(r) && ParseInt(y, 10) == Some(g) && ParseInt(z, 10) == Some(b)
    ensures ParsedFields([x, y, z]) == [Some(r), Some(g), Some(b)]
  {
    assert [z][1..] == [];
    assert ParsedFields([z]) == [Some(b)];
    assert [y, z][1..] == [z];
    assert ParsedFields([y, z]) == [Some(g), Some(b)];
    assert [x, y, z][1..] == [y, z];
  }

  lemma FieldsParse(r: int, g: int, b: int)
    ensures ParseFields(Split(Inner(ColorText(r, g, b)), ',')) == Some([r, g, b])
  {
    WrappedParts(Channels(r, g, b));
    ChannelsSplit(r, g, b, "");
    IntToStringRoundTrip(r);
    IntToStringRoundTrip(g);
    IntToStringRoundTrip(b);
    ParsedThree(IntToString(r), IntToString(g), IntToString(b), r, g, b);
    CollectThree(r, g, b);
  }

  /** The earlier parse reads the selector's colour back as the same three
      components. */
  lemma FieldsRoundTrip(r: int, g: int, b: int)
    ensures ParseColorFields(ColorText(r, g, b)) == [r, g, b]
  {
    WrappedParts(Channels(r, g, b));
    FieldsParse(r, g, b);
  }

  // ---------------------------------------------------------------------
  // The caption and its selector

  /** A `Text` caption; the selector edits its fields in place. */
  class Caption {
    var text: string
    var fontPath: string
    var color: string
    var size: int
    var gravity: string

    constructor(text: string, fontPath: string, color: string, size: int, gravity: string)
      ensures this.text == text && this.color == color && this.size == size
      ensures this.fontPath == if fontPath == "" then DefaultFontPath else fontPath
      ensures this.gravity == NormalGravity(gravity)
    {
      this.text := text;
      this.fontPath := if fontPath == "" then DefaultFontPath else fontPath;
      this.color := color;
      this.size := size;
      this.gravity := NormalGravity(gravity);
    }

    /** `apply_to_image` on an image of the given size, the text measuring
        `textW x textH`: nothing is drawn for an empty text. */
    function Render(imageW: int, imageH: int, padding: int, textW: int, textH: int): (r: Option<Placement>)
      reads this
      ensures r.None? <==> text == ""
      ensures r.Some? ==> r.value.fill == ParseColor(color)
    {
      if text == "" then None
      else
        var offset := padding + Margin;
        Some(Placement(Horizontal(gravity, textW, imageW, offset), Vertical(gravity, textH, imageH, offset),
                       ParseColor(color)))
    }
  }

  /** A caption drawn with a gravity from the grid lands in that cell. */
  lemma RenderInCell(c: Caption, i: int, imageW: int, imageH: int, padding: int, textW: int, textH: int)
    requires 0 <= i < |GravityPositions| && c.gravity == GravityPositions[i].gravity && c.text != ""
    ensures var p := c.Render(imageW, imageH, padding, textW, textH).value; var cell := GravityPositions[i];
      p.x == AlongAxis(cell.col, textW, imageW, padding + Margin)
      && p.y == AlongAxis(cell.row, textH, imageH, padding + Margin)
  {
    PlacementFollowsGrid(i, textW, textH, imageW, imageH, padding + Margin);
  }

  /** `next(icon for ... if gravity == current, default)`. */
  function IconFor(cells: seq<GravityCell>, g: string): (icon: string)
    ensures (exists i :: 0 <= i < |cells| && cells[i].gravity == g && icon == cells[i].icon)
         || ((forall i :: 0 <= i < |cells| ==> cells[i].gravity != g) && icon == DefaultIcon)
  {
    if cells == [] then DefaultIcon
    else if cells[0].gravity == g then cells[0].icon
    else
      var r := IconFor(cells[1..], g);
      assert forall i :: 1 <= i < |cells| ==> cells[i] == cells[1..][i - 1];
      r
  }

  /** The grid's names are distinct, so the lookup finds the icon of the
      button for that gravity; an unknown gravity gets the default. */
  lemma IconLookup(i: int, g: string)
    requires 0 <= i < |GravityPositions|
    ensures IconFor(GravityPositions, GravityPositions[i].gravity) == GravityPositions[i].icon
    ensures g !in ValidGravities ==> IconFor(GravityPositions, g) == DefaultIcon
  {
    GridMatchesNames();
    NamesDistinct(i);
    FirstMatch(GravityPositions, i);
  }

  /** The nine names differ from one another. */
  lemma NamesDistinct(i: int)
    requires 0 <= i < |ValidGravities|
    ensures forall j :: 0 <= j < |ValidGravities| && j != i ==> ValidGravities[j] != ValidGravities[i]
  {
  }

  /** A name that only cell `i` carries is looked up as that cell's icon. */
  lemma FirstMatch(cells: seq<GravityCell>, i: int)
    requires 0 <= i < |cells|
    requires forall j :: 0 <= j < |cells| && j != i ==> cells[j].gravity != cells[i].gravity
    ensures IconFor(cells, cells[i].gravity) == cells[i].icon
  {
  }

  /** `TextSelector`: it edits the caption it was given, or a fresh empty one. */
  class TextSelector {
    var caption: Caption

    constructor(given: Option<Caption>)
      ensures given.Some? ==> caption == given.value
      ensures given.None? ==> fresh(caption) && caption.text == "" && caption.color == "rgb(255,255,255)"
                              && caption.size == 42 && caption.gravity == "south"
                              && caption.fontPath == DefaultFontPath
    {
      if given.Some? {
        caption := given.value;
      } else {
        NormalGravityLaws("south");
        caption := new Caption("", "", "rgb(255,255,255)", 42, "south");
      }
    }

    /** `_get_gravity_icon_name`. */
    function GravityIcon(): string
      reads this, caption
    {
      IconFor(GravityPositions, caption.gravity)
    }

    /** `_on_gravity_button_clicked` for button `i` of the grid: the caption
        takes that button's gravity, which is always a valid one. */
    method OnGravityButtonClicked(i: int)
      requires 0 <= i < |GravityPositions|
      modifies caption
      ensures caption.gravity == GravityPositions[i].gravity && caption.gravity in ValidGravities
      ensures caption.text == old(caption.text) && caption.color == old(caption.color)
      ensures caption.size == old(caption.size) && caption.fontPath == old(caption.fontPath)
    {
      GridMatchesNames();
      caption.gravity := GravityPositions[i].gravity;
    }

    /** `_on_text_changed`. */
    method OnTextChanged(entry: string)
      modifies caption
      ensures caption.text == entry && caption.gravity == old(caption.gravity)
      ensures caption.color == old(caption.color) && caption.size == old(caption.size)
      ensures caption.fontPath == old(caption.fontPath)
    {
      caption.text := entry;
    }

    /** `_on_color_changed`: each channel of the chosen colour (0..1) times
        255, truncated, written as `rgb(r,g,b)`. */
    method OnColorChanged(red: real, green: real, blue: real)
      modifies caption
      ensures caption.color == ColorText(Trunc(red * 255.0), Trunc(green * 255.0), Trunc(blue * 255.0))
      ensures caption.text == old(caption.text) && caption.gravity == old(caption.gravity)
      ensures caption.size == old(caption.size) && caption.fontPath == old(caption.fontPath)
    {
      caption.color := ColorText(Trunc(red * 255.0), Trunc(green * 255.0), Trunc(blue * 255.0));
    }

    /** `_on_size_changed`: the spin value truncated. */
    method OnSizeChanged(value: real)
      modifies caption
      ensures caption.size == Trunc(value) && caption.text == old(caption.text)
      ensures caption.color == old(caption.color) && caption.gravity == old(caption.gravity)
      ensures caption.fontPath == old(caption.fontPath)
    {
      caption.size := Trunc(value);
    }
  }

  /** A colour chosen in the selector is drawn in exactly the chosen
      (truncated) channels. */
  lemma ChosenColorDrawn(red: real, green: real, blue: real)
    ensures ParseColor(ColorText(Trunc(red * 255.0), Trunc(green * 255.0), Trunc(blue * 255.0)))
         == Rgb(Trunc(red * 255.0), Trunc(green * 255.0), Trunc(blue * 255.0))
  {
    ColorRoundTrip(Trunc(red * 255.0), Trunc(green * 255.0), Trunc(blue * 255.0));
  }

  // ---------------------------------------------------------------------
  // The inline caption of src/image_processor.py

  /** Its colour: a string, or an already parsed tuple passed through. */
  datatype ColorValue = ColorString(s: string) | ColorTuple(t: seq<int>)

  /** The inline colour parse: lower-cased and stripped, it must read
      "rgb(" ... ")" with exactly three integer fields, otherwise white; a
      tuple passes through unchanged. */
  function InlineColor(c: ColorValue): ColorValue {
    match c
    case ColorTuple(_) => c
    case ColorString(s) =>
      var t := Strip(Lower(s));
      if StartsWith(t, "rgb(") && EndsWith(t, ")") then
        match ParseFields(Split(Inner(t), ','))
        case Some(vs) => if |vs| == 3 then ColorTuple(vs) else ColorTuple([255, 255, 255])
        case None => ColorTuple([255, 255, 255])
      else ColorTuple([255, 255, 255])
  }

  /** `str(n)` has no upper-case letter. */
  lemma IntToStringNoUpper(n: int)
    ensures NoUpper(IntToString(n))
  {
    var t := IntToString(n);
    forall i | 0 <= i < |t|
      ensures !('A' <= t[i] <= 'Z')
    {
      if 'A' <= t[i] <= 'Z' {
        IntToStringChars(n, t[i]);
      }
    }
  }

  lemma NoUpperJoin(x: string, y: string)
    requires NoUpper(x) && NoUpper(y)
    ensures NoUpper(x + y)
  {
    forall i | 0 <= i < |x + y|
      ensures !('A' <= (x + y)[i] <= 'Z')
    {
      if i >= |x| {
        assert (x + y)[i] == y[i - |x|];
      }
    }
  }

  lemma NoUpperFields(x: string, y: string, z: string)
    requires NoUpper(x) && NoUpper(y) && NoUpper(z)
    ensures NoUpper(x + "," + y + "," + z)
  {
    NoUpperJoin(x, ",");
    NoUpperJoin(x + ",", y);
    NoUpperJoin(x + "," + y, ",");
    NoUpperJoin(x + "," + y + ",", z);
  }

  lemma NoUpperWrapped(body: string)
    requires NoUpper(body)
    ensures NoUpper(Wrapped(body))
  {
    NoUpperJoin("rgb(", body);
    NoUpperJoin("rgb(" + body, ")");
  }

  /** A colour text is already lower case. */
  lemma ColorTextLower(r: int, g: int, b: int)
    ensures Lower(ColorText(r, g, b)) == ColorText(r, g, b)
  {
    IntToStringNoUpper(r);
    IntToStringNoUpper(g);
    IntToStringNoUpper(b);
    NoUpperFields(IntToString(r), IntToString(g), IntToString(b));
    NoUpperWrapped(Channels(r, g, b));
    LowerKeeps(ColorText(r, g, b));
  }

  /** A text that is already lower case and stripped, reads "rgb(" ... ")"
      and holds three integer fields gives those fields. */
  lemma InlineOfClean(s: string, vs: seq<int>)
    requires Strip(Lower(s)) == s && StartsWith(s, "rgb(") && EndsWith(s, ")")
    requires ParseFields(Split(Inner(s), ',')) == Some(vs) && |vs| == 3
    ensures InlineColor(ColorString(s)) == ColorTuple(vs)
  {
  }

  /** The inline parse reads `rgb(r,g,b)` back as the same three components,
      and a tuple is used as it is. */
  lemma InlineColorRoundTrip(r: int, g: int, b: int, t: seq<int>)
    ensures InlineColor(ColorString(ColorText(r, g, b))) == ColorTuple([r, g, b])
    ensures InlineColor(ColorTuple(t)) == ColorTuple(t)
  {
    ColorTextClean(r, g, b);
    FieldsParse(r, g, b);
    InlineOfClean(ColorText(r, g, b), [r, g, b]);
  }

  /** A colour text is its own lower-cased, stripped form, between
      "rgb(" and ")". */
  lemma ColorTextClean(r: int, g: int, b: int)
    ensures var s := ColorText(r, g, b);
      Strip(Lower(s)) == s && StartsWith(s, "rgb(") && EndsWith(s, ")")
  {
    var s := ColorText(r, g, b);
    ColorTextLower(r, g, b);
    WrappedParts(Channels(r, g, b));
    StripTrimmed(s);
  }

  /** The placement of src/image_processor.py's inline caption (which
      lower-cases the gravity but does not check it): nothing for an empty
      text, else the same gravity rule with `padding + 25` and the parsed
      colour. */
  function InlineRender(text: string, gravity: string, color: ColorValue, padding: int,
                        imageW: int, imageH: int, textW: int, textH: int): (r: Option<(int, int, ColorValue)>)
    ensures r.None? <==> text == ""
  {
    if text == "" then None
    else
      var g := Lower(gravity);
      var total := padding + Margin;
      Some((Horizontal(g, textW, imageW, total), Vertical(g, textH, imageH, total), InlineColor(color)))
  }

  /** For a valid gravity the inline caption is placed exactly where the
      caption class places it. */
  lemma InlineAgrees(c: Caption, color: ColorValue, padding: int, imageW: int, imageH: int, textW: int, textH: int)
    requires c.text != "" && c.gravity in ValidGravities
    ensures var p := c.Render(imageW, imageH, padding, textW, textH).value;
      var q := InlineRender(c.text, c.gravity, color, padding, imageW, imageH, textW, textH).value;
      q.0 == p.x && q.1 == p.y
  {
    ValidAreLower(c.gravity);
    LowerKeeps(c.gravity);
  }
}

/** `CensorAction._randomize_pixels` (gradia/overlay/drawing_actions.py):
    after the crop has been scaled down, each pixel is, with probability 0.3,
    swapped channel by channel with a randomly chosen in-bounds neighbour,
    visiting rows top to bottom and pixels left to right in a mutable copy of
    the pixel bytes. The random stream (seeded with 42) is supplied as two
    functions of the visit index `y * width + x`: the `random.random()` draw
    for that pixel and the number `random.choice` reduces to pick a neighbour. */
module Pixelate {
  newtype Byte = b: int | 0 <= b < 256

  /** The shape of a pixel buffer: `row_stride` bytes per row, `n_channels`
      bytes per pixel. */
  datatype Layout = Layout(width: nat, height: nat, stride: nat, channels: nat)

  /** The per-pixel random draws. */
  datatype Draws = Draws(coin: nat -> real, pick: nat -> nat)

  /** `0.3`: the probability that a pixel starts a swap. */
  const SwapChance: real := 0.3

  /** The eight neighbour offsets, in the order the source lists them. */
  const Offsets: seq<(int, int)> :=
    [(-1, 0), (1, 0), (0, -1), (0, 1), (-1, -1), (1, -1), (-1, 1), (1, 1)]

  /** A byte buffer that holds every pixel of the layout: rows `0 .. height-2`
      take a full stride, the last row at least `width * channels` bytes. */
  predicate Fits(n: int, l: Layout) {
    l.width * l.channels <= l.stride
    && (l.height >= 1 ==> (l.height - 1) * l.stride + l.width * l.channels <= n)
  }

  /** Offset of the first byte of pixel `(x, y)`. */
  function PixelIndex(l: Layout, x: int, y: int): int {
    y * l.stride + x * l.channels
  }

  lemma MulLe(a: int, b: int, c: nat)
    requires a <= b
    ensures a * c <= b * c
  {
  }

  /** Every channel of every pixel is inside a buffer that fits the layout. */
  lemma PixelIndexInRange(n: int, l: Layout, x: int, y: int)
    requires Fits(n, l) && 0 <= x < l.width && 0 <= y < l.height
    ensures 0 <= PixelIndex(l, x, y) && PixelIndex(l, x, y) + l.channels <= n
  {
    MulLe(y, l.height - 1, l.stride);
    MulLe(x, l.width - 1, l.channels);
    MulLe(0, x, l.channels);
    MulLe(0, y, l.stride);
  }

  /** Channel `c` of pixel `x` sits before the row's padding. */
  lemma PixelColumnInRow(l: Layout, x: int, c: int)
    requires 0 <= x < l.width && 0 <= c < l.channels
    ensures 0 <= x * l.channels + c < l.width * l.channels
  {
    MulLe(x, l.width - 1, l.channels);
    MulLe(0, x, l.channels);
  }

  /** The position of pixel `(x, y)` in the visiting order, which indexes the draws. */
  function VisitOrder(l: Layout, x: nat, y: nat): nat {
    y * l.width + x
  }

  /** `[(x+dx, y+dy) for dx, dy in offsets if 0 <= x+dx < w and 0 <= y+dy < h]`. */
  function NeighborsFrom(x: int, y: int, w: int, h: int, offs: seq<(int, int)>): (r: seq<(int, int)>)
    ensures forall i :: 0 <= i < |r| ==> 0 <= r[i].0 < w && 0 <= r[i].1 < h
    ensures |r| <= |offs|
  {
    if offs == [] then []
    else
      var n := (x + offs[0].0, y + offs[0].1);
      var rest := NeighborsFrom(x, y, w, h, offs[1..]);
      if 0 <= n.0 < w && 0 <= n.1 < h then [n] + rest else rest
  }

  function Neighbors(x: int, y: int, w: int, h: int): seq<(int, int)> {
    NeighborsFrom(x, y, w, h, Offsets)
  }

  lemma {:induction false} NeighborsFromIff(x: int, y: int, w: int, h: int, offs: seq<(int, int)>, q: (int, int))
    ensures q in NeighborsFrom(x, y, w, h, offs)
        <==> 0 <= q.0 < w && 0 <= q.1 < h && (q.0 - x, q.1 - y) in offs
  {
    if offs != [] {
      NeighborsFromIff(x, y, w, h, offs[1..], q);
    }
  }

  /** The neighbour list holds exactly the in-bounds pixels adjacent to
      `(x, y)` horizontally, vertically or diagonally. */
  lemma NeighborsIff(x: int, y: int, w: int, h: int, q: (int, int))
    ensures q in Neighbors(x, y, w, h)
        <==> 0 <= q.0 < w && 0 <= q.1 < h && q != (x, y)
             && -1 <= q.0 - x <= 1 && -1 <= q.1 - y <= 1
  {
    NeighborsFromIff(x, y, w, h, Offsets, q);
  }

  /** Swapping two bytes of a buffer. */
  function Swap(b: seq<Byte>, i: int, j: int): (r: seq<Byte>)
    requires 0 <= i < |b| && 0 <= j < |b|
    ensures |r| == |b|
  {
    seq(|b|, k requires 0 <= k < |b| => if k == j then b[i] else if k == i then b[j] else b[k])
  }

  lemma SwapPermutes(b: seq<Byte>, i: int, j: int)
    requires 0 <= i < |b| && 0 <= j < |b|
    ensures multiset(Swap(b, i, j)) == multiset(b)
  {
    assert Swap(b, i, j) == b[i := b[j]][j := b[i]];
  }

  /** `for c in range(count): pixels[i1 + c], pixels[i2 + c] = pixels[i2 + c], pixels[i1 + c]`. */
  function SwapChannels(b: seq<Byte>, i1: int, i2: int, count: nat): (r: seq<Byte>)
    requires 0 <= i1 && i1 + count <= |b| && 0 <= i2 && i2 + count <= |b|
    ensures |r| == |b|
    ensures multiset(r) == multiset(b)
  {
    if count == 0 then b
    else
      var prev := SwapChannels(b, i1, i2, count - 1);
      SwapPermutes(prev, i1 + count - 1, i2 + count - 1);
      Swap(prev, i1 + count - 1, i2 + count - 1)
  }

  /** Bytes outside both channel ranges are not touched. */
  lemma {:induction false} SwapChannelsOutside(b: seq<Byte>, i1: int, i2: int, count: nat, k: int)
    requires 0 <= i1 && i1 + count <= |b| && 0 <= i2 && i2 + count <= |b|
    requires 0 <= k < |b| && !(i1 <= k < i1 + count) && !(i2 <= k < i2 + count)
    ensures SwapChannels(b, i1, i2, count)[k] == b[k]
  {
    if count > 0 {
      SwapChannelsOutside(b, i1, i2, count - 1, k);
    }
  }

  /** Two runs that do not overlap are exchanged: channel `c` of each run
      holds what channel `c` of the other held. */
  lemma {:induction false} SwapChannelsExchange(b: seq<Byte>, i1: int, i2: int, count: nat, c: nat)
    requires 0 <= i1 && i1 + count <= |b| && 0 <= i2 && i2 + count <= |b|
    requires i1 + count <= i2 || i2 + count <= i1
    requires c < count
    ensures SwapChannels(b, i1, i2, count)[i1 + c] == b[i2 + c]
    ensures SwapChannels(b, i1, i2, count)[i2 + c] == b[i1 + c]
  {
    var prev := SwapChannels(b, i1, i2, count - 1);
    var r := SwapChannels(b, i1, i2, count);
    if c < count - 1 {
      SwapChannelsExchange(b, i1, i2, count - 1, c);
      assert r[i1 + c] == prev[i1 + c] && r[i2 + c] == prev[i2 + c];
    } else {
      SwapChannelsOutside(b, i1, i2, count - 1, i1 + c);
      SwapChannelsOutside(b, i1, i2, count - 1, i2 + c);
      assert r[i1 + c] == prev[i2 + c] && r[i2 + c] == prev[i1 + c];
    }
  }

  /** Swapping a run with itself leaves the buffer as it is. */
  lemma {:induction false} SwapChannelsSame(b: seq<Byte>, i: int, count: nat)
    requires 0 <= i && i + count <= |b|
    ensures SwapChannels(b, i, i, count) == b
  {
    if count > 0 {
      SwapChannelsSame(b, i, count - 1);
      assert Swap(b, i + count - 1, i + count - 1) == b;
    }
  }

  /** The channels of pixel `(x, y)`: the tuple a swap moves as a whole. */
  function Pixel(b: seq<Byte>, l: Layout, x: int, y: int): seq<Byte> {
    Run(b, PixelIndex(l, x, y), l.channels)
  }

  /** The `n` bytes from offset `i`, or nothing when they leave the buffer. */
  function Run(b: seq<Byte>, i: int, n: nat): seq<Byte> {
    if 0 <= i && i + n <= |b| then b[i..i + n] else []
  }

  /** Every pixel tuple of the buffer, in visiting order. */
  function Pixels(b: seq<Byte>, l: Layout): (r: seq<seq<Byte>>)
    ensures |r| == l.width * l.height
  {
    if l.width == 0 then []
    else seq(l.width * l.height, k => Pixel(b, l, k % l.width, k / l.width))
  }

  /** The visit index of an in-bounds pixel is in range and gives back its
      coordinates. */
  lemma VisitOrderCoords(l: Layout, x: nat, y: nat)
    requires x < l.width && y < l.height
    ensures VisitOrder(l, x, y) < l.width * l.height
    ensures VisitOrder(l, x, y) % l.width == x && VisitOrder(l, x, y) / l.width == y
  {
    VisitOrderBound(l.width, l.height, x, y);
    DivModOfRow(l.width, x, y);
  }

  lemma VisitOrderBound(w: nat, h: nat, x: nat, y: nat)
    requires x < w && y < h
    ensures y * w + x < w * h
  {
    MulLe(y + 1, h, w);
    assert (y + 1) * w == y * w + w;
  }

  lemma DivModOfRow(w: nat, x: nat, y: nat)
    requires x < w
    ensures (y * w + x) % w == x && (y * w + x) / w == y
  {
    var k := y * w + x;
    var q, r := k / w, k % w;
    assert k == q * w + r;
    RowOffsetUnique(w, y, x, q, r);
  }

  /** Every visit index names an in-bounds pixel. */
  lemma CoordsOfOrder(l: Layout, k: nat)
    requires l.width > 0 && k < l.width * l.height
    ensures 0 <= k % l.width < l.width && 0 <= k / l.width < l.height
    ensures VisitOrder(l, k % l.width, k / l.width) == k
  {
    var q := k / l.width;
    assert q * l.width <= k;
    MulLtCancel(q, l.height, l.width);
  }

  lemma MulLtCancel(a: int, b: int, c: int)
    requires c > 0 && a * c < b * c
    ensures a < b
  {
  }

  /** The channel runs of two different pixels do not overlap. */
  lemma PixelsApart(l: Layout, x1: int, y1: int, x2: int, y2: int)
    requires l.width * l.channels <= l.stride
    requires 0 <= x1 < l.width && 0 <= y1 < l.height
    requires 0 <= x2 < l.width && 0 <= y2 < l.height
    requires (x1, y1) != (x2, y2)
    ensures PixelIndex(l, x1, y1) + l.channels <= PixelIndex(l, x2, y2)
         || PixelIndex(l, x2, y2) + l.channels <= PixelIndex(l, x1, y1)
  {
    if y1 == y2 {
      if x1 < x2 {
        MulLe(x1 + 1, x2, l.channels);
      } else {
        MulLe(x2 + 1, x1, l.channels);
      }
    } else if y1 < y2 {
      RowBefore(l, x1, y1, x2, y2);
    } else {
      RowBefore(l, x2, y2, x1, y1);
    }
  }

  /** A pixel of an earlier row ends before any pixel of a later row starts. */
  lemma RowBefore(l: Layout, x1: int, y1: int, x2: int, y2: int)
    requires l.width * l.channels <= l.stride
    requires 0 <= x1 < l.width && 0 <= y1 < y2 && 0 <= x2
    ensures PixelIndex(l, x1, y1) + l.channels <= PixelIndex(l, x2, y2)
  {
    MulLe(x1 + 1, l.width, l.channels);
    MulLe(y1 + 1, y2, l.stride);
    MulLe(0, x2, l.channels);
  }

  /** Two runs of `n` bytes that agree byte by byte are equal. */
  lemma RunsEqual(r: seq<Byte>, i: int, b: seq<Byte>, j: int, n: nat)
    requires 0 <= i && i + n <= |r| && 0 <= j && j + n <= |b|
    requires forall k :: i <= k < i + n ==> r[k] == b[k - i + j]
    ensures r[i..i + n] == b[j..j + n]
  {
    var s1, s2 := r[i..i + n], b[j..j + n];
    forall c | 0 <= c < n
      ensures s1[c] == s2[c]
    {
      assert s1[c] == r[i + c];
    }
  }

  /** After swapping the runs of pixels 1 and 2, pixel 1 holds the old
      tuple of pixel 2, pixel 2 that of pixel 1, and every other pixel its
      own. */
  lemma SwappedPixel(b: seq<Byte>, l: Layout, x1: int, y1: int, x2: int, y2: int, x: int, y: int)
    requires l.width * l.channels <= l.stride
    requires 0 <= x1 < l.width && 0 <= y1 < l.height
    requires 0 <= x2 < l.width && 0 <= y2 < l.height
    requires 0 <= x < l.width && 0 <= y < l.height
    requires 0 <= PixelIndex(l, x1, y1) && PixelIndex(l, x1, y1) + l.channels <= |b|
    requires 0 <= PixelIndex(l, x2, y2) && PixelIndex(l, x2, y2) + l.channels <= |b|
    ensures var r := SwapChannels(b, PixelIndex(l, x1, y1), PixelIndex(l, x2, y2), l.channels);
      Pixel(r, l, x, y)
      == if (x, y) == (x1, y1) then Pixel(b, l, x2, y2)
         else if (x, y) == (x2, y2) then Pixel(b, l, x1, y1)
         else Pixel(b, l, x, y)
  {
    var i1, i2, i := PixelIndex(l, x1, y1), PixelIndex(l, x2, y2), PixelIndex(l, x, y);
    if (x1, y1) == (x2, y2) {
      SwapChannelsSame(b, i1, l.channels);
    } else {
      PixelsApart(l, x1, y1, x2, y2);
      if (x, y) == (x1, y1) {
        SwappedRun(b, i1, i2, i, l.channels);
      } else if (x, y) == (x2, y2) {
        SwappedRun(b, i1, i2, i, l.channels);
      } else {
        PixelsApart(l, x, y, x1, y1);
        PixelsApart(l, x, y, x2, y2);
        SwappedRun(b, i1, i2, i, l.channels);
      }
    }
  }

  /** A run is exchanged with its partner when it is one of the two swapped
      runs and kept when it overlaps neither. */
  lemma SwappedRun(b: seq<Byte>, i1: int, i2: int, i: int, n: nat)
    requires 0 <= i1 && i1 + n <= |b| && 0 <= i2 && i2 + n <= |b|
    requires i1 == i2 || i1 + n <= i2 || i2 + n <= i1
    requires i == i1 || i == i2 || ((i + n <= i1 || i1 + n <= i) && (i + n <= i2 || i2 + n <= i))
    ensures Run(SwapChannels(b, i1, i2, n), i, n)
      == if i == i1 then Run(b, i2, n) else if i == i2 then Run(b, i1, n) else Run(b, i, n)
  {
    var r := SwapChannels(b, i1, i2, n);
    if i1 == i2 {
      SwapChannelsSame(b, i1, n);
    } else if n == 0 {
    } else if i == i1 || i == i2 {
      SwappedEnds(b, i1, i2, n);
    } else if 0 <= i && i + n <= |b| {
      SwappedOther(b, i1, i2, i, n);
    }
  }

  /** Two runs that do not overlap are exchanged as wholes. */
  lemma SwappedEnds(b: seq<Byte>, i1: int, i2: int, n: nat)
    requires 0 <= i1 && i1 + n <= |b| && 0 <= i2 && i2 + n <= |b|
    requires i1 + n <= i2 || i2 + n <= i1
    ensures SwapChannels(b, i1, i2, n)[i1..i1 + n] == b[i2..i2 + n]
    ensures SwapChannels(b, i1, i2, n)[i2..i2 + n] == b[i1..i1 + n]
  {
    var r := SwapChannels(b, i1, i2, n);
    forall k | i1 <= k < i1 + n
      ensures r[k] == b[k - i1 + i2]
    {
      SwapChannelsExchange(b, i1, i2, n, k - i1);
    }
    forall k | i2 <= k < i2 + n
      ensures r[k] == b[k - i2 + i1]
    {
      SwapChannelsExchange(b, i1, i2, n, k - i2);
    }
    RunsEqual(r, i1, b, i2, n);
    RunsEqual(r, i2, b, i1, n);
  }

  /** A run overlapping neither swapped run is kept. */
  lemma SwappedOther(b: seq<Byte>, i1: int, i2: int, i: int, n: nat)
    requires 0 <= i1 && i1 + n <= |b| && 0 <= i2 && i2 + n <= |b| && 0 <= i && i + n <= |b|
    requires i + n <= i1 || i1 + n <= i
    requires i + n <= i2 || i2 + n <= i
    ensures SwapChannels(b, i1, i2, n)[i..i + n] == b[i..i + n]
  {
    var r := SwapChannels(b, i1, i2, n);
    forall k | i <= k < i + n
      ensures r[k] == b[k - i + i]
    {
      SwapChannelsOutside(b, i1, i2, n, k);
    }
    RunsEqual(r, i, b, i, n);
  }

  /** Swapping two pixels' runs keeps the multiset of pixel tuples. */
  lemma SwappedPixels(b: seq<Byte>, l: Layout, x1: int, y1: int, x2: int, y2: int)
    requires l.width * l.channels <= l.stride
    requires 0 <= x1 < l.width && 0 <= y1 < l.height
    requires 0 <= x2 < l.width && 0 <= y2 < l.height
    requires 0 <= PixelIndex(l, x1, y1) && PixelIndex(l, x1, y1) + l.channels <= |b|
    requires 0 <= PixelIndex(l, x2, y2) && PixelIndex(l, x2, y2) + l.channels <= |b|
    ensures var r := SwapChannels(b, PixelIndex(l, x1, y1), PixelIndex(l, x2, y2), l.channels);
      multiset(Pixels(r, l)) == multiset(Pixels(b, l))
  {
    var p, k1, k2 := Pixels(b, l), VisitOrder(l, x1, y1), VisitOrder(l, x2, y2);
    SwappedPixelList(b, l, x1, y1, x2, y2);
    ExchangePermutes(p, k1, k2);
  }

  /** Swapping two pixels' runs exchanges their tuples in the visiting-order
      list and leaves the others. */
  lemma SwappedPixelList(b: seq<Byte>, l: Layout, x1: int, y1: int, x2: int, y2: int)
    requires l.width * l.channels <= l.stride
    requires 0 <= x1 < l.width && 0 <= y1 < l.height
    requires 0 <= x2 < l.width && 0 <= y2 < l.height
    requires 0 <= PixelIndex(l, x1, y1) && PixelIndex(l, x1, y1) + l.channels <= |b|
    requires 0 <= PixelIndex(l, x2, y2) && PixelIndex(l, x2, y2) + l.channels <= |b|
    ensures var r := SwapChannels(b, PixelIndex(l, x1, y1), PixelIndex(l, x2, y2), l.channels);
      var p, k1, k2 := Pixels(b, l), VisitOrder(l, x1, y1), VisitOrder(l, x2, y2);
      k1 < |p| && k2 < |p| && Pixels(r, l) == p[k1 := p[k2]][k2 := p[k1]]
  {
    var r := SwapChannels(b, PixelIndex(l, x1, y1), PixelIndex(l, x2, y2), l.channels);
    var p, q := Pixels(b, l), Pixels(r, l);
    var k1, k2 := VisitOrder(l, x1, y1), VisitOrder(l, x2, y2);
    VisitOrderCoords(l, x1, y1);
    VisitOrderCoords(l, x2, y2);
    forall k | 0 <= k < |q|
      ensures q[k] == p[k1 := p[k2]][k2 := p[k1]][k]
    {
      SwappedPixelAt(b, l, x1, y1, x2, y2, k);
    }
  }

  /** Exchanging two entries of a list keeps its multiset. */
  lemma ExchangePermutes(p: seq<seq<Byte>>, i: int, j: int)
    requires 0 <= i < |p| && 0 <= j < |p|
    ensures multiset(p[i := p[j]][j := p[i]]) == multiset(p)
  {
  }

  /** Entry `k` of the visiting-order list after the swap. */
  lemma SwappedPixelAt(b: seq<Byte>, l: Layout, x1: int, y1: int, x2: int, y2: int, k: nat)
    requires l.width * l.channels <= l.stride
    requires 0 <= x1 < l.width && 0 <= y1 < l.height
    requires 0 <= x2 < l.width && 0 <= y2 < l.height
    requires 0 <= PixelIndex(l, x1, y1) && PixelIndex(l, x1, y1) + l.channels <= |b|
    requires 0 <= PixelIndex(l, x2, y2) && PixelIndex(l, x2, y2) + l.channels <= |b|
    requires k < l.width * l.height
    ensures var r := SwapChannels(b, PixelIndex(l, x1, y1), PixelIndex(l, x2, y2), l.channels);
      var p, k1, k2 := Pixels(b, l), VisitOrder(l, x1, y1), VisitOrder(l, x2, y2);
      k1 < |p| && k2 < |p| && Pixels(r, l)[k] == p[k1 := p[k2]][k2 := p[k1]][k]
  {
    var w := l.width;
    var x, y := k % w, k / w;
    CoordsOfOrder(l, k);
    VisitOrderCoords(l, x1, y1);
    VisitOrderCoords(l, x2, y2);
    var r := SwapChannels(b, PixelIndex(l, x1, y1), PixelIndex(l, x2, y2), l.channels);
    var p, q := Pixels(b, l), Pixels(r, l);
    var k1, k2 := VisitOrder(l, x1, y1), VisitOrder(l, x2, y2);
    assert q[k] == Pixel(r, l, x, y);
    assert p[k1] == Pixel(b, l, x1, y1);
    assert p[k2] == Pixel(b, l, x2, y2);
    SwappedPixel(b, l, x1, y1, x2, y2, x, y);
    if k == k2 {
      assert (x, y) == (x2, y2);
      assert q[k] == p[k1];
    } else if k == k1 {
      assert (x, y) == (x1, y1);
      assert q[k] == p[k2];
    } else {
      assert (x, y) != (x1, y1) && (x, y) != (x2, y2);
      assert q[k] == p[k];
    }
  }

  /** What visiting pixel `(x, y)` does to the buffer. */
  function Visit(b: seq<Byte>, l: Layout, d: Draws, x: int, y: int): (r: seq<Byte>)
    requires Fits(|b|, l) && 0 <= x < l.width && 0 <= y < l.height
    ensures |r| == |b|
    ensures multiset(r) == multiset(b)
  {
    var k := VisitOrder(l, x, y);
    var ns := Neighbors(x, y, l.width, l.height);
    if d.coin(k) < SwapChance && |ns| > 0 then
      var q := ns[d.pick(k) % |ns|];
      SwapPixels(b, l, x, y, q.0, q.1)
    else b
  }

  /** Swap every channel of pixel `(x1, y1)` with the same channel of `(x2, y2)`. */
  function SwapPixels(b: seq<Byte>, l: Layout, x1: int, y1: int, x2: int, y2: int): (r: seq<Byte>)
    requires Fits(|b|, l) && 0 <= x1 < l.width && 0 <= y1 < l.height
    requires 0 <= x2 < l.width && 0 <= y2 < l.height
    ensures |r| == |b|
    ensures multiset(r) == multiset(b)
  {
    PixelIndexInRange(|b|, l, x1, y1);
    PixelIndexInRange(|b|, l, x2, y2);
    SwapChannels(b, PixelIndex(l, x1, y1), PixelIndex(l, x2, y2), l.channels)
  }

  /** A pixel swap exchanges the two pixels' tuples and leaves every other
      pixel of the image as it was. */
  lemma SwapPixelsMoves(b: seq<Byte>, l: Layout, x1: int, y1: int, x2: int, y2: int, x: int, y: int)
    requires Fits(|b|, l) && 0 <= x1 < l.width && 0 <= y1 < l.height
    requires 0 <= x2 < l.width && 0 <= y2 < l.height
    requires 0 <= x < l.width && 0 <= y < l.height
    ensures Pixel(SwapPixels(b, l, x1, y1, x2, y2), l, x, y)
      == if (x, y) == (x1, y1) then Pixel(b, l, x2, y2)
         else if (x, y) == (x2, y2) then Pixel(b, l, x1, y1)
         else Pixel(b, l, x, y)
  {
    PixelIndexInRange(|b|, l, x1, y1);
    PixelIndexInRange(|b|, l, x2, y2);
    SwappedPixel(b, l, x1, y1, x2, y2, x, y);
  }

  /** A pixel swap permutes the pixel tuples of the image. */
  lemma SwapPixelsPermutesPixels(b: seq<Byte>, l: Layout, x1: int, y1: int, x2: int, y2: int)
    requires Fits(|b|, l) && 0 <= x1 < l.width && 0 <= y1 < l.height
    requires 0 <= x2 < l.width && 0 <= y2 < l.height
    ensures multiset(Pixels(SwapPixels(b, l, x1, y1, x2, y2), l)) == multiset(Pixels(b, l))
  {
    PixelIndexInRange(|b|, l, x1, y1);
    PixelIndexInRange(|b|, l, x2, y2);
    SwappedPixels(b, l, x1, y1, x2, y2);
  }

  /** Visiting a pixel permutes the pixel tuples of the image. */
  lemma VisitPermutesPixels(b: seq<Byte>, l: Layout, d: Draws, x: int, y: int, r: seq<Byte>)
    requires Fits(|b|, l) && 0 <= x < l.width && 0 <= y < l.height
    requires r == Visit(b, l, d, x, y)
    ensures multiset(Pixels(r, l)) == multiset(Pixels(b, l))
  {
    var k := VisitOrder(l, x, y);
    var ns := Neighbors(x, y, l.width, l.height);
    if d.coin(k) < SwapChance && |ns| > 0 {
      var q := ns[d.pick(k) % |ns|];
      SwapPixelsPermutesPixels(b, l, x, y, q.0, q.1);
    }
  }

  /** The buffer after visiting pixels `0 .. x-1` of row `y`. */
  function RowDone(b: seq<Byte>, l: Layout, d: Draws, y: int, x: nat): (r: seq<Byte>)
    requires Fits(|b|, l) && 0 <= y < l.height && x <= l.width
    ensures |r| == |b|
    ensures multiset(r) == multiset(b)
  {
    if x == 0 then b else Visit(RowDone(b, l, d, y, x - 1), l, d, x - 1, y)
  }

  /** The buffer after visiting every pixel of rows `0 .. y-1`. */
  function RowsDone(b: seq<Byte>, l: Layout, d: Draws, y: nat): (r: seq<Byte>)
    requires Fits(|b|, l) && y <= l.height
    ensures |r| == |b|
    ensures multiset(r) == multiset(b)
  {
    if y == 0 then b else RowDone(RowsDone(b, l, d, y - 1), l, d, y - 1, l.width)
  }

  /** A partly visited row holds the original pixel tuples, reordered. */
  lemma {:induction false} RowDonePermutesPixels(b: seq<Byte>, l: Layout, d: Draws, y: int, x: nat)
    requires Fits(|b|, l) && 0 <= y < l.height && x <= l.width
    ensures multiset(Pixels(RowDone(b, l, d, y, x), l)) == multiset(Pixels(b, l))
  {
    if x > 0 {
      RowDonePermutesPixels(b, l, d, y, x - 1);
      RowDoneStep(b, l, d, y, x);
    }
  }

  lemma RowDoneStep(b: seq<Byte>, l: Layout, d: Draws, y: int, x: nat)
    requires Fits(|b|, l) && 0 <= y < l.height && 0 < x <= l.width
    ensures multiset(Pixels(RowDone(b, l, d, y, x), l)) == multiset(Pixels(RowDone(b, l, d, y, x - 1), l))
  {
    VisitPermutesPixels(RowDone(b, l, d, y, x - 1), l, d, x - 1, y, RowDone(b, l, d, y, x));
  }

  /** After any number of rows the pixel tuples are the original ones,
      reordered. */
  lemma {:induction false} RowsDonePermutesPixels(b: seq<Byte>, l: Layout, d: Draws, y: nat)
    requires Fits(|b|, l) && y <= l.height
    ensures multiset(Pixels(RowsDone(b, l, d, y), l)) == multiset(Pixels(b, l))
  {
    if y > 0 {
      RowsDonePermutesPixels(b, l, d, y - 1);
      RowsDoneStep(b, l, d, y);
    }
  }

  lemma RowsDoneStep(b: seq<Byte>, l: Layout, d: Draws, y: nat)
    requires Fits(|b|, l) && 0 < y <= l.height
    ensures multiset(Pixels(RowsDone(b, l, d, y), l)) == multiset(Pixels(RowsDone(b, l, d, y - 1), l))
  {
    RowDonePermutesPixels(RowsDone(b, l, d, y - 1), l, d, y - 1, l.width);
  }

  /** The bytes `_randomize_pixels` hands to the new pixbuf. */
  function Randomized(b: seq<Byte>, l: Layout, d: Draws): (r: seq<Byte>)
    requires Fits(|b|, l)
    ensures |r| == |b|
    ensures multiset(r) == multiset(b)
  {
    RowsDone(b, l, d, l.height)
  }

  /** The randomized image is a permutation of the original pixel tuples. */
  lemma RandomizedPermutesPixels(b: seq<Byte>, l: Layout, d: Draws)
    requires Fits(|b|, l)
    ensures multiset(Pixels(Randomized(b, l, d), l)) == multiset(Pixels(b, l))
  {
    RowsDonePermutesPixels(b, l, d, l.height);
  }

  /** `_randomize_pixels`, in place on the mutable copy of the pixel bytes. */
  method RandomizePixels(pixels: array<Byte>, l: Layout, d: Draws)
    requires Fits(pixels.Length, l)
    modifies pixels
    ensures pixels[..] == Randomized(old(pixels[..]), l, d)
  {
    ghost var b0 := pixels[..];
    var y := 0;
    while y < l.height
      invariant 0 <= y <= l.height
      invariant pixels[..] == RowsDone(b0, l, d, y)
    {
      VisitRow(pixels, l, d, y);
      y := y + 1;
    }
  }

  /** The pixel loop of row `y`, left to right. */
  method VisitRow(pixels: array<Byte>, l: Layout, d: Draws, y: int)
    requires Fits(pixels.Length, l) && 0 <= y < l.height
    modifies pixels
    ensures pixels[..] == RowDone(old(pixels[..]), l, d, y, l.width)
  {
    ghost var rowStart := pixels[..];
    var x := 0;
    while x < l.width
      invariant 0 <= x <= l.width
      invariant pixels[..] == RowDone(rowStart, l, d, y, x)
    {
      VisitInPlace(pixels, l, d, x, y);
      x := x + 1;
    }
  }

  /** The body of the pixel loop: one draw, and maybe one swap. */
  method VisitInPlace(pixels: array<Byte>, l: Layout, d: Draws, x: int, y: int)
    requires Fits(pixels.Length, l) && 0 <= x < l.width && 0 <= y < l.height
    modifies pixels
    ensures pixels[..] == Visit(old(pixels[..]), l, d, x, y)
  {
    var k := VisitOrder(l, x, y);
    var ns := Neighbors(x, y, l.width, l.height);
    if d.coin(k) < SwapChance && |ns| > 0 {
      var q := ns[d.pick(k) % |ns|];
      SwapPixelsInPlace(pixels, l, x, y, q.0, q.1);
    }
  }

  /** The channel loop: swap pixel `(x1, y1)` with pixel `(x2, y2)` byte by byte. */
  method SwapPixelsInPlace(pixels: array<Byte>, l: Layout, x1: int, y1: int, x2: int, y2: int)
    requires Fits(pixels.Length, l) && 0 <= x1 < l.width && 0 <= y1 < l.height
    requires 0 <= x2 < l.width && 0 <= y2 < l.height
    modifies pixels
    ensures pixels[..] == SwapPixels(old(pixels[..]), l, x1, y1, x2, y2)
  {
    var i1 := y1 * l.stride + x1 * l.channels;
    var i2 := y2 * l.stride + x2 * l.channels;
    PixelIndexInRange(pixels.Length, l, x1, y1);
    PixelIndexInRange(pixels.Length, l, x2, y2);
    ghost var before := pixels[..];
    var c := 0;
    while c < l.channels
      invariant 0 <= c <= l.channels
      invariant pixels[..] == SwapChannels(before, i1, i2, c)
    {
      SwapInPlace(pixels, i1 + c, i2 + c);
      c := c + 1;
    }
  }

  /** `pixels[i], pixels[j] = pixels[j], pixels[i]`. */
  method SwapInPlace(pixels: array<Byte>, i: int, j: int)
    requires 0 <= i < pixels.Length && 0 <= j < pixels.Length
    modifies pixels
    ensures pixels[..] == Swap(old(pixels[..]), i, j)
  {
    pixels[i], pixels[j] := pixels[j], pixels[i];
  }

  /** A one-pixel image has no neighbour and is left as it is. */
  lemma {:induction false} SinglePixelUnchanged(b: seq<Byte>, l: Layout, d: Draws)
    requires Fits(|b|, l) && l.width == 1 && l.height == 1
    ensures Randomized(b, l, d) == b
  {
    assert Neighbors(0, 0, 1, 1) == [];
    assert Visit(b, l, d, 0, 0) == b;
    assert RowDone(b, l, d, 0, 1) == Visit(b, l, d, 0, 0);
    assert RowsDone(b, l, d, 1) == RowDone(b, l, d, 0, 1);
  }

  /** When no draw falls below 0.3 nothing is swapped. */
  lemma {:induction false} NoLuckyDrawUnchanged(b: seq<Byte>, l: Layout, d: Draws, y: nat)
    requires Fits(|b|, l) && y <= l.height
    requires forall k :: d.coin(k) >= SwapChance
    ensures RowsDone(b, l, d, y) == b
  {
    if y > 0 {
      NoLuckyDrawUnchanged(b, l, d, y - 1);
      NoLuckyRowUnchanged(b, l, d, y - 1, l.width);
    }
  }

  lemma {:induction false} NoLuckyRowUnchanged(b: seq<Byte>, l: Layout, d: Draws, y: int, x: nat)
    requires Fits(|b|, l) && 0 <= y < l.height && x <= l.width
    requires forall k :: d.coin(k) >= SwapChance
    ensures RowDone(b, l, d, y, x) == b
  {
    if x > 0 {
      NoLuckyRowUnchanged(b, l, d, y, x - 1);
      assert d.coin(VisitOrder(l, x - 1, y)) >= SwapChance;
    }
  }

  /** Seen from its row, a byte at column offset `r < stride`: two such
      positions coincide only when their rows and offsets do. */
  lemma RowOffsetUnique(stride: int, y1: int, r1: int, y2: int, r2: int)
    requires 0 <= r1 < stride && 0 <= r2 < stride && y1 >= 0 && y2 >= 0
    requires y1 * stride + r1 == y2 * stride + r2
    ensures y1 == y2 && r1 == r2
  {
    if y1 < y2 {
      MulLe(y1 + 1, y2, stride);
    } else if y2 < y1 {
      MulLe(y2 + 1, y1, stride);
    }
  }

  /** A padding byte: beyond the last pixel of its row. */
  predicate IsPadding(l: Layout, y: int, r: int) {
    0 <= y && l.width * l.channels <= r < l.stride
  }

  lemma VisitKeepsPadding(b: seq<Byte>, l: Layout, d: Draws, x: int, y: int, py: int, pr: int)
    requires Fits(|b|, l) && 0 <= x < l.width && 0 <= y < l.height
    requires IsPadding(l, py, pr) && 0 <= py * l.stride + pr < |b|
    ensures Visit(b, l, d, x, y)[py * l.stride + pr] == b[py * l.stride + pr]
  {
    var k := VisitOrder(l, x, y);
    var ns := Neighbors(x, y, l.width, l.height);
    if d.coin(k) < SwapChance && |ns| > 0 {
      var q := ns[d.pick(k) % |ns|];
      SwapPixelsKeepPadding(b, l, x, y, q.0, q.1, py, pr);
    }
  }

  /** A padding byte is no channel of any pixel. */
  lemma PaddingIsNoChannel(l: Layout, x: int, y: int, c: int, py: int, pr: int)
    requires 0 <= x < l.width && 0 <= y < l.height && 0 <= c < l.channels
    requires IsPadding(l, py, pr)
    ensures py * l.stride + pr != PixelIndex(l, x, y) + c
  {
    PixelColumnInRow(l, x, c);
    if py * l.stride + pr == PixelIndex(l, x, y) + c {
      RowOffsetUnique(l.stride, py, pr, y, x * l.channels + c);
    }
  }

  lemma SwapPixelsKeepPadding(b: seq<Byte>, l: Layout, x1: int, y1: int, x2: int, y2: int, py: int, pr: int)
    requires Fits(|b|, l) && 0 <= x1 < l.width && 0 <= y1 < l.height
    requires 0 <= x2 < l.width && 0 <= y2 < l.height
    requires IsPadding(l, py, pr) && 0 <= py * l.stride + pr < |b|
    ensures SwapPixels(b, l, x1, y1, x2, y2)[py * l.stride + pr] == b[py * l.stride + pr]
  {
    var i := py * l.stride + pr;
    PixelIndexInRange(|b|, l, x1, y1);
    PixelIndexInRange(|b|, l, x2, y2);
    var i1, i2 := PixelIndex(l, x1, y1), PixelIndex(l, x2, y2);
    if i1 <= i < i1 + l.channels {
      PaddingIsNoChannel(l, x1, y1, i - i1, py, pr);
    }
    if i2 <= i < i2 + l.channels {
      PaddingIsNoChannel(l, x2, y2, i - i2, py, pr);
    }
    SwapChannelsOutside(b, i1, i2, l.channels, i);
  }

  lemma {:induction false} RowKeepsPadding(b: seq<Byte>, l: Layout, d: Draws, y: int, x: nat, py: int, pr: int)
    requires Fits(|b|, l) && 0 <= y < l.height && x <= l.width
    requires IsPadding(l, py, pr) && 0 <= py * l.stride + pr < |b|
    ensures RowDone(b, l, d, y, x)[py * l.stride + pr] == b[py * l.stride + pr]
  {
    if x > 0 {
      RowKeepsPadding(b, l, d, y, x - 1, py, pr);
      VisitKeepsPadding(RowDone(b, l, d, y, x - 1), l, d, x - 1, y, py, pr);
    }
  }

  /** Row padding bytes, which belong to no pixel, are never moved. */
  lemma {:induction false} RandomizedKeepsPadding(b: seq<Byte>, l: Layout, d: Draws, y: nat, py: int, pr: int)
    requires Fits(|b|, l) && y <= l.height
    requires IsPadding(l, py, pr) && 0 <= py * l.stride + pr < |b|
    ensures RowsDone(b, l, d, y)[py * l.stride + pr] == b[py * l.stride + pr]
  {
    if y > 0 {
      RandomizedKeepsPadding(b, l, d, y - 1, py, pr);
      RowKeepsPadding(RowsDone(b, l, d, y - 1), l, d, y - 1, l.width, py, pr);
    }
  }
}

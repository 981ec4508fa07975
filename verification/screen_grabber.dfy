/** Conversion of a captured image to a packed RGB buffer, with the machine's 32-bit `int`. */
module ScreenGrabbers {
  import opened Bytes

  newtype int32 = x: int | -0x8000_0000 <= x < 0x8000_0000

  const CHANNELS: int32 := 3

  const INT_MAX: int := 0x7fff_ffff

  datatype Pixel = Pixel(red: byte, green: byte, blue: byte)

  /** How a pixel lies in memory: bits per pixel, and whether the least significant byte is first. */
  datatype Layout = Layout(bpp: int, lsbFirst: bool)

  predicate Supported(l: Layout) {
    l.bpp == 24 || l.bpp == 32
  }

  function PixelSize(l: Layout): int {
    l.bpp / 8
  }

  // ---------- Packed images ----------

  /** The bytes of one pixel; `fill` is the byte of a 32-bit pixel that carries no color. */
  function PackPixel(l: Layout, p: Pixel, fill: byte): (s: seq<byte>)
    requires Supported(l)
    ensures |s| == PixelSize(l)
  {
    if l.bpp == 24 then
      if l.lsbFirst then [p.blue, p.green, p.red] else [p.red, p.green, p.blue]
    else
      if l.lsbFirst then [p.blue, p.green, p.red, fill] else [fill, p.red, p.green, p.blue]
  }

  /** `grid` is `height` rows of `width` pixels. */
  predicate IsGrid(grid: seq<seq<Pixel>>, width: nat, height: nat) {
    |grid| == height && forall y :: 0 <= y < height ==> |grid[y]| == width
  }

  /** The pixel at column `x` of a row starting at `start` is `p`, with some fourth byte. */
  ghost predicate HoldsPixel(data: seq<byte>, l: Layout, start: int, p: Pixel)
    requires Supported(l)
  {
    && 0 <= start && start + PixelSize(l) <= |data|
    && exists fill :: data[start..start + PixelSize(l)] == PackPixel(l, p, fill)
  }

  /**
   * `data` is an image of `grid` in layout `l` with `stride` bytes from row to row.  Nothing is said
   * of the padding behind a row or of a fourth byte.
   */
  ghost predicate Packs(data: seq<byte>, l: Layout, stride: nat, grid: seq<seq<Pixel>>, width: nat, height: nat)
    requires Supported(l)
  {
    && IsGrid(grid, width, height)
    && forall y, x :: 0 <= y < height && 0 <= x < width ==>
         HoldsPixel(data, l, y * stride + x * PixelSize(l), grid[y][x])
  }

  // ---------- RGB buffers ----------

  function Rgb(p: Pixel): seq<byte> {
    [p.red, p.green, p.blue]
  }

  function RgbRow(row: seq<Pixel>): seq<byte> {
    if row == [] then [] else RgbRow(row[..|row| - 1]) + Rgb(row[|row| - 1])
  }

  /** The pixels of a grid row by row, three bytes each. */
  function RowMajor(grid: seq<seq<Pixel>>): seq<byte> {
    if grid == [] then [] else RowMajor(grid[..|grid| - 1]) + RgbRow(grid[|grid| - 1])
  }

  // ---------- What the conversion reads ----------

  function RedAt(l: Layout): int {
    if l.lsbFirst then 2 else if l.bpp == 24 then 0 else 1
  }

  function GreenAt(l: Layout): int {
    if l.bpp == 24 || l.lsbFirst then 1 else 2
  }

  function BlueAt(l: Layout): int {
    if l.lsbFirst then 0 else if l.bpp == 24 then 2 else 3
  }

  function ByteAt(data: seq<byte>, i: int): byte {
    if 0 <= i < |data| then data[i] else 0
  }

  function PixelAt(data: seq<byte>, l: Layout, stride: int, y: int, x: int): Pixel {
    var start := y * stride + x * PixelSize(l);
    Pixel(ByteAt(data, start + RedAt(l)), ByteAt(data, start + GreenAt(l)), ByteAt(data, start + BlueAt(l)))
  }

  function RowOf(data: seq<byte>, l: Layout, stride: int, y: int, width: nat): (r: seq<Pixel>)
    ensures |r| == width
  {
    seq(width, x => PixelAt(data, l, stride, y, x))
  }

  function GridOf(data: seq<byte>, l: Layout, stride: int, width: nat, height: nat): (g: seq<seq<Pixel>>)
    ensures IsGrid(g, width, height)
  {
    seq(height, y => RowOf(data, l, stride, y, width))
  }

  /** The three color bytes are found where each layout puts them. */
  lemma PixelRead(data: seq<byte>, l: Layout, start: int, p: Pixel)
    requires Supported(l) && HoldsPixel(data, l, start, p)
    ensures p ==
            Pixel(ByteAt(data, start + RedAt(l)), ByteAt(data, start + GreenAt(l)), ByteAt(data, start + BlueAt(l)))
  {
    var n := PixelSize(l);
    var fill :| data[start..start + n] == PackPixel(l, p, fill);
    var s := data[start..start + n];
    assert s[RedAt(l)] == data[start + RedAt(l)];
    assert s[GreenAt(l)] == data[start + GreenAt(l)];
    assert s[BlueAt(l)] == data[start + BlueAt(l)];
  }

  lemma GridRead(data: seq<byte>, l: Layout, stride: nat, grid: seq<seq<Pixel>>, width: nat, height: nat)
    requires Supported(l) && Packs(data, l, stride, grid, width, height)
    ensures GridOf(data, l, stride, width, height) == grid
  {
    forall y | 0 <= y < height ensures RowOf(data, l, stride, y, width) == grid[y] {
      forall x | 0 <= x < width ensures PixelAt(data, l, stride, y, x) == grid[y][x] {
        PixelRead(data, l, y * stride + x * PixelSize(l), grid[y][x]);
      }
    }
  }

  lemma {:induction false} RgbRowLength(row: seq<Pixel>)
    ensures |RgbRow(row)| == 3 * |row|
  {
    if row != [] {
      RgbRowLength(row[..|row| - 1]);
    }
  }

  lemma OneMore(n: int, width: int)
    ensures (n + 1) * width == n * width + width
  {
  }

  lemma {:induction false} RowMajorLength(grid: seq<seq<Pixel>>, width: nat)
    requires IsGrid(grid, width, |grid|)
    ensures |RowMajor(grid)| == 3 * (|grid| * width)
  {
    if grid != [] {
      var n := |grid| - 1;
      RowMajorLength(grid[..n], width);
      RgbRowLength(grid[n]);
      hide RgbRow;
      OneMore(n, width);
    }
  }

  /** Where the colors of a pixel are, in each of the four layouts. */
  lemma PixelPlaces(data: seq<byte>, stride: nat, y: nat, x: nat)
    ensures var i := y * stride + x * 3;
            i + 3 <= |data| ==>
              && PixelAt(data, Layout(24, true), stride, y, x) == Pixel(data[i + 2], data[i + 1], data[i])
              && PixelAt(data, Layout(24, false), stride, y, x) == Pixel(data[i], data[i + 1], data[i + 2])
    ensures var i := y * stride + x * 4;
            i + 4 <= |data| ==>
              && PixelAt(data, Layout(32, true), stride, y, x) == Pixel(data[i + 2], data[i + 1], data[i])
              && PixelAt(data, Layout(32, false), stride, y, x) == Pixel(data[i + 1], data[i + 2], data[i + 3])
  {
  }

  /**
   * One pixel in each of the four layouts, byte by byte; `fill` is the fourth byte.  Least
   * significant byte first is blue, green, red; most significant first is the other way round, with
   * the fourth byte in front.
   */
  lemma PixelBytes(red: byte, green: byte, blue: byte, fill: byte)
    ensures RowMajor(GridOf([blue, green, red], Layout(24, true), 3, 1, 1)) == [red, green, blue]
    ensures RowMajor(GridOf([red, green, blue], Layout(24, false), 3, 1, 1)) == [red, green, blue]
    ensures RowMajor(GridOf([blue, green, red, fill], Layout(32, true), 4, 1, 1)) == [red, green, blue]
    ensures RowMajor(GridOf([fill, red, green, blue], Layout(32, false), 4, 1, 1)) == [red, green, blue]
  {
    var p := Pixel(red, green, blue);
    assert PixelAt([blue, green, red], Layout(24, true), 3, 0, 0) == p;
    assert PixelAt([red, green, blue], Layout(24, false), 3, 0, 0) == p;
    assert PixelAt([blue, green, red, fill], Layout(32, true), 4, 0, 0) == p;
    assert PixelAt([fill, red, green, blue], Layout(32, false), 4, 0, 0) == p;
    hide RowMajor, GridOf, PixelAt;
    OnePixel([blue, green, red], Layout(24, true));
    OnePixel([red, green, blue], Layout(24, false));
    OnePixel([blue, green, red, fill], Layout(32, true));
    OnePixel([fill, red, green, blue], Layout(32, false));
  }

  lemma OnePixel(data: seq<byte>, l: Layout)
    ensures RowMajor(GridOf(data, l, |data|, 1, 1)) == Rgb(PixelAt(data, l, |data|, 0, 0))
  {
    var row := RowOf(data, l, |data|, 0, 1);
    var grid := GridOf(data, l, |data|, 1, 1);
    assert grid == [row] && row == [PixelAt(data, l, |data|, 0, 0)];
    assert grid[..0] == [] && row[..0] == [];
    assert RgbRow(row) == [] + Rgb(row[0]) == Rgb(row[0]) && RowMajor(grid) == [] + RgbRow(row) == RgbRow(row);
  }

  // ---------- Bounds ----------

  predicate InInt(v: int) {
    -0x8000_0000 <= v <= INT_MAX
  }

  function LastByteAt(l: Layout): int {
    if l.bpp == 32 && !l.lsbFirst then 3 else 2
  }

  /** At pixel (x, y) no `int` expression leaves its range and no byte outside the data is read. */
  predicate SafeAt(l: Layout, width: int, stride: int, size: int, y: int, x: int) {
    && InInt(y * stride) && InInt(x * PixelSize(l)) && InInt(x * PixelSize(l) + LastByteAt(l))
    && InInt(y * width) && InInt(y * width + x) && InInt((y * width + x) * 3)
    && 0 <= y * stride + x * PixelSize(l) && y * stride + x * PixelSize(l) + LastByteAt(l) < size
  }

  predicate Safe(l: Layout, width: int, height: int, stride: int, size: int) {
    && InInt(width * height) && InInt(width * height * 3)
    && forall y, x :: 0 <= y < height && 0 <= x < width ==> SafeAt(l, width, stride, size, y, x)
  }

  /** The four corner conditions: the buffer, the last row's offset, the last column's, the last read. */
  predicate Fits(l: Layout, width: int, height: int, stride: int, size: int) {
    && width * height * 3 <= INT_MAX
    && (height - 1) * stride <= INT_MAX
    && (width - 1) * PixelSize(l) + LastByteAt(l) <= INT_MAX
    && (height - 1) * stride + (width - 1) * PixelSize(l) + LastByteAt(l) < size
  }

  lemma MulMono(a: int, b: int, c: int)
    requires 0 <= a <= b && 0 <= c
    ensures 0 <= a * c <= b * c
  {
  }

  lemma PixelIndexBound(width: int, height: int, y: int, x: int)
    requires 0 <= y < height && 0 <= x < width
    ensures 0 <= y * width && 0 <= y * width + x < width * height
  {
    MulMono(y, height - 1, width);
    assert (height - 1) * width + width == width * height;
  }

  lemma FitsAt(l: Layout, width: int, height: int, stride: int, size: int, y: int, x: int)
    requires Supported(l) && stride >= 0 && Fits(l, width, height, stride, size)
    requires 0 <= y < height && 0 <= x < width
    ensures SafeAt(l, width, stride, size, y, x)
  {
    MulMono(y, height - 1, stride);
    MulMono(x, width - 1, PixelSize(l));
    PixelIndexBound(width, height, y, x);
  }

  /** The conversion of a screen is free of overflow and of stray reads exactly when it `Fits`. */
  lemma SafeExactlyWhen(l: Layout, width: int, height: int, stride: int, size: int)
    requires Supported(l) && width > 0 && height > 0 && stride >= 0
    ensures Safe(l, width, height, stride, size) <==> Fits(l, width, height, stride, size)
  {
    if Fits(l, width, height, stride, size) {
      MulMono(1, width, height);
      forall y, x | 0 <= y < height && 0 <= x < width ensures SafeAt(l, width, stride, size, y, x) {
        FitsAt(l, width, height, stride, size, y, x);
      }
    }
    if Safe(l, width, height, stride, size) {
      assert SafeAt(l, width, stride, size, height - 1, width - 1);
    }
  }

  /** What the display server promises of an image is enough, if buffer and image fit an `int`. */
  lemma {:induction false} DisplayImagesFit(l: Layout, width: int, height: int, stride: int, size: int)
    requires Supported(l) && width > 0 && height > 0
    requires 3 * width * height <= INT_MAX && height * stride <= INT_MAX
    requires stride >= width * PixelSize(l) && size >= height * stride
    ensures Fits(l, width, height, stride, size)
  {
    MulMono(1, width, PixelSize(l));
    MulMono(1, height, stride);
    assert height * stride == (height - 1) * stride + stride;
    assert width * PixelSize(l) == (width - 1) * PixelSize(l) + PixelSize(l);
    assert 3 * width * height == width * height * 3;
  }

  // ---------- Each output byte once ----------

  /** The place of channel `c` of pixel (x, y) in the RGB buffer. */
  function Place(width: int, y: int, x: int, c: int): int {
    (y * width + x) * 3 + c
  }

  /** Different channels of different pixels have different places. */
  lemma PlacesDistinct(width: int, y: int, x: int, c: int, y': int, x': int, c': int)
    requires 0 <= x < width && 0 <= c < 3 && 0 <= x' < width && 0 <= c' < 3
    requires 0 <= y && 0 <= y'
    requires Place(width, y, x, c) == Place(width, y', x', c')
    ensures y == y' && x == x' && c == c'
  {
    assert y * width + x == y' * width + x';
    assert (y + 1) * width == y * width + width;
    assert (y' + 1) * width == y' * width + width;
    if y < y' {
      MulMono(y + 1, y', width);
    } else if y' < y {
      MulMono(y' + 1, y, width);
    }
  }

  /** Every place in the buffer belongs to a channel of a pixel. */
  lemma PlacesCover(width: int, height: int, i: int) returns (y: int, x: int, c: int)
    requires 0 <= i < width * height * 3 && width > 0
    ensures 0 <= y < height && 0 <= x < width && 0 <= c < 3 && Place(width, y, x, c) == i
  {
    var k := i / 3;
    c := i % 3;
    y, x := k / width, k % width;
    assert k == y * width + x;
    assert 0 <= k < width * height;
    if y >= height {
      MulMono(height, y, width);
    }
  }

  /** The color of channel 0, 1 or 2. */
  function Channel(p: Pixel, c: int): byte {
    if c == 0 then p.red else if c == 1 then p.green else p.blue
  }

  lemma {:induction false} RgbRowAt(row: seq<Pixel>, x: int, c: int)
    requires 0 <= x < |row| && 0 <= c < 3
    ensures ByteAt(RgbRow(row), x * 3 + c) == Channel(row[x], c)
  {
    var n := |row| - 1;
    RgbRowLength(row[..n]);
    if x < n {
      RgbRowAt(row[..n], x, c);
    }
  }

  lemma ByteAtConcat(s: seq<byte>, t: seq<byte>, i: int)
    requires 0 <= i < |s| + |t|
    ensures ByteAt(s + t, i) == if i < |s| then ByteAt(s, i) else ByteAt(t, i - |s|)
  {
  }

  lemma WidthPositive(height: nat, width: nat)
    requires height * width > 0
    ensures width > 0
  {
  }

  lemma PlaceInside(width: int, height: int, y: int, x: int, c: int)
    requires 0 <= y < height && 0 <= x < width && 0 <= c < 3
    ensures 0 <= Place(width, y, x, c) < 3 * (height * width)
  {
    PixelIndexBound(width, height, y, x);
  }

  /** The buffer of a grid holds each channel of each pixel in its place. */
  lemma {:induction false} RowMajorAt(grid: seq<seq<Pixel>>, width: nat, y: int, x: int, c: int)
    requires IsGrid(grid, width, |grid|)
    requires 0 <= y < |grid| && 0 <= x < width && 0 <= c < 3
    ensures ByteAt(RowMajor(grid), Place(width, y, x, c)) == Channel(grid[y][x], c)
    decreases |grid|
  {
    var n := |grid| - 1;
    var above, row := RowMajor(grid[..n]), RgbRow(grid[n]);
    RowMajorLength(grid[..n], width);
    RgbRowLength(grid[n]);
    RowMajorLength(grid, width);
    PlaceInside(width, |grid|, y, x, c);
    ByteAtConcat(above, row, Place(width, y, x, c));
    if y < n {
      PlaceInside(width, n, y, x, c);
      RowMajorAt(grid[..n], width, y, x, c);
    } else {
      RgbRowAt(grid[n], x, c);
    }
  }

  /** `buffer` has a byte for each channel of each pixel of the grid, and holds them in their places. */
  predicate Holds(buffer: seq<byte>, grid: seq<seq<Pixel>>, width: nat) {
    && IsGrid(grid, width, |grid|) && |buffer| == 3 * (|grid| * width)
    && forall y, x, c :: 0 <= y < |grid| && 0 <= x < width && 0 <= c < 3 ==>
         ByteAt(buffer, Place(width, y, x, c)) == Channel(grid[y][x], c)
  }

  /** A buffer holds the channels of a grid in their places exactly if it is the row-major buffer of the grid. */
  lemma HoldsExactlyWhen(buffer: seq<byte>, grid: seq<seq<Pixel>>, width: nat)
    requires IsGrid(grid, width, |grid|)
    ensures Holds(buffer, grid, width) <==> buffer == RowMajor(grid)
  {
    RowMajorLength(grid, width);
    var whole := RowMajor(grid);
    forall y, x, c | 0 <= y < |grid| && 0 <= x < width && 0 <= c < 3
      ensures ByteAt(whole, Place(width, y, x, c)) == Channel(grid[y][x], c)
    {
      RowMajorAt(grid, width, y, x, c);
    }
    if Holds(buffer, grid, width) {
      forall i | 0 <= i < |buffer| ensures buffer[i] == whole[i] {
        ChannelOfPlace(buffer, whole, grid, width, i);
      }
    }
  }

  lemma ChannelOfPlace(buffer: seq<byte>, other: seq<byte>, grid: seq<seq<Pixel>>, width: nat, i: int)
    requires Holds(buffer, grid, width) && Holds(other, grid, width)
    requires 0 <= i < |buffer|
    ensures buffer[i] == other[i]
  {
    WidthPositive(|grid|, width);
    var y, x, c := PlacesCover(width, |grid|, i);
    assert ByteAt(buffer, Place(width, y, x, c)) == ByteAt(other, Place(width, y, x, c));
  }

  /** Red, green and blue of column `x` of row `y`, one byte each. */
  predicate ColorsAt(buffer: seq<byte>, width: int, y: int, x: int, p: Pixel) {
    && ByteAt(buffer, (y * width + x) * 3) == p.red
    && ByteAt(buffer, (y * width + x) * 3 + 1) == p.green
    && ByteAt(buffer, (y * width + x) * 3 + 2) == p.blue
  }

  predicate AllColorsAt(buffer: seq<byte>, data: seq<byte>, l: Layout, stride: int, width: int, height: int) {
    forall y, x :: 0 <= y < height && 0 <= x < width ==> ColorsAt(buffer, width, y, x, PixelAt(data, l, stride, y, x))
  }

  lemma AllColorsOfGrid(data: seq<byte>, l: Layout, stride: int, width: nat, height: nat)
    ensures AllColorsAt(RowMajor(GridOf(data, l, stride, width, height)), data, l, stride, width, height)
  {
    var whole := RowMajor(GridOf(data, l, stride, width, height));
    forall y, x | 0 <= y < height && 0 <= x < width
      ensures ColorsAt(whole, width, y, x, PixelAt(data, l, stride, y, x))
    {
      ColorsOfGrid(data, l, stride, width, height, y, x);
    }
  }

  lemma ColorsOfGrid(data: seq<byte>, l: Layout, stride: int, width: nat, height: nat, y: int, x: int)
    requires 0 <= y < height && 0 <= x < width
    ensures ColorsAt(RowMajor(GridOf(data, l, stride, width, height)), width, y, x, PixelAt(data, l, stride, y, x))
  {
    var grid := GridOf(data, l, stride, width, height);
    RowMajorAt(grid, width, y, x, 0);
    RowMajorAt(grid, width, y, x, 1);
    RowMajorAt(grid, width, y, x, 2);
    assert grid[y][x] == PixelAt(data, l, stride, y, x);
    hide RowMajor, PixelAt;
  }

  /** Every byte of the buffer of a grid is one channel of one pixel, and of no other. */
  lemma OneChannelPerByte(grid: seq<seq<Pixel>>, width: nat, i: int) returns (y: int, x: int, c: int)
    requires IsGrid(grid, width, |grid|) && 0 <= i < |RowMajor(grid)|
    ensures 0 <= y < |grid| && 0 <= x < width && 0 <= c < 3
    ensures Place(width, y, x, c) == i && RowMajor(grid)[i] == Channel(grid[y][x], c)
    ensures forall y', x', c' :: 0 <= y' && 0 <= x' < width && 0 <= c' < 3 && Place(width, y', x', c') == i ==>
              y' == y && x' == x && c' == c
  {
    RowMajorLength(grid, width);
    WidthPositive(|grid|, width);
    y, x, c := PlacesCover(width, |grid|, i);
    RowMajorAt(grid, width, y, x, c);
    forall y', x', c' | 0 <= y' && 0 <= x' < width && 0 <= c' < 3 && Place(width, y', x', c') == i
      ensures y' == y && x' == x && c' == c
    {
      PlacesDistinct(width, y, x, c, y', x', c');
    }
  }

  // ---------- The method ----------

  function Prefix(data: seq<byte>, l: Layout, stride: int, width: nat, y: nat, x: nat): seq<byte> {
    RowMajor(GridOf(data, l, stride, width, y)) + RgbRow(RowOf(data, l, stride, y, x))
  }

  lemma PrefixStart(data: seq<byte>, l: Layout, stride: int, width: nat)
    ensures Prefix(data, l, stride, width, 0, 0) == []
  {
  }

  lemma PrefixNextPixel(data: seq<byte>, l: Layout, stride: int, width: nat, y: nat, x: nat)
    ensures Prefix(data, l, stride, width, y, x + 1) ==
            Prefix(data, l, stride, width, y, x) + Rgb(PixelAt(data, l, stride, y, x))
  {
    var row := RowOf(data, l, stride, y, x + 1);
    assert row[..x] == RowOf(data, l, stride, y, x) && row[x] == PixelAt(data, l, stride, y, x);
    Assoc(RowMajor(GridOf(data, l, stride, width, y)), RgbRow(row[..x]), Rgb(row[x]));
  }

  lemma PrefixNextRow(data: seq<byte>, l: Layout, stride: int, width: nat, y: nat)
    ensures Prefix(data, l, stride, width, y + 1, 0) == Prefix(data, l, stride, width, y, width)
    ensures RowMajor(GridOf(data, l, stride, width, y)) == Prefix(data, l, stride, width, y, 0)
  {
    var grid := GridOf(data, l, stride, width, y + 1);
    assert grid[..y] == GridOf(data, l, stride, width, y);
    assert RgbRow(RowOf(data, l, stride, y + 1, 0)) == [] && RgbRow(RowOf(data, l, stride, y, 0)) == [];
  }

  /**
   * Nothing where the source throws.  Otherwise the row-major RGB buffer of the grid that the
   * layout describes; `order` lists the places in the order in which they are written.  The caller
   * has refused screens without width or height.
   */
  method ConvertToRGB(data: seq<byte>, bpp: int32, lsbFirst: bool, stride: int32, width: int32, height: int32)
    returns (pixels: Option<seq<byte>>, ghost order: seq<int>)
    requires width > 0 && height > 0 && stride >= 0
    requires width as int * height as int * 3 <= INT_MAX
    requires bpp == 24 || bpp == 32 ==>
               Fits(Layout(bpp as int, lsbFirst), width as int, height as int, stride as int, |data|)
    ensures pixels.Some? <==> bpp == 24 || bpp == 32
    ensures pixels.Some? ==>
              pixels.value ==
              RowMajor(GridOf(data, Layout(bpp as int, lsbFirst), stride as int, width as int, height as int))
    ensures pixels.Some? ==>
              Holds(pixels.value,
                    GridOf(data, Layout(bpp as int, lsbFirst), stride as int, width as int, height as int),
                    width as int)
    ensures pixels.Some? ==>
              AllColorsAt(pixels.value, data, Layout(bpp as int, lsbFirst), stride as int, width as int, height as int)
    ensures pixels.Some? ==> order == seq(|pixels.value|, i => i)
  {
    hide Prefix, Fits, GridOf, RowMajor;
    MulMono(1, width as int, height as int);
    var buffer := new byte[(width * height * CHANNELS) as int](_ => 0);
    order := [];
    if bpp != 24 && bpp != 32 {
      return None, order;
    }
    ghost var l, w, h := Layout(bpp as int, lsbFirst), width as int, height as int;
    PrefixStart(data, l, stride as int, w);
    var y: int32 := 0;
    while y < height
      invariant 0 <= y <= height
      invariant (y as int * w) * 3 <= buffer.Length
      invariant buffer[..(y as int * w) * 3] == Prefix(data, l, stride as int, w, y as int, 0)
      invariant order == seq((y as int * w) * 3, i => i)
    {
      PixelIndexBound(w, h, y as int, w - 1);
      PrefixNextRow(data, l, stride as int, w, y as int);
      ghost var more := ConvertRow(buffer, data, bpp, lsbFirst, stride, width, height, y);
      order := order + more;
      assert (y as int + 1) * w == y as int * w + w;
      y := y + 1;
    }
    PrefixNextRow(data, l, stride as int, w, h);
    HoldsExactlyWhen(buffer[..], GridOf(data, l, stride as int, w, h), w);
    AllColorsOfGrid(data, l, stride as int, w, h);
    hide Holds, AllColorsAt;
    assert buffer[..] == buffer[..(h * w) * 3];
    return Some(buffer[..]), order;
  }

  /** The inner loop: row `y`, behind the rows already written. */
  method ConvertRow(buffer: array<byte>, data: seq<byte>, bpp: int32, lsbFirst: bool,
                    stride: int32, width: int32, height: int32, y: int32)
    returns (ghost order: seq<int>)
    requires width > 0 && height > 0 && stride >= 0 && 0 <= y < height && (bpp == 24 || bpp == 32)
    requires Fits(Layout(bpp as int, lsbFirst), width as int, height as int, stride as int, |data|)
    requires buffer.Length == width as int * height as int * 3
    requires 0 <= (y as int * width as int) * 3 <= buffer.Length
    requires buffer[..(y as int * width as int) * 3] ==
             Prefix(data, Layout(bpp as int, lsbFirst), stride as int, width as int, y as int, 0)
    modifies buffer
    ensures (y as int * width as int + width as int) * 3 <= buffer.Length
    ensures buffer[..(y as int * width as int + width as int) * 3] ==
            Prefix(data, Layout(bpp as int, lsbFirst), stride as int, width as int, y as int, width as int)
    ensures order == seq(width as int * 3, i => (y as int * width as int) * 3 + i)
  {
    hide Prefix, Fits;
    ghost var l, w := Layout(bpp as int, lsbFirst), width as int;
    ghost var before := y as int * w;
    order := [];
    FitsAt(l, w, height as int, stride as int, |data|, y as int, 0);
    var row := y * stride;
    var x: int32 := 0;
    while x < width
      invariant 0 <= x <= width
      invariant (before + x as int) * 3 <= buffer.Length
      invariant buffer[..(before + x as int) * 3] == Prefix(data, l, stride as int, w, y as int, x as int)
      invariant order == seq(x as int * 3, i => before * 3 + i)
    {
      FitsAt(l, w, height as int, stride as int, |data|, y as int, x as int);
      PixelIndexBound(w, height as int, y as int, x as int);
      PrefixNextPixel(data, l, stride as int, w, y as int, x as int);
      var red, green, blue := ReadPixel(data, bpp, lsbFirst, row, x);
      var idx := ((y * width + x) * CHANNELS) as int;
      WritePixel(buffer, idx, red, green, blue);
      order := order + [idx, idx + 1, idx + 2];
      x := x + 1;
    }
  }

  method WritePixel(buffer: array<byte>, idx: nat, red: byte, green: byte, blue: byte)
    requires idx + 2 < buffer.Length
    modifies buffer
    ensures buffer[..idx + 3] == old(buffer[..idx]) + [red, green, blue]
    ensures buffer[idx + 3..] == old(buffer[idx + 3..])
  {
    buffer[idx + 0] := red;
    buffer[idx + 1] := green;
    buffer[idx + 2] := blue;
  }

  /** The four branches that pick the color bytes of one pixel. */
  method ReadPixel(data: seq<byte>, bpp: int32, lsbFirst: bool, row: int32, x: int32)
    returns (red: byte, green: byte, blue: byte)
    requires bpp == 24 || bpp == 32
    requires 0 <= row && 0 <= x
    requires var l := Layout(bpp as int, lsbFirst);
             && InInt(x as int * PixelSize(l) + LastByteAt(l))
             && row as int + x as int * PixelSize(l) + LastByteAt(l) < |data|
    ensures var l := Layout(bpp as int, lsbFirst); var start := row as int + x as int * PixelSize(l);
            && red == ByteAt(data, start + RedAt(l))
            && green == ByteAt(data, start + GreenAt(l))
            && blue == ByteAt(data, start + BlueAt(l))
  {
    if bpp == 24 {
      if lsbFirst {
        blue := data[row as int + (x * 3 + 0) as int];
        green := data[row as int + (x * 3 + 1) as int];
        red := data[row as int + (x * 3 + 2) as int];
      } else {
        red := data[row as int + (x * 3 + 0) as int];
        green := data[row as int + (x * 3 + 1) as int];
        blue := data[row as int + (x * 3 + 2) as int];
      }
    } else {
      if lsbFirst {
        blue := data[row as int + (x * 4 + 0) as int];
        green := data[row as int + (x * 4 + 1) as int];
        red := data[row as int + (x * 4 + 2) as int];
      } else {
        red := data[row as int + (x * 4 + 1) as int];
        green := data[row as int + (x * 4 + 2) as int];
        blue := data[row as int + (x * 4 + 3) as int];
      }
    }
  }

  /**
   * Whatever the layout, the row padding and the fourth byte, an image of a grid of pixels is
   * converted to the row-major RGB buffer of that grid.
   */
  lemma LayoutIndependent(
    data: seq<byte>, l: Layout, stride: nat, data': seq<byte>, l': Layout, stride': nat,
    grid: seq<seq<Pixel>>, width: nat, height: nat)
    requires Supported(l) && Packs(data, l, stride, grid, width, height)
    requires Supported(l') && Packs(data', l', stride', grid, width, height)
    ensures RowMajor(GridOf(data, l, stride, width, height))
         == RowMajor(GridOf(data', l', stride', width, height))
         == RowMajor(grid)
  {
    GridRead(data, l, stride, grid, width, height);
    GridRead(data', l', stride', grid, width, height);
  }
}

/** The RGB rendering: a black-bordered grid of 32x32 sprites, one per cell,
    with the held item in the top-left corner, as a flat HWC byte vector
    (src/boxworld_base.cpp, image_shape, fill_sprite, to_image and the
    element-to-pixel map; src/boxworld_base.h, the sprite constants). */
module Image {
  import opened Definitions
  import opened Wrappers
  import opened States
  import opened Arith

  const SpriteWidth: nat := 32
  const SpriteHeight: nat := 32
  const SpriteChannels: nat := 3
  const SpriteDataLenPerRow: nat := SpriteWidth * SpriteChannels
  const SpriteDataLen: nat := SpriteWidth * SpriteHeight * SpriteChannels

  /** `uint8_t`. */
  type Byte = x: nat | x < 256

  datatype Pixel = Pixel(r: Byte, g: Byte, b: Byte)

  const White: Pixel := Pixel(0xff, 0xff, 0xff)
  const Black: Pixel := Pixel(0x00, 0x00, 0x00)

  /** The twelve key colours, by colour index. */
  const ColourPalette: seq<Pixel> := [
    Pixel(0x9c, 0x5a, 0x3c), Pixel(0xed, 0x1c, 0x24), Pixel(0xff, 0xa3, 0xb1),
    Pixel(0xff, 0x7e, 0x00), Pixel(0xe5, 0xaa, 0x7a), Pixel(0xff, 0xc2, 0x0e),
    Pixel(0xf5, 0xe4, 0x9c), Pixel(0xa8, 0xe6, 0x1d), Pixel(0x22, 0xb1, 0x4c),
    Pixel(0x00, 0xb7, 0xef), Pixel(0x6f, 0x31, 0x98), Pixel(0x2f, 0x36, 0x99)]

  /** kElementToPixelMap. */
  function PixelOf(e: Element): Pixel {
    match e
    case Colour(i) => ColourPalette[i]
    case ColourGoal => White
    case Agent => Pixel(0x99, 0x00, 0x30)
    case Empty => Pixel(0xb4, 0xb4, 0xb4)
  }

  /** Channel `ch` (red, green, blue) of a pixel. */
  function Channel(p: Pixel, ch: nat): Byte
    requires ch < SpriteChannels
  {
    if ch == 0 then p.r else if ch == 1 then p.g else p.b
  }

  /** Every element has its own colour and none is the border's black: the
      picture tells the elements apart. */
  lemma PaletteInjective(e1: Element, e2: Element)
    ensures PixelOf(e1) == PixelOf(e2) <==> e1 == e2
    ensures PixelOf(e1) != Black
  {
  }

  // ---------------------------------------------------------------------------
  // Layout

  /** Pixel rows and columns of the bordered image. */
  function Height(c: Config): nat { (c.rows + 2) * SpriteHeight }
  function Width(c: Config): nat { (c.cols + 2) * SpriteWidth }

  /** image_shape: height, width and channels of the bordered grid. */
  function ImageShape(c: Config): (shape: seq<nat>)
    ensures |shape| == 3
    ensures shape[0] == Height(c) && shape[1] == Width(c) && shape[2] == SpriteChannels
  {
    [(c.rows + 2) * SpriteHeight, (c.cols + 2) * SpriteWidth, SpriteChannels]
  }

  /** The position of channel `ch` of pixel (y, x) in an HWC vector `width`
      pixels wide. */
  function Hwc(width: nat, y: nat, x: nat, ch: nat): nat {
    (y * width + x) * SpriteChannels + ch
  }

  lemma HwcBound(height: nat, width: nat, y: nat, x: nat, ch: nat)
    requires y < height && x < width && ch < SpriteChannels
    ensures Hwc(width, y, x, ch) < height * width * SpriteChannels
  {
    FlatBound(y, height, x, width);
    FlatBound(y * width + x, height * width, ch, SpriteChannels);
  }

  lemma HwcInjective(width: nat, y1: nat, x1: nat, ch1: nat, y2: nat, x2: nat, ch2: nat)
    requires x1 < width && x2 < width && ch1 < SpriteChannels && ch2 < SpriteChannels
    requires Hwc(width, y1, x1, ch1) == Hwc(width, y2, x2, ch2)
    ensures y1 == y2 && x1 == x2 && ch1 == ch2
  {
    FlatInjective(y1 * width + x1, ch1, y2 * width + x2, ch2, SpriteChannels);
    FlatInjective(y1, x1, y2, x2, width);
  }

  /** fill_sprite's byte offset for sprite (h, w), sprite row r, sprite
      column col, channel ch, in an image `cols` sprites wide, is the HWC
      position of pixel (32h + r, 32w + col). */
  lemma FillSpriteIndex(h: nat, w: nat, cols: nat, r: nat, col: nat, ch: nat)
    ensures h * (SpriteDataLen * cols) + w * SpriteDataLenPerRow + r * SpriteDataLenPerRow * cols + SpriteChannels * col + ch
         == Hwc(cols * SpriteWidth, h * SpriteHeight + r, w * SpriteWidth + col, ch)
  {
    var width := cols * SpriteWidth;
    calc {
      Hwc(width, h * SpriteHeight + r, w * SpriteWidth + col, ch);
      ((h * 32 + r) * width + (w * 32 + col)) * 3 + ch;
      { assert (h * 32 + r) * width == h * 32 * width + r * width; }
      (h * 32 * width + r * width + w * 32 + col) * 3 + ch;
      h * 32 * width * 3 + r * width * 3 + w * 96 + 3 * col + ch;
      { assert h * 32 * width * 3 == h * (3072 * cols);
        assert r * width * 3 == r * 96 * cols; }
      h * (SpriteDataLen * cols) + w * SpriteDataLenPerRow + r * SpriteDataLenPerRow * cols + SpriteChannels * col + ch;
    }
  }

  /** Byte `ch` of pixel (y, x) of an HWC image. */
  function ByteAt(img: seq<Byte>, height: nat, width: nat, y: nat, x: nat, ch: nat): Byte
    requires |img| == height * width * SpriteChannels
    requires y < height && x < width && ch < SpriteChannels
  {
    HwcBound(height, width, y, x, ch);
    img[Hwc(width, y, x, ch)]
  }

  /** Pixel (y, x) lies in sprite (h, w). */
  predicate InSprite(h: nat, w: nat, y: nat, x: nat) {
    h * SpriteHeight <= y < h * SpriteHeight + SpriteHeight && w * SpriteWidth <= x < w * SpriteWidth + SpriteWidth
  }

  // ---------------------------------------------------------------------------
  // The picture

  /** The sprite at grid position (h, w): the held item at the top-left corner,
      the board inside the border, black elsewhere. */
  function SpriteAt(c: Config, s: State, h: nat, w: nat): Pixel
    requires |s.board| == Flat(c)
  {
    if h == 0 && w == 0 then
      if s.inventory.Some? then PixelOf(s.inventory.value) else Black
    else if 1 <= h <= c.rows && 1 <= w <= c.cols then
      FlatBound(h - 1, c.rows, w - 1, c.cols);
      PixelOf(s.board[(h - 1) * c.cols + (w - 1)])
    else Black
  }

  /** Byte `ch` of pixel (y, x) of the rendered state. */
  function Rendered(c: Config, s: State, y: nat, x: nat, ch: nat): Byte
    requires |s.board| == Flat(c) && ch < SpriteChannels
  {
    Channel(SpriteAt(c, s, y / SpriteHeight, x / SpriteWidth), ch)
  }

  // ---------------------------------------------------------------------------
  // The renderer

  /** Pixels of sprite (h, w) up to sprite row r and, in row r, sprite column col. */
  predicate SpriteDone(h: nat, w: nat, r: nat, col: nat, y: nat, x: nat) {
    InSprite(h, w, y, x) && (y < h * SpriteHeight + r || (y == h * SpriteHeight + r && x < w * SpriteWidth + col))
  }

  /** fill_sprite: paints the 32x32 block of sprite (h, w) and nothing else. */
  method FillSprite(img: seq<Byte>, height: nat, cols: nat, h: nat, w: nat, pixel: Pixel) returns (out: seq<Byte>)
    requires |img| == height * (cols * SpriteWidth) * SpriteChannels
    requires (h + 1) * SpriteHeight <= height && w < cols
    ensures |out| == |img|
    ensures forall y, x, ch :: 0 <= y < height && 0 <= x < cols * SpriteWidth && 0 <= ch < SpriteChannels ==>
      ByteAt(out, height, cols * SpriteWidth, y, x, ch) ==
        (if InSprite(h, w, y, x) then Channel(pixel, ch) else ByteAt(img, height, cols * SpriteWidth, y, x, ch))
  {
    var width := cols * SpriteWidth;
    var topLeft := h * (SpriteDataLen * cols) + w * SpriteDataLenPerRow;
    out := img;
    var r := 0;
    while r < SpriteHeight
      invariant r <= SpriteHeight && |out| == |img|
      invariant forall y, x, ch :: 0 <= y < height && 0 <= x < width && 0 <= ch < SpriteChannels ==>
        ByteAt(out, height, width, y, x, ch) ==
          (if SpriteDone(h, w, r, 0, y, x) then Channel(pixel, ch) else ByteAt(img, height, width, y, x, ch))
    {
      var col := 0;
      while col < SpriteWidth
        invariant col <= SpriteWidth && |out| == |img|
        invariant forall y, x, ch :: 0 <= y < height && 0 <= x < width && 0 <= ch < SpriteChannels ==>
          ByteAt(out, height, width, y, x, ch) ==
            (if SpriteDone(h, w, r, col, y, x) then Channel(pixel, ch) else ByteAt(img, height, width, y, x, ch))
      {
        var idx := r * SpriteDataLenPerRow * cols + SpriteChannels * col + topLeft;
        var py, px := h * SpriteHeight + r, w * SpriteWidth + col;
        FillSpriteIndex(h, w, cols, r, col, 0);
        FillSpriteIndex(h, w, cols, r, col, 1);
        FillSpriteIndex(h, w, cols, r, col, 2);
        HwcBound(height, width, py, px, 2);
        var prev := out;
        out := out[idx := pixel.r][idx + 1 := pixel.g][idx + 2 := pixel.b];
        forall y, x, ch | 0 <= y < height && 0 <= x < width && 0 <= ch < SpriteChannels
          ensures ByteAt(out, height, width, y, x, ch) ==
            (if SpriteDone(h, w, r, col + 1, y, x) then Channel(pixel, ch) else ByteAt(img, height, width, y, x, ch))
        {
          HwcBound(height, width, y, x, ch);
          var k := Hwc(width, y, x, ch);
          if idx <= k <= idx + 2 {
            HwcInjective(width, y, x, ch, py, px, k - idx);
          } else {
            assert out[k] == prev[k];
            assert ByteAt(prev, height, width, y, x, ch) == prev[k];
          }
        }
        col := col + 1;
      }
      r := r + 1;
    }
  }

  /** A pixel is in sprite (h, w) exactly when its coordinates divided by the
      sprite size are (h, w). */
  lemma InSpriteOfDiv(h: nat, w: nat, y: nat, x: nat)
    ensures InSprite(h, w, y, x) <==> y / SpriteHeight == h && x / SpriteWidth == w
  {
  }

  /** The bytes to_image allocates are exactly those image_shape describes. */
  lemma ImageLength(c: Config)
    ensures (c.rows + 2) * (c.cols + 2) * SpriteDataLen == Height(c) * Width(c) * SpriteChannels
  {
    var rows, cols := c.rows + 2, c.cols + 2;
    calc {
      rows * cols * SpriteDataLen;
      rows * cols * (32 * 32 * 3);
      (rows * 32) * (cols * 32) * 3;
    }
  }

  /** The sprites to_image has painted once it reaches board row h, board
      column w: the inventory corner when something is held, and the board
      sprites before (h, w). */
  predicate Painted(c: Config, s: State, sh: nat, sw: nat, h: nat, w: nat) {
    || (sh == 0 && sw == 0 && s.inventory.Some?)
    || (1 <= sh && 1 <= sw <= c.cols && (sh < h || (sh == h && sw < w)))
  }

  ghost predicate PaintedSoFar(c: Config, s: State, img: seq<Byte>, h: nat, w: nat)
    requires |s.board| == Flat(c) && |img| == Height(c) * Width(c) * SpriteChannels
  {
    forall y, x, ch :: 0 <= y < Height(c) && 0 <= x < Width(c) && 0 <= ch < SpriteChannels ==>
      ByteAt(img, Height(c), Width(c), y, x, ch) ==
        (if Painted(c, s, y / SpriteHeight, x / SpriteWidth, h, w) then Rendered(c, s, y, x, ch) else 0)
  }

  /** With nothing held, the black frame is painted up to the first board
      sprite. */
  lemma BlankPainted(c: Config, s: State, img: seq<Byte>)
    requires |s.board| == Flat(c) && |img| == Height(c) * Width(c) * SpriteChannels
    requires s.inventory.None? && forall k :: 0 <= k < |img| ==> img[k] == 0
    ensures PaintedSoFar(c, s, img, 1, 1)
  {
    forall y, x, ch | 0 <= y < Height(c) && 0 <= x < Width(c) && 0 <= ch < SpriteChannels
      ensures ByteAt(img, Height(c), Width(c), y, x, ch) ==
        (if Painted(c, s, y / SpriteHeight, x / SpriteWidth, 1, 1) then Rendered(c, s, y, x, ch) else 0)
    {
      HwcBound(Height(c), Width(c), y, x, ch);
    }
  }

  /** With an item held, the black frame with the item's sprite in the corner
      is painted up to the first board sprite. */
  lemma CornerPainted(c: Config, s: State, blank: seq<Byte>, img: seq<Byte>)
    requires |s.board| == Flat(c) && |blank| == Height(c) * Width(c) * SpriteChannels && |img| == |blank|
    requires s.inventory.Some? && forall k :: 0 <= k < |blank| ==> blank[k] == 0
    requires forall y, x, ch :: 0 <= y < Height(c) && 0 <= x < Width(c) && 0 <= ch < SpriteChannels ==>
      ByteAt(img, Height(c), Width(c), y, x, ch) ==
        (if InSprite(0, 0, y, x) then Channel(PixelOf(s.inventory.value), ch) else ByteAt(blank, Height(c), Width(c), y, x, ch))
    ensures PaintedSoFar(c, s, img, 1, 1)
  {
    forall y, x, ch | 0 <= y < Height(c) && 0 <= x < Width(c) && 0 <= ch < SpriteChannels
      ensures ByteAt(img, Height(c), Width(c), y, x, ch) ==
        (if Painted(c, s, y / SpriteHeight, x / SpriteWidth, 1, 1) then Rendered(c, s, y, x, ch) else 0)
    {
      InSpriteOfDiv(0, 0, y, x);
      HwcBound(Height(c), Width(c), y, x, ch);
    }
  }

  /** Painting board sprite (h, w) over a frame painted up to it gives the
      frame painted up to the next sprite. */
  lemma CellPainted(c: Config, s: State, prev: seq<Byte>, img: seq<Byte>, h: nat, w: nat)
    requires |s.board| == Flat(c) && |prev| == Height(c) * Width(c) * SpriteChannels && |img| == |prev|
    requires 1 <= h <= c.rows && 1 <= w <= c.cols
    requires PaintedSoFar(c, s, prev, h, w)
    requires forall y, x, ch :: 0 <= y < Height(c) && 0 <= x < Width(c) && 0 <= ch < SpriteChannels ==>
      ByteAt(img, Height(c), Width(c), y, x, ch) ==
        (if InSprite(h, w, y, x) then Channel(SpriteAt(c, s, h, w), ch) else ByteAt(prev, Height(c), Width(c), y, x, ch))
    ensures PaintedSoFar(c, s, img, h, w + 1)
  {
    forall y, x, ch | 0 <= y < Height(c) && 0 <= x < Width(c) && 0 <= ch < SpriteChannels
      ensures ByteAt(img, Height(c), Width(c), y, x, ch) ==
        (if Painted(c, s, y / SpriteHeight, x / SpriteWidth, h, w + 1) then Rendered(c, s, y, x, ch) else 0)
    {
      InSpriteOfDiv(h, w, y, x);
    }
  }

  /** A frame painted up to the end of board row h is painted up to the
      start of row h + 1. */
  lemma RowPainted(c: Config, s: State, img: seq<Byte>, h: nat)
    requires |s.board| == Flat(c) && |img| == Height(c) * Width(c) * SpriteChannels
    requires PaintedSoFar(c, s, img, h, c.cols + 1)
    ensures PaintedSoFar(c, s, img, h + 1, 1)
  {
  }

  /** A frame painted past the last board row is the rendering. */
  lemma AllPainted(c: Config, s: State, img: seq<Byte>)
    requires |s.board| == Flat(c) && |img| == Height(c) * Width(c) * SpriteChannels
    requires PaintedSoFar(c, s, img, c.rows + 1, 1)
    ensures forall y, x, ch :: 0 <= y < Height(c) && 0 <= x < Width(c) && 0 <= ch < SpriteChannels ==>
      ByteAt(img, Height(c), Width(c), y, x, ch) == Rendered(c, s, y, x, ch)
  {
    forall y, x, ch | 0 <= y < Height(c) && 0 <= x < Width(c) && 0 <= ch < SpriteChannels
      ensures ByteAt(img, Height(c), Width(c), y, x, ch) == Rendered(c, s, y, x, ch)
    {
      assert ByteAt(img, Height(c), Width(c), y, x, ch) ==
        (if Painted(c, s, y / SpriteHeight, x / SpriteWidth, c.rows + 1, 1) then Rendered(c, s, y, x, ch) else 0);
    }
  }

  /** One row of to_image's board loop: the sprites of board row h - 1,
      drawn at grid row h. */
  method PaintRow(c: Config, s: State, img: seq<Byte>, h: nat) returns (out: seq<Byte>)
    requires |s.board| == Flat(c) && |img| == Height(c) * Width(c) * SpriteChannels
    requires 1 <= h <= c.rows
    requires PaintedSoFar(c, s, img, h, 1)
    ensures |out| == |img|
    ensures PaintedSoFar(c, s, out, h + 1, 1)
  {
    var height, cols := Height(c), c.cols + 2;
    var boardIdx := (h - 1) * c.cols;
    out := img;
    var w := 1;
    while w < cols - 1
      invariant 1 <= w <= cols - 1 && |out| == |img|
      invariant boardIdx == (h - 1) * c.cols + (w - 1)
      invariant PaintedSoFar(c, s, out, h, w)
    {
      FlatBound(h - 1, c.rows, w - 1, c.cols);
      var prev := out;
      out := FillSprite(out, height, cols, h, w, PixelOf(s.board[boardIdx]));
      CellPainted(c, s, prev, out, h, w);
      boardIdx := boardIdx + 1;
      w := w + 1;
    }
    RowPainted(c, s, out, h);
  }

  /** The start of to_image: a black image with the held item's sprite in the
      top-left corner. */
  method PaintCorner(c: Config, s: State) returns (img: seq<Byte>)
    requires |s.board| == Flat(c)
    ensures |img| == Height(c) * Width(c) * SpriteChannels
    ensures PaintedSoFar(c, s, img, 1, 1)
  {
    var rows, cols := c.rows + 2, c.cols + 2;
    ImageLength(c);
    img := seq(rows * cols * SpriteDataLen, _ => 0);
    if s.inventory.Some? {
      var blank := img;
      img := FillSprite(img, Height(c), cols, 0, 0, PixelOf(s.inventory.value));
      CornerPainted(c, s, blank, img);
    } else {
      BlankPainted(c, s, img);
    }
  }

  /** to_image: a black image, the held item's sprite in the corner, then one
      sprite per board cell inside the border, row by row. */
  method ToImage(c: Config, s: State) returns (img: seq<Byte>)
    requires |s.board| == Flat(c)
    ensures |img| == ImageShape(c)[0] * ImageShape(c)[1] * ImageShape(c)[2]
    ensures forall y, x, ch :: 0 <= y < Height(c) && 0 <= x < Width(c) && 0 <= ch < SpriteChannels ==>
      ByteAt(img, Height(c), Width(c), y, x, ch) == Rendered(c, s, y, x, ch)
  {
    img := PaintCorner(c, s);
    var h := 1;
    while h < c.rows + 1
      invariant 1 <= h <= c.rows + 1 && |img| == Height(c) * Width(c) * SpriteChannels
      invariant PaintedSoFar(c, s, img, h, 1)
    {
      img := PaintRow(c, s, img, h);
      h := h + 1;
    }
    AllPainted(c, s, img);
  }

  /** Equal pixels have equal channels and conversely. */
  lemma PixelOfChannels(p: Pixel, q: Pixel)
    requires Channel(p, 0) == Channel(q, 0) && Channel(p, 1) == Channel(q, 1) && Channel(p, 2) == Channel(q, 2)
    ensures p == q
  {
  }

  /** The top-left pixel of board sprite (row + 1, col + 1) shows the cell
      at that row and column. */
  lemma CellShown(c: Config, s: State, i: nat, row: nat, col: nat, ch: nat)
    requires |s.board| == Flat(c) && i < |s.board| && ch < SpriteChannels
    requires row < c.rows && col < c.cols && i == row * c.cols + col
    ensures (row + 1) * SpriteHeight < Height(c) && (col + 1) * SpriteWidth < Width(c)
    ensures Rendered(c, s, (row + 1) * SpriteHeight, (col + 1) * SpriteWidth, ch) == Channel(PixelOf(s.board[i]), ch)
  {
    assert (row + 1) * SpriteHeight / SpriteHeight == row + 1;
    assert (col + 1) * SpriteWidth / SpriteWidth == col + 1;
  }

  /** Two states whose renderings agree at the top-left pixel of a board
      sprite hold the same element in that cell. */
  lemma SameCell(c: Config, s1: State, s2: State, i: nat, row: nat, col: nat, y: nat, x: nat)
    requires |s1.board| == Flat(c) && |s2.board| == Flat(c) && i < Flat(c)
    requires row < c.rows && col < c.cols && i == row * c.cols + col
    requires y == (row + 1) * SpriteHeight && x == (col + 1) * SpriteWidth
    requires forall ch :: 0 <= ch < SpriteChannels ==> Rendered(c, s1, y, x, ch) == Rendered(c, s2, y, x, ch)
    ensures s1.board[i] == s2.board[i]
  {
    CellShown(c, s1, i, row, col, 0);
    CellShown(c, s1, i, row, col, 1);
    CellShown(c, s1, i, row, col, 2);
    CellShown(c, s2, i, row, col, 0);
    CellShown(c, s2, i, row, col, 1);
    CellShown(c, s2, i, row, col, 2);
    PixelOfChannels(PixelOf(s1.board[i]), PixelOf(s2.board[i]));
    PaletteInjective(s1.board[i], s2.board[i]);
  }

  /** Two states that render to the same picture have the same board and the
      same inventory. */
  lemma RenderingDeterminesState(c: Config, s1: State, s2: State)
    requires |s1.board| == Flat(c) && |s2.board| == Flat(c)
    requires forall y, x, ch :: 0 <= y < Height(c) && 0 <= x < Width(c) && 0 <= ch < SpriteChannels ==>
      Rendered(c, s1, y, x, ch) == Rendered(c, s2, y, x, ch)
    ensures s1.board == s2.board && s1.inventory == s2.inventory
  {
    forall i | 0 <= i < Flat(c)
      ensures s1.board[i] == s2.board[i]
    {
      var row, col := Unflatten(i, c.rows, c.cols);
      CellShown(c, s1, i, row, col, 0);
      SameCell(c, s1, s2, i, row, col, (row + 1) * SpriteHeight, (col + 1) * SpriteWidth);
    }
    assert Rendered(c, s1, 0, 0, 0) == Rendered(c, s2, 0, 0, 0);
    assert Rendered(c, s1, 0, 0, 1) == Rendered(c, s2, 0, 0, 1);
    assert Rendered(c, s1, 0, 0, 2) == Rendered(c, s2, 0, 0, 2);
    PixelOfChannels(SpriteAt(c, s1, 0, 0), SpriteAt(c, s2, 0, 0));
    if s1.inventory.Some? {
      PaletteInjective(s1.inventory.value, s1.inventory.value);
      if s2.inventory.Some? {
        PaletteInjective(s1.inventory.value, s2.inventory.value);
      }
    } else if s2.inventory.Some? {
      PaletteInjective(s2.inventory.value, s2.inventory.value);
    }
  }
}

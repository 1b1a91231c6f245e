/**
 * The conversion of a wireless camera's snapshot into a WebRTC frame
 * (`bitmapToVideoFrame`, `clampToByte`): each ARGB pixel gives a luma
 * value, and the top-left pixel of each 2x2 block gives the two chroma
 * values, with the integer BT.601 limited-range approximation (section 2.5
 * of ITU-R BT.601: Y' in 16..235, Cb and Cr in 16..240).
 */
module I420 {
  import opened Common
  import opened FrameRings

  /** The octet a `Byte` stores in a plane buffer, read unsigned. */
  newtype byte = x: int | 0 <= x < 256

  // ---------------------------------------------------------------------
  // One pixel

  /** `(color shr 16) and 0xFF`: arithmetic shift is floor division, the mask a non-negative remainder. */
  function Red(color: int): int { (color / 0x1_0000) % 0x100 }

  /** `(color shr 8) and 0xFF`. */
  function Green(color: int): int { (color / 0x100) % 0x100 }

  /** `color and 0xFF`. */
  function Blue(color: int): int { color % 0x100 }

  /** The three channels are the low 24 bits of the colour, alpha dropped. */
  lemma ChannelsRecompose(color: int)
    ensures 0 <= Red(color) < 256 && 0 <= Green(color) < 256 && 0 <= Blue(color) < 256
    ensures Red(color) * 0x1_0000 + Green(color) * 0x100 + Blue(color) == color % 0x100_0000
  {
    var q := color / 0x100;
    assert color == q * 0x100 + Blue(color);
    assert q == (q / 0x100) * 0x100 + Green(color);
    assert q / 0x100 == color / 0x1_0000;
    var top := color / 0x1_0000;
    assert top == (top / 0x100) * 0x100 + Red(color);
    assert color == (top / 0x100) * 0x100_0000 + Red(color) * 0x1_0000 + Green(color) * 0x100 + Blue(color);
  }

  /** Kotlin's `shr 8` on an `Int`: rounds toward minus infinity. */
  function Shr8(x: int): (r: int)
    ensures 256 * r <= x < 256 * r + 256
  {
    x / 256
  }

  /** `yValue` before clamping. */
  function Luma(r: int, g: int, b: int): int {
    Shr8(66 * r + 129 * g + 25 * b + 128) + 16
  }

  /** `uValue` (Cb) before clamping. */
  function ChromaBlue(r: int, g: int, b: int): int {
    Shr8(-38 * r - 74 * g + 112 * b + 128) + 128
  }

  /** `vValue` (Cr) before clamping. */
  function ChromaRed(r: int, g: int, b: int): int {
    Shr8(112 * r - 94 * g - 18 * b + 128) + 128
  }

  /** `value.coerceIn(0, 255).toByte()`. */
  function ClampToByte(v: int): (b: byte)
    ensures 0 <= v <= 255 ==> b as int == v
  {
    if v < 0 then 0 else if v > 255 then 255 else v as byte
  }

  function Abs(x: int): nat { if x < 0 then -x else x }

  /** The clamp picks the byte nearest to the value. */
  lemma ClampIsNearest(v: int, x: byte)
    ensures Abs(v - ClampToByte(v) as int) <= Abs(v - x as int)
  {
  }

  predicate IsChannel(c: int) { 0 <= c <= 255 }

  /** For 8-bit channels luma stays in the limited range 16..235. */
  lemma LumaRange(r: int, g: int, b: int)
    requires IsChannel(r) && IsChannel(g) && IsChannel(b)
    ensures 16 <= Luma(r, g, b) <= 235
  {
  }

  /** For 8-bit channels both chroma values stay in the limited range 16..240. */
  lemma ChromaRange(r: int, g: int, b: int)
    requires IsChannel(r) && IsChannel(g) && IsChannel(b)
    ensures 16 <= ChromaBlue(r, g, b) <= 240
    ensures 16 <= ChromaRed(r, g, b) <= 240
  {
  }

  /** Black and white map to the ends of the luma range; greys carry no colour. */
  lemma GreyLevels(level: int)
    requires IsChannel(level)
    ensures Luma(0, 0, 0) == 16 && Luma(255, 255, 255) == 235
    ensures ChromaBlue(level, level, level) == 128 && ChromaRed(level, level, level) == 128
  {
  }

  /** The luma byte of a pixel. */
  function YOf(color: int): byte { ClampToByte(Luma(Red(color), Green(color), Blue(color))) }

  /** The Cb byte of a pixel. */
  function UOf(color: int): byte { ClampToByte(ChromaBlue(Red(color), Green(color), Blue(color))) }

  /** The Cr byte of a pixel. */
  function VOf(color: int): byte { ClampToByte(ChromaRed(Red(color), Green(color), Blue(color))) }

  /** The U sample of a pixel, or its V sample. */
  function Sample(isU: bool, color: int): byte { if isU then UOf(color) else VOf(color) }

  /** The clamp never changes a pixel's values: every colour's Y, U and V are already bytes. */
  lemma ClampIsIdentity(color: int)
    ensures YOf(color) as int == Luma(Red(color), Green(color), Blue(color))
    ensures UOf(color) as int == ChromaBlue(Red(color), Green(color), Blue(color))
    ensures VOf(color) as int == ChromaRed(Red(color), Green(color), Blue(color))
  {
    ChannelsRecompose(color);
    LumaRange(Red(color), Green(color), Blue(color));
    ChromaRange(Red(color), Green(color), Blue(color));
  }

  // ---------------------------------------------------------------------
  // A whole frame

  /** The chroma planes' width and height: one sample per 2x2 block, rounded up. */
  function Half(n: nat): nat { (n + 1) / 2 }

  /**
   * The frame handed to the capturer observer: the strides and planes of
   * `JavaI420Buffer.allocate(width, height)` after the conversion.
   */
  datatype Frame = Frame(strideY: nat, strideU: nat, strideV: nat, y: seq<byte>, u: seq<byte>, v: seq<byte>)

  /** `bitmap.getPixels` fills one colour per pixel, row after row. */
  predicate PixelsFit(pixels: seq<int>, width: int, height: int) {
    0 < width && 0 < height && |pixels| == width * height
  }

  /** The Y plane: each pixel's luma at its own index `row * width + col`. */
  ghost predicate LumaPlane(y: seq<byte>, pixels: seq<int>) {
    |y| == |pixels| && forall k | 0 <= k < |pixels| :: y[k] == YOf(pixels[k])
  }

  /** The chroma rows before `crs` hold the samples of their blocks' top-left pixels. */
  ghost predicate ChromaRowsDoneSeq(c: seq<byte>, pixels: seq<int>, width: nat, height: nat, crs: nat, isU: bool) {
    forall cr, cc | 0 <= cr < crs && 0 <= cc < Half(width) ::
      0 <= Off(cr, cc, Half(width)) < |c| && 0 <= Off(2 * cr, 2 * cc, width) < |pixels| &&
      c[Off(cr, cc, Half(width))] == Sample(isU, pixels[Off(2 * cr, 2 * cc, width)])
  }

  /**
   * A chroma plane of `Half(width)` columns and `Half(height)` rows: the
   * sample of block `(cr, cc)` is `of` applied to pixel `(2 * cr, 2 * cc)`.
   */
  ghost predicate ChromaPlane(c: seq<byte>, pixels: seq<int>, width: nat, height: nat, isU: bool) {
    && |c| == Half(width) * Half(height)
    && ChromaRowsDoneSeq(c, pixels, width, height, Half(height), isU)
  }

  /**
   * `bitmapToVideoFrame`: a bitmap with no pixels is refused; otherwise the
   * Y plane holds every pixel's luma and the U and V planes the chroma of
   * the top-left pixel of every 2x2 block.
   */
  method BitmapToVideoFrame(width: int, height: int, pixels: seq<int>) returns (r: Result<Frame, string>)
    requires 0 < width && 0 < height ==> PixelsFit(pixels, width, height)
    ensures r.Err? <==> width <= 0 || height <= 0
    ensures r.Ok? ==>
              && r.value.strideY == width && r.value.strideU == Half(width) && r.value.strideV == Half(width)
              && LumaPlane(r.value.y, pixels)
              && ChromaPlane(r.value.u, pixels, width, height, true)
              && ChromaPlane(r.value.v, pixels, width, height, false)
  {
    if width <= 0 || height <= 0 {
      return Err("Invalid bitmap dimensions");
    }
    var y := new byte[width * height];
    var u := new byte[Half(width) * Half(height)];
    var v := new byte[Half(width) * Half(height)];
    FillPlanes(pixels, width, height, y, u, v);
    return Ok(Frame(width, Half(width), Half(width), y[..], u[..], v[..]));
  }

  /** The nested row/column loop of `bitmapToVideoFrame`. */
  method FillPlanes(pixels: seq<int>, width: nat, height: nat, y: array<byte>, u: array<byte>, v: array<byte>)
    requires PixelsFit(pixels, width, height)
    requires y.Length == width * height
    requires u.Length == Half(width) * Half(height) && v.Length == u.Length
    requires y != u && y != v && u != v
    modifies y, u, v
    ensures LumaPlane(y[..], pixels)
    ensures ChromaPlane(u[..], pixels, width, height, true)
    ensures ChromaPlane(v[..], pixels, width, height, false)
  {
    OffIsProduct(height, 0, width);
    OffIsProduct(Half(height), 0, Half(width));
    for row := 0 to height
      invariant RowsDone(y, u, v, pixels, width, height, row)
    {
      NextRow(pixels, width, height, row, y, u, v);
    }
  }

  /** The rows before `row` are converted: their luma, and the chroma rows they start. */
  ghost predicate RowsDone(y: array<byte>, u: array<byte>, v: array<byte>, pixels: seq<int>, width: nat, height: nat, row: nat)
    reads y, u, v
  {
    RowsDoneSeq(y[..], u[..], v[..], pixels, width, height, row)
  }

  /** `RowsDone` on the planes' contents. */
  ghost predicate RowsDoneSeq(y: seq<byte>, u: seq<byte>, v: seq<byte>, pixels: seq<int>, width: nat, height: nat, row: nat) {
    && LumaDone(y, pixels, Off(row, 0, width))
    && ChromaRowsDoneSeq(u, pixels, width, height, Half(row), true)
    && ChromaRowsDoneSeq(v, pixels, width, height, Half(row), false)
  }

  /** The first `n` luma bytes are those of the first `n` pixels. */
  ghost predicate LumaDone(y: seq<byte>, pixels: seq<int>, n: int) {
    forall k | 0 <= k < n && k < |y| && k < |pixels| :: y[k] == YOf(pixels[k])
  }

  /** `y` is `y0` with the `n` luma bytes from `rowOffset` on written. */
  ghost predicate LumaRowWritten(y: seq<byte>, y0: seq<byte>, pixels: seq<int>, rowOffset: nat, n: nat) {
    && |y| == |y0|
    && (forall k | 0 <= k < |y| && !(rowOffset <= k < rowOffset + n) :: y[k] == y0[k])
    && (forall k | rowOffset <= k < rowOffset + n && k < |y| && k < |pixels| :: y[k] == YOf(pixels[k]))
  }

  /**
   * `c` is `c0` with, on an even row, the first `n` chroma samples of the
   * row written from the pixels at even columns; an odd row writes none.
   */
  ghost predicate ChromaRowWritten(c: seq<byte>, c0: seq<byte>, pixels: seq<int>, row: nat, rowOffset: nat,
                                   uRowStart: nat, n: nat, isU: bool) {
    && |c| == |c0|
    && (forall k | 0 <= k < |c| && !(uRowStart <= k < uRowStart + n) :: c[k] == c0[k])
    && (row % 2 == 1 ==> c == c0)
    && (row % 2 == 0 ==> forall cc | 0 <= cc < n ::
          uRowStart + cc < |c| && rowOffset + 2 * cc < |pixels| &&
          c[uRowStart + cc] == Sample(isU, pixels[rowOffset + 2 * cc]))
  }

  /** The body of the outer loop, with the row's offsets in the planes. */
  method NextRow(pixels: seq<int>, width: nat, height: nat, row: nat, y: array<byte>, u: array<byte>, v: array<byte>)
    requires row < height
    requires |pixels| == y.Length == Off(height, 0, width)
    requires u.Length == v.Length == Off(Half(height), 0, Half(width))
    requires y != u && y != v && u != v
    requires RowsDone(y, u, v, pixels, width, height, row)
    modifies y, u, v
    ensures RowsDone(y, u, v, pixels, width, height, row + 1)
  {
    var cw := Half(width);
    var rowOffset := row * width;
    var uRowStart := (row / 2) * cw;
    RowBounds(row, width, height);
    ghost var y0 := y[..];
    ghost var u0 := u[..];
    ghost var v0 := v[..];
    ConvertRow(pixels, width, row, rowOffset, uRowStart, y, u, v);
    RowStep(y[..], y0, u[..], u0, v[..], v0, pixels, width, height, row, rowOffset, uRowStart);
  }

  /** Where row `row` starts in the Y plane and its chroma row in the U and V planes, and that both fit. */
  lemma RowBounds(row: nat, width: nat, height: nat)
    requires row < height
    ensures 0 <= row * width && 0 <= (row / 2) * Half(width)
    ensures row * width == Off(row, 0, width) && row * width + width <= Off(height, 0, width)
    ensures (row / 2) * Half(width) == Off(row / 2, 0, Half(width))
    ensures (row / 2) * Half(width) + Half(width) <= Off(Half(height), 0, Half(width))
  {
    OffIsProduct(row, 0, width);
    OffIsProduct(row / 2, 0, Half(width));
    OffMono(0, row, width);
    OffMono(0, row / 2, Half(width));
    OffMono(row + 1, height, width);
    OffMono(row / 2 + 1, Half(height), Half(width));
  }

  /** Converting row `row` extends the rows done from `row` to `row + 1`. */
  lemma RowStep(y: seq<byte>, y0: seq<byte>, u: seq<byte>, u0: seq<byte>, v: seq<byte>, v0: seq<byte>,
                pixels: seq<int>, width: nat, height: nat, row: nat, rowOffset: nat, uRowStart: nat)
    requires rowOffset == Off(row, 0, width) && rowOffset + width <= |pixels|
    requires uRowStart == Off(row / 2, 0, Half(width)) && uRowStart + Half(width) <= |u| && uRowStart + Half(width) <= |v|
    requires RowsDoneSeq(y0, u0, v0, pixels, width, height, row)
    requires LumaRowWritten(y, y0, pixels, rowOffset, width)
    requires ChromaRowWritten(u, u0, pixels, row, rowOffset, uRowStart, Half(width), true)
    requires ChromaRowWritten(v, v0, pixels, row, rowOffset, uRowStart, Half(width), false)
    ensures RowsDoneSeq(y, u, v, pixels, width, height, row + 1)
  {
    assert Off(row + 1, 0, width) == rowOffset + width;
    LumaRowsAfter(y, y0, pixels, rowOffset, width);
    ChromaRowsAfter(u, u0, pixels, width, height, row, rowOffset, uRowStart, true);
    ChromaRowsAfter(v, v0, pixels, width, height, row, rowOffset, uRowStart, false);
  }

  /**
   * One pass of the outer loop: row `row` of the Y plane, at `rowOffset`,
   * and on even rows one row of U and V samples, at `uRowStart`.
   */
  method ConvertRow(pixels: seq<int>, width: nat, row: nat, rowOffset: nat, uRowStart: nat,
                    y: array<byte>, u: array<byte>, v: array<byte>)
    requires rowOffset + width <= |pixels| == y.Length
    requires uRowStart + Half(width) <= u.Length == v.Length
    requires y != u && y != v && u != v
    modifies y, u, v
    ensures LumaRowWritten(y[..], old(y[..]), pixels, rowOffset, width)
    ensures ChromaRowWritten(u[..], old(u[..]), pixels, row, rowOffset, uRowStart, Half(width), true)
    ensures ChromaRowWritten(v[..], old(v[..]), pixels, row, rowOffset, uRowStart, Half(width), false)
  {
    for col := 0 to width
      invariant LumaRowWritten(y[..], old(y[..]), pixels, rowOffset, col)
      invariant ChromaRowWritten(u[..], old(u[..]), pixels, row, rowOffset, uRowStart, Half(col), true)
      invariant ChromaRowWritten(v[..], old(v[..]), pixels, row, rowOffset, uRowStart, Half(col), false)
    {
      ghost var yb, ub, vb := y[..], u[..], v[..];
      var color := pixels[rowOffset + col];
      y[rowOffset + col] := YOf(color);
      if row % 2 == 0 && col % 2 == 0 {
        var uvIndex := col / 2;
        u[uRowStart + uvIndex] := UOf(color);
        v[uRowStart + uvIndex] := VOf(color);
      }
      LumaStep(y[..], yb, old(y[..]), pixels, rowOffset, col);
      ChromaStep(u[..], ub, old(u[..]), pixels, row, rowOffset, uRowStart, col, true);
      ChromaStep(v[..], vb, old(v[..]), pixels, row, rowOffset, uRowStart, col, false);
    }
  }

  /** Writing the luma of pixel `rowOffset + col` extends the written part of the row by one. */
  lemma LumaStep(y: seq<byte>, yb: seq<byte>, y0: seq<byte>, pixels: seq<int>, rowOffset: nat, col: nat)
    requires rowOffset + col < |pixels| && rowOffset + col < |yb|
    requires LumaRowWritten(yb, y0, pixels, rowOffset, col)
    requires y == yb[rowOffset + col := YOf(pixels[rowOffset + col])]
    ensures LumaRowWritten(y, y0, pixels, rowOffset, col + 1)
  {
  }

  /** Column `col` writes a chroma sample exactly when row and column are even, extending the written part. */
  lemma ChromaStep(c: seq<byte>, cb: seq<byte>, c0: seq<byte>, pixels: seq<int>, row: nat, rowOffset: nat,
                   uRowStart: nat, col: nat, isU: bool)
    requires rowOffset + col < |pixels| && uRowStart + Half(col + 1) <= |cb|
    requires ChromaRowWritten(cb, c0, pixels, row, rowOffset, uRowStart, Half(col), isU)
    requires c == if row % 2 == 0 && col % 2 == 0 then cb[uRowStart + col / 2 := Sample(isU, pixels[rowOffset + col])] else cb
    ensures ChromaRowWritten(c, c0, pixels, row, rowOffset, uRowStart, Half(col + 1), isU)
  {
    assert Half(col) <= Half(col + 1);
    if row % 2 == 0 && col % 2 == 0 {
      assert Half(col + 1) == col / 2 + 1 && Half(col) == col / 2;
    } else if row % 2 == 0 {
      assert Half(col + 1) == Half(col);
    }
  }

  /** Luma done up to a row's start, plus the row written, is luma done up to its end. */
  lemma LumaRowsAfter(y: seq<byte>, y0: seq<byte>, pixels: seq<int>, rowOffset: nat, width: nat)
    requires LumaDone(y0, pixels, rowOffset)
    requires LumaRowWritten(y, y0, pixels, rowOffset, width)
    ensures LumaDone(y, pixels, rowOffset + width)
  {
  }

  /** The chroma rows done before a row, plus the one it writes when it is even, are those done after it. */
  lemma ChromaRowsAfter(c: seq<byte>, c0: seq<byte>, pixels: seq<int>, width: nat, height: nat,
                        row: nat, rowOffset: nat, uRowStart: nat, isU: bool)
    requires rowOffset == Off(row, 0, width) && rowOffset + width <= |pixels|
    requires uRowStart == Off(row / 2, 0, Half(width)) && uRowStart + Half(width) <= |c|
    requires ChromaRowsDoneSeq(c0, pixels, width, height, Half(row), isU)
    requires ChromaRowWritten(c, c0, pixels, row, rowOffset, uRowStart, Half(width), isU)
    ensures ChromaRowsDoneSeq(c, pixels, width, height, Half(row + 1), isU)
  {
    forall cr, cc | 0 <= cr < Half(row + 1) && 0 <= cc < Half(width)
      ensures 0 <= Off(cr, cc, Half(width)) < |c| && 0 <= Off(2 * cr, 2 * cc, width) < |pixels|
      ensures c[Off(cr, cc, Half(width))] == Sample(isU, pixels[Off(2 * cr, 2 * cc, width)])
    {
      if cr < Half(row) {
        EarlierChromaRowKept(c, c0, pixels, width, height, row, rowOffset, uRowStart, isU, cr, cc);
      } else {
        WrittenChromaRow(c, c0, pixels, width, row, rowOffset, uRowStart, isU, cr, cc);
      }
    }
  }

  /** A chroma row finished before the current row is left as it was. */
  lemma EarlierChromaRowKept(c: seq<byte>, c0: seq<byte>, pixels: seq<int>, width: nat, height: nat,
                             row: nat, rowOffset: nat, uRowStart: nat, isU: bool, cr: nat, cc: nat)
    requires uRowStart == Off(row / 2, 0, Half(width))
    requires ChromaRowsDoneSeq(c0, pixels, width, height, Half(row), isU)
    requires ChromaRowWritten(c, c0, pixels, row, rowOffset, uRowStart, Half(width), isU)
    requires cr < Half(row) && cc < Half(width)
    ensures 0 <= Off(cr, cc, Half(width)) < |c| && 0 <= Off(2 * cr, 2 * cc, width) < |pixels|
    ensures c[Off(cr, cc, Half(width))] == Sample(isU, pixels[Off(2 * cr, 2 * cc, width)])
  {
    if row % 2 == 0 {
      OffGap(cr, row / 2, Half(width));
      OffShift(cr, cc, Half(width));
    }
  }

  /** On an even row, chroma row `row / 2` holds the samples of the row's even columns. */
  lemma WrittenChromaRow(c: seq<byte>, c0: seq<byte>, pixels: seq<int>, width: nat,
                         row: nat, rowOffset: nat, uRowStart: nat, isU: bool, cr: nat, cc: nat)
    requires rowOffset == Off(row, 0, width)
    requires uRowStart == Off(row / 2, 0, Half(width))
    requires ChromaRowWritten(c, c0, pixels, row, rowOffset, uRowStart, Half(width), isU)
    requires Half(row) <= cr < Half(row + 1) && cc < Half(width)
    ensures 0 <= Off(cr, cc, Half(width)) < |c| && 0 <= Off(2 * cr, 2 * cc, width) < |pixels|
    ensures c[Off(cr, cc, Half(width))] == Sample(isU, pixels[Off(2 * cr, 2 * cc, width)])
  {
    assert row % 2 == 0 && cr == row / 2 && 2 * cr == row;
    OffShift(cr, cc, Half(width));
    OffShift(row, 2 * cc, width);
  }
}

/** Validation and RGB to RGBA expansion of raw image hints, with both row loops. */
module Images {
  import opened Support

  const MAX_IMAGE_BYTES: nat := 256 * 1024
  const I32_LIMIT: int := 0x8000_0000
  const USIZE_LIMIT: int := 0x1_0000_0000_0000_0000

  type i32 = x: int | -I32_LIMIT <= x < I32_LIMIT

  datatype ImageData = ImageData(
    width: i32, height: i32, rowstride: i32, hasAlpha: bool,
    bitsPerSample: i32, channels: i32, data: seq<bv8>)

  // ---------------------------------------------------------------------------------------------
  // One row
  // ---------------------------------------------------------------------------------------------

  /** Each RGB triple becomes RGBA with full alpha; a trailing partial triple is ignored. */
  function ExpandRow(src: seq<bv8>): seq<bv8> {
    seq(4 * (|src| / 3), i requires 0 <= i < 4 * (|src| / 3) =>
      if i % 4 == 3 then 255 else src[3 * (i / 4) + i % 4])
  }

  /** `row` sits in `dst` at `at`, and every other byte is as it was. */
  ghost predicate Written(before: seq<bv8>, after: seq<bv8>, at: nat, row: seq<bv8>) {
    && |after| == |before| && at + |row| <= |before|
    && after[..at] == before[..at]
    && after[at..at + |row|] == row
    && after[at + |row|..] == before[at + |row|..]
  }

  lemma RowExtends(src: seq<bv8>, k: nat, n: nat)
    requires 3 * (k + n) <= |src|
    ensures ExpandRow(src[..3 * (k + n)]) == ExpandRow(src[..3 * k]) + ExpandRow(src[3 * k..3 * (k + n)])
  {
    var a, b, c := ExpandRow(src[..3 * k]), ExpandRow(src[3 * k..3 * (k + n)]), ExpandRow(src[..3 * (k + n)]);
    assert |a| == 4 * k && |b| == 4 * n && |c| == 4 * (k + n);
    forall i | 0 <= i < 4 * (k + n)
      ensures c[i] == (a + b)[i]
    {
      if i >= 4 * k {
        assert (i - 4 * k) / 4 == i / 4 - k && (i - 4 * k) % 4 == i % 4;
      }
    }
  }

  lemma WholePixels(src: seq<bv8>)
    ensures ExpandRow(src) == ExpandRow(src[..3 * (|src| / 3)])
  {
  }

  lemma WrittenPrefix(before: seq<bv8>, after: seq<bv8>, at: nat, row: seq<bv8>)
    requires Written(before, after, at, row)
    ensures |after| == |before| && after[..at + |row|] == before[..at] + row
  {
    assert after[..at + |row|] == after[..at] + after[at..at + |row|];
  }

  lemma NothingWritten(src: seq<bv8>, before: seq<bv8>, at: nat)
    requires at <= |before|
    ensures Written(before, before, at, ExpandRow(src[..0]))
  {
  }

  lemma WrittenExtends(before: seq<bv8>, mid: seq<bv8>, after: seq<bv8>, at: nat, a: seq<bv8>, b: seq<bv8>)
    requires Written(before, mid, at, a) && Written(mid, after, at + |a|, b)
    ensures Written(before, after, at, a + b)
  {
  }

  /** Portable loop: one pixel per turn. */
  method ExpandRowScalar(src: seq<bv8>, dst: array<bv8>, at: nat)
    requires at + 4 * (|src| / 3) <= dst.Length
    modifies dst
    ensures Written(old(dst[..]), dst[..], at, ExpandRow(src))
  {
    ghost var before := dst[..];
    var x := 0;
    while x < |src| / 3
      invariant x <= |src| / 3
      invariant Written(before, dst[..], at, ExpandRow(src[..3 * x]))
    {
      ghost var mid := dst[..];
      WritePixel(dst, at + 4 * x, src[3 * x], src[3 * x + 1], src[3 * x + 2]);
      PixelWritten(src, x, before, mid, dst[..], at);
      x := x + 1;
    }
    WholePixels(src);
  }

  /** One more pixel after the first `x`. */
  lemma PixelWritten(src: seq<bv8>, x: nat, before: seq<bv8>, mid: seq<bv8>, after: seq<bv8>, at: nat)
    requires 3 * (x + 1) <= |src|
    requires Written(before, mid, at, ExpandRow(src[..3 * x]))
    requires Written(mid, after, at + 4 * x, [src[3 * x], src[3 * x + 1], src[3 * x + 2], 255])
    ensures Written(before, after, at, ExpandRow(src[..3 * (x + 1)]))
  {
    PixelRow(src, x);
    RowExtends(src, x, 1);
    WrittenExtends(before, mid, after, at, ExpandRow(src[..3 * x]), ExpandRow(src[3 * x..3 * (x + 1)]));
  }

  lemma PixelRow(src: seq<bv8>, x: nat)
    requires 3 * (x + 1) <= |src|
    ensures ExpandRow(src[3 * x..3 * (x + 1)]) == [src[3 * x], src[3 * x + 1], src[3 * x + 2], 255]
  {
  }

  method WritePixel(dst: array<bv8>, d: nat, r: bv8, g: bv8, b: bv8)
    requires d + 4 <= dst.Length
    modifies dst
    ensures Written(old(dst[..]), dst[..], d, [r, g, b, 255])
  {
    dst[d] := r;
    dst[d + 1] := g;
    dst[d + 2] := b;
    dst[d + 3] := 255;
  }

  // ---------------------------------------------------------------------------------------------
  // SSSE3
  // ---------------------------------------------------------------------------------------------

  /** Lanes are signed bytes, as in the intrinsics' arguments. */
  type i8 = x: int | -128 <= x < 128

  const SHUFFLE_MASK: seq<i8> := [0, 1, 2, -128, 3, 4, 5, -128, 6, 7, 8, -128, 9, 10, 11, -128]
  const ALPHA_MASK: seq<bv8> := [0, 0, 0, 0xFF, 0, 0, 0, 0xFF, 0, 0, 0, 0xFF, 0, 0, 0, 0xFF]

  /** _mm_shuffle_epi8: a lane with the top bit set yields 0, others pick by their low four bits. */
  function ShuffleLane(a: seq<bv8>, lane: i8): bv8
    requires |a| == 16
  {
    if lane < 0 then 0 else a[lane % 16]
  }

  function Shuffle(a: seq<bv8>, mask: seq<i8>): (lanes: seq<bv8>)
    requires |a| == 16 && |mask| == 16
    ensures |lanes| == 16
  {
    seq(16, i requires 0 <= i < 16 => ShuffleLane(a, mask[i]))
  }

  /** _mm_or_si128 */
  function Or(a: seq<bv8>, b: seq<bv8>): (lanes: seq<bv8>)
    requires |a| == 16 && |b| == 16
    ensures |lanes| == 16
  {
    seq(16, i requires 0 <= i < 16 => a[i] | b[i])
  }

  lemma OrIdentities(x: bv8)
    ensures x | 0 == x && x | 0xFF == 0xFF
  {
  }

  lemma MaskLanes(i: nat)
    requires i < 16
    ensures SHUFFLE_MASK[i] == if i % 4 == 3 then -128 else 3 * (i / 4) + i % 4
    ensures ALPHA_MASK[i] == if i % 4 == 3 then 0xFF else 0
  {
  }

  lemma LaneExpands(a: seq<bv8>, i: nat)
    requires |a| == 16 && i < 16
    ensures ShuffleLane(a, SHUFFLE_MASK[i]) | ALPHA_MASK[i] == ExpandRow(a[..12])[i]
  {
    MaskLanes(i);
    OrIdentities(ShuffleLane(a, SHUFFLE_MASK[i]));
  }

  /** The shuffle and the alpha mask expand four pixels; the four extra bytes loaded are ignored. */
  lemma QuadExpands(a: seq<bv8>)
    requires |a| == 16
    ensures Or(Shuffle(a, SHUFFLE_MASK), ALPHA_MASK) == ExpandRow(a[..12])
  {
    forall i | 0 <= i < 16
      ensures Or(Shuffle(a, SHUFFLE_MASK), ALPHA_MASK)[i] == ExpandRow(a[..12])[i]
    {
      LaneExpands(a, i);
    }
  }

  /** _mm_storeu_si128 */
  method Store16(dst: array<bv8>, d: nat, lanes: seq<bv8>)
    requires |lanes| == 16 && d + 16 <= dst.Length
    modifies dst
    ensures Written(old(dst[..]), dst[..], d, lanes)
  {
    forall i | 0 <= i < 16 {
      dst[d + i] := lanes[i];
    }
  }

  /** Four more pixels after the first `x`. */
  lemma QuadWritten(src: seq<bv8>, x: nat, before: seq<bv8>, mid: seq<bv8>, after: seq<bv8>, at: nat)
    requires 3 * x + 16 <= |src|
    requires Written(before, mid, at, ExpandRow(src[..3 * x]))
    requires Written(mid, after, at + 4 * x, Or(Shuffle(src[3 * x..3 * x + 16], SHUFFLE_MASK), ALPHA_MASK))
    ensures Written(before, after, at, ExpandRow(src[..3 * (x + 4)]))
  {
    QuadExpands(src[3 * x..3 * x + 16]);
    assert src[3 * x..3 * x + 16][..12] == src[3 * x..3 * (x + 4)];
    RowExtends(src, x, 4);
    WrittenExtends(before, mid, after, at, ExpandRow(src[..3 * x]), ExpandRow(src[3 * x..3 * (x + 4)]));
  }

  /**
   Vector loop: each turn loads sixteen bytes, stores four pixels and advances by twelve source
   bytes; a scalar tail finishes. It writes what the portable loop writes, for every width, and
   its index checks are the proof that it stays inside both slices.
   */
  method ExpandRowSsse3(src: seq<bv8>, dst: array<bv8>, at: nat)
    requires at + 4 * (|src| / 3) <= dst.Length
    modifies dst
    ensures Written(old(dst[..]), dst[..], at, ExpandRow(src))
  {
    hide Or, Shuffle, ExpandRow;
    ghost var before := dst[..];
    var s, d := 0, at;
    NothingWritten(src, before, at);
    ghost var x := 0;
    while s + 16 <= |src|
      invariant s == 3 * x && d == at + 4 * x && s <= |src|
      invariant Written(before, dst[..], at, ExpandRow(src[..3 * x]))
    {
      ghost var mid := dst[..];
      var chunk := src[s..s + 16];
      var withAlpha := Or(Shuffle(chunk, SHUFFLE_MASK), ALPHA_MASK);
      Store16(dst, d, withAlpha);
      QuadWritten(src, x, before, mid, dst[..], at);
      s, d, x := s + 12, d + 16, x + 4;
    }
    ExpandTail(src, s, dst, d, before, at, x);
  }

  /** The scalar tail of the vector loop, `x` pixels in. */
  method ExpandTail(src: seq<bv8>, s: nat, dst: array<bv8>, d: nat, ghost before: seq<bv8>, ghost at: nat, ghost x: nat)
    requires s == 3 * x <= |src| && d == at + 4 * x
    requires at + 4 * (|src| / 3) <= dst.Length
    requires Written(before, dst[..], at, ExpandRow(src[..3 * x]))
    modifies dst
    ensures Written(before, dst[..], at, ExpandRow(src))
  {
    hide ExpandRow;
    var remainingPixels := (|src| - s) / 3;
    ghost var p := x;
    for index := 0 to remainingPixels
      invariant p == x + index
      invariant Written(before, dst[..], at, ExpandRow(src[..3 * p]))
    {
      ghost var mid := dst[..];
      assert s + index * 3 == 3 * p && d + index * 4 == at + 4 * p && p < |src| / 3;
      WritePixel(dst, d + index * 4, src[s + index * 3], src[s + index * 3 + 1], src[s + index * 3 + 2]);
      PixelWritten(src, p, before, mid, dst[..], at);
      p := p + 1;
    }
    assert p == |src| / 3;
    WholePixels(src);
  }

  // ---------------------------------------------------------------------------------------------
  // Whole images
  // ---------------------------------------------------------------------------------------------

  /** checked_mul on a 64-bit usize. */
  function CheckedMul(a: nat, b: nat): Option<nat> {
    if a * b < USIZE_LIMIT then Some(a * b) else None
  }

  function BytesPerPixel(bitsPerSample: i32, channels: i32): Option<nat> {
    if bitsPerSample <= 0 || channels <= 0 then None
    else if bitsPerSample * channels >= I32_LIMIT then None
    else if bitsPerSample * channels % 8 != 0 then None
    else Some(bitsPerSample * channels / 8)
  }

  function NormalizedRowstride(width: i32, height: i32, rowstride: i32, bitsPerSample: i32, channels: i32, dataLen: nat)
    : Option<nat>
  {
    if dataLen == 0 || dataLen > MAX_IMAGE_BYTES then None
    else if rowstride < 0 then None
    else if width <= 0 || height <= 0 then None
    else
      match BytesPerPixel(bitsPerSample, channels)
      case None => None
      case Some(bytesPerPixel) =>
        match CheckedMul(width, bytesPerPixel)
        case None => None
        case Some(minRowstride) =>
          var stride := if rowstride > 0 then rowstride else minRowstride;
          if stride < minRowstride then None
          else
            match CheckedMul(stride, height)
            case None => None
            case Some(required) => if dataLen < required then None else Some(stride)
  }

  /** Rows 0 .. rows - 1, expanded and packed without padding. */
  function ExpandRows(data: seq<bv8>, stride: nat, width: nat, rows: nat): seq<bv8>
    requires rows > 0 ==> (rows - 1) * stride + 3 * width <= |data|
  {
    if rows == 0 then []
    else
      RowsBefore(data, stride, width, rows);
      ExpandRows(data, stride, width, rows - 1)
      + ExpandRow(data[(rows - 1) * stride..(rows - 1) * stride + 3 * width])
  }

  lemma RowsBefore(data: seq<bv8>, stride: nat, width: nat, rows: nat)
    requires rows > 0 && (rows - 1) * stride + 3 * width <= |data|
    ensures rows > 1 ==> (rows - 2) * stride + 3 * width <= |data|
    ensures 0 <= (rows - 1) * stride
  {
  }

  function AtLeastOne(n: i32): nat {
    if n < 1 then 1 else n
  }

  function RgbStride(image: ImageData): nat {
    if image.rowstride > 0 then image.rowstride else 3 * AtLeastOne(image.width)
  }

  /** The expanded image; None when it is too large or its last row overruns the buffer. */
  function Expand(image: ImageData): Option<ImageData> {
    var w, h := AtLeastOne(image.width), AtLeastOne(image.height);
    var stride := RgbStride(image);
    if 4 * (w * h) > MAX_IMAGE_BYTES then None
    else if (h - 1) * stride + 3 * w > |image.data| then None
    else
      AreaBounds(w, h);
      Some(ImageData(image.width, image.height, 4 * w, true, image.bitsPerSample, 4,
                     ExpandRows(image.data, stride, w, h)))
  }

  function Normalize(image: ImageData): Option<ImageData> {
    if image.bitsPerSample != 8 then None
    else
      match NormalizedRowstride(image.width, image.height, image.rowstride,
                                image.bitsPerSample, image.channels, |image.data|)
      case None => None
      case Some(stride) =>
        if stride >= I32_LIMIT then None
        else
          var strided := image.(rowstride := stride);
          if image.channels == 4 then Some(strided)
          else if image.channels == 3 then Expand(strided)
          else None
  }

  lemma AreaBounds(w: nat, h: nat)
    requires w >= 1 && h >= 1
    ensures w <= w * h && h <= w * h
  {
  }

  lemma RowFits(y: nat, w: nat, h: nat, stride: nat)
    requires y < h
    ensures y * w * 4 + 4 * w == (y + 1) * w * 4 <= 4 * (w * h)
    ensures y * stride <= (h - 1) * stride
  {
  }

  lemma MulMonotone(a: nat, b: nat, c: nat)
    requires a <= b
    ensures a * c <= b * c
  {
  }

  lemma {:induction false} ExpandRowsSize(data: seq<bv8>, stride: nat, width: nat, rows: nat)
    requires rows > 0 ==> (rows - 1) * stride + 3 * width <= |data|
    ensures |ExpandRows(data, stride, width, rows)| == rows * width * 4
  {
    if rows > 0 {
      RowsBefore(data, stride, width, rows);
      ExpandRowsSize(data, stride, width, rows - 1);
      var from := (rows - 1) * stride;
      RowSize(data[from..from + 3 * width], width);
      hide ExpandRow;
      assert rows * width == (rows - 1) * width + width;
    }
  }

  lemma RowSize(row: seq<bv8>, width: nat)
    requires |row| == 3 * width
    ensures |ExpandRow(row)| == 4 * width
  {
  }

  /** Row `y` of the loop, by whichever row routine the CPU offers. */
  method ExpandNextRow(data: seq<bv8>, rowstride: nat, width: nat, y: nat, rgba: array<bv8>, useSimd: bool)
    requires 0 <= y * rowstride && y * rowstride + 3 * width <= |data|
    requires RowsDone(data, rowstride, width, y, rgba[..]) && y * width * 4 + 4 * width <= rgba.Length
    modifies rgba
    ensures RowsDone(data, rowstride, width, y + 1, rgba[..])
  {
    ghost var before := rgba[..];
    var row := data[y * rowstride..y * rowstride + width * 3];
    if useSimd {
      ExpandRowSsse3(row, rgba, y * width * 4);
    } else {
      ExpandRowScalar(row, rgba, y * width * 4);
    }
    OneMoreRow(data, rowstride, width, y, before, rgba[..]);
  }

  /** All rows, or false at the first row that overruns the buffer. */
  method ExpandEachRow(data: seq<bv8>, rowstride: nat, width: nat, height: nat, rgba: array<bv8>, useSimd: bool)
    returns (fits: bool)
    requires width >= 1 && height >= 1 && rgba.Length == width * height * 4 <= MAX_IMAGE_BYTES
    modifies rgba
    ensures fits <==> (height - 1) * rowstride + 3 * width <= |data|
    ensures fits ==> rgba[..] == ExpandRows(data, rowstride, width, height)
  {
    hide RowsDone, ExpandRows;
    var y := 0;
    NoRowsDone(data, rowstride, width, rgba[..]);
    while y < height
      invariant 0 <= y <= height
      invariant RowsDone(data, rowstride, width, y, rgba[..])
    {
      RowFits(y, width, height, rowstride);
      var rowStart := y * rowstride;
      var rowEnd := rowStart + width * 3;
      if rowEnd > |data| {
        return false;
      }
      ExpandNextRow(data, rowstride, width, y, rgba, useSimd);
      y := y + 1;
    }
    AllRowsDone(data, rowstride, width, height, rgba[..]);
    return true;
  }

  method ExpandRgbToRgba(image: ImageData, useSimd: bool) returns (r: Option<ImageData>)
    ensures r == Expand(image)
  {
    var width, height := AtLeastOne(image.width), AtLeastOne(image.height);
    var rowstride := if image.rowstride > 0 then image.rowstride else width * 3;
    var outputLen := width * height * 4;
    if outputLen > MAX_IMAGE_BYTES {
      return None;
    }
    var rgba := new bv8[outputLen](_ => 0);
    var fits := ExpandEachRow(image.data, rowstride, width, height, rgba, useSimd);
    if !fits {
      return None;
    }
    AreaBounds(width, height);
    r := Some(ImageData(image.width, image.height, 4 * width, true, image.bitsPerSample, 4, rgba[..]));
  }

  lemma NoRowsDone(data: seq<bv8>, stride: nat, width: nat, rgba: seq<bv8>)
    ensures RowsDone(data, stride, width, 0, rgba)
  {
  }

  lemma AllRowsDone(data: seq<bv8>, stride: nat, width: nat, height: nat, rgba: seq<bv8>)
    requires height >= 1 && width >= 1 && RowsDone(data, stride, width, height, rgba)
    requires |rgba| == width * height * 4 <= MAX_IMAGE_BYTES
    ensures (height - 1) * stride + 3 * width <= |data| && rgba == ExpandRows(data, stride, width, height)
  {
  }

  /** The first `y` rows are in the output buffer. */
  ghost predicate RowsDone(data: seq<bv8>, stride: nat, width: nat, y: nat, rgba: seq<bv8>) {
    && (y > 0 ==> (y - 1) * stride + 3 * width <= |data|)
    && y * width * 4 <= |rgba|
    && rgba[..y * width * 4] == ExpandRows(data, stride, width, y)
  }

  lemma OneMoreRow(data: seq<bv8>, stride: nat, width: nat, y: nat, before: seq<bv8>, after: seq<bv8>)
    requires RowsDone(data, stride, width, y, before)
    requires 0 <= y * stride && y * stride + 3 * width <= |data|
    requires Written(before, after, y * width * 4, ExpandRow(data[y * stride..y * stride + 3 * width]))
    ensures RowsDone(data, stride, width, y + 1, after)
  {
    var at, row := y * width * 4, ExpandRow(data[y * stride..y * stride + 3 * width]);
    assert |row| == width * 4;
    WrittenPrefix(before, after, at, row);
    hide ExpandRow, Written;
    assert (y + 1) * width * 4 == at + |row|;
    assert ExpandRows(data, stride, width, y + 1) == ExpandRows(data, stride, width, y) + row;
  }

  /** The hint parser's last step: reject bad layouts, expand RGB. */
  method NormalizeImageData(image: ImageData, useSimd: bool) returns (r: Option<ImageData>)
    ensures r == Normalize(image)
  {
    if image.bitsPerSample != 8 {
      return None;
    }
    var rowstride := NormalizedRowstride(image.width, image.height, image.rowstride,
                                         image.bitsPerSample, image.channels, |image.data|);
    if rowstride.None? || rowstride.value >= I32_LIMIT {
      return None;
    }
    var strided := image.(rowstride := rowstride.value);
    if image.channels == 4 {
      return Some(strided);
    } else if image.channels == 3 {
      r := ExpandRgbToRgba(strided, useSimd);
    } else {
      return None;
    }
  }

  // ---------------------------------------------------------------------------------------------
  // What normalization guarantees
  // ---------------------------------------------------------------------------------------------

  /** Four channels of eight bits, rows that hold their pixels, a bounded buffer that holds the rows. */
  ghost predicate Normal(image: ImageData) {
    && image.bitsPerSample == 8 && image.channels == 4
    && image.width >= 1 && image.height >= 1
    && image.rowstride >= 4 * image.width
    && image.rowstride * image.height <= |image.data| <= 262144
  }

  /** The layouts the parser accepts, stated on the raw fields. */
  ghost predicate Acceptable(image: ImageData) {
    && image.bitsPerSample == 8 && (image.channels == 3 || image.channels == 4)
    && image.width >= 1 && image.height >= 1 && image.rowstride >= 0
    && |image.data| <= 262144
    && (image.rowstride == 0 || image.rowstride >= image.channels * image.width)
    && SourceStride(image) * image.height <= |image.data|
    && (image.channels == 3 ==> 4 * (image.width * image.height) <= 262144)
  }

  ghost function SourceStride(image: ImageData): int {
    if image.rowstride == 0 then image.channels * image.width else image.rowstride
  }

  ghost function SourceByte(image: ImageData, x: nat, y: nat, c: nat): Option<bv8> {
    var at := y * SourceStride(image) + image.channels * x + c;
    if 0 <= at < |image.data| then Some(image.data[at]) else None
  }

  lemma StrideOf(image: ImageData)
    requires image.bitsPerSample == 8 && (image.channels == 3 || image.channels == 4)
    ensures BytesPerPixel(8, image.channels) == Some(image.channels)
    ensures var n := NormalizedRowstride(image.width, image.height, image.rowstride, 8, image.channels, |image.data|);
            && (n.Some? ==> n.value == SourceStride(image) && n.value < I32_LIMIT)
            && (n.Some? <==>
                  && image.width >= 1 && image.height >= 1 && image.rowstride >= 0
                  && |image.data| <= MAX_IMAGE_BYTES
                  && (image.rowstride == 0 || image.rowstride >= image.channels * image.width)
                  && SourceStride(image) * image.height <= |image.data|)
  {
    assert BytesPerPixel(8, image.channels) == Some(image.channels);
    if image.width >= 1 && image.height >= 1 && image.rowstride >= 0 {
      var stride := SourceStride(image);
      assert stride >= 1 ==> stride * image.height >= stride by {
        if stride >= 1 {
          AreaBounds(stride, image.height);
        }
      }
      ProductBelow(stride, image.height);
    }
  }

  /** Products of two non-negative i32 values, scaled by a pixel size, fit a 64-bit usize. */
  lemma ProductBelow(a: nat, b: nat)
    requires a <= 4 * I32_LIMIT && b < I32_LIMIT
    ensures a * b < USIZE_LIMIT
  {
    MulMonotone(a, 4 * I32_LIMIT, b);
  }

  /** The parser accepts exactly the acceptable layouts; on RGB the row check never fails. */
  lemma NormalizeAcceptsExactly(image: ImageData)
    ensures Normalize(image).Some? <==> Acceptable(image)
  {
    if image.bitsPerSample == 8 && (image.channels == 3 || image.channels == 4) {
      StrideOf(image);
      if image.channels == 3 && image.width >= 1 && image.height >= 1
         && image.rowstride >= 0 && (image.rowstride == 0 || image.rowstride >= 3 * image.width) {
        LastRowFits(image);
      }
    }
  }

  /** If all rows fit with their padding, the last row fits without it. */
  lemma LastRowFits(image: ImageData)
    requires image.width >= 1 && image.height >= 1 && image.channels >= 1
    requires image.rowstride == 0 || image.rowstride >= image.channels * image.width
    ensures SourceStride(image) * image.height
         == (image.height - 1) * SourceStride(image) + SourceStride(image)
    ensures SourceStride(image) >= image.channels * image.width
  {
  }

  /** The two shapes a result can have. */
  lemma NormalizeShape(image: ImageData)
    requires Acceptable(image)
    ensures image.channels == 4 ==> Normalize(image) == Some(image.(rowstride := SourceStride(image)))
    ensures image.channels == 3 ==>
              && (image.height - 1) * SourceStride(image) + 3 * image.width <= |image.data|
              && 4 * image.width < I32_LIMIT
              && Normalize(image) == Some(ImageData(
                   image.width, image.height, 4 * image.width, true, 8, 4,
                   ExpandRows(image.data, SourceStride(image), image.width, image.height)))
  {
    StrideOf(image);
    LastRowFits(image);
    AreaBounds(image.width, image.height);
  }

  lemma PackedSize(w: nat, h: nat)
    ensures 4 * w * h == h * w * 4 == 4 * (w * h)
  {
  }

  /** Every accepted image is normal, and every pixel lies inside its buffer. */
  lemma NormalizeYieldsNormal(image: ImageData)
    requires Normalize(image).Some?
    ensures Normal(Normalize(image).value)
    ensures Normalize(image).value.width == image.width && Normalize(image).value.height == image.height
  {
    NormalizeAcceptsExactly(image);
    NormalizeShape(image);
    if image.channels == 3 {
      ExpandRowsSize(image.data, SourceStride(image), image.width, image.height);
      PackedSize(image.width, image.height);
    }
  }

  lemma PixelInside(image: ImageData, x: nat, y: nat)
    requires Normal(image) && x < image.width && y < image.height
    ensures 0 <= y * image.rowstride + 4 * x
    ensures y * image.rowstride + 4 * x + 4 <= |image.data|
  {
    MulMonotone(y + 1, image.height, image.rowstride);
    assert (y + 1) * image.rowstride == y * image.rowstride + image.rowstride;
  }

  /** Normalizing twice is normalizing once. */
  lemma NormalizeIsIdempotent(image: ImageData)
    requires Normalize(image).Some?
    ensures Normalize(Normalize(image).value) == Normalize(image)
  {
    NormalizeYieldsNormal(image);
    NormalIsFixed(Normalize(image).value);
  }

  lemma NormalIsFixed(image: ImageData)
    requires Normal(image)
    ensures Normalize(image) == Some(image)
  {
  }

  /** Where a byte of row `y` of the expansion comes from. */
  lemma {:induction false} ExpandedByte(data: seq<bv8>, stride: nat, width: nat, rows: nat, y: nat, k: nat)
    requires rows > 0 && (rows - 1) * stride + 3 * width <= |data|
    requires y < rows && k < 4 * width
    ensures var all, at, from := ExpandRows(data, stride, width, rows), y * width * 4 + k, y * stride;
            && 0 <= at < |all| && 0 <= from && from + 3 * width <= |data|
            && k < |ExpandRow(data[from..from + 3 * width])|
            && all[at] == ExpandRow(data[from..from + 3 * width])[k]
    decreases rows
  {
    ExpandRowsSize(data, stride, width, rows);
    RowFits(y, width, rows, stride);
    RowsBefore(data, stride, width, rows);
    ExpandRowsSize(data, stride, width, rows - 1);
    if y < rows - 1 {
      ExpandedByte(data, stride, width, rows - 1, y, k);
    }
  }

  /**
   Pixels survive: each colour byte of the result is the source's colour byte of the same pixel,
   and RGB sources become fully opaque.
   */
  lemma NormalizeKeepsPixels(image: ImageData, x: nat, y: nat, c: nat)
    requires Normalize(image).Some? && x < image.width && y < image.height && c < 4
    ensures var r := Normalize(image).value;
            && 0 <= y * r.rowstride + 4 * x + c < |r.data|
            && (c < image.channels ==>
                  SourceByte(image, x, y, c) == Some(r.data[y * r.rowstride + 4 * x + c]))
            && (c == 3 && image.channels == 3 ==> r.data[y * r.rowstride + 4 * x + c] == 255)
  {
    NormalizeYieldsNormal(image);
    NormalizeAcceptsExactly(image);
    StrideOf(image);
    var r := Normalize(image).value;
    PixelInside(r, x, y);
    if image.channels == 3 {
      RgbPixel(image, x, y, c);
    }
  }

  lemma RgbPixel(image: ImageData, x: nat, y: nat, c: nat)
    requires Acceptable(image) && image.channels == 3 && Normalize(image).Some?
    requires x < image.width && y < image.height && c < 4
    ensures var r := Normalize(image).value;
            && r.rowstride == 4 * image.width
            && 0 <= y * r.rowstride + 4 * x + c < |r.data|
            && (c < 3 ==> SourceByte(image, x, y, c) == Some(r.data[y * r.rowstride + 4 * x + c]))
            && (c == 3 ==> r.data[y * r.rowstride + 4 * x + c] == 255)
  {
    NormalizeShape(image);
    hide Normalize, Acceptable, ExpandRows;
    var r := Normalize(image).value;
    PackedPixel(image.data, SourceStride(image), image.width, image.height, x, y, c, r.rowstride);
  }

  lemma PackedPixel(data: seq<bv8>, stride: nat, w: nat, h: nat, x: nat, y: nat, c: nat, packed: nat)
    requires packed == 4 * w && h > 0 && (h - 1) * stride + 3 * w <= |data|
    requires x < w && y < h && c < 4
    ensures var at := y * packed + 4 * x + c;
            var from := y * stride + 3 * x + c;
            && 0 <= at < |ExpandRows(data, stride, w, h)|
            && (c < 3 ==> 0 <= from < |data| && ExpandRows(data, stride, w, h)[at] == data[from])
            && (c == 3 ==> ExpandRows(data, stride, w, h)[at] == 255)
  {
    hide ExpandRows;
    PackedSize(w, y);
    assert y * packed == y * w * 4;
    ExpandedPixel(data, stride, w, h, x, y, c);
  }

  lemma ExpandedPixel(data: seq<bv8>, stride: nat, w: nat, h: nat, x: nat, y: nat, c: nat)
    requires h > 0 && (h - 1) * stride + 3 * w <= |data|
    requires x < w && y < h && c < 4
    ensures var at := y * w * 4 + 4 * x + c;
            var from := y * stride + 3 * x + c;
            && at < |ExpandRows(data, stride, w, h)|
            && (c < 3 ==> 0 <= from < |data| && ExpandRows(data, stride, w, h)[at] == data[from])
            && (c == 3 ==> ExpandRows(data, stride, w, h)[at] == 255)
  {
    hide ExpandRows, ExpandRow;
    ExpandedByte(data, stride, w, h, y, 4 * x + c);
    var start := y * stride;
    var row := data[start..start + 3 * w];
    RowByte(row, x, c);
  }

  lemma RowByte(row: seq<bv8>, x: nat, c: nat)
    requires |row| % 3 == 0 && 3 * x + 3 <= |row| && c < 4
    ensures 4 * x + c < |ExpandRow(row)|
    ensures ExpandRow(row)[4 * x + c] == if c == 3 then 255 else row[3 * x + c]
  {
  }
}

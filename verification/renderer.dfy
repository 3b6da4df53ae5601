/**
 * The byte pipeline of librgb/renderer.py: the format table and the part of
 * `get_pixmap` that turns the reader's bytes into the frame handed to Qt.
 */
module Renderer {
  import opened Base
  import PF = PixelFormats

  // ---------------------------------------------------------------------------
  // FORMAT_MAP

  /** The Qt image formats the table uses (`QImage.Format_*`). */
  datatype QtFormat = Indexed8 | Rgb555 | Rgb16 | Rgb888 | Argb32 | Rgb32

  /** One table entry: bytes per pixel, Qt format, RGB swap flag, alpha inversion flag. */
  datatype FormatInfo = FormatInfo(bytesPerPixel: nat, qtFormat: QtFormat, swapRgb: bool, invertAlpha: bool)

  /**
   * The keys of the table: the catalog formats, and the two 5-5-5 formats that
   * librgb/renderer.py names but librgb/pixel_formats.py does not define.
   */
  datatype Key = Listed(format: PF.Format) | RGB555 | BGR555

  function KeyShortName(k: Key): string
  {
    match k
    case Listed(f) => PF.ShortName(f)
    case RGB555 => "RGB555"
    case BGR555 => "BGR555"
  }

  /** The display text of a key; for the 5-5-5 formats it follows the catalog's pattern. */
  function KeyDisplayName(k: Key): string
  {
    match k
    case Listed(f) => PF.DisplayName(f)
    case RGB555 => "RGB (5-5-5)"
    case BGR555 => "BGR (5-5-5)"
  }

  /** The 5-6-5-8 formats, which the catalog lists but the table leaves out. */
  predicate Is5658(k: Key)
  {
    k == Listed(PF.RGBA5658) || k == Listed(PF.RGBA5658i)
    || k == Listed(PF.BGRA5658) || k == Listed(PF.BGRA5658i)
  }

  /** The key of `FORMAT_MAP` whose display text is `format`, `None` when no key has it. */
  function TableKey(format: string): (r: Option<Key>)
    ensures r.Some? ==> !Is5658(r.value) && KeyDisplayName(r.value) == format
  {
    match format
    case "Grayscale (8)" => Some(Listed(PF.GRAY8))
    case "RGB (5-5-5)" => Some(RGB555)
    case "RGB (5-6-5)" => Some(Listed(PF.RGB565))
    case "RGB (8-8-8)" => Some(Listed(PF.RGB888))
    case "RGBA (8-8-8-8)" => Some(Listed(PF.RGBA8888))
    case "RGBA (8-8-8-8, invert alpha)" => Some(Listed(PF.RGBA8888i))
    case "RGBA (8-8-8-8, ignore alpha)" => Some(Listed(PF.RGBA8888x))
    case "BGR (5-5-5)" => Some(BGR555)
    case "BGR (5-6-5)" => Some(Listed(PF.BGR565))
    case "BGR (8-8-8)" => Some(Listed(PF.BGR888))
    case "BGRA (8-8-8-8)" => Some(Listed(PF.BGRA8888))
    case "BGRA (8-8-8-8, invert alpha)" => Some(Listed(PF.BGRA8888i))
    case "BGRA (8-8-8-8, ignore alpha)" => Some(Listed(PF.BGRA8888x))
    case _ => None
  }

  /** The row of `FORMAT_MAP` for a key. */
  function Entry(k: Key): (r: FormatInfo)
    requires !Is5658(k)
    ensures 1 <= r.bytesPerPixel <= 4
  {
    match k
    case Listed(f) =>
      (match f
       case GRAY8 => FormatInfo(1, Indexed8, false, false)
       case RGB565 => FormatInfo(2, Rgb16, true, false)
       case RGB888 => FormatInfo(3, Rgb888, true, false)
       case RGBA8888 => FormatInfo(4, Argb32, true, false)
       case RGBA8888i => FormatInfo(4, Argb32, true, true)
       case RGBA8888x => FormatInfo(4, Rgb32, true, false)
       case BGR565 => FormatInfo(2, Rgb16, false, false)
       case BGR888 => FormatInfo(3, Rgb888, false, false)
       case BGRA8888 => FormatInfo(4, Argb32, false, false)
       case BGRA8888i => FormatInfo(4, Argb32, false, true)
       case BGRA8888x => FormatInfo(4, Rgb32, false, false))
    case RGB555 => FormatInfo(2, Rgb555, true, false)
    case BGR555 => FormatInfo(2, Rgb555, false, false)
  }

  /**
   * `Renderer.FORMAT_MAP`, looked up by display text: the entry for a key, `None`
   * for a text that is not a key.
   */
  function FormatMap(format: string): (r: Option<FormatInfo>)
    ensures r.Some? ==> 1 <= r.value.bytesPerPixel <= 4
  {
    match TableKey(format)
    case None => None
    case Some(k) => Some(Entry(k))
  }

  /** The display texts of the RGB keys find their key. */
  lemma TableKeyOfRgb(k: Key)
    requires k in {Listed(PF.RGB565), Listed(PF.RGB888), Listed(PF.RGBA8888), Listed(PF.RGBA8888i),
                   Listed(PF.RGBA8888x), RGB555}
    ensures TableKey(KeyDisplayName(k)) == Some(k)
  {
  }

  /** The display texts of the BGR and grayscale keys find their key. */
  lemma TableKeyOfBgr(k: Key)
    requires k in {Listed(PF.BGR565), Listed(PF.BGR888), Listed(PF.BGRA8888), Listed(PF.BGRA8888i),
                   Listed(PF.BGRA8888x), BGR555, Listed(PF.GRAY8)}
    ensures TableKey(KeyDisplayName(k)) == Some(k)
  {
  }

  /** The display texts of the 5-6-5-8 formats are no keys. */
  lemma TableKeyOf5658(k: Key)
    requires Is5658(k)
    ensures TableKey(KeyDisplayName(k)) == None
  {
  }

  /** Every key but the 5-6-5-8 formats is found by its display text, and those are not found. */
  lemma TableKeyOfDisplayName(k: Key)
    ensures TableKey(KeyDisplayName(k)) == if Is5658(k) then None else Some(k)
  {
    match k
    case Listed(RGBA5658) | Listed(RGBA5658i) | Listed(BGRA5658) | Listed(BGRA5658i) =>
      TableKeyOf5658(k);
    case Listed(RGB565) | Listed(RGB888) | Listed(RGBA8888) | Listed(RGBA8888i) | Listed(RGBA8888x) | RGB555 =>
      TableKeyOfRgb(k);
    case Listed(BGR565) | Listed(BGR888) | Listed(BGRA8888) | Listed(BGRA8888i) | Listed(BGRA8888x) | BGR555
      | Listed(GRAY8) =>
      TableKeyOfBgr(k);
  }

  /** The sum of the decimal digits in `s[i..]`: the channel widths a format name lists. */
  function DigitSum(s: string, i: nat): nat
    decreases |s| - i
  {
    if i >= |s| then 0
    else if '0' <= s[i] <= '9' then (s[i] as int - '0' as int) + DigitSum(s, i + 1)
    else DigitSum(s, i + 1)
  }

  /** Bits per pixel rounded up to whole bytes. */
  function BytesFromName(name: string): nat
  {
    (DigitSum(name, 0) + 7) / 8
  }

  /**
   * The rows follow the key names: bytes per pixel are the channel widths named in
   * the key rounded up to bytes (GRAY8 1, 5-5-5 and 5-6-5 2, 8-8-8 3, 8-8-8-8 4);
   * the RGB swap flag is set exactly for the keys starting with `R`, and alpha
   * inversion exactly for the `i` variants.
   */
  lemma EntryFollowsName(k: Key)
    requires !Is5658(k)
    ensures
      var name := KeyShortName(k);
      && Entry(k).bytesPerPixel == BytesFromName(name)
      && (Entry(k).swapRgb <==> name[0] == 'R')
      && (Entry(k).invertAlpha <==> name[|name| - 1] == 'i')
  {
    match k
    case RGB555 =>
      assert DigitSum("RGB555", 3) == 15;
    case BGR555 =>
      assert DigitSum("BGR555", 3) == 15;
    case Listed(f) =>
      match f
      case RGB888 => case RGB565 => case RGBA8888 => case RGBA8888i => case RGBA8888x =>
      case BGR888 => case BGR565 => case BGRA8888 => case BGRA8888i => case BGRA8888x =>
      case GRAY8 =>
  }

  /**
   * Every key but the 5-6-5-8 formats is in the table, under its display text,
   * with the row its name calls for.
   */
  lemma FormatMapEntry(k: Key)
    requires !Is5658(k)
    ensures FormatMap(KeyDisplayName(k)).Some?
    ensures
      var info := FormatMap(KeyDisplayName(k)).value;
      var name := KeyShortName(k);
      && info.bytesPerPixel == BytesFromName(name)
      && (info.swapRgb <==> name[0] == 'R')
      && (info.invertAlpha <==> name[|name| - 1] == 'i')
  {
    TableKeyOfDisplayName(k);
    EntryFollowsName(k);
  }

  /** The 5-6-5-8 formats are not in the table. */
  lemma FormatMapLacks5658(k: Key)
    requires Is5658(k)
    ensures FormatMap(KeyDisplayName(k)) == None
  {
    TableKeyOf5658(k);
  }

  /** The keys of the table are exactly the display texts of the keys other than 5-6-5-8. */
  lemma FormatMapKeys(format: string)
    ensures FormatMap(format).Some? <==> exists k :: !Is5658(k) && KeyDisplayName(k) == format
  {
    if FormatMap(format).Some? {
      var k := TableKey(format).value;
      assert !Is5658(k) && KeyDisplayName(k) == format;
    }
    if k :| !Is5658(k) && KeyDisplayName(k) == format {
      TableKeyOfDisplayName(k);
    }
  }

  /** Every table entry has at least one byte per pixel. */
  lemma TableBytesPositive(format: string)
    ensures FormatMap(format).Some? ==> FormatMap(format).value.bytesPerPixel >= 1
  {
  }

  // ---------------------------------------------------------------------------
  // Flip: row order reversed

  /** Row `y` of a buffer with `stride` bytes per row; empty past the end of the buffer. */
  function Row(data: seq<byte>, stride: nat, y: nat): seq<byte>
  {
    if (y + 1) * stride <= |data| then data[y * stride..(y + 1) * stride] else []
  }

  lemma RowBounds(height: int, stride: int, y: int)
    requires 0 <= y < height && 0 <= height * stride
    ensures 0 <= stride
    ensures 0 <= y * stride <= (y + 1) * stride <= height * stride
  {
    assert (y + 1) * stride == y * stride + stride;
    MulMonotone(y + 1, height, stride);
  }

  /** Rows `height-1` down to `height-k`, one after the other: the loop's output after `k` rounds. */
  function FlipPrefix(data: seq<byte>, height: int, stride: int, k: nat): (r: seq<byte>)
    requires |data| == height * stride && k <= height
    ensures k > 0 ==> 0 <= stride
    ensures |r| == k * stride
  {
    if k == 0 then []
    else
      RowBounds(height, stride, height - k);
      FlipPrefix(data, height, stride, k - 1) + data[(height - k) * stride..(height - k + 1) * stride]
  }

  /** The flipped buffer: the input's rows in reverse order. */
  function Flip(data: seq<byte>, height: int, stride: int): (r: seq<byte>)
    requires |data| == height * stride
    ensures height >= 0 ==> |r| == |data|
    ensures height <= 0 ==> r == []
  {
    if height <= 0 then [] else FlipPrefix(data, height, stride, height)
  }

  /** Row `y` of a buffer is unchanged by appending. */
  lemma RowOfAppend(p: seq<byte>, q: seq<byte>, stride: nat, y: nat)
    requires (y + 1) * stride <= |p|
    ensures Row(p + q, stride, y) == Row(p, stride, y)
  {
  }

  /** The row that starts right at the end of `p` is the appended row. */
  lemma RowOfAppendLast(p: seq<byte>, row: seq<byte>, stride: nat, y: nat)
    requires |p| == y * stride && |row| == stride
    ensures Row(p + row, stride, y) == row
  {
    assert (y + 1) * stride == y * stride + stride;
  }

  /** After `k` rounds the output holds `k` rows, row `y` being input row `height-1-y`. */
  lemma {:induction false} FlipPrefixRows(data: seq<byte>, height: int, stride: int, k: nat, y: nat)
    requires |data| == height * stride && k <= height && y < k
    ensures 0 <= stride
    ensures Row(FlipPrefix(data, height, stride, k), stride, y) == Row(data, stride, height - 1 - y)
  {
    RowBounds(height, stride, height - k);
    var p := FlipPrefix(data, height, stride, k - 1);
    var row := data[(height - k) * stride..(height - k + 1) * stride];
    assert FlipPrefix(data, height, stride, k) == p + row;
    if y < k - 1 {
      MulMonotone(y + 1, k - 1, stride);
      RowOfAppend(p, row, stride, y);
      FlipPrefixRows(data, height, stride, k - 1, y);
    } else {
      RowOfAppendLast(p, row, stride, y);
      assert Row(data, stride, height - k) == row;
    }
  }

  /** Output row `y` is input row `height-1-y`, and the length is kept. */
  lemma FlipRowsReversed(data: seq<byte>, height: int, stride: int, y: nat)
    requires |data| == height * stride && y < height
    ensures |Flip(data, height, stride)| == |data|
    ensures 0 <= stride
    ensures Row(Flip(data, height, stride), stride, y) == Row(data, stride, height - 1 - y)
  {
    FlipPrefixRows(data, height, stride, height, y);
  }

  lemma MulMonotone(x: nat, y: nat, c: nat)
    requires x <= y
    ensures x * c <= y * c
  {
  }

  lemma RowOfPrefix(a: seq<byte>, n: nat, stride: nat, y: nat)
    requires (y + 1) * stride <= n <= |a|
    ensures Row(a[..n], stride, y) == Row(a, stride, y)
  {
  }

  /** The last of `height` rows is everything after the first `height-1` rows. */
  lemma SplitLastRow(a: seq<byte>, height: nat, stride: nat)
    requires height > 0 && |a| == height * stride
    ensures (height - 1) * stride <= |a|
    ensures Row(a, stride, height - 1) == a[(height - 1) * stride..]
  {
    assert height * stride == (height - 1) * stride + 1 * stride;
  }

  /** Dropping the last row keeps every other row. */
  lemma RowOfInitialRows(a: seq<byte>, height: nat, stride: nat, y: nat)
    requires y < height - 1 && |a| == height * stride
    ensures (y + 1) * stride <= (height - 1) * stride <= |a|
    ensures Row(a[..(height - 1) * stride], stride, y) == Row(a, stride, y)
  {
    MulMonotone(y + 1, height - 1, stride);
    MulMonotone(height - 1, height, stride);
    RowOfPrefix(a, (height - 1) * stride, stride, y);
  }

  /** Buffers that agree on all rows agree on all but the last. */
  lemma InitialRowsAgree(a: seq<byte>, b: seq<byte>, height: nat, stride: nat, n: nat)
    requires height > 0 && |a| == |b| == height * stride && n == (height - 1) * stride
    requires forall y: nat :: y < height ==> Row(a, stride, y) == Row(b, stride, y)
    ensures n <= |a|
    ensures forall y: nat :: y < height - 1 ==> Row(a[..n], stride, y) == Row(b[..n], stride, y)
  {
    SplitLastRow(a, height, stride);
    forall y: nat | y < height - 1
      ensures Row(a[..n], stride, y) == Row(b[..n], stride, y)
    {
      RowOfInitialRows(a, height, stride, y);
      RowOfInitialRows(b, height, stride, y);
    }
  }

  /** Two sequences equal before and after a cut are equal. */
  lemma SameAroundCut(a: seq<byte>, b: seq<byte>, n: nat)
    requires n <= |a| == |b| && a[..n] == b[..n] && a[n..] == b[n..]
    ensures a == b
  {
    assert a == a[..n] + a[n..];
    assert b == b[..n] + b[n..];
  }

  /** Two buffers of `height` rows that agree row by row are equal. */
  lemma {:induction false} SameRows(a: seq<byte>, b: seq<byte>, height: nat, stride: nat)
    requires |a| == |b| == height * stride
    requires forall y: nat :: y < height ==> Row(a, stride, y) == Row(b, stride, y)
    ensures a == b
  {
    if height > 0 {
      var n := (height - 1) * stride;
      SplitLastRow(a, height, stride);
      SplitLastRow(b, height, stride);
      InitialRowsAgree(a, b, height, stride, n);
      SameRows(a[..n], b[..n], height - 1, stride);
      SameAroundCut(a, b, n);
    }
  }

  /** Flipping twice restores the buffer. */
  lemma FlipInvolution(data: seq<byte>, height: int, stride: int)
    requires height > 0 && |data| == height * stride
    ensures |Flip(data, height, stride)| == height * stride
    ensures Flip(Flip(data, height, stride), height, stride) == data
  {
    FlipRowsReversed(data, height, stride, 0);
    var once := Flip(data, height, stride);
    var twice := Flip(once, height, stride);
    FlipRowsReversed(once, height, stride, 0);
    forall y: nat | y < height ensures Row(twice, stride, y) == Row(data, stride, y) {
      FlipRowsReversed(once, height, stride, y);
      FlipRowsReversed(data, height, stride, height - 1 - y);
    }
    SameRows(twice, data, height, stride);
  }

  /** The flip loop of `get_pixmap`: appends input rows from the last to the first. */
  method FlipRows(data: seq<byte>, height: int, stride: int) returns (output: seq<byte>)
    requires |data| == height * stride
    ensures output == Flip(data, height, stride)
  {
    output := [];
    var y := 0;
    while y < height
      invariant 0 <= y && (height > 0 ==> y <= height)
      invariant height > 0 ==> output == FlipPrefix(data, height, stride, y)
      invariant height <= 0 ==> output == []
    {
      var y2 := height - 1 - y;
      RowBounds(height, stride, y2);
      output := output + data[y2 * stride..(y2 + 1) * stride];
      y := y + 1;
    }
  }

  // ---------------------------------------------------------------------------
  // Brightness

  /** Python's `int(x)` on a float: truncation toward zero. */
  function Trunc(x: real): (r: int)
    ensures x >= 0.0 ==> r as real <= x < r as real + 1.0
    ensures x < 0.0 ==> r as real - 1.0 < x <= r as real
  {
    if x >= 0.0 then x.Floor else -((-x).Floor)
  }

  /** One byte of the fallback loop: `max(min(int(b * multiplier), 0xFF), 0)`. */
  function ScaleByte(b: byte, multiplier: real): (r: byte)
    ensures multiplier >= 0.0 && (b as real) * multiplier <= 255.0 ==>
      r as real <= (b as real) * multiplier < r as real + 1.0
    ensures (b as real) * multiplier >= 255.0 ==> r == 255
    ensures (b as real) * multiplier < 1.0 ==> r == 0
  {
    var v := Trunc((b as real) * multiplier);
    if v > 255 then 255 else if v < 0 then 0 else v
  }

  /** One byte of the numpy path: multiply as a float, clip to [0, 255], convert to `uint8`. */
  function ClipByte(b: byte, multiplier: real): (r: byte)
    ensures (b as real) * multiplier <= 0.0 ==> r == 0
    ensures (b as real) * multiplier >= 255.0 ==> r == 255
    ensures 0.0 <= (b as real) * multiplier <= 255.0 ==>
              r as real <= (b as real) * multiplier < r as real + 1.0
  {
    var x := (b as real) * multiplier;
    var clipped := if x < 0.0 then 0.0 else if x > 255.0 then 255.0 else x;
    Trunc(clipped)
  }

  /** Clipping before truncating gives the same byte as clamping after it. */
  lemma ClipByteIsScaleByte(b: byte, multiplier: real)
    ensures ClipByte(b, multiplier) == ScaleByte(b, multiplier)
  {
    var x := (b as real) * multiplier;
    if x > 255.0 {
      assert Trunc(x) >= 255;
    }
  }

  /** The brightness step: every byte scaled on its own. */
  function Brighten(data: seq<byte>, multiplier: real): (r: seq<byte>)
    ensures |r| == |data|
    ensures forall i :: 0 <= i < |data| ==> r[i] == ScaleByte(data[i], multiplier)
  {
    seq(|data|, i requires 0 <= i < |data| => ScaleByte(data[i], multiplier))
  }

  /** The numpy brightness path, element by element. */
  function NumpyBrighten(data: seq<byte>, multiplier: real): (r: seq<byte>)
    ensures |r| == |data|
  {
    seq(|data|, i requires 0 <= i < |data| => ClipByte(data[i], multiplier))
  }

  /** Both brightness paths give the same bytes. */
  lemma NumpyBrightenIsBrighten(data: seq<byte>, multiplier: real)
    ensures NumpyBrighten(data, multiplier) == Brighten(data, multiplier)
  {
    forall i | 0 <= i < |data|
      ensures NumpyBrighten(data, multiplier)[i] == Brighten(data, multiplier)[i]
    {
      ClipByteIsScaleByte(data[i], multiplier);
    }
  }

  /** A multiplier of 1, brightness 50 in the source's scale, changes no byte. */
  lemma BrightenByOne(data: seq<byte>)
    ensures Brighten(data, 1.0) == data
  {
  }

  /** The fallback loop: copies the frame into a `bytearray` and scales each byte in place. */
  method AdjustBrightness(data: seq<byte>, multiplier: real) returns (output: seq<byte>)
    ensures output == Brighten(data, multiplier)
  {
    var buffer := new byte[|data|](i requires 0 <= i < |data| => data[i]);
    for i := 0 to buffer.Length
      invariant forall j :: 0 <= j < i ==> buffer[j] == ScaleByte(data[j], multiplier)
      invariant forall j :: i <= j < buffer.Length ==> buffer[j] == data[j]
    {
      buffer[i] := ScaleByte(buffer[i], multiplier);
    }
    output := buffer[..];
  }

  lemma BrightenAppend(a: seq<byte>, b: seq<byte>, multiplier: real)
    ensures Brighten(a + b, multiplier) == Brighten(a, multiplier) + Brighten(b, multiplier)
  {
  }

  lemma BrightenSlice(data: seq<byte>, lo: nat, hi: nat, multiplier: real)
    requires lo <= hi <= |data|
    ensures Brighten(data[lo..hi], multiplier) == Brighten(data, multiplier)[lo..hi]
  {
  }

  lemma {:induction false} BrightenFlipPrefix(data: seq<byte>, height: int, stride: int, k: nat, multiplier: real)
    requires |data| == height * stride && k <= height
    ensures Brighten(FlipPrefix(data, height, stride, k), multiplier)
      == FlipPrefix(Brighten(data, multiplier), height, stride, k)
  {
    if k > 0 {
      RowBounds(height, stride, height - k);
      var lo, hi := (height - k) * stride, (height - k + 1) * stride;
      BrightenFlipPrefix(data, height, stride, k - 1, multiplier);
      BrightenAppend(FlipPrefix(data, height, stride, k - 1), data[lo..hi], multiplier);
      BrightenSlice(data, lo, hi, multiplier);
    }
  }

  /** Brightness works byte by byte, so it commutes with the flip. */
  lemma BrightenCommutesWithFlip(data: seq<byte>, height: int, stride: int, multiplier: real)
    requires |data| == height * stride
    ensures Brighten(Flip(data, height, stride), multiplier) == Flip(Brighten(data, multiplier), height, stride)
  {
    if height > 0 {
      BrightenFlipPrefix(data, height, stride, height, multiplier);
    }
  }

  // ---------------------------------------------------------------------------
  // get_pixmap

  /** The view parameters `get_pixmap` reads. */
  datatype View = View(format: string, width: int, height: int, flip: bool, brightness: real)

  /** What `get_pixmap` raises. */
  datatype Error = NotImplementedError | AssertionError

  /**
   * What `get_pixmap` hands to Qt: the empty pixmap when there is no reader, or
   * the frame bytes with the geometry and the table entry that say how Qt reads them.
   */
  datatype Pixmap = EmptyPixmap | Frame(data: seq<byte>, width: int, height: int, info: FormatInfo)

  /** The reader's `get_padded_bytes(size)` with its address held inside; `None` is a failed read. */
  type ReadFn = int -> Option<seq<byte>>

  /** The frame bytes after the flip and the brightness step. */
  function Processed(data: seq<byte>, view: View, stride: int, multiplier: real): (r: seq<byte>)
    requires |data| == view.height * stride
    ensures view.height >= 0 ==> |r| == |data|
    ensures !view.flip && view.brightness == 50.0 ==> r == data
  {
    var flipped := if view.flip then Flip(data, view.height, stride) else data;
    if view.brightness != 50.0 then Brighten(flipped, multiplier) else flipped
  }

  /**
   * `get_pixmap`. `multiplier` is the brightness factor the source derives from
   * `params.brightness`; `hasNumpy` chooses the brightness path. `requested` is
   * the size asked of the reader, `None` when nothing was read.
   */
  method GetPixmap(view: View, reader: Option<ReadFn>, hasNumpy: bool, multiplier: real)
    returns (requested: Option<int>, r: Result<Pixmap, Error>)
    ensures reader.None? ==> requested.None? && r == Ok(EmptyPixmap)
    ensures reader.Some? && FormatMap(view.format).None? ==>
      requested.None? && r == Err(NotImplementedError)
    ensures reader.Some? && FormatMap(view.format).Some? ==>
      var info := FormatMap(view.format).value;
      var stride := view.width * info.bytesPerPixel;
      var size := view.height * stride;
      && requested == Some(size)
      && match reader.value(size)
         case None => r == Err(AssertionError)
         case Some(data) =>
           if |data| != size then r == Err(AssertionError)
           else r == Ok(Frame(Processed(data, view, stride, multiplier), view.width, view.height, info))
  {
    if reader.None? {
      return None, Ok(EmptyPixmap);
    }
    var entry := FormatMap(view.format);
    if entry.None? {
      return None, Err(NotImplementedError);
    }
    var info := entry.value;
    var stride := view.width * info.bytesPerPixel;
    var size := view.height * stride;
    requested := Some(size);
    var read := reader.value(size);
    if read.None? || |read.value| != size {
      return requested, Err(AssertionError);
    }
    var data := read.value;
    if view.flip {
      data := FlipRows(data, view.height, stride);
    }
    if view.brightness != 50.0 {
      if hasNumpy {
        NumpyBrightenIsBrighten(data, multiplier);
        data := NumpyBrighten(data, multiplier);
      } else {
        data := AdjustBrightness(data, multiplier);
      }
    }
    r := Ok(Frame(data, view.width, view.height, info));
  }

  // ---------------------------------------------------------------------------
  // Alpha inversion, by Qt's documented InvertMode

  /** One ARGB pixel. */
  datatype Pixel = Pixel(a: byte, r: byte, g: byte, b: byte)

  /** `invertPixels(InvertRgba)`: every channel `c` becomes `255 - c`. */
  function InvertRgba(p: Pixel): Pixel
  {
    Pixel(255 - p.a, 255 - p.r, 255 - p.g, 255 - p.b)
  }

  /** `invertPixels(InvertRgb)`: the colour channels are inverted, alpha is kept. */
  function InvertRgb(p: Pixel): Pixel
  {
    Pixel(p.a, 255 - p.r, 255 - p.g, 255 - p.b)
  }

  /** The two inversions together invert alpha and keep the colour. */
  lemma InvertAlphaOnly(p: Pixel)
    ensures InvertRgb(InvertRgba(p)) == Pixel(255 - p.a, p.r, p.g, p.b)
  {
  }
}

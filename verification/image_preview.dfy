/**
 * The parts of image-preview.py, the standalone previewer, that differ from the
 * librgb package: its format table (with the 5-6-5-8 formats), `shown_bytes`
 * over that table, `getPixmap` with an explicit address, and its fallback
 * brightness loop. Its PixelFormats, FileReader, MemoryReader and
 * RendererParams classes are the same code as librgb's and are modelled by the
 * PixelFormats, FileReader, MemoryReader and RendererParams modules.
 */
module ImagePreview {
  import opened Base
  import PF = PixelFormats
  import Renderer
  import RP = RendererParams

  // ---------------------------------------------------------------------------
  // Renderer.FORMAT_MAP

  /** The catalog format whose display text is `format`, `None` when no format has it. */
  function CatalogFormat(format: string): (r: Option<PF.Format>)
    ensures r.Some? ==> PF.DisplayName(r.value) == format
  {
    match format
    case "RGB (8-8-8)" => Some(PF.RGB888)
    case "RGB (5-6-5)" => Some(PF.RGB565)
    case "RGBA (8-8-8-8)" => Some(PF.RGBA8888)
    case "RGBA (8-8-8-8, invert alpha)" => Some(PF.RGBA8888i)
    case "RGBA (8-8-8-8, ignore alpha)" => Some(PF.RGBA8888x)
    case "RGBA (5-6-5-8)" => Some(PF.RGBA5658)
    case "RGBA (5-6-5-8, invert alpha)" => Some(PF.RGBA5658i)
    case "BGR (8-8-8)" => Some(PF.BGR888)
    case "BGR (5-6-5)" => Some(PF.BGR565)
    case "BGRA (8-8-8-8)" => Some(PF.BGRA8888)
    case "BGRA (8-8-8-8, invert alpha)" => Some(PF.BGRA8888i)
    case "BGRA (8-8-8-8, ignore alpha)" => Some(PF.BGRA8888x)
    case "BGRA (5-6-5-8)" => Some(PF.BGRA5658)
    case "BGRA (5-6-5-8, invert alpha)" => Some(PF.BGRA5658i)
    case "Grayscale (8)" => Some(PF.GRAY8)
    case _ => None
  }

  /** The row of this file's `FORMAT_MAP` for a catalog format. */
  function EntryOf(f: PF.Format): (r: Renderer.FormatInfo)
    ensures 1 <= r.bytesPerPixel <= 4
    ensures r.bytesPerPixel == 1 <==> f == PF.GRAY8
  {
    match f
    case RGB888 => Renderer.FormatInfo(3, Renderer.Rgb888, true, false)
    case RGB565 => Renderer.FormatInfo(2, Renderer.Rgb16, true, false)
    case RGBA8888 => Renderer.FormatInfo(4, Renderer.Argb32, true, false)
    case RGBA8888i => Renderer.FormatInfo(4, Renderer.Argb32, true, true)
    case RGBA8888x => Renderer.FormatInfo(4, Renderer.Rgb32, true, false)
    case RGBA5658 => Renderer.FormatInfo(3, Renderer.Rgb16, true, false)
    case RGBA5658i => Renderer.FormatInfo(3, Renderer.Rgb16, true, true)
    case BGR888 => Renderer.FormatInfo(3, Renderer.Rgb888, false, false)
    case BGR565 => Renderer.FormatInfo(2, Renderer.Rgb16, false, false)
    case BGRA8888 => Renderer.FormatInfo(4, Renderer.Argb32, false, false)
    case BGRA8888i => Renderer.FormatInfo(4, Renderer.Argb32, false, true)
    case BGRA8888x => Renderer.FormatInfo(4, Renderer.Rgb32, false, false)
    case BGRA5658 => Renderer.FormatInfo(3, Renderer.Rgb16, false, false)
    case BGRA5658i => Renderer.FormatInfo(3, Renderer.Rgb16, false, true)
    case GRAY8 => Renderer.FormatInfo(1, Renderer.Indexed8, false, false)
  }

  /** `Renderer.FORMAT_MAP` of image-preview.py, looked up by display text. */
  function FormatMap(format: string): (r: Option<Renderer.FormatInfo>)
    ensures r.Some? ==> 1 <= r.value.bytesPerPixel <= 4
  {
    match CatalogFormat(format)
    case None => None
    case Some(f) => Some(EntryOf(f))
  }

  /** The display texts of the RGB formats find their format. */
  lemma CatalogFormatOfRgb(f: PF.Format)
    requires f in {PF.RGB888, PF.RGB565, PF.RGBA8888, PF.RGBA8888i}
    ensures CatalogFormat(PF.DisplayName(f)) == Some(f)
  {
  }

  /** The display texts of the RGB formats with a changed alpha find their format. */
  lemma CatalogFormatOfRgbAlpha(f: PF.Format)
    requires f in {PF.RGBA8888x, PF.RGBA5658, PF.RGBA5658i}
    ensures CatalogFormat(PF.DisplayName(f)) == Some(f)
  {
  }

  /** The display texts of the BGR formats find their format. */
  lemma CatalogFormatOfBgr(f: PF.Format)
    requires f in {PF.BGR888, PF.BGR565, PF.BGRA8888, PF.BGRA8888i}
    ensures CatalogFormat(PF.DisplayName(f)) == Some(f)
  {
  }

  /** The display texts of the BGR formats with a changed alpha and of grayscale find their format. */
  lemma CatalogFormatOfBgrAlpha(f: PF.Format)
    requires f in {PF.BGRA8888x, PF.BGRA5658, PF.BGRA5658i, PF.GRAY8}
    ensures CatalogFormat(PF.DisplayName(f)) == Some(f)
  {
  }

  /** Display text to format and back is the identity on the catalog. */
  lemma CatalogFormatOfDisplayName(f: PF.Format)
    ensures CatalogFormat(PF.DisplayName(f)) == Some(f)
  {
    match f
    case RGB888 | RGB565 | RGBA8888 | RGBA8888i => CatalogFormatOfRgb(f);
    case RGBA8888x | RGBA5658 | RGBA5658i => CatalogFormatOfRgbAlpha(f);
    case BGR888 | BGR565 | BGRA8888 | BGRA8888i => CatalogFormatOfBgr(f);
    case BGRA8888x | BGRA5658 | BGRA5658i | GRAY8 => CatalogFormatOfBgrAlpha(f);
  }

  /**
   * The keys of this table are exactly the display texts of the catalog: a text
   * is a key if and only if some format displays as it.
   */
  lemma FormatMapKeys(format: string)
    ensures FormatMap(format).Some? <==> exists f :: PF.DisplayName(f) == format
  {
    if FormatMap(format).Some? {
      assert PF.DisplayName(CatalogFormat(format).value) == format;
    }
    if f :| PF.DisplayName(f) == format {
      CatalogFormatOfDisplayName(f);
    }
  }

  /** This table's rows agree with librgb's on every format both list. */
  lemma EntryOfIsLibrgbEntry(f: PF.Format)
    requires !Renderer.Is5658(Renderer.Listed(f))
    ensures EntryOf(f) == Renderer.Entry(Renderer.Listed(f))
  {
    match f
    case RGB888 => case RGB565 => case RGBA8888 => case RGBA8888i => case RGBA8888x =>
    case BGR888 => case BGR565 => case BGRA8888 => case BGRA8888i => case BGRA8888x =>
    case GRAY8 =>
  }

  /**
   * Every catalog format is in this table; its bytes per pixel are its channel
   * widths rounded up to bytes (so 3 for the 5-6-5-8 formats), the RGB swap flag
   * is set exactly for the names starting with `R`, and alpha inversion exactly
   * for the `i` variants.
   */
  lemma FormatMapEntry(f: PF.Format)
    ensures FormatMap(PF.DisplayName(f)).Some?
    ensures
      var info := FormatMap(PF.DisplayName(f)).value;
      var name := PF.ShortName(f);
      && info.bytesPerPixel == Renderer.BytesFromName(name)
      && (info.swapRgb <==> name[0] == 'R')
      && (info.invertAlpha <==> name[|name| - 1] == 'i')
  {
    CatalogFormatOfDisplayName(f);
    var key := Renderer.Listed(f);
    if Renderer.Is5658(key) {
      assert Renderer.DigitSum("RGBA5658", 4) == 24;
      assert Renderer.DigitSum("BGRA5658", 4) == 24;
      assert Renderer.DigitSum("RGBA5658i", 4) == 24;
      assert Renderer.DigitSum("BGRA5658i", 4) == 24;
    } else {
      EntryOfIsLibrgbEntry(f);
      Renderer.EntryFollowsName(key);
    }
  }

  /** The 5-6-5-8 formats are drawn as 16-bit RGB from 3 bytes per pixel. */
  lemma FormatMap5658(k: Renderer.Key)
    requires Renderer.Is5658(k)
    ensures FormatMap(Renderer.KeyDisplayName(k)).Some?
    ensures FormatMap(Renderer.KeyDisplayName(k)).value.bytesPerPixel == 3
    ensures FormatMap(Renderer.KeyDisplayName(k)).value.qtFormat == Renderer.Rgb16
  {
    CatalogFormatOfDisplayName(k.format);
  }

  /**
   * The two tables agree on every format both contain; this one adds the
   * 5-6-5-8 formats and lacks the 5-5-5 ones.
   */
  lemma FormatMapAgreesWithLibrgb(k: Renderer.Key)
    ensures FormatMap(Renderer.KeyDisplayName(k)).Some? && Renderer.FormatMap(Renderer.KeyDisplayName(k)).Some? ==>
      FormatMap(Renderer.KeyDisplayName(k)) == Renderer.FormatMap(Renderer.KeyDisplayName(k))
    ensures FormatMap(Renderer.KeyDisplayName(k)).Some? && Renderer.FormatMap(Renderer.KeyDisplayName(k)).None?
      <==> Renderer.Is5658(k)
    ensures FormatMap(Renderer.KeyDisplayName(k)).None? <==> k == Renderer.RGB555 || k == Renderer.BGR555
  {
    Renderer.TableKeyOfDisplayName(k);
    match k
    case RGB555 =>
      assert CatalogFormat("RGB (5-5-5)") == None;
    case BGR555 =>
      assert CatalogFormat("BGR (5-5-5)") == None;
    case Listed(f) =>
      CatalogFormatOfDisplayName(f);
      if !Renderer.Is5658(k) {
        EntryOfIsLibrgbEntry(f);
      }
  }

  // ---------------------------------------------------------------------------
  // RendererParams.shown_bytes

  /**
   * `shown_bytes` of image-preview.py: the frame size under this file's table;
   * `KeyError` exactly for a format that is not a catalog display name.
   */
  function ShownBytes(params: RP.RendererParams): (r: Result<int, RP.Error>)
    reads params
    ensures r.Err? <==> FormatMap(params.format).None?
    ensures r.Ok? && params.Valid() ==> r.value >= params.width * params.height
  {
    params.ShownBytesWith(FormatMap)
  }

  /** For a catalog format, `shown_bytes` is width times height times the format's bytes per pixel. */
  lemma ShownBytesOfFormat(params: RP.RendererParams, f: PF.Format)
    requires params.format == PF.DisplayName(f)
    ensures ShownBytes(params) == Ok(params.width * params.height * Renderer.BytesFromName(PF.ShortName(f)))
  {
    FormatMapEntry(f);
  }

  // ---------------------------------------------------------------------------
  // Fallback brightness loop, as written

  /** One step of the loop as written: `int(output[i] * multiplier) & 0xFF`. */
  function MaskedScale(b: byte, multiplier: real): (r: byte)
    ensures b == 0 ==> r == 0
    ensures multiplier == 0.0 ==> r == 0
  {
    Renderer.Trunc((b as real) * multiplier) % 256
  }

  /**
   * The loop as written: it scales the fresh zero-filled `bytearray(len(data))`
   * rather than `data`, so no byte of the frame reaches the output.
   */
  function AsWrittenBrighten(data: seq<byte>, multiplier: real): (r: seq<byte>)
    ensures |r| == |data|
  {
    seq(|data|, _ => MaskedScale(0, multiplier))
  }

  /** The as-written loop blanks the frame whatever the bytes and the multiplier. */
  lemma AsWrittenBrightenIsBlank(data: seq<byte>, multiplier: real)
    ensures AsWrittenBrighten(data, multiplier) == Zeros(|data|)
  {
  }

  /** The loop of image-preview.py, on a `bytearray` of zeros. */
  method AdjustBrightnessAsWritten(data: seq<byte>, multiplier: real) returns (output: seq<byte>)
    ensures output == AsWrittenBrighten(data, multiplier)
  {
    var buffer := new byte[|data|](_ => 0);
    for i := 0 to buffer.Length
      invariant forall j :: 0 <= j < buffer.Length ==> buffer[j] == 0
    {
      buffer[i] := MaskedScale(buffer[i], multiplier);
    }
    output := buffer[..];
  }

  /**
   * A one-byte frame of value 1 at double brightness comes out as 0 instead of
   * the 2 the numpy path and the corrected loop give.
   */
  lemma AsWrittenBrightenLosesFrame()
    ensures AsWrittenBrighten([1], 2.0) == [0]
    ensures Renderer.Brighten([1], 2.0) == [2]
    ensures Renderer.NumpyBrighten([1], 2.0) == [2]
  {
    Renderer.NumpyBrightenIsBrighten([1], 2.0);
  }

  // ---------------------------------------------------------------------------
  // getPixmap

  /** A read request of the reader: address and byte count. */
  datatype Request = Request(address: int, size: int)

  /** The reader of image-preview.py: bytes at an explicit address. */
  type ReadAtFn = (int, int) -> Option<seq<byte>>

  /**
   * `Renderer.getPixmap` of image-preview.py: like librgb's `get_pixmap` but
   * with no missing-reader case, the address passed to the reader, and its own
   * table. The fallback brightness loop is the corrected one (see
   * `AsWrittenBrighten` for the loop as written).
   */
  method GetPixmap(view: Renderer.View, address: int, read: ReadAtFn, hasNumpy: bool, multiplier: real)
    returns (requested: Option<Request>, r: Result<Renderer.Pixmap, Renderer.Error>)
    ensures FormatMap(view.format).None? ==>
      requested.None? && r == Err(Renderer.NotImplementedError)
    ensures FormatMap(view.format).Some? ==>
      var info := FormatMap(view.format).value;
      var stride := view.width * info.bytesPerPixel;
      var size := view.height * stride;
      && requested == Some(Request(address, size))
      && match read(address, size)
         case None => r == Err(Renderer.AssertionError)
         case Some(data) =>
           if |data| != size then r == Err(Renderer.AssertionError)
           else r == Ok(Renderer.Frame(Renderer.Processed(data, view, stride, multiplier), view.width, view.height, info))
  {
    var entry := FormatMap(view.format);
    if entry.None? {
      return None, Err(Renderer.NotImplementedError);
    }
    var info := entry.value;
    var stride := view.width * info.bytesPerPixel;
    var size := view.height * stride;
    requested := Some(Request(address, size));
    var fetched := read(address, size);
    if fetched.None? || |fetched.value| != size {
      return requested, Err(Renderer.AssertionError);
    }
    var data := fetched.value;
    if view.flip {
      data := Renderer.FlipRows(data, view.height, stride);
    }
    if view.brightness != 50.0 {
      if hasNumpy {
        Renderer.NumpyBrightenIsBrighten(data, multiplier);
        data := Renderer.NumpyBrighten(data, multiplier);
      } else {
        data := Renderer.AdjustBrightness(data, multiplier);
      }
    }
    r := Ok(Renderer.Frame(data, view.width, view.height, info));
  }

  /**
   * Any format text both tables accept gets the same entry from each, so for it
   * the previewer requests as many bytes and builds the same frame as librgb's
   * renderer.
   */
  lemma SharedFormatsAgree(format: string)
    requires FormatMap(format).Some? && Renderer.FormatMap(format).Some?
    ensures FormatMap(format) == Renderer.FormatMap(format)
  {
    Renderer.FormatMapKeys(format);
    var k :| !Renderer.Is5658(k) && format == Renderer.KeyDisplayName(k);
    FormatMapAgreesWithLibrgb(k);
  }
}

/**
 * The view parameters of librgb/renderer_params.py: clamping property setters
 * and the `__setattr__` hook that asks for a redraw after a public change.
 */
module RendererParams {
  import opened Base
  import Renderer

  /**
   * A reader object, as the parameters see it: `id` stands for the object's
   * identity, and `minAddress` and `maxAddress` are its `min_address` and
   * `max_address`, all the setters read of it. The reader classes define no
   * `__eq__`, so Python's `==` on two readers compares identity alone.
   */
  datatype Reader = Reader(id: nat, minAddress: int, maxAddress: int)

  /** `old_v == v` for two readers: the same object. */
  predicate SameReader(a: Reader, b: Reader)
  {
    a.id == b.id
  }

  /** The brightness setter: `min(100, max(0, v))`. */
  function ClampBrightness(v: real): (r: real)
    ensures 0.0 <= r <= 100.0
    ensures 0.0 <= v <= 100.0 ==> r == v
    ensures v < 0.0 ==> r == 0.0
    ensures v > 100.0 ==> r == 100.0
  {
    if v < 0.0 then 0.0 else if v > 100.0 then 100.0 else v
  }

  /** The width and height setters: `max(1, v)`. */
  function AtLeastOne(v: int): (r: int)
    ensures r >= 1
    ensures v >= 1 ==> r == v
    ensures v < 1 ==> r == 1
  {
    if v < 1 then 1 else v
  }

  /** The address setter: `max(min_address, min(max_address, v))`. */
  function ClampAddress(reader: Reader, v: int): (r: int)
    ensures reader.minAddress <= reader.maxAddress ==> reader.minAddress <= r <= reader.maxAddress
    ensures reader.minAddress <= v <= reader.maxAddress ==> r == v
    ensures reader.maxAddress < reader.minAddress ==> r == reader.minAddress
  {
    var upper := if v < reader.maxAddress then v else reader.maxAddress;
    if upper < reader.minAddress then reader.minAddress else upper
  }

  /** `k.startswith('_')`. */
  predicate IsPrivate(name: string)
  {
    |name| > 0 && name[0] == '_'
  }

  /**
   * Whether assigning `name` calls `draw_cb`: the name is public and not
   * `draw_cb`, the old value differs from the assigned one (before clamping),
   * and `draw_cb` is set to something true.
   */
  predicate Fires(name: string, changed: bool, drawCbSet: bool)
    ensures Fires(name, changed, drawCbSet) ==> drawCbSet && changed && name != "draw_cb"
  {
    !(IsPrivate(name) || name == "draw_cb" || !changed) && drawCbSet
  }

  /** The stored fields behind the properties never trigger a redraw. */
  lemma PrivateNeverFires(name: string, changed: bool, drawCbSet: bool)
    requires IsPrivate(name)
    ensures !Fires(name, changed, drawCbSet)
  {
  }

  /** Assigning the callback itself never calls it. */
  lemma DrawCbNeverFires(changed: bool, drawCbSet: bool)
    ensures !Fires("draw_cb", changed, drawCbSet)
  {
  }

  /** A public attribute other than `draw_cb` fires exactly on a change while the callback is set. */
  lemma PublicFiresOnChange(name: string, changed: bool, drawCbSet: bool)
    requires !IsPrivate(name) && name != "draw_cb"
    ensures Fires(name, changed, drawCbSet) <==> changed && drawCbSet
  {
  }

  /**
   * The change test looks at the value before clamping: assigning width 0 while
   * the width is 1 fires, yet the stored width stays 1.
   */
  lemma ClampedNoOpStillFires()
    ensures Fires("width", 1 != 0, true) && AtLeastOne(0) == 1
  {
  }

  /**
   * Assigning a reader fires `draw_cb` (when set) exactly when it is another
   * object, whatever the two readers' bounds.
   */
  lemma ReaderAssignFiresOnIdentity(before: Reader, v: Reader)
    ensures Fires("reader", !SameReader(before, v), true) <==> before.id != v.id
  {
  }

  /** Switching between two files of the same length still fires `draw_cb`. */
  lemma EqualBoundsNewReaderFires()
    ensures Fires("reader", !SameReader(Reader(0, 0, 4096), Reader(1, 0, 4096)), true)
  {
  }

  /** A frame of at least one byte per pixel holds at least one byte per pixel of its area. */
  lemma FrameCoversArea(area: int, bytesPerPixel: int)
    ensures area >= 0 && bytesPerPixel >= 1 ==> area * bytesPerPixel >= area
  {
    if area >= 0 && bytesPerPixel >= 1 {
      assert area * bytesPerPixel == area + area * (bytesPerPixel - 1);
    }
  }

  /** What `shown_bytes` raises: `FORMAT_MAP[self.format]` for a format that is not a key. */
  datatype Error = KeyError

  /** Every field of the parameters, in one value. */
  datatype State = State(
    reader: Reader, format: string, width: int, height: int, address: int,
    flip: bool, brightness: real, drawCbSet: bool)

  class RendererParams {
    var reader: Reader
    var format: string
    var width: int
    var height: int
    var address: int
    var flip: bool
    var brightness: real
    /** Whether `draw_cb` is present and true. */
    var drawCbSet: bool
    /** How many times `draw_cb` has been called. */
    ghost var redraws: nat

    function Snapshot(): State
      reads this
    {
      State(reader, format, width, height, address, flip, brightness, drawCbSet)
    }

    /** What the setters keep: positive geometry and brightness within [0, 100]. */
    ghost predicate Valid()
      reads this
    {
      width >= 1 && height >= 1 && 0.0 <= brightness <= 100.0
    }

    /**
     * The start-up assignments of rgb-ida.py: reader, format, width, height,
     * address (the reader's lowest), flip and brightness, all before `draw_cb`
     * exists, so none of them calls it.
     */
    constructor(reader: Reader, format: string, width: int, height: int, flip: bool, brightness: real)
      ensures Snapshot() == State(reader, format, AtLeastOne(width), AtLeastOne(height),
        ClampAddress(reader, reader.minAddress), flip, ClampBrightness(brightness), false)
      ensures redraws == 0
      ensures Valid()
    {
      this.reader := reader;
      this.format := format;
      this.width := AtLeastOne(width);
      this.height := AtLeastOne(height);
      this.address := ClampAddress(reader, reader.minAddress);
      this.flip := flip;
      this.brightness := ClampBrightness(brightness);
      this.drawCbSet := false;
      this.redraws := 0;
    }

    /** The end of `__setattr__`: calls `draw_cb` when the assignment fires. */
    method AfterAssign(name: string, changed: bool)
      modifies this
      ensures Snapshot() == old(Snapshot())
      ensures redraws == old(redraws) + (if Fires(name, changed, drawCbSet) then 1 else 0)
    {
      if Fires(name, changed, drawCbSet) {
        redraws := redraws + 1;
      }
    }

    /** `params.brightness = v`. */
    method SetBrightness(v: real)
      modifies this
      ensures Snapshot() == old(Snapshot()).(brightness := ClampBrightness(v))
      ensures redraws == old(redraws) + (if Fires("brightness", old(brightness) != v, drawCbSet) then 1 else 0)
      ensures old(Valid()) ==> Valid()
    {
      var before := brightness;
      brightness := ClampBrightness(v);
      AfterAssign("brightness", before != v);
    }

    /** `params.width = v`. */
    method SetWidth(v: int)
      modifies this
      ensures Snapshot() == old(Snapshot()).(width := AtLeastOne(v))
      ensures redraws == old(redraws) + (if Fires("width", old(width) != v, drawCbSet) then 1 else 0)
      ensures old(Valid()) ==> Valid()
    {
      var before := width;
      width := AtLeastOne(v);
      AfterAssign("width", before != v);
    }

    /** `params.height = v`. */
    method SetHeight(v: int)
      modifies this
      ensures Snapshot() == old(Snapshot()).(height := AtLeastOne(v))
      ensures redraws == old(redraws) + (if Fires("height", old(height) != v, drawCbSet) then 1 else 0)
      ensures old(Valid()) ==> Valid()
    {
      var before := height;
      height := AtLeastOne(v);
      AfterAssign("height", before != v);
    }

    /** `params.address = v`, clamped to the reader's bounds. */
    method SetAddress(v: int)
      modifies this
      ensures Snapshot() == old(Snapshot()).(address := ClampAddress(reader, v))
      ensures redraws == old(redraws) + (if Fires("address", old(address) != v, drawCbSet) then 1 else 0)
      ensures old(Valid()) ==> Valid()
    {
      var before := address;
      address := ClampAddress(reader, v);
      AfterAssign("address", before != v);
    }

    /** `params.format = v`, a plain attribute. */
    method SetFormat(v: string)
      modifies this
      ensures Snapshot() == old(Snapshot()).(format := v)
      ensures redraws == old(redraws) + (if Fires("format", old(format) != v, drawCbSet) then 1 else 0)
      ensures old(Valid()) ==> Valid()
    {
      var before := format;
      format := v;
      AfterAssign("format", before != v);
    }

    /** `params.flip = v`, a plain attribute. */
    method SetFlip(v: bool)
      modifies this
      ensures Snapshot() == old(Snapshot()).(flip := v)
      ensures redraws == old(redraws) + (if Fires("flip", old(flip) != v, drawCbSet) then 1 else 0)
      ensures old(Valid()) ==> Valid()
    {
      var before := flip;
      flip := v;
      AfterAssign("flip", before != v);
    }

    /**
     * `params.reader = v`, a plain attribute; the stored address is not
     * re-clamped. The hook compares the readers by identity.
     */
    method SetReader(v: Reader)
      modifies this
      ensures Snapshot() == old(Snapshot()).(reader := v)
      ensures redraws == old(redraws) + (if Fires("reader", !SameReader(old(reader), v), drawCbSet) then 1 else 0)
      ensures old(Valid()) ==> Valid()
    {
      var before := reader;
      reader := v;
      AfterAssign("reader", !SameReader(before, v));
    }

    /** `params.draw_cb = cb`: installs or removes the callback without calling it. */
    method SetDrawCb(present: bool)
      modifies this
      ensures Snapshot() == old(Snapshot()).(drawCbSet := present)
      ensures redraws == old(redraws)
      ensures old(Valid()) ==> Valid()
    {
      drawCbSet := present;
      DrawCbNeverFires(true, drawCbSet);
      AfterAssign("draw_cb", true);
    }

    /** `shown_bytes` against a given format table. */
    function ShownBytesWith(table: string -> Option<Renderer.FormatInfo>): (r: Result<int, Error>)
      reads this
      ensures table(format).None? ==> r == Err(KeyError)
      ensures table(format).Some? ==> r == Ok(width * height * table(format).value.bytesPerPixel)
    {
      match table(format)
      case None => Err(KeyError)
      case Some(info) => Ok(width * height * info.bytesPerPixel)
    }

    /** `shown_bytes`: the size of the frame `get_pixmap` asks the reader for. */
    function ShownBytes(): (r: Result<int, Error>)
      reads this
      ensures r.Err? <==> Renderer.FormatMap(format).None?
      ensures r.Ok? && Valid() ==> r.value >= width * height
    {
      Renderer.TableBytesPositive(format);
      match Renderer.FormatMap(format)
      case None => ShownBytesWith(Renderer.FormatMap)
      case Some(info) =>
        FrameCoversArea(width * height, info.bytesPerPixel);
        ShownBytesWith(Renderer.FormatMap)
    }
  }

  /** `shown_bytes` is the byte count `get_pixmap` requests for the same view. */
  lemma ShownBytesIsFrameSize(params: RendererParams, view: Renderer.View)
    requires view.format == params.format && view.width == params.width && view.height == params.height
    requires Renderer.FormatMap(view.format).Some?
    ensures params.ShownBytes() ==
      Ok(view.height * (view.width * Renderer.FormatMap(view.format).value.bytesPerPixel))
  {
    var b := Renderer.FormatMap(view.format).value.bytesPerPixel;
    assert params.width * params.height * b == view.height * (view.width * b);
  }
}

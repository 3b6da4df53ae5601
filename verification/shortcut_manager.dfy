/**
 * The keyboard commands of librgb/shortcut_manager.py: the key table and the
 * handlers that resize, flip and move the view.
 */
module ShortcutManager {
  import opened Base
  import RP = RendererParams
  import Renderer

  /** The handlers the key table binds. */
  datatype Handler =
    | ChangeAddress | Save
    | ResizeNearLeft | ResizeNearDown | ResizeNearUp | ResizeNearRight
    | ResizeFarLeft | ResizeFarDown | ResizeFarUp | ResizeFarRight
    | ToggleFlip
    | GoNearLeft | GoNearRight | GoNearMediumLeft | GoNearMediumRight
    | GoMediumLeft | GoMediumRight | GoFarLeft | GoFarRight
    | GoToPrevFile | GoToNextFile

  /** The `shortcuts` dictionary: the handler bound to a key, `None` for an unbound key. */
  function Shortcuts(key: string): (r: Option<Handler>)
    ensures r.Some? ==> KeyOf(r.value) == key
  {
    match key
    case "G" => Some(ChangeAddress)
    case "Ctrl+S" => Some(Save)
    case "H" => Some(ResizeNearLeft)
    case "J" => Some(ResizeNearDown)
    case "K" => Some(ResizeNearUp)
    case "L" => Some(ResizeNearRight)
    case "Shift+H" => Some(ResizeFarLeft)
    case "Shift+J" => Some(ResizeFarDown)
    case "Shift+K" => Some(ResizeFarUp)
    case "Shift+L" => Some(ResizeFarRight)
    case "Ctrl+F" => Some(ToggleFlip)
    case "left" => Some(GoNearLeft)
    case "right" => Some(GoNearRight)
    case "Shift+left" => Some(GoNearMediumLeft)
    case "Shift+right" => Some(GoNearMediumRight)
    case "Ctrl+left" => Some(GoMediumLeft)
    case "Ctrl+right" => Some(GoMediumRight)
    case "Ctrl+Shift+left" => Some(GoFarLeft)
    case "Ctrl+Shift+right" => Some(GoFarRight)
    case "<" => Some(GoToPrevFile)
    case ">" => Some(GoToNextFile)
    case _ => None
  }

  /** The key each handler is bound to. */
  function KeyOf(h: Handler): string
  {
    match h
    case ChangeAddress => "G"
    case Save => "Ctrl+S"
    case ResizeNearLeft => "H"
    case ResizeNearDown => "J"
    case ResizeNearUp => "K"
    case ResizeNearRight => "L"
    case ResizeFarLeft => "Shift+H"
    case ResizeFarDown => "Shift+J"
    case ResizeFarUp => "Shift+K"
    case ResizeFarRight => "Shift+L"
    case ToggleFlip => "Ctrl+F"
    case GoNearLeft => "left"
    case GoNearRight => "right"
    case GoNearMediumLeft => "Shift+left"
    case GoNearMediumRight => "Shift+right"
    case GoMediumLeft => "Ctrl+left"
    case GoMediumRight => "Ctrl+right"
    case GoFarLeft => "Ctrl+Shift+left"
    case GoFarRight => "Ctrl+Shift+right"
    case GoToPrevFile => "<"
    case GoToNextFile => ">"
  }

  /** Every handler is reachable through its key. */
  lemma ShortcutsBindEveryHandler(h: Handler)
    ensures Shortcuts(KeyOf(h)) == Some(h)
  {
    match h
    case ChangeAddress => case Save =>
    case ResizeNearLeft => case ResizeNearDown => case ResizeNearUp => case ResizeNearRight =>
    case ResizeFarLeft => case ResizeFarDown => case ResizeFarUp => case ResizeFarRight =>
    case ToggleFlip =>
    case GoNearLeft => case GoNearRight => case GoNearMediumLeft => case GoNearMediumRight =>
    case GoMediumLeft => case GoMediumRight => case GoFarLeft => case GoFarRight =>
    case GoToPrevFile => case GoToNextFile =>
  }

  /** Two handlers never share a key. */
  lemma KeyOfInjective(h: Handler, g: Handler)
    ensures KeyOf(h) == KeyOf(g) ==> h == g
  {
    ShortcutsBindEveryHandler(h);
    ShortcutsBindEveryHandler(g);
  }

  predicate IsWidthResize(h: Handler)
  {
    h == ResizeNearLeft || h == ResizeNearRight || h == ResizeFarLeft || h == ResizeFarRight
  }

  predicate IsHeightResize(h: Handler)
  {
    h == ResizeNearUp || h == ResizeNearDown || h == ResizeFarUp || h == ResizeFarDown
  }

  /** The go handlers that move by a fixed amount. */
  predicate IsFixedGo(h: Handler)
  {
    h == GoNearLeft || h == GoNearRight || h == GoNearMediumLeft || h == GoNearMediumRight
  }

  /** The go handlers that move by an amount derived from `shown_bytes`. */
  predicate IsShownGo(h: Handler)
  {
    h == GoMediumLeft || h == GoMediumRight || h == GoFarLeft || h == GoFarRight
  }

  /** How much a resize handler adds to its dimension. */
  function ResizeDelta(h: Handler): (d: int)
    requires IsWidthResize(h) || IsHeightResize(h)
    ensures d == 1 || d == -1 || d == 25 || d == -25
    ensures (h == ResizeNearLeft || h == ResizeNearUp) <==> d == -1
    ensures (h == ResizeNearRight || h == ResizeNearDown) <==> d == 1
    ensures (h == ResizeFarLeft || h == ResizeFarUp) <==> d == -25
  {
    match h
    case ResizeNearLeft => -1
    case ResizeNearRight => 1
    case ResizeNearUp => -1
    case ResizeNearDown => 1
    case ResizeFarLeft => -25
    case ResizeFarRight => 25
    case ResizeFarUp => -25
    case ResizeFarDown => 25
  }

  /** How much a go handler adds to the address, given `shown_bytes`; `//` is floor division. */
  function GoDelta(h: Handler, shown: int): (d: int)
    requires IsFixedGo(h) || IsShownGo(h)
    ensures IsFixedGo(h) ==> d == -1 || d == 1 || d == -25 || d == 25
    ensures IsShownGo(h) && shown >= 0 ==> -shown <= d <= shown
    ensures shown >= 0 && (h == GoNearLeft || h == GoNearMediumLeft || h == GoMediumLeft || h == GoFarLeft) ==> d <= 0
    ensures shown >= 0 && (h == GoNearRight || h == GoNearMediumRight || h == GoMediumRight || h == GoFarRight) ==> d >= 0
  {
    match h
    case GoNearLeft => -1
    case GoNearRight => 1
    case GoNearMediumLeft => -25
    case GoNearMediumRight => 25
    case GoMediumLeft => -(shown / 10)
    case GoMediumRight => shown / 10
    case GoFarLeft => -shown
    case GoFarRight => shown
  }

  /** The handler for the same move in the other direction. */
  function Opposite(h: Handler): (o: Handler)
    requires IsFixedGo(h) || IsShownGo(h)
    ensures IsFixedGo(o) == IsFixedGo(h) && IsShownGo(o) == IsShownGo(h)
  {
    match h
    case GoNearLeft => GoNearRight
    case GoNearRight => GoNearLeft
    case GoNearMediumLeft => GoNearMediumRight
    case GoNearMediumRight => GoNearMediumLeft
    case GoMediumLeft => GoMediumRight
    case GoMediumRight => GoMediumLeft
    case GoFarLeft => GoFarRight
    case GoFarRight => GoFarLeft
  }

  /**
   * Each left/right pair moves by equal and opposite amounts, so one move
   * followed by the other restores the address.
   */
  lemma OppositeMovesCancel(h: Handler, shown: int, address: int)
    requires IsFixedGo(h) || IsShownGo(h)
    ensures Opposite(Opposite(h)) == h
    ensures GoDelta(Opposite(h), shown) == -GoDelta(h, shown)
    ensures address + GoDelta(h, shown) + GoDelta(Opposite(h), shown) == address
  {
  }

  /** The medium and far moves are a tenth of the shown bytes and all of them. */
  lemma ShownMoveSizes(shown: int)
    requires shown >= 0
    ensures 0 <= GoDelta(GoMediumRight, shown) <= GoDelta(GoFarRight, shown)
    ensures GoDelta(GoMediumRight, shown) * 10 <= shown < (GoDelta(GoMediumRight, shown) + 1) * 10
  {
  }

  /** The parameters after `toggle_flip`: only `flip` changes, to its negation. */
  function Toggled(s: RP.State): (t: RP.State)
    ensures t.flip == !s.flip
    ensures t.(flip := s.flip) == s
  {
    s.(flip := !s.flip)
  }

  /** Toggling the flip twice restores every parameter. */
  lemma ToggleTwiceRestores(s: RP.State)
    ensures Toggled(Toggled(s)) == s
  {
  }

  /** The later revision's `params.reader`, seen only through its `address`. */
  class ReaderCursor {
    var address: int

    constructor(address: int)
      ensures this.address == address
    {
      this.address := address;
    }
  }

  /** What the handlers can observe and change: the parameters, their redraw count, the reader's address and the calls made. */
  datatype View = View(
    params: RP.State, redraws: nat, address: int,
    fireRedraws: nat, prevReaderCalls: nat, nextReaderCalls: nat, adapterCalls: nat)

  /** One more redraw when the draw callback is set, as the parameters' setters do on a change. */
  function Redrawn(before: View): nat
  {
    before.redraws + (if before.params.drawCbSet then 1 else 0)
  }

  /**
   * What running handler `h`, one that does not read `shown_bytes`, does to
   * the view `before`, leaving `after`: the resizes and the flip change one
   * parameter through its setter, the fixed moves shift the reader's address,
   * and the rest hand over to a collaborator. The moves sized by
   * `shown_bytes` are left to `Effect`.
   */
  predicate Steady(h: Handler, before: View, after: View)
    requires !IsShownGo(h)
  {
    match h
    case ResizeNearLeft | ResizeNearRight | ResizeFarLeft | ResizeFarRight =>
      after == before.(params := before.params.(width := RP.AtLeastOne(before.params.width + ResizeDelta(h))),
                       redraws := Redrawn(before))
    case ResizeNearUp | ResizeNearDown | ResizeFarUp | ResizeFarDown =>
      after == before.(params := before.params.(height := RP.AtLeastOne(before.params.height + ResizeDelta(h))),
                       redraws := Redrawn(before))
    case ToggleFlip =>
      after == before.(params := Toggled(before.params), redraws := Redrawn(before))
    case GoNearLeft | GoNearRight | GoNearMediumLeft | GoNearMediumRight =>
      after == before.(address := before.address + GoDelta(h, 0), fireRedraws := before.fireRedraws + 1)
    case GoToPrevFile =>
      after == before.(prevReaderCalls := before.prevReaderCalls + 1)
    case GoToNextFile =>
      after == before.(nextReaderCalls := before.nextReaderCalls + 1)
    case ChangeAddress | Save =>
      after == before.(adapterCalls := before.adapterCalls + 1)
  }

  /**
   * What running handler `h` does to the view `before`, leaving `after` and
   * result `r`, when `shown_bytes` was `shown` beforehand. Only a move sized
   * by `shown_bytes` can fail, and then nothing changes.
   */
  predicate Effect(h: Handler, shown: Result<int, RP.Error>, before: View, after: View, r: Result<(), RP.Error>)
  {
    if IsShownGo(h) then
      match shown
      case Err(e) => r == Err(e) && after == before
      case Ok(n) =>
        r.Ok? && after == before.(address := before.address + GoDelta(h, n), fireRedraws := before.fireRedraws + 1)
    else
      r.Ok? && Steady(h, before, after)
  }

  /**
   * Whatever the handler: only a move sized by `shown_bytes` fails, and only
   * when that lookup fails; only the moves change the reader's address and
   * the redraw count; the moves leave the parameters alone; no handler calls
   * more than one collaborator.
   */
  lemma EffectFrames(h: Handler, shown: Result<int, RP.Error>, before: View, after: View, r: Result<(), RP.Error>)
    requires Effect(h, shown, before, after, r)
    ensures r.Err? <==> IsShownGo(h) && shown.Err?
    ensures !IsFixedGo(h) && !IsShownGo(h) ==> after.address == before.address && after.fireRedraws == before.fireRedraws
    ensures IsFixedGo(h) || IsShownGo(h) ==> after.params == before.params && after.redraws == before.redraws
    ensures after.prevReaderCalls + after.nextReaderCalls + after.adapterCalls
            <= before.prevReaderCalls + before.nextReaderCalls + before.adapterCalls + 1
  {
  }

  class ShortcutManager {
    const params: RP.RendererParams
    const reader: ReaderCursor
    /** Calls of the window adapter's `change_address` and `save`. */
    ghost var adapterCalls: nat
    /** Calls of `params.fire_redraw`. */
    ghost var fireRedraws: nat
    /** Calls of `params.use_prev_reader` and `params.use_next_reader`. */
    ghost var prevReaderCalls: nat
    ghost var nextReaderCalls: nat

    constructor(params: RP.RendererParams, reader: ReaderCursor)
      ensures this.params == params && this.reader == reader
      ensures adapterCalls == 0 && fireRedraws == 0 && prevReaderCalls == 0 && nextReaderCalls == 0
    {
      this.params := params;
      this.reader := reader;
      adapterCalls := 0;
      fireRedraws := 0;
      prevReaderCalls := 0;
      nextReaderCalls := 0;
    }

    /** `resize_*_left` and `resize_*_right`: `params.width` moves by the handler's step, through the clamping setter. */
    method ResizeWidth(h: Handler)
      requires IsWidthResize(h)
      modifies params
      ensures params.Snapshot() == old(params.Snapshot()).(width := RP.AtLeastOne(old(params.width) + ResizeDelta(h)))
      ensures params.redraws == old(params.redraws) + (if params.drawCbSet then 1 else 0)
      ensures old(params.Valid()) ==> params.Valid()
      ensures reader.address == old(reader.address)
    {
      params.SetWidth(params.width + ResizeDelta(h));
    }

    /** `resize_*_up` and `resize_*_down`: `params.height` moves by the handler's step, through the clamping setter. */
    method ResizeHeight(h: Handler)
      requires IsHeightResize(h)
      modifies params
      ensures params.Snapshot() == old(params.Snapshot()).(height := RP.AtLeastOne(old(params.height) + ResizeDelta(h)))
      ensures params.redraws == old(params.redraws) + (if params.drawCbSet then 1 else 0)
      ensures old(params.Valid()) ==> params.Valid()
      ensures reader.address == old(reader.address)
    {
      params.SetHeight(params.height + ResizeDelta(h));
    }

    /** `toggle_flip`: negates `params.flip`, which always counts as a change. */
    method ToggleFlip()
      modifies params
      ensures params.Snapshot() == Toggled(old(params.Snapshot()))
      ensures params.redraws == old(params.redraws) + (if params.drawCbSet then 1 else 0)
      ensures old(params.Valid()) ==> params.Valid()
      ensures reader.address == old(reader.address)
    {
      params.SetFlip(!params.flip);
    }

    /** `go_near_*` and `go_near_medium_*`: the reader's address moves by 1 or 25, then one redraw. */
    method GoFixed(h: Handler)
      requires IsFixedGo(h)
      modifies this, reader
      ensures reader.address == old(reader.address) + GoDelta(h, 0)
      ensures params.Snapshot() == old(params.Snapshot()) && params.redraws == old(params.redraws)
      ensures fireRedraws == old(fireRedraws) + 1
      ensures adapterCalls == old(adapterCalls)
      ensures prevReaderCalls == old(prevReaderCalls) && nextReaderCalls == old(nextReaderCalls)
    {
      reader.address := reader.address + GoDelta(h, 0);
      fireRedraws := fireRedraws + 1;
    }

    /**
     * `go_medium_*` and `go_far_*`: the reader's address moves by a tenth of
     * `shown_bytes` or by all of it, then one redraw. A format that is not a
     * table key raises `KeyError` before anything changes.
     */
    method GoShown(h: Handler) returns (r: Result<(), RP.Error>)
      requires IsShownGo(h)
      modifies this, reader
      ensures r.Err? <==> params.ShownBytes().Err?
      ensures params.Snapshot() == old(params.Snapshot()) && params.redraws == old(params.redraws)
      ensures r.Err? ==> r.error == RP.KeyError && reader.address == old(reader.address) && fireRedraws == old(fireRedraws)
      ensures r.Ok? ==> reader.address == old(reader.address) + GoDelta(h, params.ShownBytes().value)
      ensures r.Ok? ==> fireRedraws == old(fireRedraws) + 1
      ensures adapterCalls == old(adapterCalls)
      ensures prevReaderCalls == old(prevReaderCalls) && nextReaderCalls == old(nextReaderCalls)
    {
      var shown := params.ShownBytes();
      if shown.Err? {
        return Err(shown.error);
      }
      reader.address := reader.address + GoDelta(h, shown.value);
      fireRedraws := fireRedraws + 1;
      r := Ok(());
    }

    /** `go_to_prev_file`: hands over to `params.use_prev_reader`. */
    method GoToPrevFile()
      modifies this
      ensures prevReaderCalls == old(prevReaderCalls) + 1 && nextReaderCalls == old(nextReaderCalls)
      ensures fireRedraws == old(fireRedraws) && adapterCalls == old(adapterCalls)
    {
      prevReaderCalls := prevReaderCalls + 1;
    }

    /** `go_to_next_file`: hands over to `params.use_next_reader`. */
    method GoToNextFile()
      modifies this
      ensures nextReaderCalls == old(nextReaderCalls) + 1 && prevReaderCalls == old(prevReaderCalls)
      ensures fireRedraws == old(fireRedraws) && adapterCalls == old(adapterCalls)
    {
      nextReaderCalls := nextReaderCalls + 1;
    }

    /** `G` and `Ctrl+S`: the window adapter's `change_address` and `save`. */
    method CallAdapter()
      modifies this
      ensures adapterCalls == old(adapterCalls) + 1
      ensures fireRedraws == old(fireRedraws)
      ensures prevReaderCalls == old(prevReaderCalls) && nextReaderCalls == old(nextReaderCalls)
    {
      adapterCalls := adapterCalls + 1;
    }

    /** The part of the state the handlers touch, read off the manager, its parameters and its reader. */
    ghost function Observe(): View
      reads this, params, reader
    {
      View(params.Snapshot(), params.redraws, reader.address,
           fireRedraws, prevReaderCalls, nextReaderCalls, adapterCalls)
    }

    /** The resizes and the flip: one setter of `params` runs. */
    method Adjust(h: Handler)
      requires IsWidthResize(h) || IsHeightResize(h) || h == Handler.ToggleFlip
      modifies params
      ensures Steady(h, old(Observe()), Observe())
      ensures old(params.Valid()) ==> params.Valid()
    {
      match h
      case ResizeNearLeft | ResizeNearRight | ResizeFarLeft | ResizeFarRight =>
        ResizeWidth(h);
      case ResizeNearUp | ResizeNearDown | ResizeFarUp | ResizeFarDown =>
        ResizeHeight(h);
      case ToggleFlip =>
        ToggleFlip();
    }

    /** The file switches and the adapter calls: the work happens outside the manager. */
    method Delegate(h: Handler)
      requires h == Handler.GoToPrevFile || h == Handler.GoToNextFile || h == Handler.ChangeAddress || h == Handler.Save
      modifies this
      ensures Steady(h, old(Observe()), Observe())
    {
      match h
      case GoToPrevFile =>
        GoToPrevFile();
      case GoToNextFile =>
        GoToNextFile();
      case ChangeAddress | Save =>
        CallAdapter();
    }

    /** A handler that does not read `shown_bytes` runs, with the effect `Steady` describes. */
    method RunSteady(h: Handler)
      requires !IsShownGo(h)
      modifies this, params, reader
      ensures Steady(h, old(Observe()), Observe())
      ensures old(params.Valid()) ==> params.Valid()
    {
      match h
      case ResizeNearLeft | ResizeNearRight | ResizeFarLeft | ResizeFarRight
         | ResizeNearUp | ResizeNearDown | ResizeFarUp | ResizeFarDown | ToggleFlip =>
        Adjust(h);
      case GoNearLeft | GoNearRight | GoNearMediumLeft | GoNearMediumRight =>
        GoFixed(h);
      case GoToPrevFile | GoToNextFile | ChangeAddress | Save =>
        Delegate(h);
    }

    /** The handler `h` runs, with the effect `Effect` describes. */
    method Run(h: Handler) returns (r: Result<(), RP.Error>)
      modifies this, params, reader
      ensures Effect(h, old(params.ShownBytes()), old(Observe()), Observe(), r)
      ensures old(params.Valid()) ==> params.Valid()
    {
      if IsShownGo(h) {
        ghost var shown := params.ShownBytes();
        r := GoShown(h);
        assert params.ShownBytes() == shown;
      } else {
        RunSteady(h);
        r := Ok(());
      }
    }

    /** A registered shortcut fires: the handler `shortcuts` binds to `key` runs. */
    method Press(key: string) returns (r: Result<(), RP.Error>)
      requires Shortcuts(key).Some?
      modifies this, params, reader
      ensures Effect(Shortcuts(key).value, old(params.ShownBytes()), old(Observe()), Observe(), r)
      ensures old(params.Valid()) ==> params.Valid()
    {
      r := Run(Shortcuts(key).value);
    }
  }
}

# ida-images byte pipeline, in Dafny

ida-images previews raw bytes as an image. It runs as an IDA plugin over the
database's memory or as a standalone program over a file. This project models
the parts of it that decide which bytes end up in the frame:

- **PixelFormats** (`pixel_formats.dfy`): the format catalog.
  - The 15 pixel formats with their short and display names.
  - `get_short_names`, which lists the sorted, underscore-free attribute names that `dir` returns.
  - `get_long_names`.
  - `from_short_name`, which is `getattr` on the class. It finds a format's display name, a static method, an attribute inherited from `object`, or an attribute of the metaclass `type` that `dir` does not list (`mro`, `__name__`, `__bases__`, `__mro__`, `__eq__` and the like). It raises `AttributeError` for any other name.
- **MemoryReader** (`memory_reader.dfy`): the segmented padded reader.
  - It keeps the segments that are not `SEG_XTRN`.
  - It pops unresolved ranges off a worklist and takes the first segment that overlaps each one.
  - It fetches that intersection and splices it into a zero-filled buffer of exactly `count` bytes.
  - It pushes back the leftovers on both sides.
- **FileReader** (`file_reader.dfy`): the file-backed reader.
  - A read seeks, reads and zero-pads to `size`.
  - `translate_address` prints the address as `%08x`.
  - For a non-negative address, the file reader is the one-segment case of the segmented reader.
- **Renderer** (`renderer.dfy`): `FORMAT_MAP` and the byte part of `get_pixmap`.
  - It rejects a format that is not in the table.
  - It computes the request size and checks the reader's answer.
  - It reverses the row order when flipping.
  - It scales every byte when the brightness is not 50.
  - Qt's alpha inversion is modelled on single pixels.
- **RendererParams** (`renderer_params.dfy`): the view parameters.
  - The setters clamp brightness, width, height and address.
  - The `__setattr__` hook calls `draw_cb` after a public change; a ghost counter counts those calls.
  - `shown_bytes` gives the frame size.
- **ShortcutManager** (`shortcut_manager.dfy`): the key table and its handlers.
  - The resize handlers change width or height.
  - `toggle_flip` negates the flip.
  - The go handlers move the reader's address by a fixed step or by a step taken from `shown_bytes`.
- **ImagePreview** (`image_preview.dfy`): the older single-file program `image-preview.py`.
  - It has its own format table, in which the 5-6-5-8 formats are 3 bytes per pixel.
  - Its `shown_bytes` uses that table.
  - Its `getPixmap` passes the address to the reader.
  - Its fallback brightness loop is broken (see Findings).
  - Its `PixelFormats` (image-preview.py:26-56), `FileReader.get_padded_bytes` (image-preview.py:73-77), `MemoryReader.get_padded_bytes` (image-preview.py:101-154), its flip loop (image-preview.py:251-256) and `RendererParams` (image-preview.py:165-205) are the same code as in librgb. The librgb members cited in the table below model both copies.

Conventions:

- Every exception the modelled code raises is an `Err` value.
- The IDA database is a parameter:
  - a sequence of segments in `getnseg` order;
  - a `Database` giving each address's byte and whether it is loaded.
- Python's `int()` on a float truncates toward zero (`Renderer.Trunc`).
- The brightness multiplier is a real parameter.
- The leftover guards of `get_padded_bytes` (`range1.length > 0`) compare the bound method `length` with 0, and Python 2 orders every method above every number. Both leftovers are therefore pushed, empty ones included. An empty leftover finds no intersection when it is popped, so this costs rounds and changes no byte.

## Model

| member | source | states |
|---|---|---|
| PixelFormats.Dir | librgb/pixel_formats.py:1-22 | `dir(PixelFormats)` is strictly sorted and holds exactly the class's attribute names: the 15 format names (each 5658 name once, although it is assigned twice), the three static methods and the implicit names |
| PixelFormats.SortDistinct | librgb/pixel_formats.py:22 | sorting a list of names gives a strictly sorted list with exactly the same names |
| PixelFormats.KeepShortNames | librgb/pixel_formats.py:22 | the comprehension keeps exactly the names without `_` and keeps a sorted list sorted |
| PixelFormats.AssignedInClassBody | librgb/pixel_formats.py:2-18 | every format is assigned in the class body |
| PixelFormats.FormatNamesAreShort | librgb/pixel_formats.py:2-22 | no format name contains `_` |
| PixelFormats.ExtraNamesAreNotShort | librgb/pixel_formats.py:20-31 | every non-format attribute name contains `_`, so the filter drops it |
| PixelFormats.GetShortNamesValue | librgb/pixel_formats.py:20-22 | `get_short_names` is the 15 format names in sorted order, each 5658 name once |
| PixelFormats.SortedFormatNamesAreSorted | librgb/pixel_formats.py:20-22 | the 15 format names, in the order `dir` lists them, are strictly increasing in string order |
| PixelFormats.FormatNameIsAttribute | librgb/pixel_formats.py:2-31 | every format name is an attribute name of the class |
| PixelFormats.ShortAttributeIsFormatName | librgb/pixel_formats.py:20-22 | an attribute name without `_` is a format name |
| PixelFormats.AttributeNamesCases | librgb/pixel_formats.py:1-31 | the attribute names are exactly the format names, the static methods and the implicit names |
| PixelFormats.FromShortNameOfFormat | librgb/pixel_formats.py:29-31 | `from_short_name` of a format's short name is its display name |
| PixelFormats.FormatNamed | librgb/pixel_formats.py:2-18 | a name the class assigns a format to is that format's short name |
| PixelFormats.FormatNamedOfShortName | librgb/pixel_formats.py:2-18 | every format is found under its short name |
| PixelFormats.ErrorMeansNoSuchName | librgb/pixel_formats.py:29-31 | a failed lookup was for a name that is no format, static method, implicit attribute or metaclass attribute |
| PixelFormats.NoSuchNameMeansError | librgb/pixel_formats.py:29-31 | a lookup for a name that is no format, static method, implicit attribute or metaclass attribute raises `AttributeError` with that name |
| PixelFormats.FromShortNameFails | librgb/pixel_formats.py:29-31 | `from_short_name` raises `AttributeError(text)` exactly when `text` is neither an attribute name of the class nor a metaclass attribute name |
| PixelFormats.FromShortName | librgb/pixel_formats.py:29-31 | a failed lookup raises `AttributeError` carrying the name; a lookup that does not find a format returns the attribute of that very name |
| PixelFormats.FromShortNameOfTypeName | librgb/pixel_formats.py:29-31 | a metaclass attribute name (`mro`, `__name__`, `__bases__`, ...) is found, as the metaclass attribute, not an error |
| PixelFormats.TypeNamesAreNotListed | librgb/pixel_formats.py:20-31 | no metaclass attribute name is among the class's own attribute names, so `dir` does not list it |
| PixelFormats.TypeNamesAreNotClassNames | librgb/pixel_formats.py:2-31 | no metaclass attribute name is a format's name, so a format name never finds the metaclass attribute |
| PixelFormats.LongNamesOf | librgb/pixel_formats.py:27 | the comprehension keeps the length, and element `k` is what `from_short_name` returns for name `k` |
| PixelFormats.GetLongNames | librgb/pixel_formats.py:24-27 | `get_long_names` has the length of `get_short_names`, and element `k` is `from_short_name` of short name `k` |
| PixelFormats.ShortNamesAreFormats | librgb/pixel_formats.py:24-27 | every name `get_short_names` lists looks up to the display name of the format at the same position |
| PixelFormats.DisplayNameInjective | librgb/pixel_formats.py:2-18 | no two formats share a display name |
| PixelFormats.LongNamesDistinct | librgb/pixel_formats.py:20-31 | equal long names sit at the same index, so long names map back to short names one to one |
| MemoryReader.KeptRanges | librgb/memory_reader.py:29-37 | there are at most as many readable ranges as segments, and exactly as many when no segment is `SEG_XTRN` |
| MemoryReader.KeptRangesAppend | librgb/memory_reader.py:29-37 | segment filtering distributes over concatenation, so kept segments stay in enumeration order |
| MemoryReader.KeptRangesMembers | librgb/memory_reader.py:29-37 | a range is kept exactly when it comes from a segment that is not `SEG_XTRN` |
| MemoryReader.ValidMemoryRanges | librgb/memory_reader.py:29-37 | the `for` loop builds exactly the kept ranges, in order |
| MemoryReader.FirstMeet | librgb/memory_reader.py:43-49 | the chosen intersection is non-empty and lies inside the popped range |
| MemoryReader.FirstMeetNone | librgb/memory_reader.py:43-53 | there is no intersection exactly when no readable range overlaps the popped range |
| MemoryReader.FirstMeetIsFirstMatch | librgb/memory_reader.py:43-49 | an intersection found is the one with the least overlapping index: every earlier range misses the popped range |
| MemoryReader.CoveredMeansOverlap | librgb/memory_reader.py:43-53 | a popped range holding a byte that some readable range covers always finds an intersection |
| MemoryReader.FirstMeetInside | librgb/memory_reader.py:43-49 | the intersection lies inside the popped range and inside one readable range |
| MemoryReader.FindIntersection | librgb/memory_reader.py:43-49 | the `for ... break` loop returns the first-match intersection |
| MemoryReader.Splice | librgb/memory_reader.py:64-67 | the splice keeps the length, writes the chunk at offsets `[lo, lo + len)` and changes no other byte |
| MemoryReader.LoadedFetchSucceeds | librgb/memory_reader.py:55-62 | when every covered byte is loaded, fetching the chosen intersection does not fail |
| MemoryReader.ProcessRange | librgb/memory_reader.py:41-76 | one round: with no overlap or a failed fetch, the buffer is unchanged and nothing is enqueued; otherwise the intersection's bytes are written, every other byte is kept, and exactly the two leftovers, empty ones included, are enqueued |
| MemoryReader.StepWithoutSplice | librgb/memory_reader.py:51-62 | a round that writes nothing keeps the loop invariant and does not grow the unresolved length |
| MemoryReader.SpliceWorklist | librgb/memory_reader.py:70-76 | pushing the two leftovers in place of the popped range keeps the worklist inside the window and disjoint, leaves pending exactly the bytes pending outside the intersection, and shrinks the unresolved length |
| MemoryReader.StepWithSplice | librgb/memory_reader.py:64-76 | a round that writes keeps the loop invariant (worklist inside the window and disjoint, pending bytes still zero) and shrinks the unresolved length |
| MemoryReader.GetPaddedBytes | librgb/memory_reader.py:25-79 | the loop terminates; the result has exactly `count` bytes; a byte no kept segment covers is 0; every byte is 0 or the stored byte; when no fetch fails, every covered byte is the stored byte |
| FileReader.ReadFrom | librgb/file_reader.py:13-14 | `read(size)` after a seek returns the file's bytes from the position, at most `size` of them, or all the rest for a negative size |
| FileReader.PaddedSlice | librgb/file_reader.py:12-16 | a padded read has exactly `size` bytes: the file's byte where the file has one, else 0 |
| FileReader.PastEndIsZero | librgb/file_reader.py:12-16 | a read at or past the end of the file is all zeros |
| FileReader.FileReader.constructor | librgb/file_reader.py:6-10 | `max_address` is the file length and the position starts at 0 |
| FileReader.FileReader.GetPaddedBytes | librgb/file_reader.py:12-16 | a negative address makes `seek` raise and leaves the position unchanged; otherwise the result is the padded slice and the position ends after the bytes read |
| FileReader.TranslateAddress | librgb/file_reader.py:26-27 | `'%08x' % address` is at least 8 characters: lower-case hex digits for a non-negative address, a leading `-` otherwise |
| FileReader.Hex | librgb/file_reader.py:27 | the hex spelling of a number is non-empty and made of lower-case hex digits |
| FileReader.HexRoundTrip | librgb/file_reader.py:27 | reading the hex spelling back as hex gives the number |
| FileReader.ZeroPad | librgb/file_reader.py:27 | padding to width `w` gives `max(w, len)` characters: the digits at the end, `0` before them |
| FileReader.TranslateAddressRoundTrip | librgb/file_reader.py:26-27 | reading the printed digits back as hex gives the address (its magnitude when negative) |
| FileReader.FileReadIsSingleSegmentRead | librgb/file_reader.py:12-16 | for a non-negative address, the file read equals the segmented read's outcome over the one segment `[0, len)` with every byte loaded |
| Renderer.FormatMapEntry | librgb/renderer.py:16-33 | every format but the 5658 ones is a key. Bytes per pixel is the channel-width sum rounded up to bytes (1, 2, 3, 4). The swap flag holds exactly for `R`-prefixed names, and the invert flag exactly for the `i` variants |
| Renderer.FormatMapLacks5658 | librgb/renderer.py:16-33 | the 5658 formats are not keys |
| Renderer.TableKey | librgb/renderer.py:16-33 | a text found in the table is the display name of its key, and never of a 5658 format |
| Renderer.TableKeyOfDisplayName | librgb/renderer.py:16-33 | every key but the 5658 formats is found under its display name; the 5658 display names are not found |
| Renderer.EntryFollowsName | librgb/renderer.py:16-33 | each row follows its key's name: bytes per pixel from the channel widths, the swap flag from the `R` prefix, the invert flag from the `i` suffix |
| Renderer.FormatMapKeys | librgb/renderer.py:16-33 | a text is a key exactly when it is the display name of a format other than 5658, the two 5-5-5 formats included |
| Renderer.TableBytesPositive | librgb/renderer.py:16-33 | every entry has at least one byte per pixel |
| Renderer.Entry | librgb/renderer.py:18-32 | every row of the table has 1 to 4 bytes per pixel |
| Renderer.FormatMap | librgb/renderer.py:16-33 | a format found in `FORMAT_MAP` has 1 to 4 bytes per pixel |
| Renderer.FlipPrefix | librgb/renderer.py:56-61 | after `k` rounds of the loop, the output has `k * stride` bytes |
| Renderer.FlipPrefixRows | librgb/renderer.py:56-61 | after `k` rounds, output row `y` is input row `height - 1 - y` for every `y < k` |
| Renderer.FlipRowsReversed | librgb/renderer.py:56-61 | flipping keeps the length, and output row `y` is input row `height - 1 - y` |
| Renderer.FlipInvolution | librgb/renderer.py:56-61 | flipping twice restores the buffer |
| Renderer.FlipRows | librgb/renderer.py:56-61 | the loop computes the flip |
| Renderer.Flip | librgb/renderer.py:56-61 | the flipped buffer has the input's length; a height of 0 or less runs no round and gives an empty buffer |
| Renderer.Trunc | librgb/renderer.py:79 | `int()` truncates toward zero |
| Renderer.ScaleByte | librgb/renderer.py:79 | a byte is scaled, truncated and clamped: 255 when the product reaches 255, 0 below 1, else the product rounded down |
| Renderer.ClipByteIsScaleByte | librgb/renderer.py:69-79 | clipping the float to [0, 255] and then truncating (numpy) gives the same byte as truncating and then clamping (the loop) |
| Renderer.Brighten | librgb/renderer.py:76-80 | brightness keeps the length and scales each byte on its own |
| Renderer.ClipByte | librgb/renderer.py:70-74 | a scaled value at or below 0 gives 0, at or above 255 gives 255, and in between is truncated down to a byte |
| Renderer.NumpyBrighten | librgb/renderer.py:69-75 | the numpy path keeps the frame's length |
| Renderer.NumpyBrightenIsBrighten | librgb/renderer.py:69-80 | the numpy path and the fallback loop produce the same frame |
| Renderer.BrightenByOne | librgb/renderer.py:63-68 | a multiplier of 1 (brightness 50) changes no byte |
| Renderer.AdjustBrightness | librgb/renderer.py:76-80 | the in-place loop over the `bytearray` computes the brightness step |
| Renderer.BrightenCommutesWithFlip | librgb/renderer.py:56-80 | brightness is per byte, so it commutes with the flip |
| Renderer.GetPixmap | librgb/renderer.py:38-80 | a missing reader gives an empty pixmap without reading. An unknown format raises `NotImplementedError` before any read. Otherwise exactly `height * width * bpp` bytes are requested, and a `None` or wrong-length answer fails the assertion. The frame is the answer, flipped when asked, and brightened unless the brightness is exactly 50 |
| Renderer.Processed | librgb/renderer.py:56-88 | the flipped and brightened frame has the length the reader returned, which is the size Qt expects; with no flip and brightness 50 it is the reader's answer unchanged |
| Renderer.InvertAlphaOnly | librgb/renderer.py:92-94 | `InvertRgba` then `InvertRgb` maps alpha `a` to `255 - a` and keeps R, G and B |
| RendererParams.ClampBrightness | librgb/renderer_params.py:9-11 | stored brightness is `min(100, max(0, v))`: within [0, 100], and `v` itself when `v` is within it |
| RendererParams.AtLeastOne | librgb/renderer_params.py:17-27 | stored width and height are `max(1, v)`: at least 1, and `v` when `v >= 1` |
| RendererParams.ClampAddress | librgb/renderer_params.py:33-36 | the stored address lies within the reader's bounds when they are ordered, is `v` when `v` lies within them, and is `min_address` when the bounds are crossed |
| RendererParams.Fires | librgb/renderer_params.py:38-44 | an assignment fires `draw_cb` only when the callback is set, the value changed and the name is not `draw_cb` |
| RendererParams.PrivateNeverFires | librgb/renderer_params.py:38-42 | assigning a name that starts with `_` never calls `draw_cb` |
| RendererParams.DrawCbNeverFires | librgb/renderer_params.py:41-42 | assigning `draw_cb` never calls it |
| RendererParams.PublicFiresOnChange | librgb/renderer_params.py:38-44 | a public assignment calls `draw_cb` exactly when the value changes and the callback is set |
| RendererParams.ClampedNoOpStillFires | librgb/renderer_params.py:17-19 | setting width 0 while the width is 1 calls `draw_cb`, although the stored width stays 1 |
| RendererParams.RendererParams.constructor | rgb-ida.py:44-51 | start-up assignments: the setters clamp the given values, the address is the reader's lowest, no callback is set and none has been called |
| RendererParams.RendererParams.AfterAssign | librgb/renderer_params.py:41-44 | the hook changes no parameter and calls `draw_cb` once exactly when the assignment fires |
| RendererParams.RendererParams.SetBrightness | librgb/renderer_params.py:9-11 | only brightness changes, to the clamped value; `draw_cb` fires when the old value differs from the unclamped one; validity is kept |
| RendererParams.RendererParams.SetWidth | librgb/renderer_params.py:17-19 | only width changes, to `max(1, v)`; `draw_cb` fires when the old value differs from `v`; validity is kept |
| RendererParams.RendererParams.SetHeight | librgb/renderer_params.py:25-27 | only height changes, to `max(1, v)`; `draw_cb` fires when the old value differs from `v`; validity is kept |
| RendererParams.RendererParams.SetAddress | librgb/renderer_params.py:33-36 | only the address changes, to the clamped value; `draw_cb` fires when the old value differs from `v` |
| RendererParams.RendererParams.SetFormat | librgb/renderer_params.py:38-44 | only the format changes; `draw_cb` fires on a change |
| RendererParams.RendererParams.SetFlip | librgb/renderer_params.py:38-44 | only the flip changes; `draw_cb` fires on a change |
| RendererParams.RendererParams.SetReader | librgb/renderer_params.py:38-44 | only the reader changes, and the stored address is not re-clamped; `draw_cb` fires exactly when the new reader is another object than the old one (identity, not bounds, since readers define no `__eq__`) and the callback is set |
| RendererParams.ReaderAssignFiresOnIdentity | librgb/renderer_params.py:39-44 | a reader assignment fires exactly when the reader's identity changes, whatever the bounds |
| RendererParams.EqualBoundsNewReaderFires | librgb/renderer_params.py:39-44 | switching to another reader with the same `min_address` and `max_address` (two files of one length) still calls `draw_cb` |
| RendererParams.RendererParams.SetDrawCb | librgb/renderer_params.py:38-42 | installing or removing the callback changes nothing else and calls nothing |
| RendererParams.RendererParams.ShownBytesWith | librgb/renderer_params.py:46-49 | `KeyError` for a format missing from the table, else width × height × bytes per pixel |
| RendererParams.RendererParams.ShownBytes | librgb/renderer_params.py:46-49 | `KeyError` exactly when the format is not a table key; otherwise at least width × height for valid parameters |
| RendererParams.ShownBytesIsFrameSize | librgb/renderer_params.py:46-49 | `shown_bytes` equals the byte count `get_pixmap` asks the reader for |
| ShortcutManager.ShortcutsBindEveryHandler | librgb/shortcut_manager.py:6-30 | every handler is bound to its key |
| ShortcutManager.Shortcuts | librgb/shortcut_manager.py:6-30 | a bound key is the key of its handler, so each of the 21 keys binds one handler |
| ShortcutManager.KeyOfInjective | librgb/shortcut_manager.py:6-30 | no two handlers share a key |
| ShortcutManager.ResizeDelta | librgb/shortcut_manager.py:32-54 | the near resizes step by 1, the far ones by 25; left and up shrink, right and down grow |
| ShortcutManager.Opposite | librgb/shortcut_manager.py:59-89 | left and right moves pair up, fixed with fixed and `shown_bytes`-sized with `shown_bytes`-sized |
| ShortcutManager.OppositeMovesCancel | librgb/shortcut_manager.py:59-89 | paired moves shift by equal and opposite amounts, so one after the other restores the address |
| ShortcutManager.GoDelta | librgb/shortcut_manager.py:59-89 | the fixed moves shift by ±1 or ±25; a `shown_bytes`-sized move shifts by at most `shown_bytes`; left moves never increase the address and right moves never decrease it |
| ShortcutManager.EffectFrames | librgb/shortcut_manager.py:6-95 | whatever the handler: only a `shown_bytes`-sized move fails, exactly when that lookup fails; only moves change the address and the redraw count; moves keep the parameters; at most one collaborator is called |
| ShortcutManager.ShownMoveSizes | librgb/shortcut_manager.py:75-89 | the medium move is `shown_bytes // 10`, at most the far move, which is `shown_bytes` |
| ShortcutManager.Toggled | librgb/shortcut_manager.py:56-57 | toggling negates the flip and keeps every other parameter |
| ShortcutManager.ToggleTwiceRestores | librgb/shortcut_manager.py:56-57 | toggling twice restores the parameters |
| ShortcutManager.ShortcutManager.constructor | librgb/shortcut_manager.py:2-4 | the manager holds the given parameters and reader, with no calls counted yet |
| ShortcutManager.ShortcutManager.ResizeWidth | librgb/shortcut_manager.py:32-48 | only the width changes, to `max(1, width ± step)`; the callback fires once when set; the address is unchanged |
| ShortcutManager.ShortcutManager.ResizeHeight | librgb/shortcut_manager.py:38-54 | only the height changes, to `max(1, height ± step)`; the callback fires once when set; the address is unchanged |
| ShortcutManager.ShortcutManager.ToggleFlip | librgb/shortcut_manager.py:56-57 | only the flip changes, to its negation; the callback fires once when set; the address is unchanged |
| ShortcutManager.ShortcutManager.GoFixed | librgb/shortcut_manager.py:59-73 | the reader's address moves by ±1 or ±25 and `fire_redraw` is called once; no parameter changes |
| ShortcutManager.ShortcutManager.GoShown | librgb/shortcut_manager.py:75-89 | the address moves by ±`shown_bytes // 10` or ±`shown_bytes`, then one `fire_redraw`. For a format that is not a key, `KeyError` is raised and nothing changes |
| ShortcutManager.ShortcutManager.GoToPrevFile | librgb/shortcut_manager.py:91-92 | one call of `use_prev_reader`, nothing else |
| ShortcutManager.ShortcutManager.GoToNextFile | librgb/shortcut_manager.py:94-95 | one call of `use_next_reader`, nothing else |
| ShortcutManager.ShortcutManager.CallAdapter | librgb/shortcut_manager.py:9-10 | `G` and `Ctrl+S` make one window-adapter call |
| ShortcutManager.ShortcutManager.Adjust | librgb/shortcut_manager.py:32-57 | a resize sets width or height to `max(1, old ± step)`, the flip negates `flip`; one callback redraw when set; nothing else in the view changes; validity is kept |
| ShortcutManager.ShortcutManager.Delegate | librgb/shortcut_manager.py:9-10 | `G` and `Ctrl+S` call the window adapter once; `<` and `>` call `use_prev_reader` or `use_next_reader` once; nothing else changes |
| ShortcutManager.ShortcutManager.RunSteady | librgb/shortcut_manager.py:32-95 | a handler not sized by `shown_bytes` has exactly its family's effect on the view (new parameters, address, redraw and call counts) and keeps validity |
| ShortcutManager.ShortcutManager.Run | librgb/shortcut_manager.py:32-95 | any handler has exactly its effect: the family effect above, or for a `shown_bytes`-sized move either `KeyError` with nothing changed or the address moved by the step taken from the old `shown_bytes` with one `fire_redraw` |
| ShortcutManager.ShortcutManager.Press | librgb/shortcut_manager.py:6-30 | a bound key runs its handler, with exactly the effect `Run` states: the new view is a function of the handler, the old view and the old `shown_bytes`; validity is kept |
| ImagePreview.FormatMapEntry | image-preview.py:213-230 | every catalog format is a key, the 5658 ones included. Bytes per pixel is the channel-width sum rounded up to bytes, so 3 for 5-6-5-8. The swap and invert flags follow the `R` prefix and the `i` suffix |
| ImagePreview.FormatMap5658 | image-preview.py:220-228 | the 5658 formats are 3 bytes per pixel, drawn as 16-bit RGB |
| ImagePreview.EntryOf | image-preview.py:213-230 | every row of this table has 1 to 4 bytes per pixel, and only grayscale has 1 |
| ImagePreview.FormatMap | image-preview.py:213-230 | a format found in this `FORMAT_MAP` has 1 to 4 bytes per pixel |
| ImagePreview.CatalogFormat | image-preview.py:26-43 | a text found in the catalog is the display name of its format |
| ImagePreview.FormatMapKeys | image-preview.py:213-230 | a text is a key exactly when some catalog format displays as it |
| ImagePreview.EntryOfIsLibrgbEntry | image-preview.py:213-230 | for every format both tables list, this table's row is librgb's row |
| ImagePreview.CatalogFormatOfDisplayName | image-preview.py:26-43 | display name to format and back is the identity |
| ImagePreview.FormatMapAgreesWithLibrgb | image-preview.py:213-230 | compared with librgb's table: the entries agree where both have one; only this table has the 5658 formats; only librgb's has the 5-5-5 formats |
| ImagePreview.SharedFormatsAgree | image-preview.py:213-230 | a format text both tables accept gets the same entry from each |
| ImagePreview.ShownBytes | image-preview.py:207-210 | `KeyError` exactly for a text that is not a key of this table; otherwise at least width × height for valid parameters |
| ImagePreview.ShownBytesOfFormat | image-preview.py:207-210 | for a catalog format, `shown_bytes` is width × height × its bytes per pixel |
| ImagePreview.AsWrittenBrighten | image-preview.py:271-275 | the loop as written keeps the length |
| ImagePreview.AsWrittenBrightenIsBlank | image-preview.py:271-275 | the loop as written blanks every byte, whatever the frame and the multiplier |
| ImagePreview.MaskedScale | image-preview.py:274 | one step of the loop as written maps a zero byte, or any byte at multiplier 0, to 0 |
| ImagePreview.AdjustBrightnessAsWritten | image-preview.py:271-275 | the loop over the zero-filled `bytearray` computes the as-written result |
| ImagePreview.AsWrittenBrightenLosesFrame | image-preview.py:264-275 | frame `[1]` at multiplier 2 comes out as `[0]`, while the numpy path and the corrected loop give `[2]` |
| ImagePreview.GetPixmap | image-preview.py:235-275 | an unknown format raises `NotImplementedError` before any read. Otherwise the reader is asked for exactly `height * width * bpp` bytes at the given address, and a `None` or wrong-length answer fails the assertion. The frame is the answer, flipped when asked, and brightened unless the brightness is exactly 50 |

## Left out

- Qt is left out: widgets, layouts, `QImage` construction, `rgbSwapped`, `convertToFormat`, `QPixmap` and saving. `get_pixmap` is modelled up to the bytes, size and flags handed to `QImage`. The alpha inversion is modelled on single ARGB pixels, following Qt's documented `InvertMode`.
- The brightness multiplier `2 ** ((brightness - 50) / (50 / 8))` is floating-point arithmetic. It is a real parameter of `GetPixmap`, and the per-byte maps use exact real arithmetic instead of IEEE doubles.
- The IDA API is replaced by values:
  - `get_segm_qty`, `getnseg` and `GetManyBytes` by a segment sequence and a `Database`;
  - a reader object, as `RendererParams` sees it, by a `Reader` value: a number standing for the object's identity, and its `min_address` and `max_address`;
  - `translate_address` of the memory reader (`idc.atoa`) is an IDA call and is not modelled;
  - the "unreadable" message is output only.
- MemoryReader.GetPaddedBytes: `count` is a natural number. A negative count makes the Python buffer empty and the requested range inverted, so no segment meets it (librgb/memory_reader.py:45-47) and the loop ends at once. Then `assert(len(result) == count)` (librgb/memory_reader.py:78) compares 0 with the negative count and raises `AssertionError`. Every caller passes a size of at least 0.
- MemoryReader.GetPaddedBytes: with a database whose bytes do not depend on the segment, first-match priority shows only in which fetch can fail. That priority is proved per round (`FirstMeetIsFirstMatch`, `ProcessRange`).
- image-preview.py starts with `#!/usr/bin/python3`. Its memory reader runs only inside IDA, and its imports (PySide or PyQt4) and the `startEA` segment API belong to IDA's Python 2, so the model gives that reader, and the `PixelFormats` copy, Python 2 semantics. Under Python 3, `range1.length > 0` (image-preview.py:148) raises `TypeError` at the first splice, and `dir` lists more implicit names, which changes which names `from_short_name` finds. Neither Python 3 behaviour is modelled.
- ImagePreview.GetPixmap: the fallback brightness branch uses the corrected loop (`Renderer.AdjustBrightness`), not the loop as written, which is modelled separately (see Findings).
- The file handle is a byte sequence. `open` and its errors, and a file that changes after opening, are not modelled.
- librgb/window_adapter.py, librgb/qt_shims.py, the plugin classes of rgb-ida.py and the CLI and Qt glue of image-preview.py (its window adapter, its shortcut registration, argument parsing and `main`) are UI and are not part of this model.
- librgb/reader.py only declares the reader interface, and librgb/__init__.py only re-exports. Neither has behaviour.
- `FileReader.min_address` is the constant 0 (`FileReader.FileReader.MinAddress`) and has no contract to state.
- The files come from different revisions, and the collaborators each file assumes are modelled as follows:
  - `PixelFormats.RGB555` and `BGR555`, used by librgb/renderer.py, are absent from librgb/pixel_formats.py. Their display texts are taken to be `RGB (5-5-5)` and `BGR (5-5-5)`, following the catalog's pattern.
  - librgb/renderer.py reads through `get_padded_bytes(size)`, so its reader is a function of the size alone, with the address held inside.
  - librgb/shortcut_manager.py uses `params.reader.address`, `fire_redraw`, `use_prev_reader` and `use_next_reader`, which librgb/renderer_params.py does not define. The reader is an object with a plain `address` field, and the three methods are counted calls whose effect is not modelled.
- The window adapter's `change_address` and `save` are UI. `ShortcutManager.ShortcutManager.CallAdapter` only counts the call.
- `RendererParams`:
  - Before a parameter is first assigned, `hasattr` is false and the old value compares as `None`. The constructor models the start-up sequence of rgb-ida.py, which runs before `draw_cb` exists, so that case is never observable.
  - What `draw_cb` and `fire_redraw` draw is UI. Only the number of calls is modelled.
- Python's dynamic attributes are not modelled: only the parameters the source reads and writes exist, and each has one type.

## Findings

| source | as written | input that shows it | evidently intended | confidence | as-written member | corrected member |
|---|---|---|---|---|---|---|
| image-preview.py:272-274 | the fallback brightness loop scales `output[i]` of the freshly zero-filled `bytearray(len(data))` instead of `data[i]`, and wraps with `& 0xFF` instead of clamping | a one-byte frame `[1]` at a multiplier of 2 (brightness 56.25) without numpy gives `[0]`, and every frame comes out black | scale each frame byte and clamp to [0, 255], as the numpy path does and as librgb/renderer.py:77-79 later does | high (proved; not executed) | ImagePreview.AsWrittenBrightenLosesFrame | Renderer.AdjustBrightness |

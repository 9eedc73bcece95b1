# Colour picker and layer selector, modelled in Dafny

This project models the integer logic of two GUI controls from a Minecraft mod's
configuration screen.

- **ColorPicker** is a radial hue/chroma/luminance (HCL) colour picker. A ring selects
  the hue. A 26 x 26 grid selects chroma and luminance in steps of 4 (0, 4, ..., 100).
  When the class loads, it builds two lookup tables once. `HCL_TO_RGB` maps a packed HCL
  key (`h | (c << 8) | (l << 16)`) to the sRGB colour that `hclToRgb` gives it.
  `RGB_TO_HCL` maps each such colour back to a key. Colours outside the gamut
  (`NO_COLOR = 0`) are skipped. Each picker holds a current hue and a selected key/colour
  pair. It also holds a cache `mix` with the table's colours for the current hue's slice.
- **LayerSelector** is a strip split into three zones: outside, a texture swatch and a
  clear button. A click on the swatch sends CREATE or SELECT to a callback. A click on the
  button clears the texture and sends CLEAR.

Files:

- `java_int.dfy` (`JavaInt`): Java `int` wrap-around, and `|` / `&` defined bit by bit on
  the unsigned 32-bit view. It has lemmas for the cases the picker uses: disjoint bits
  add, `x & 0xFF == x % 256`, and the grouping of `|` does not matter.
- `hcl_grid.dfy` (`HclGrid`): the quantised grid, the arithmetic packing `Pack` and its
  inverse `Unpack`, the bitwise packing `PackBits` as the Java code writes it, the
  position of a grid point in the table loop (`Order` / `TripleAt`), and `HueByte`
  (`hcl & 0xFF`).
- `color_tables.dfy` (`ColorTables`): the table construction. `Build(conv, n)` is the
  pair of tables after the first `n` passes of the loop. `BuildTables` is the loop itself,
  proved equal to `Build(conv, 243360)`. The contents lemmas are proved about `Build`.
- `color_picker.dfy` (`ColorPickerModel`): the `ColorPicker` class with its fields, the
  cache invariant, and the hue, click, scroll and `setRgb` operations.
- `layer_selector.dfy` (`LayerSelectorModel`): the zone classifier, the click actions,
  and the `LayerSelector` class. The callback is modelled as a log `actions` of what it
  was sent.

The colour conversion `hclToRgb` works in floating point. Here it is the parameter
`conv: (int, int, int) -> int`. Every property of the tables is therefore proved for any
conversion function.

## Model

| member | source | states |
|---|---|---|
| `JavaInt.Wrap32` | src/main/java/grondag/hs/client/gui/ColorPicker.java:244 | the Java `int` value of a sum is congruent to it modulo 2^32, lies in the 32-bit range, and is the sum itself when no overflow occurs |
| `JavaInt.AndLowByte` | src/main/java/grondag/hs/client/gui/ColorPicker.java:57 | `x & 0xFF` on a non-negative `int` is `x % 256` |
| `JavaInt.Or32Regroup` | src/main/java/grondag/hs/client/gui/ColorPicker.java:173-176 | on non-negative operands `(a \| b) \| c == (a \| c) \| b`, so rebuildMix's grouping of the key equals the grid click's |
| `HclGrid.PackBits` | src/main/java/grondag/hs/client/gui/ColorPicker.java:361 | the key `h \| (c << 8) \| (l << 16)` that the table loop and a grid click (line 207) compute is a Java `int`, and it is non-negative when the hue is |
| `HclGrid.PackBitsIsPack` | src/main/java/grondag/hs/client/gui/ColorPicker.java:361 | `h \| (c << 8) \| (l << 16)` equals `h + 256c + 65536l` for `h < 1024` and grid chroma/luminance |
| `HclGrid.UnpackPack` | src/main/java/grondag/hs/client/gui/ColorPicker.java:355-361 | a grid point is recovered exactly from its packed key |
| `HclGrid.PackInjective` | src/main/java/grondag/hs/client/gui/ColorPicker.java:352-365 | two grid points with the same packed key are equal |
| `HclGrid.PackIsGridKey` | src/main/java/grondag/hs/client/gui/ColorPicker.java:361 | the packing of a grid point is a grid key that unpacks to that point |
| `HclGrid.TripleAtOrder` | src/main/java/grondag/hs/client/gui/ColorPicker.java:352-356 | pass i of the loop visits a grid point whose loop position is i |
| `HclGrid.OrderTripleAt` | src/main/java/grondag/hs/client/gui/ColorPicker.java:352-356 | every grid point has a loop position below 360·26·26, and the loop visits it at that pass; together with `TripleAtOrder` this makes each grid point visited exactly once |
| `HclGrid.LoopPosition` | src/main/java/grondag/hs/client/gui/ColorPicker.java:352-356 | the loop counters (h, lum, chr) name grid point (h, 4·chr, 4·lum) at pass (26h + lum)·26 + chr |
| `HclGrid.HueByte` | src/main/java/grondag/hs/client/gui/ColorPicker.java:57 | `hcl & 0xFF` of a non-negative key is the key modulo 256 |
| `HclGrid.HueBytePack` | src/main/java/grondag/hs/client/gui/ColorPicker.java:57 | the low byte of a packed grid key is its hue modulo 256; it equals the hue only for hues below 256 |
| `ColorTables.Get` | src/main/java/grondag/hs/client/gui/ColorPicker.java:209 | a lookup in one of the tables yields the stored value for a present key and 0 (NO_COLOR, the maps' default) for a missing one, as `get` at lines 56 and 176 and `getOrDefault(hcl, NO_COLOR)` here do |
| `ColorTables.Step` | src/main/java/grondag/hs/client/gui/ColorPicker.java:355-365 | one pass of the innermost loop body at one grid point; it has no contract of its own, and `HclStep`, `RgbStep` and `VisitGridPoint` state what a pass does |
| `ColorTables.Build` | src/main/java/grondag/hs/client/gui/ColorPicker.java:352-368 | the tables after the first n passes, in loop order, from empty maps; it has no contract of its own, and `HclTableContents`, `RgbTableContents` and `BuiltTables` state what they hold |
| `ColorTables.HclStep` | src/main/java/grondag/hs/client/gui/ColorPicker.java:358-365 | one pass keeps the HCL_TO_RGB invariant with one more pass counted: the key of the point just visited is added exactly when its conversion is in gamut, with that colour |
| `ColorTables.RgbStep` | src/main/java/grondag/hs/client/gui/ColorPicker.java:361-364 | one pass keeps RGB_TO_HCL a round trip through HCL_TO_RGB in which each colour maps to the last grid point visited with it |
| `ColorTables.HclTableContents` | src/main/java/grondag/hs/client/gui/ColorPicker.java:352-368 | after n passes, a key is in HCL_TO_RGB iff it packs a grid point visited so far whose conversion is not NO_COLOR; its value is that conversion and never NO_COLOR |
| `ColorTables.NoOverwrite` | src/main/java/grondag/hs/client/gui/ColorPicker.java:361-364 | the key written at pass n is not yet in HCL_TO_RGB, so no entry is overwritten |
| `ColorTables.RgbTableContents` | src/main/java/grondag/hs/client/gui/ColorPicker.java:363-364 | after n passes, RGB_TO_HCL round-trips exactly through HCL_TO_RGB; every colour of HCL_TO_RGB is a key of RGB_TO_HCL, mapped to the last point in loop order (h, lum, chr) with that colour |
| `ColorTables.BuiltTables` | src/main/java/grondag/hs/client/gui/ColorPicker.java:352-370 | in the finished tables, HCL_TO_RGB's lookup at every grid point is its conversion (0 when out of gamut) and keys off the grid are absent; RGB_TO_HCL has no NO_COLOR key, its values are grid keys that map back to their colour, and each in-gamut colour keeps the last grid point in loop order |
| `ColorTables.VisitGridPoint` | src/main/java/grondag/hs/client/gui/ColorPicker.java:355-365 | one pass of the inner loop body takes the tables from Build(conv, n) to Build(conv, n + 1) |
| `ColorTables.VisitRow` | src/main/java/grondag/hs/client/gui/ColorPicker.java:354-366 | the chroma loop at one hue and luminance takes the tables from Build(conv, n) to Build(conv, n + 26), one pass per chroma |
| `ColorTables.VisitHue` | src/main/java/grondag/hs/client/gui/ColorPicker.java:353-367 | the luminance loop at one hue takes the tables from Build(conv, n) to Build(conv, n + 26 * 26), one row per luminance |
| `ColorTables.BuildTables` | src/main/java/grondag/hs/client/gui/ColorPicker.java:352-368 | the triple loop yields exactly Build(conv, 243360), hence HCL_TO_RGB's lookup equals the conversion on the grid and RGB_TO_HCL round-trips |
| `ColorPickerModel.MixKey` | src/main/java/grondag/hs/client/gui/ColorPicker.java:173-176 | for a hue in 0..359, rebuildMix's key for cell (lum, chr) is the packing of (hue, 4·chr, 4·lum) |
| `ColorPickerModel.RingHue` | src/main/java/grondag/hs/client/gui/ColorPicker.java:190-196 | normalising an angle in -180..180 gives a hue in 0..359 congruent to it modulo 360 |
| `ColorPickerModel.ScrollWraps` | src/main/java/grondag/hs/client/gui/ColorPicker.java:243-251 | from a hue in 0..359, a scroll by an increment in (-360, 360) gives (hue + inc) mod 360, which is in 0..359 |
| `ColorPickerModel.ScrollHue` | src/main/java/grondag/hs/client/gui/ColorPicker.java:244-249 | the new hue is a Java `int`; when `hue + inc` does not overflow it is congruent to `hue + inc` modulo 360, and it lies in 0..359 exactly when `hue + inc` lies in -360..719 |
| `ColorPickerModel.ScrollLargeIncrement` | src/main/java/grondag/hs/client/gui/ColorPicker.java:244-249 | 359 + 2 gives 1 and 359 - 360 gives 359; the correction by 360 is applied only once, so 0 - 400 gives -40 and 0 + 800 gives 440 |
| `ColorPickerModel.ColorPicker.constructor` | src/main/java/grondag/hs/client/gui/ColorPicker.java:60-67 | a new picker has hue 0, key `100 << 16`, the table's colour for that key (0 when absent), and a consistent cache |
| `ColorPickerModel.DefaultHue` | src/main/java/grondag/hs/client/gui/ColorPicker.java:36 | the initial hue `DEFAULT_HCL & 0xFF` with `DEFAULT_HCL = 100 << 16` is 0 |
| `ColorPickerModel.ColorPicker.GetRgb` | src/main/java/grondag/hs/client/gui/ColorPicker.java:50-52 | returns the selected colour `rgb` |
| `ColorPickerModel.ColorPicker.MixShowsSlice` | src/main/java/grondag/hs/client/gui/ColorPicker.java:171-179 | with a consistent cache and a hue in 0..359, `mix[lum][chr]` is the conversion of (hue, 4·chr, 4·lum), or 0 when that is out of gamut |
| `ColorPickerModel.ColorPicker.RebuildMix` | src/main/java/grondag/hs/client/gui/ColorPicker.java:171-179 | after the rebuild, every one of the 26 x 26 cells holds the HCL_TO_RGB lookup (default 0) of the current hue's key for that cell |
| `ColorPickerModel.ColorPicker.ChangeHueIfDifferent` | src/main/java/grondag/hs/client/gui/ColorPicker.java:164-169 | afterwards hue is the new hue and the cache is consistent with it; if the hue was already the current one the cache is untouched; hcl and rgb never change |
| `ColorPickerModel.ColorPicker.ClickRing` | src/main/java/grondag/hs/client/gui/ColorPicker.java:190-196 | a ring click sets the hue to the normalised angle and keeps the cache consistent, leaving the selection alone |
| `ColorPickerModel.ColorPicker.ClickGrid` | src/main/java/grondag/hs/client/gui/ColorPicker.java:206-215 | a grid click on an in-range cell with a colour in HCL_TO_RGB selects that key and colour, and otherwise changes nothing; the hue and the cache never change; `rgb == HCL_TO_RGB[hcl]` holds afterwards if it held before; for a hue in 0..359 the selection is exactly the packed point and its conversion, when in gamut |
| `ColorPickerModel.ColorPicker.HandleMouseClick` | src/main/java/grondag/hs/client/gui/ColorPicker.java:182-217 | an outside or off-grid click changes nothing; a ring click changes only the hue (and cache); a grid click changes only the selection |
| `ColorPickerModel.ColorPicker.HandleMouseDrag` | src/main/java/grondag/hs/client/gui/ColorPicker.java:235-237 | a drag has the same effect as a click at the same target: outside or off the grid nothing changes; on the ring only the hue (and the cache) changes; on the grid only the selection changes, to the packed cell and its colour when that is in HCL_TO_RGB |
| `ColorPickerModel.ColorPicker.HandleMouseScroll` | src/main/java/grondag/hs/client/gui/ColorPicker.java:240-253 | a zero increment changes nothing; otherwise hue becomes ScrollHue(hue, inc), which is (hue + inc) mod 360 for a hue in range and an increment of magnitude below 360; the cache stays consistent |
| `ColorPickerModel.ColorPicker.SetRgb` | src/main/java/grondag/hs/client/gui/ColorPicker.java:54-58 | rgb becomes the argument; hcl becomes its RGB_TO_HCL key (0 when absent); hue becomes `hcl & 0xFF`. For a table colour, `rgb == HCL_TO_RGB[hcl]` holds and hue is the packed hue modulo 256 |
| `LayerSelectorModel.Locate` | src/main/java/grondag/hs/client/gui/LayerSelector.java:102-110 | a point is NONE iff it is outside the bounds, TEXTURE iff inside and no further right than `left + 2·itemSpacing + itemSize`, and CLEAR iff inside and further right; so exactly one zone applies |
| `LayerSelectorModel.LocateMonotone` | src/main/java/grondag/hs/client/gui/LayerSelector.java:105-108 | along a row inside the bounds, the swatch lies left of the button: moving left keeps TEXTURE, moving right keeps CLEAR |
| `LayerSelectorModel.ClickAction` | src/main/java/grondag/hs/client/gui/LayerSelector.java:121-135 | a click sends an action only outside NONE: CREATE or SELECT on the swatch (by whether there is a texture), CLEAR on the button |
| `LayerSelectorModel.ClickTexture` | src/main/java/grondag/hs/client/gui/LayerSelector.java:126-127 | only a click on the clear button removes the texture |
| `LayerSelectorModel.ClearIsIdempotent` | src/main/java/grondag/hs/client/gui/LayerSelector.java:126-129 | repeating a click leaves the texture where one click put it, and a repeated clear sends CLEAR again |
| `LayerSelectorModel.LayerSelector.constructor` | src/main/java/grondag/hs/client/gui/LayerSelector.java:37-57 | a new selector is unselected, clearable, tinted -1, without texture or location, and has sent nothing |
| `LayerSelectorModel.LayerSelector.GetTexture` | src/main/java/grondag/hs/client/gui/LayerSelector.java:59-61 | returns the stored texture |
| `LayerSelectorModel.LayerSelector.SetTexture` | src/main/java/grondag/hs/client/gui/LayerSelector.java:59-65 | getTexture returns what setTexture stored; no other field changes |
| `LayerSelectorModel.LayerSelector.UpdateMouseLocation` | src/main/java/grondag/hs/client/gui/LayerSelector.java:102-110 | the stored location is the zone of the point |
| `LayerSelectorModel.LayerSelector.HandleCoordinateUpdate` | src/main/java/grondag/hs/client/gui/LayerSelector.java:113-115 | height becomes `top + 2·itemSelectionMargin + itemSize`; nothing else changes |
| `LayerSelectorModel.LayerSelector.HandleMouseClick` | src/main/java/grondag/hs/client/gui/LayerSelector.java:117-136 | the zone is recomputed from the click point; NONE sends nothing and keeps the texture; TEXTURE sends exactly one CREATE (no texture) or SELECT and keeps the texture; CLEAR removes the texture and sends exactly one CLEAR |
| `LayerSelectorModel.LayerSelector.HandleMouseDrag` | src/main/java/grondag/hs/client/gui/LayerSelector.java:143-145 | dragging changes nothing |
| `LayerSelectorModel.LayerSelector.HandleMouseScroll` | src/main/java/grondag/hs/client/gui/LayerSelector.java:148-150 | scrolling changes nothing |
| `LayerSelectorModel.LayerSelector.SetRgb` | src/main/java/grondag/hs/client/gui/LayerSelector.java:152-154 | sets the tint and nothing else |
| `LayerSelectorModel.LayerSelector.SetItemSize` | src/main/java/grondag/hs/client/gui/LayerSelector.java:156-158 | sets the item size and nothing else |
| `LayerSelectorModel.LayerSelector.SetItemSpacing` | src/main/java/grondag/hs/client/gui/LayerSelector.java:160-162 | sets the item spacing and nothing else |
| `LayerSelectorModel.LayerSelector.SetSelected` | src/main/java/grondag/hs/client/gui/LayerSelector.java:164-166 | sets the selected flag and nothing else |
| `LayerSelectorModel.LayerSelector.SetClearable` | src/main/java/grondag/hs/client/gui/LayerSelector.java:168-170 | sets the clearable flag and nothing else |

## Behaviour kept as written

- `setRgb` takes the new hue as `hcl & 0xFF`. This keeps only the low eight bits of a
  packed hue that can reach 359. A colour whose stored hue is 300 therefore sets the
  picker's hue to 44. `SetRgb` and `HueBytePack` state exactly this. They do not claim
  that the hue equals the packed hue.
- If the argument of `setRgb` is not a key of `RGB_TO_HCL`, the map's default gives
  `hcl = 0`. That is also the packed key of the grid point (0, 0, 0).
- A scroll corrects the sum `hue + inc` by 360 only once. The new hue is in 0..359
  exactly when the sum is in -360..719, so a large increment can leave the hue outside
  0..359 (0 - 400 gives -40). The sum wraps as a Java `int`. Any
  later `rebuildMix` then looks up the key that the bitwise `|` gives for that hue.
- `RGB_TO_HCL` keeps the last of several grid points with the same colour. The round
  trip `HCL_TO_RGB[RGB_TO_HCL[rgb]] == rgb` is exact: the code stores the colour it
  converted, not a re-quantised one.
- `LayerSelector.handleCoordinateUpdate` assigns `top + 2·margin + itemSize` to `height`,
  so it sets an absolute coordinate, not a size.

## Left out

- `labToRgb`, `xyzToRgb` and the body of `hclToRgb` (CIE L\*a\*b\* to XYZ to sRGB, in
  `double`, with `Math.pow`, `cos`, `sin` and a 1e-6 tolerance) are floating-point code.
  The conversion is the parameter `conv`. Gamut facts about particular colours (black
  and white in gamut, (0, 100, 100) out of gamut) cannot be stated about it.
- The floating-point geometry of the colour picker is not modelled. That covers
  `handleCoordinateUpdate` (radii, centre, `halfGrid`), the distance tests, the
  `atan2`/`Math.round` angle and the rounding of the mouse position to a grid cell. A
  click arrives as a `ClickTarget` that holds the integer angle (in -180..180, the range
  of a rounded `atan2`) or the non-negative cell indices.
- Rendering is not modelled: both `drawContent` methods, `HUE_COLORS` (built with the
  external `Color.fromHCL`), `TextureUtil`, `GuiUtil` and the host's render system.
- Tooltips are not modelled: both `drawToolTip` methods and `drawLocalizedToolTip`.
- The host's `AbstractControl` is not modelled. Its layout fields are plain fields of
  `LayerSelector`, and its `mouseIncrementDelta()` is the scroll parameter `inc`.
- The constructor's discarded call `hclToRgb(0, 0, 100)` is not modelled: it has no effect.
- The static tables are not global state. `BuildTables` builds them, and the picker's
  constructor receives them with the precondition that they are what `BuildTables` builds.
- `mix` is a Java `int[][]`; here it is an `array2<int>` of the same shape. Its rows
  cannot alias, and in the source they never do.
- `Int2IntOpenHashMap` is a Dafny `map<int, int>`, read through `Get`, which returns 0
  for a missing key.
- `LayerSelector.onAction(Consumer)` replaces the callback. The callback is modelled as
  the log `actions`, so replacing it is not modelled. The unused field
  `currentMouseIndex` is left out too.
- The `onAction` consumer is assumed not to touch the selector. Anything it does, such
  as calling `setTexture` from within CREATE, is not modelled. So the promise that a
  TEXTURE click keeps the texture holds only for such a consumer.
- `LayerSelectorModel.Locate`: the mouse position is a `double` in the source and a
  whole number here. The layout sums are unbounded integers, not 32-bit ones, because
  the layout values are small pixel counts.
- `LayerSelectorModel.LayerSelector.HandleCoordinateUpdate`: the height sum is unbounded
  and does not wrap at 32 bits.
- `ColorTables.Step`: this specification function of one loop pass has no `ensures` of
  its own. What a pass does is stated by `HclStep` and `RgbStep` about its result.
- `ColorTables.Build`: this specification function of the first n passes has no
  `ensures` of its own. What the tables hold is stated by `HclTableContents` and
  `RgbTableContents` about its result.

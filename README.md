# yarl2 character grid and UI layer in Dafny

yarl2 is a Rust library for drawing a character-cell screen, roguelike style, with wgpu. The
part modelled here is the CPU side:

- the `Window` grid store:
  - four flat buffers: glyph bytes, foreground RGBA, background RGBA and a font-set (atlas layer) selector per cell;
  - the `dirty` flag;
  - the fixed-capacity pool of floating glyph instances.
- the operations on that store:
  - the bounds-checked setters;
  - `print_at` and `print_at_set`;
  - `clear` and `add_instance`;
  - `take_snapshot` and `apply_snapshot`;
  - `draw_rect` and `draw_rect_ex`;
- `TextBuilder` and its wrapping printer;
- the keyboard and mouse bookkeeping of the event handler;
- the immediate-mode UI tree of `src/ui.rs`:
  - boxes with fills and placements, labels, buttons with hover and press handling;
  - the `UIData` record they update.

The project is built in layers:

- **Value layer.**
  - `Grid.Screen` is the whole store as a value.
  - `Grid` holds the single-cell setters as functions on it.
  - `GridOps` describes every multi-cell operation as a list of cell writes (`Write(x, y, Paint)`), run one after the other by `GridOps.RepaintAll`.
  - A `Paint` is the set of fields one group of setter calls writes.
  - `GridOps.CellAfter` is an independent per-cell reading of such a list, and `GridOps.RepaintAllAt` connects the two.
- **Class layer.**
  - `Windows.Window` keeps the buffers in fields, with the colour buffers as real byte sequences.
  - Each of its methods is proved to leave `Model()` equal to the value-level operation applied to the old `Model()`.
- **Printer and UI.**
  - `Text` and `Ui` issue their setter calls through `Window`, in the source's order.
  - They are proved to perform exactly the write list of their specification functions.
  - `Ui` also specifies the new `UIData` state.

The codec comes from an external crate whose table is not part of this model. It is a parameter of the grid, `Codec.CodePage`: a table of 256 characters.

- `Encode` returns the first slot holding a character, or nothing.
- `Decode` reads a slot.
- Both directions of the round trip are proved, so no axiom is needed.

Integer types are unbounded here. The only wrap-around that matters is the `u8` cast of the atlas layer count in `set_set_at`, and it is written out (`Grid.SetLimit`). Panics in the source are preconditions:

- the font-set assertion;
- the snapshot bounds check;
- `unwrap` on the codec and on empty key text;
- the `todo!()` of the split placements.

Some behaviour is modelled as written:

- A non-highlighted button prints its text one row *down* when it has a left decoration (src/ui.rs:474-487).
- `take_snapshot` refuses a rectangle that reaches the last row or column, because its check is `>=` (src/lib.rs:1254).

## Model

| member | source | states |
|---|---|---|
| Codec.CodePage.Decode | src/lib.rs:1987-1989 | decoding any byte yields a character of the code page |
| Codec.CodePage.Encode | src/lib.rs:1984-1986 | encoding fails exactly for characters outside the code page; otherwise it yields the first slot holding the character |
| Codec.DecodeEncode | src/lib.rs:1984-1989 | decoding the encoding of a character gives the character back |
| Codec.EncodeDecode | src/lib.rs:1984-1989 | on an injective table, encoding the decoding of a byte gives the byte back |
| Codec.CharToByte | src/lib.rs:1984-1986 | `ch_to_u8` (defined only on code-page characters, as it unwraps) returns a byte that decodes to the character |
| Codec.ByteToChar | src/lib.rs:1987-1989 | `u8_to_ch` returns a character that can be encoded again |
| Grid.InstanceNew | src/lib.rs:1805-1812 | `InstanceData::new` stores position, set and colours as given and the smallest glyph byte that decodes to `ch` |
| Grid.Fresh | src/lib.rs:198-201 | a new store is valid, not dirty, with an empty pool of the given capacity |
| Grid.Repaint | src/lib.rs:1017-1132 | one cell's fields are changed on the grid only; dirty is raised exactly when the cell's value changes |
| Grid.RepaintDirtySound | src/lib.rs:1029-1031 | after a setter, dirty is set whenever something the GPU sees has changed |
| Grid.SetFg | src/lib.rs:1017-1036 | `set_fg_at` writes only the addressed cell's fg, does nothing off the grid, and raises dirty only on change |
| Grid.SetBg | src/lib.rs:1066-1085 | `set_bg_at`, likewise for bg |
| Grid.SetSet | src/lib.rs:1038-1064 | `set_set_at`, likewise for the font-set byte |
| Grid.SetGlyph | src/lib.rs:1110-1132 | `set_char_at_bin`, likewise for the glyph byte |
| Grid.SetChar | src/lib.rs:1087-1107 | `set_char_at` is `set_char_at_bin` of the encoding, and a no-op for an unencodable character |
| Grid.RepaintFour | src/lib.rs:1348-1361 | four setter calls on one cell are one repaint with the merged paint |
| Windows.Window.constructor | src/lib.rs:198-201 | the buffers are zero-filled at `w*h*4` and `w*h` bytes; the store is `Grid.Fresh` |
| Windows.Window.SetFgAt | src/lib.rs:1017-1036 | the new state is `Grid.SetFg` of the old; only bytes `4*(x+y*w) .. +4` of the fg buffer change, and the bg buffer is untouched |
| Windows.Window.SetBgAt | src/lib.rs:1066-1085 | the new state is `Grid.SetBg` of the old; only the addressed four bg bytes change |
| Windows.Window.SetSetAt | src/lib.rs:1038-1064 | the new state is `Grid.SetSet` of the old; the call requires `value < layers as u8` even off the grid |
| Windows.Window.SetCharAtBin | src/lib.rs:1110-1132 | the new state is `Grid.SetGlyph` of the old |
| Windows.Window.SetCharAt | src/lib.rs:1087-1107 | the new state is `Grid.SetChar` of the old |
| Windows.Window.PrintAtSet | src/lib.rs:1178-1227 | the new state is `GridOps.Print` of the old: character `i` goes to column `x+i`, unencodable or off-grid characters write nothing |
| Windows.Window.PrintAt | src/lib.rs:1136-1176 | `print_at` is `print_at_set` without a font-set |
| Windows.Window.Clear | src/lib.rs:1229-1236 | the new state is `GridOps.Clear` of the old; the colour buffers are zero at their old lengths; the pool is kept |
| Windows.Window.AddInstance | src/lib.rs:1239-1249 | state and result are `GridOps.AddInstance` of the old state |
| Windows.Window.TakeSnapshot | src/lib.rs:1251-1285 | the snapshot captures every cell of the rectangle at column-major index `(i-x)*height+(j-y)` |
| Windows.Window.ApplySnapshot | src/lib.rs:1287-1314 | the new state is `Snapshots.ApplySnapshot` of the old |
| Windows.Window.DrawRect | src/lib.rs:1328-1375 | the new state is `GridOps.DrawRect` of the old |
| Windows.Window.DrawRectEx | src/lib.rs:1377-1424 | the same as `draw_rect` |
| Windows.Window.FillRect | src/lib.rs:1357-1362 | the filled loops paint the rectangle column by column, top down |
| Windows.Window.ColumnCell | src/lib.rs:1359-1361 | one `set!` step extends a partly painted column by its next cell |
| Windows.Window.DrawTops | src/lib.rs:1364-1368 | the first outline loop paints, per column, row `y` then row `y+h-1` |
| Windows.Window.DrawSides | src/lib.rs:1369-1373 | the second outline loop paints, per row, column `x` then column `x+w-1` |
| GridOps.RepaintAllAt | src/lib.rs:1017-1132 | running a write list changes each cell exactly as the per-cell reading `CellAfter` says |
| GridOps.RepaintAllDirtySound | src/lib.rs:1029-1031 | after any sequence of setter calls, dirty is set if anything changed |
| GridOps.Print | src/lib.rs:1193-1216 | printing keeps the store valid, never clears dirty, and does nothing when `x` or `y` is negative |
| GridOps.PrintAt | src/lib.rs:1193-1216 | a printed cell holds the last encodable character aimed at it, with the fg, bg and set overrides applied only where a glyph was written |
| GridOps.DrawRect | src/lib.rs:1328-1375 | a rectangle that issues no `set!` changes nothing |
| GridOps.DrawRectAt | src/lib.rs:1357-1374 | filled: every cell of `[x,x+w)×[y,y+h)` gets the given options; outline: exactly the cells on its first and last rows and columns; all other cells are unchanged |
| GridOps.OutlineIsBorder | src/lib.rs:1364-1373 | for `w,h ≥ 1` the outline is exactly the border of the rectangle |
| GridOps.DrawRectNothing | src/lib.rs:1340-1356 | with every option `None`, `draw_rect` leaves the state equal, dirty flag included |
| GridOps.Clear | src/lib.rs:1229-1236 | every cell is blank, the pool cursor is 0, dirty is raised, the configuration and the pool slots are kept |
| GridOps.AddInstance | src/lib.rs:1239-1249 | succeeds iff `count < capacity`; on success it writes slot `count`, increments it and raises dirty; on failure nothing changes |
| GridOps.PoolSaturates | src/lib.rs:1239-1249 | in a run of additions exactly the first `capacity - count` succeed, into consecutive slots, and the count never exceeds the capacity |
| GridOps.ClearThenAdd | src/lib.rs:1229-1249 | after `clear` the next addition goes to slot 0 |
| Snapshots.SnapIndexBound | src/lib.rs:1266-1269 | the column-major snapshot index stays inside `width*height` |
| Snapshots.SnapIndexOnto | src/lib.rs:1294 | every snapshot entry is the image of some cell of the rectangle |
| Snapshots.CaptureDone | src/lib.rs:1263-1283 | when the nested loops finish, every cell of the rectangle has been captured |
| Snapshots.ApplySnapshot | src/lib.rs:1287-1314 | applying a snapshot keeps the store valid and dirty sound |
| Snapshots.ApplySnapshotAt | src/lib.rs:1291-1313 | each destination cell on the grid receives its snapshot entry; off-grid destinations are skipped one by one |
| Snapshots.CapturedSetsOk | src/lib.rs:1254-1283 | every captured font-set byte passes `set_set_at`'s check when re-applied, for any layer count that is not a multiple of 256 (there `layers as u8` is 0 and every `set_set_at` panics) |
| Snapshots.SnapshotRoundTrip | src/lib.rs:1251-1314 | applying a snapshot at its own origin, on any later state, restores every captured cell and leaves the rest; the only excluded case is a layer count that is a multiple of 256, where `apply_snapshot` panics |
| Snapshots.SnapshotReapplyIdle | src/lib.rs:1251-1314 | re-applying a snapshot at once changes nothing, dirty flag included, for any layer count that is not a multiple of 256 |
| Text.AddTextRecordsStyle | src/lib.rs:1884-1896 | `text` appends one segment with the style current at that moment and keeps the others |
| Text.ChainKeepsSegments | src/lib.rs:1884-1908 | later builder calls never alter earlier segments |
| Text.StyleCallsAddNothing | src/lib.rs:1897-1908 | `fg`, `bg` and `set` add no segment |
| Text.ByteLen | src/lib.rs:1866-1872 | a string's UTF-8 length is between its character count and four times it, and equal to it for ASCII |
| Text.Len | src/lib.rs:1866-1872 | the accumulator loop returns the total UTF-8 length of all segments |
| Text.TotalLenBounds | src/lib.rs:1866-1872 | the total length is between the character count and four times it |
| Text.LenAfterText | src/lib.rs:1866-1896 | `text(t)` grows `len()` by the byte length of `t` |
| Text.SatSub | src/lib.rs:1927-1934 | saturating `u8` subtraction: exact when no underflow, else 0 |
| Text.Sub | src/lib.rs:1927-1934 | channel-wise saturating subtraction with alpha forced to 255 |
| Text.SubTransparent | src/lib.rs:1966-1975 | subtracting transparent (as `print` does) only forces alpha to 255 |
| Text.SubToBlack | src/lib.rs:1927-1934 | subtracting a colour at least as bright gives opaque black |
| Text.FlattenAt | src/lib.rs:1938-1940 | character `ci` of segment `si` is printed with that segment's style |
| Text.RunCursorRule | src/lib.rs:1950-1960 | each character is written at the cursor: the first at `pos`, and the next at `(return_x, y+1)` if the previous one was past `width_end`, else at `(x+1, y)`; the returned cursor follows the same rule |
| Text.RunCutoff | src/lib.rs:1941-1946 | without a cutoff every character is written; with one, only rows above it, and printing stops exactly at a blocked cursor |
| Text.RunStops | src/lib.rs:1941-1946 | once stopped, no later character is written and the cursor stays |
| Text.RunPaints | src/lib.rs:1947-1954 | the `j`-th write carries the `j`-th character's paint |
| Text.TextRunPaints | src/lib.rs:1947-1954 | the `j`-th write carries the `j`-th character, its segment's fg and bg minus `col_sub`, and its set |
| Text.CutoffRowsUntouched | src/lib.rs:1941-1946 | rows at or below the cutoff keep every cell |
| Text.CreatePrintsNothing | src/lib.rs:1873-1883 | an empty builder prints nothing and returns the start |
| Text.PrintSubCutoff | src/lib.rs:1919-1965 | printing keeps the store valid and its configuration and pool |
| Text.PrintSubCutoffOn | src/lib.rs:1919-1965 | the method performs exactly the printer's writes, in order, and returns its final cursor |
| Input.KeysAfter | src/lib.rs:1541-1548 | a non-repeat press inserts the physical key, a release removes it, a repeat changes nothing, and no other key is touched |
| Input.LettersAfter | src/lib.rs:1525-1540 | a non-repeat event with text inserts or removes its first character; repeats and text-less events change nothing |
| Input.PressThenRelease | src/lib.rs:1521-1549 | a press then release of a key leaves the set without that key |
| Input.KeysAfterIdempotent | src/lib.rs:1541-1548 | the same event twice is the same as once |
| Input.LetterPressThenRelease | src/lib.rs:1525-1540 | the letters counterpart of press then release |
| Input.Keyboard.constructor | src/lib.rs:849-854 | the event loop starts with nothing held and the mouse at `(0,0)` |
| Input.Keyboard.KeyboardInput | src/lib.rs:1521-1562 | keys and letters become `KeysAfter` and `LettersAfter` of the old sets; the mouse fields are unchanged |
| Input.Keyboard.MouseInput | src/lib.rs:1487-1495 | only the left button sets `mouse_pressed` to the new state |
| Ui.AddChild | src/ui.rs:124-131 | `add` appends `fun(node)` as the last child and keeps the rest of the box |
| Ui.UIData.constructor | src/ui.rs:324-334 | the default data selects `"root"`, with no entries, no events, the default configuration and mouse `(0,0)` |
| Ui.UIData.AddEvent | src/ui.rs:318-322 | `event` only appends |
| Ui.Record | src/ui.rs:408-425 | the entry becomes `Boolean(now)`; `Pressed` is logged after `Boolean(true)` when now false, `Unpressed` after `Boolean(false)` when now true, otherwise nothing |
| Ui.FixedPlacements | src/ui.rs:66-82 | `Full` gives each child the box itself; `Within` shrinks it by the padding on every side |
| Ui.AlignedPlacements | src/ui.rs:83-97 | `AlignY` stacks children `height` rows tall from the top of the box, each starting where the previous ended; `AlignX` likewise along x |
| Ui.RenderKeeps | src/ui.rs:56-106 | rendering only appends events and keeps the selection, configuration and last mouse position |
| Ui.RenderChildrenKeeps | src/ui.rs:66-97 | the same for any prefix of the children |
| Ui.ButtonRecords | src/ui.rs:391-425 | after a button renders, its entry is `Boolean(hovered && pressed)` |
| Ui.ChildrenPrefix | src/ui.rs:66-97 | children render in insertion order: earlier children's writes and data do not depend on later ones |
| Ui.AddRendersLast | src/ui.rs:56-131 | after `add`, a box renders its fill, its old children as before, then the new child on the next rectangle |
| Ui.AddChildrenLast | src/ui.rs:65-131 | after `add` the children render as before, followed by the new child on the next rectangle |
| Ui.AddKeepsNoSplits | src/ui.rs:124-131 | adding a child without split placements keeps a box renderable |
| Ui.RenderBox | src/ui.rs:56-106 | a box writes its fill, then its children's writes, and passes on the children's data |
| Ui.RenderRoot | src/ui.rs:26-30 | the root records the keyboard's mouse position after rendering |
| Ui.RootKeeps | src/ui.rs:26-30 | the root keeps the selection and configuration, sets the mouse position and only appends events |
| Ui.LabelIgnoresEnd | src/ui.rs:284-300 | a label prints its text at `start` with its colours, changes no data and ignores `end` |
| Ui.ButtonText | src/ui.rs:457-488 | hovered: character `i` goes to `(start.0 + left + i, start.1)` with bg and fg swapped; otherwise to `(start.0 + i, start.1 + left)` with the original colours |
| Ui.DefaultBoxDrawsNothing | src/ui.rs:45-55 | a default box, with the default fill and no children, leaves grid and data unchanged |
| Ui.DefaultLabelDrawsNothing | src/ui.rs:274-300 | the default label, with its empty text, writes nothing and changes no data |
| Ui.NothingDrawsNothing | src/ui.rs:541-552 | `()` as a UI element writes nothing and changes no data |
| Ui.FillAt | src/ui.rs:154-225 | each cell of `[start,end)` gets the fill char and colours; then the cells on the first and last row and column get the border fields; other cells are unchanged |
| Ui.DefaultFillNothing | src/ui.rs:226-251 | the default fill, with the empty border, changes no cell and not the dirty flag |
| Ui.FillCellSetters | src/ui.rs:157-165 | the fill's char, bg, fg calls on a cell are one repaint |
| Ui.BorderCellSetters | src/ui.rs:171-181 | the border's bg, fg, char calls on a cell are one repaint |
| Ui.DecorationCellSetters | src/ui.rs:426-437 | a decoration's bg, char, fg calls on a cell are one repaint |
| Ui.PrintOpsPrint | src/ui.rs:293-299 | `print_at` is the run of its write list |
| Ui.Fill | src/ui.rs:154-225 | the three loops perform exactly the fill's writes |
| Ui.FillInside | src/ui.rs:155-167 | the first loop paints every cell column by column |
| Ui.FillTops | src/ui.rs:168-195 | the second loop paints, per column, the first then the last row |
| Ui.FillSides | src/ui.rs:196-223 | the third loop paints, per row, the first then the last column |
| Ui.ButtonRecord | src/ui.rs:389-425 | returns whether the button is hovered; the data becomes `Record` of the old data with `hovered && pressed` |
| Ui.ButtonDraw | src/ui.rs:426-488 | the left decoration at `start`, the right one at `start.0 + left + len`, then the text, flipped when highlighted |
| Ui.LeftOn | src/ui.rs:426-437 | the left decoration goes to `start` |
| Ui.RightOn | src/ui.rs:438-452 | the right decoration goes to `start.0 + left + len`, where `len` counts UTF-8 bytes |
| Ui.ButtonTextOn | src/ui.rs:457-488 | the text is printed flipped and moved right when highlighted, moved down otherwise |
| Ui.ButtonOn | src/ui.rs:379-492 | the button's writes and new data are those of `Render` |
| Ui.LabelOn | src/ui.rs:284-300 | the label's writes are its `print_at` |
| Ui.RenderOn | src/ui.rs:56-106 | any node's writes and new data are those of `Render` |
| Ui.ChildrenOn | src/ui.rs:65-100 | the loop over the children performs `RenderChildren` for the box's placement |
| Ui.ChildrenFixed | src/ui.rs:66-82 | under `Full` and `Within` every child gets the same rectangle |
| Ui.ChildrenAlignY | src/ui.rs:83-89 | the running row advances by `height` per child |
| Ui.ChildrenAlignX | src/ui.rs:90-97 | the running column advances by `width` per child |
| Ui.UIRoot.constructor | src/ui.rs:6-16 | `ui_context` holds an empty default box over `[start, end)` and the data |
| Ui.UIRoot.Add | src/ui.rs:115-122 | adding to the root adds to its box |
| Ui.UIRoot.RenderAndProcess | src/ui.rs:26-30 | the grid receives the writes of `RenderRoot` and the data becomes its new data |
| Ui.UIRoot.RetrieveData | src/ui.rs:31-33 | hands back the data |

## Left out

- All wgpu work: textures, pipelines, shaders, `update`, `draw` and `resize`. These are foreign GPU calls. `dirty` is modelled and never cleared, as in the source.
- `Window::new_run` and `run_game`: window creation, the event loop and image decoding. The constructor models only the buffer allocation.
- The `CursorMoved` pixel-to-cell mapping. It is floating-point arithmetic; `mouse_position` is only read.
- The `f32` positions of `InstanceData`. They are kept as raw bit patterns and never computed with.
- The code page 437 table itself, from an external crate. It is a parameter (`Codec.CodePage`).
- The game callbacks that the event handler calls, such as `text_input`, and the `Yarl2Game` demo impl. They are code outside the core.
- `Config::default`, `src/colors.rs` and the `Font` enum. These are configuration only.
- i32, u32 and usize overflow in coordinates and lengths. Integers are unbounded; only the `u8` layer-count cast is modelled.
- Grid.Screen: the value layer holds one `Col` per cell. `Windows.Window` itself keeps the fg and bg buffers as four `u8` per cell, and `Model()` reads them back through `Grid.ColorsOf`. The setters are the only writers of those bytes, and each writes a whole colour, so no reachable state splits a colour.
- Snapshots.Snapshot: the snapshot's `fg` and `bg` vectors, four bytes per cell in the source, are kept as one `Col` per entry. `Snapshots.WellFormed` requires every vector to hold exactly one entry per cell of the rectangle. This excludes two kinds of hand-built snapshot: one with longer vectors, which `apply_snapshot` accepts and reads only in part, and one with shorter vectors, on which it panics. Snapshots made by `take_snapshot` always have the exact lengths.
- `print_sub` and `print` have no members of their own. They are `print_sub_cutoff` with no cutoff, or with `TRANSPARENT` as `col_sub`; see `Text.SubTransparent`.
- Ui.RenderOn: `SplitY` and `SplitX` panic (`todo!()`), so every render requires `NoSplits`, anywhere in the tree.
- The UI tree is a value (`Ui.Node`): nodes are owned by their parent through `Box`, so rendering never aliases or changes a node. Only `PressedStyle::Flip` exists and it is implied. `UIDataEntry::Text` is handled but never produced.
- Button `keybind` and the `key_down`, `key_up`, `key_exit` and `uses_mouse` configuration fields are stored but never read by the source; the model stores them too.

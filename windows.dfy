/** The grid buffer store as the source keeps it: a `Window` object whose
    four flat buffers, dirty flag and instance pool are updated in place by
    its methods. Every method is proved against the value-level operation of
    `Grid`, `GridOps` or `Snapshots` on `Model()`; the foreground and
    background buffers are kept as RGBA bytes here, four per cell. */
module Windows {
  import opened Bytes
  import opened Codec
  import opened Grid
  import opened GridOps
  import opened Snapshots

  class Window {
    /** Grid size, atlas layer count and glyph codec, fixed at creation. */
    const cfg: GridConfig
    /** `buffer_chars`: one glyph byte per cell, row-major. */
    var chars: seq<u8>
    /** `buffer_colors_fg` / `buffer_colors_bg`: four RGBA bytes per cell. */
    var colorsFg: seq<u8>
    var colorsBg: seq<u8>
    /** `set_buffer`: one font-set byte per cell. */
    var setBuffer: seq<u8>
    var dirty: bool
    /** The pool of floating glyphs; its length is the fixed capacity. */
    var instances: seq<Instance>
    var instanceCount: nat

    /** The state as a `Screen` value. */
    function Model(): Screen
      reads this
    {
      Screen(cfg, chars, ColorsOf(colorsFg), ColorsOf(colorsBg), setBuffer, dirty, instances, instanceCount)
    }

    predicate Valid()
      reads this
    {
      |colorsFg| == 4 * Area(cfg) && |colorsBg| == 4 * Area(cfg) && Grid.Valid(Model())
    }

    /** The state is `s0` after the writes `ws`, all of them sound. */
    ghost predicate Painted(s0: Screen, ws: seq<Write>)
      reads this
    {
      Valid() && s0.cfg == cfg && Grid.Valid(s0) && WritesOk(cfg, ws) && Model() == RepaintAll(s0, ws)
    }

    /** The CPU side of window creation: zero-filled buffers of `w*h` and
        `w*h*4` bytes, a pool of `capacity` zeroed instances, not dirty. */
    constructor (cfg: GridConfig, capacity: nat)
      requires ConfigValid(cfg)
      ensures Valid() && Model() == Fresh(cfg, capacity)
      ensures colorsFg == Zeros(4 * Area(cfg)) && colorsBg == Zeros(4 * Area(cfg))
    {
      this.cfg := cfg;
      MulIs(cfg.height, cfg.width);
      var n := cfg.width * cfg.height;
      colorsFg := Zeros(n * 4);
      colorsBg := Zeros(n * 4);
      setBuffer := Zeros(n);
      chars := Zeros(n);
      instances := seq(capacity, _ => ZeroInstance);
      instanceCount := 0;
      dirty := false;
      ColorsOfZeros(n);
    }

    /** `set_fg_at`. */
    method SetFgAt(x: int, y: int, c: Col)
      requires Valid()
      modifies this
      ensures Valid() && Model() == SetFg(old(Model()), x, y, c)
      ensures InGrid(cfg, x, y) ==> colorsFg == WriteColor(old(colorsFg), Index(cfg, x, y), c)
      ensures !InGrid(cfg, x, y) ==> colorsFg == old(colorsFg)
      ensures colorsBg == old(colorsBg)
    {
      if 0 <= x && 0 <= y && x < cfg.width && y < cfg.height {
        var i := Index(cfg, x, y);
        var index := i * 4;
        ColorsOfWrite(colorsFg, i, c);
        if colorsFg[index..index + 4] != [c.r, c.g, c.b, c.a] {
          colorsFg := WriteColor(colorsFg, i, c);
          dirty := true;
        } else {
          WriteSameColor(colorsFg, i, c);
        }
      }
    }

    /** `set_bg_at`. */
    method SetBgAt(x: int, y: int, c: Col)
      requires Valid()
      modifies this
      ensures Valid() && Model() == SetBg(old(Model()), x, y, c)
      ensures InGrid(cfg, x, y) ==> colorsBg == WriteColor(old(colorsBg), Index(cfg, x, y), c)
      ensures !InGrid(cfg, x, y) ==> colorsBg == old(colorsBg)
      ensures colorsFg == old(colorsFg)
    {
      if 0 <= x && 0 <= y && x < cfg.width && y < cfg.height {
        var i := Index(cfg, x, y);
        var index := i * 4;
        ColorsOfWrite(colorsBg, i, c);
        if colorsBg[index..index + 4] != [c.r, c.g, c.b, c.a] {
          colorsBg := WriteColor(colorsBg, i, c);
          dirty := true;
        } else {
          WriteSameColor(colorsBg, i, c);
        }
      }
    }

    /** `set_set_at`: the layer check comes first and holds for every call,
        on the grid or not. */
    method SetSetAt(x: int, y: int, v: u8)
      requires Valid() && (v as int) < SetLimit(cfg)
      modifies this
      ensures Valid() && Model() == SetSet(old(Model()), x, y, v)
      ensures colorsFg == old(colorsFg) && colorsBg == old(colorsBg)
    {
      if 0 <= x && 0 <= y && x < cfg.width && y < cfg.height {
        var index := Index(cfg, x, y);
        if setBuffer[index] != v {
          setBuffer := setBuffer[index := v];
          dirty := true;
        }
      }
    }

    /** `set_char_at_bin`. */
    method SetCharAtBin(x: int, y: int, b: u8)
      requires Valid()
      modifies this
      ensures Valid() && Model() == SetGlyph(old(Model()), x, y, b)
      ensures colorsFg == old(colorsFg) && colorsBg == old(colorsBg)
    {
      if 0 <= x && 0 <= y && x < cfg.width && y < cfg.height {
        var index := Index(cfg, x, y);
        if chars[index] != b {
          chars := chars[index := b];
          dirty := true;
        }
      }
    }

    /** `set_char_at`: bounds first, then the codec; an unencodable character
        changes nothing. */
    method SetCharAt(x: int, y: int, ch: char)
      requires Valid()
      modifies this
      ensures Valid() && Model() == SetChar(old(Model()), x, y, ch)
      ensures colorsFg == old(colorsFg) && colorsBg == old(colorsBg)
    {
      if 0 <= x && 0 <= y && x < cfg.width && y < cfg.height {
        var enc := cfg.codePage.Encode(ch);
        if enc.Some? {
          var index := Index(cfg, x, y);
          if chars[index] != enc.value {
            chars := chars[index := enc.value];
            dirty := true;
          }
        }
      }
    }

    /** `print_at_set`. Per character the source writes the glyph byte
        inline, exactly as `set_char_at_bin` does, then calls the fg, bg and
        set setters for the overrides that are present. */
    method PrintAtSet(x: int, y: int, text: seq<char>, fg: Option<Col>, bg: Option<Col>,
                      font: Option<u8>)
      requires Valid() && (x >= 0 && y >= 0 ==> PrintFontOk(cfg, x, y, text, font))
      modifies this
      ensures Valid() && Model() == Print(old(Model()), x, y, text, fg, bg, font)
    {
      if x >= 0 && y >= 0 {
        ghost var s0 := Model();
        ghost var ws := PrintWrites(cfg, x, y, text, fg, bg, font);
        PrintWritesOk(cfg, x, y, text, fg, bg, font);
        assert ws[..0] == [];
        var i := 0;
        while i < |text|
          invariant 0 <= i <= |text|
          invariant Painted(s0, ws[..i])
        {
          PrintChar(s0, ws, x, y, text, fg, bg, font, i);
          i := i + 1;
        }
        assert ws[..|text|] == ws;
      }
    }

    /** One character of `print_at_set`: encoded through the code page; an
        unencodable one is skipped, an encodable one on the grid is
        written. */
    method PrintChar(ghost s0: Screen, ghost ws: seq<Write>, x: nat, y: nat, text: seq<char>,
                     fg: Option<Col>, bg: Option<Col>, font: Option<u8>, i: nat)
      requires Valid() && ws == PrintWrites(cfg, x, y, text, fg, bg, font) && WritesOk(cfg, ws)
      requires PrintFontOk(cfg, x, y, text, font) && i < |text| && Painted(s0, ws[..i])
      modifies this
      ensures Painted(s0, ws[..i + 1])
    {
      ghost var prev := Model();
      var cx := x + i;
      assert ws[i] == Write(cx, y, PrintPaint(cfg, text[i], fg, bg, font));
      var enc := cfg.codePage.Encode(text[i]);
      if enc.Some? {
        if cx < cfg.width && y < cfg.height {
          PrintGlyph(cx, y, enc.value, fg, bg, font);
        }
      } else {
        RepaintNothing(prev, cx, y);
      }
      RepaintAllStep(s0, ws, i);
    }

    /** The body of `print_at_set` for one encodable character on the grid:
        the glyph byte, then the overrides that are present, in that order. */
    method PrintGlyph(x: int, y: int, b: u8, fg: Option<Col>, bg: Option<Col>, font: Option<u8>)
      requires Valid() && InGrid(cfg, x, y)
      requires font.Some? ==> (font.value as int) < SetLimit(cfg)
      modifies this
      ensures Valid() && Model() == Repaint(old(Model()), x, y, Paint(Some(b), fg, bg, font))
    {
      ghost var s := Model();
      SetCharAtBin(x, y, b);
      if fg.Some? {
        SetFgAt(x, y, fg.value);
      }
      if bg.Some? {
        SetBgAt(x, y, bg.value);
      }
      if font.Some? {
        SetSetAt(x, y, font.value);
      }
      PrintCellSetters(s, x, y, b, fg, bg, font);
    }

    /** `print_at`: `print_at_set` without a font-set. */
    method PrintAt(x: int, y: int, text: seq<char>, fg: Option<Col>, bg: Option<Col>)
      requires Valid()
      modifies this
      ensures Valid() && Model() == Print(old(Model()), x, y, text, fg, bg, None)
    {
      PrintAtSet(x, y, text, fg, bg, None);
    }

    /** `clear`: every buffer zero-filled at its length, the pool cursor back
        to 0, dirty raised. */
    method Clear()
      requires Valid()
      modifies this
      ensures Valid() && Model() == GridOps.Clear(old(Model()))
      ensures colorsFg == Zeros(|old(colorsFg)|) && colorsBg == Zeros(|old(colorsBg)|)
      ensures instances == old(instances)
    {
      dirty := true;
      chars := Zeros(|chars|);
      colorsBg := Zeros(|colorsBg|);
      colorsFg := Zeros(|colorsFg|);
      setBuffer := Zeros(|setBuffer|);
      instanceCount := 0;
      ColorsOfZeros(Area(cfg));
    }

    /** `add_instance`. */
    method AddInstance(d: Instance) returns (added: bool)
      requires Valid()
      modifies this
      ensures Valid() && (Model(), added) == GridOps.AddInstance(old(Model()), d)
    {
      var m := instanceCount;
      if m < |instances| {
        instances := instances[m := d];
        dirty := true;
        instanceCount := instanceCount + 1;
        added := true;
      } else {
        added := false;
      }
    }

    /** The reads `take_snapshot` makes for one cell: four fg bytes, four bg
        bytes, the font-set byte and the glyph byte at `x + y*w`. */
    method ReadCell(x: int, y: int) returns (c: Cell)
      requires Valid() && InGrid(cfg, x, y)
      ensures c == CellAt(Model(), x, y)
    {
      var idx := Index(cfg, x, y);
      var fg := Col(colorsFg[idx * 4], colorsFg[idx * 4 + 1], colorsFg[idx * 4 + 2], colorsFg[idx * 4 + 3]);
      var bg := Col(colorsBg[idx * 4], colorsBg[idx * 4 + 1], colorsBg[idx * 4 + 2], colorsBg[idx * 4 + 3]);
      c := Cell(chars[idx], fg, bg, setBuffer[idx]);
    }

    /** `take_snapshot`: columns `x .. x+width-1` outer, rows inner, each cell
        pushed as its fg colour, bg colour, font-set byte and glyph byte.
        Changes nothing. */
    method TakeSnapshot(x: nat, y: nat, width: nat, height: nat) returns (snap: Snapshot)
      requires Valid() && CanTake(cfg, x, y, width, height)
      ensures Captures(Model(), snap, x, y, width, height)
    {
      snap := Snapshot(x, y, width, height, [], [], [], []);
      CaptureStart(Model(), x, y, width, height);
      var cx := x;
      while cx < x + width
        invariant x <= cx <= x + width
        invariant snap.beginX == x && snap.beginY == y
        invariant snap.width == width && snap.height == height
        invariant CapturedSoFar(Model(), snap, x, y, cx - x, 0)
      {
        snap := CaptureColumn(snap, x, y, cx);
        cx := cx + 1;
      }
      CaptureDone(Model(), snap, x, y);
    }

    /** The inner loop of `take_snapshot`: the rows of column `cx`, top
        down. */
    method CaptureColumn(snap: Snapshot, x: nat, y: nat, cx: nat) returns (r: Snapshot)
      requires Valid() && CanTake(cfg, x, y, snap.width, snap.height)
      requires x <= cx < x + snap.width && CapturedSoFar(Model(), snap, x, y, cx - x, 0)
      ensures r.beginX == snap.beginX && r.beginY == snap.beginY
      ensures r.width == snap.width && r.height == snap.height
      ensures CapturedSoFar(Model(), r, x, y, cx - x + 1, 0)
    {
      ghost var s := Model();
      ghost var i: nat := cx - x;
      ghost var j: nat := 0;
      r := snap;
      var cy := y;
      while cy < y + snap.height
        invariant cy == y + j && j <= snap.height
        invariant r.beginX == snap.beginX && r.beginY == snap.beginY
        invariant r.width == snap.width && r.height == snap.height
        invariant CapturedSoFar(s, r, x, y, i, j)
      {
        r := CaptureCell(r, x, y, cx, cy, i, j);
        cy := cy + 1;
        j := j + 1;
      }
      CaptureNextColumn(s, r, x, y, i);
    }

    /** One step of `take_snapshot`: the cell at `(cx, cy)` pushed onto the
        four vectors. */
    method CaptureCell(snap: Snapshot, x: nat, y: nat, cx: int, cy: int, ghost i: nat, ghost j: nat)
      returns (r: Snapshot)
      requires Valid() && CanTake(cfg, x, y, snap.width, snap.height)
      requires cx == x + i && cy == y + j && i < snap.width && j < snap.height
      requires CapturedSoFar(Model(), snap, x, y, i, j)
      ensures r.beginX == snap.beginX && r.beginY == snap.beginY
      ensures r.width == snap.width && r.height == snap.height
      ensures CapturedSoFar(Model(), r, x, y, i, j + 1)
    {
      var c := ReadCell(cx, cy);
      CapturePush(Model(), snap, x, y, i, j);
      r := Push(snap, c);
    }

    /** The four setter calls `apply_snapshot` makes for one entry: glyph,
        font-set, fg, bg. */
    method ApplyCell(x: int, y: int, c: Cell)
      requires Valid() && (c.font as int) < SetLimit(cfg)
      modifies this
      ensures Valid() && Model() == Repaint(old(Model()), x, y, FullPaint(c))
    {
      ghost var s := Model();
      SetCharAtBin(x, y, c.glyph);
      SetSetAt(x, y, c.font);
      SetFgAt(x, y, c.fg);
      SetBgAt(x, y, c.bg);
      SnapCellSetters(s, x, y, c);
    }

    /** Entry `(i, j)` of `apply_snapshot`, read from the snapshot's
        vectors at `i*height + j` and written at `(x0 + i, y0 + j)`, appended
        to the writes painted so far since `s0`. */
    method ApplyEntry(ghost s0: Screen, ghost ws: seq<Write>, snap: Snapshot, x0: int, y0: int,
                      cx: int, cy: int, ghost i: nat, ghost j: nat)
      requires Painted(s0, ws) && WellFormed(snap) && SetsOk(cfg, snap)
      requires cx == x0 + i && cy == y0 + j && i < snap.width && j < snap.height
      modifies this
      ensures Painted(s0, ws + [Write(x0 + i, y0 + j, FullPaint(SnapCell(snap, i, j)))])
    {
      var idx := SnapIndex(snap.height, cx - x0, cy - y0);
      SnapIndexBound(snap.width, snap.height, i, j);
      var c := Cell(snap.text[idx], snap.fg[idx], snap.bg[idx], snap.sets[idx]);
      assert c == SnapCell(snap, i, j);
      ApplyCell(cx, cy, c);
      RepaintAllSnoc(s0, ws, Write(cx, cy, FullPaint(c)));
    }

    /** `apply_snapshot`: columns `x0 ..` outer, rows `y0 ..` inner, entry
        `(x - x0)*height + (y - y0)` written through the setters, so cells off
        the grid are skipped. */
    method ApplySnapshot(snap: Snapshot, x0: int, y0: int)
      requires Valid() && WellFormed(snap) && SetsOk(cfg, snap)
      modifies this
      ensures Valid() && Model() == Snapshots.ApplySnapshot(old(Model()), snap, x0, y0)
    {
      ghost var s0 := Model();
      var cx := x0;
      while cx < x0 + snap.width
        invariant x0 <= cx <= x0 + snap.width
        invariant Painted(s0, SnapWrites(snap, x0, y0, cx - x0))
      {
        ApplyColumn(s0, SnapWrites(snap, x0, y0, cx - x0), snap, x0, y0, cx);
        cx := cx + 1;
      }
    }

    /** The inner loop of `apply_snapshot`: the rows of column `cx`, after
        the writes `ws` already painted since `s0`. The guard inside it
        always holds. */
    method ApplyColumn(ghost s0: Screen, ghost ws: seq<Write>, snap: Snapshot, x0: int, y0: int,
                       cx: int)
      requires Painted(s0, ws) && WellFormed(snap) && SetsOk(cfg, snap) && x0 <= cx < x0 + snap.width
      modifies this
      ensures Painted(s0, ws + SnapColumn(snap, x0, y0, cx - x0, snap.height))
    {
      ghost var i: nat := cx - x0;
      ghost var j: nat := 0;
      assert ws + SnapColumn(snap, x0, y0, i, j) == ws;
      var cy := y0;
      while cy < y0 + snap.height
        invariant cy == y0 + j && j <= snap.height
        invariant Painted(s0, ws + SnapColumn(snap, x0, y0, i, j))
      {
        if cx - x0 < snap.width && cy - y0 < snap.height {
          ApplyEntry(s0, ws + SnapColumn(snap, x0, y0, i, j), snap, x0, y0, cx, cy, i, j);
          SnapColumnSnoc(ws, snap, x0, y0, i, j);
        }
        cy := cy + 1;
        j := j + 1;
      }
    }

    /** The `set!` step of `draw_rect` on one cell: fg, bg, character and
        font-set, each only when given. */
    method RectSet(x: int, y: int, fg: Option<Col>, bg: Option<Col>, ch: Option<char>,
                   font: Option<u8>)
      requires Valid() && (font.Some? ==> (font.value as int) < SetLimit(cfg))
      modifies this
      ensures Valid() && Model() == Repaint(old(Model()), x, y, RectPaint(cfg, fg, bg, ch, font))
    {
      ghost var s := Model();
      if fg.Some? {
        SetFgAt(x, y, fg.value);
      }
      if bg.Some? {
        SetBgAt(x, y, bg.value);
      }
      if ch.Some? {
        SetCharAt(x, y, ch.value);
      }
      if font.Some? {
        SetSetAt(x, y, font.value);
      }
      RectCellSetters(s, x, y, fg, bg, ch, font);
    }

    /** One `set!` step of `draw_rect` appended to the writes painted so
        far since `s0`. */
    method RectStep(ghost s0: Screen, ghost ws: seq<Write>, x: int, y: int, fg: Option<Col>,
                    bg: Option<Col>, ch: Option<char>, font: Option<u8>)
      requires Painted(s0, ws) && (font.Some? ==> (font.value as int) < SetLimit(cfg))
      modifies this
      ensures Painted(s0, ws + [Write(x, y, RectPaint(cfg, fg, bg, ch, font))])
    {
      RectSet(x, y, fg, bg, ch, font);
      RepaintAllSnoc(s0, ws, Write(x, y, RectPaint(cfg, fg, bg, ch, font)));
    }

    /** Two `set!` steps of an outline `draw_rect`, at `(x1, y1)` and then
        at `(x2, y2)`. */
    method RectPair(ghost s0: Screen, ghost ws: seq<Write>, x1: int, y1: int, x2: int, y2: int,
                    fg: Option<Col>, bg: Option<Col>, ch: Option<char>, font: Option<u8>)
      requires Painted(s0, ws) && (font.Some? ==> (font.value as int) < SetLimit(cfg))
      modifies this
      ensures Painted(s0, ws + [Write(x1, y1, RectPaint(cfg, fg, bg, ch, font)),
                                Write(x2, y2, RectPaint(cfg, fg, bg, ch, font))])
    {
      ghost var p := RectPaint(cfg, fg, bg, ch, font);
      RectStep(s0, ws, x1, y1, fg, bg, ch, font);
      RectStep(s0, ws + [Write(x1, y1, p)], x2, y2, fg, bg, ch, font);
      assert ws + [Write(x1, y1, p)] + [Write(x2, y2, p)] == ws + [Write(x1, y1, p), Write(x2, y2, p)];
    }

    /** `draw_rect`. A filled rectangle is painted column by column from the
        top; an outline first paints, for each column, its top and bottom
        cell, then, for each row, its left and right cell. */
    method DrawRect(x: int, y: int, width: int, height: int, filled: bool, fg: Option<Col>,
                    bg: Option<Col>, ch: Option<char>, font: Option<u8>)
      requires Valid()
      requires RectVisits(width, height, filled) && font.Some? ==> (font.value as int) < SetLimit(cfg)
      modifies this
      ensures Valid() && Model() == GridOps.DrawRect(old(Model()), x, y, width, height, filled, fg, bg, ch, font)
    {
      ghost var s0 := Model();
      ghost var p := RectPaint(cfg, fg, bg, ch, font);
      if filled {
        FillRect(x, y, width, height, fg, bg, ch, font);
        if !RectVisits(width, height, filled) && height <= 0 {
          ColumnsFlat(x, y, Count(width), Count(height), p);
        }
      } else {
        DrawTops(x, y, width, height, fg, bg, ch, font);
        ghost var tops := Tops(x, y, height, Count(width), p);
        DrawSides(x, y, width, height, fg, bg, ch, font);
        RepaintAllAppend(s0, tops, Sides(x, y, width, Count(height), p));
      }
    }

    /** A filled `draw_rect`: columns `x .. x+width-1`, each top down. */
    method FillRect(x: int, y: int, width: int, height: int, fg: Option<Col>, bg: Option<Col>,
                    ch: Option<char>, font: Option<u8>)
      requires Valid()
      requires width > 0 && height > 0 && font.Some? ==> (font.value as int) < SetLimit(cfg)
      modifies this
      ensures Painted(old(Model()), Columns(x, y, Count(width), Count(height), RectPaint(cfg, fg, bg, ch, font)))
    {
      ghost var s0 := Model();
      ghost var p := RectPaint(cfg, fg, bg, ch, font);
      var cx := x;
      while cx < x + width
        invariant x <= cx <= x + Count(width)
        invariant Painted(s0, Columns(x, y, cx - x, Count(height), p))
      {
        FillColumn(s0, Columns(x, y, cx - x, Count(height), p), cx, y, height, fg, bg, ch, font);
        cx := cx + 1;
      }
    }

    /** The `set!` step on row `y + k` of a column whose first `k` cells
        are painted. */
    method ColumnCell(ghost s0: Screen, ghost ws: seq<Write>, cx: int, y: int, ghost k: nat, cy: int,
                      fg: Option<Col>, bg: Option<Col>, ch: Option<char>, font: Option<u8>)
      requires cy == y + k && Valid()
      requires Painted(s0, ws + Column(cx, y, k, RectPaint(cfg, fg, bg, ch, font)))
      requires font.Some? ==> (font.value as int) < SetLimit(cfg)
      modifies this
      ensures Painted(s0, ws + Column(cx, y, k + 1, RectPaint(cfg, fg, bg, ch, font)))
    {
      ghost var p := RectPaint(cfg, fg, bg, ch, font);
      RectStep(s0, ws + Column(cx, y, k, p), cx, cy, fg, bg, ch, font);
      ColumnSnoc(ws, cx, y, k, p);
    }

    /** The inner loop of a filled `draw_rect`: rows `y .. y+height-1` of
        column `cx`, after the writes `ws` already painted since `s0`. */
    method FillColumn(ghost s0: Screen, ghost ws: seq<Write>, cx: int, y: int, height: int,
                      fg: Option<Col>, bg: Option<Col>, ch: Option<char>, font: Option<u8>)
      requires Painted(s0, ws) && (height > 0 && font.Some? ==> (font.value as int) < SetLimit(cfg))
      modifies this
      ensures Painted(s0, ws + Column(cx, y, Count(height), RectPaint(cfg, fg, bg, ch, font)))
    {
      ghost var p := RectPaint(cfg, fg, bg, ch, font);
      assert ws + Column(cx, y, 0, p) == ws;
      var cy := y;
      ghost var k: nat := 0;
      while cy < y + height
        invariant cy == y + k && k <= Count(height)
        invariant Painted(s0, ws + Column(cx, y, k, p))
      {
        ColumnCell(s0, ws, cx, y, k, cy, fg, bg, ch, font);
        cy, k := cy + 1, k + 1;
      }
    }

    /** The first loop of an outline `draw_rect`: for each column, the cell
        on row `y`, then the cell on row `y + height - 1`. */
    method DrawTops(x: int, y: int, width: int, height: int, fg: Option<Col>, bg: Option<Col>,
                    ch: Option<char>, font: Option<u8>)
      requires Valid() && (width > 0 && font.Some? ==> (font.value as int) < SetLimit(cfg))
      modifies this
      ensures Painted(old(Model()), Tops(x, y, height, Count(width), RectPaint(cfg, fg, bg, ch, font)))
    {
      ghost var s0 := Model();
      ghost var p := RectPaint(cfg, fg, bg, ch, font);
      var cx := x;
      while cx < x + width
        invariant x <= cx <= x + Count(width)
        invariant Painted(s0, Tops(x, y, height, cx - x, p))
      {
        ghost var done := Tops(x, y, height, cx - x, p);
        RectPair(s0, done, cx, y, cx, y + height - 1, fg, bg, ch, font);
        cx := cx + 1;
      }
    }

    /** The second loop of an outline `draw_rect`: for each row, the cell in
        column `x`, then the cell in column `x + width - 1`. */
    method DrawSides(x: int, y: int, width: int, height: int, fg: Option<Col>, bg: Option<Col>,
                     ch: Option<char>, font: Option<u8>)
      requires Valid() && (height > 0 && font.Some? ==> (font.value as int) < SetLimit(cfg))
      modifies this
      ensures Painted(old(Model()), Sides(x, y, width, Count(height), RectPaint(cfg, fg, bg, ch, font)))
    {
      ghost var s0 := Model();
      ghost var p := RectPaint(cfg, fg, bg, ch, font);
      var cy := y;
      while cy < y + height
        invariant y <= cy <= y + Count(height)
        invariant Painted(s0, Sides(x, y, width, cy - y, p))
      {
        ghost var done := Sides(x, y, width, cy - y, p);
        RectPair(s0, done, x, cy, x + width - 1, cy, fg, bg, ch, font);
        cy := cy + 1;
      }
    }

    /** `draw_rect_ex`: the same body as `draw_rect`. */
    method DrawRectEx(x: int, y: int, width: int, height: int, filled: bool, fg: Option<Col>,
                      bg: Option<Col>, ch: Option<char>, font: Option<u8>)
      requires Valid()
      requires RectVisits(width, height, filled) && font.Some? ==> (font.value as int) < SetLimit(cfg)
      modifies this
      ensures Valid() && Model() == GridOps.DrawRect(old(Model()), x, y, width, height, filled, fg, bg, ch, font)
    {
      DrawRect(x, y, width, height, filled, fg, bg, ch, font);
    }
  }

  /** The four setter calls of `apply_snapshot` for one entry make one
      repaint with all four fields. */
  lemma SnapCellSetters(s: Screen, x: int, y: int, c: Cell)
    requires Grid.Valid(s) && (c.font as int) < SetLimit(s.cfg)
    ensures SetBg(SetFg(SetSet(SetGlyph(s, x, y, c.glyph), x, y, c.font), x, y, c.fg), x, y, c.bg) ==
            Repaint(s, x, y, FullPaint(c))
  {
    var s1 := Repaint(s, x, y, GlyphPaint(Some(c.glyph)));
    var s2 := Repaint(s1, x, y, SetPaint(Some(c.font)));
    var s3 := Repaint(s2, x, y, FgPaint(Some(c.fg)));
    RepaintFour(s, x, y, GlyphPaint(Some(c.glyph)), SetPaint(Some(c.font)), FgPaint(Some(c.fg)),
                BgPaint(Some(c.bg)));
  }

  /** The `set!` step of `draw_rect` is one repaint with the rectangle's
      paint, on or off the grid. */
  lemma RectCellSetters(s: Screen, x: int, y: int, fg: Option<Col>, bg: Option<Col>,
                        ch: Option<char>, font: Option<u8>)
    requires Grid.Valid(s) && (font.Some? ==> (font.value as int) < SetLimit(s.cfg))
    ensures var s1 := if fg.Some? then SetFg(s, x, y, fg.value) else s;
            var s2 := if bg.Some? then SetBg(s1, x, y, bg.value) else s1;
            var s3 := if ch.Some? then SetChar(s2, x, y, ch.value) else s2;
            var s4 := if font.Some? then SetSet(s3, x, y, font.value) else s3;
            s4 == Repaint(s, x, y, RectPaint(s.cfg, fg, bg, ch, font))
  {
    var s1 := Repaint(s, x, y, FgPaint(fg));
    var s2 := Repaint(s1, x, y, BgPaint(bg));
    var s3 := Repaint(s2, x, y, CharPaint(s.cfg, ch));
    RepaintNothing(s, x, y);
    RepaintNothing(s1, x, y);
    RepaintNothing(s2, x, y);
    RepaintNothing(s3, x, y);
    RepaintFour(s, x, y, FgPaint(fg), BgPaint(bg), CharPaint(s.cfg, ch), SetPaint(font));
  }


  /** The glyph write and the present fg, bg and set overrides of one
      `print_at_set` character make one repaint with all of them. */
  lemma PrintCellSetters(s: Screen, x: int, y: int, b: u8, fg: Option<Col>, bg: Option<Col>,
                         font: Option<u8>)
    requires Grid.Valid(s) && InGrid(s.cfg, x, y)
    requires font.Some? ==> (font.value as int) < SetLimit(s.cfg)
    ensures var s1 := SetGlyph(s, x, y, b);
            var s2 := if fg.Some? then SetFg(s1, x, y, fg.value) else s1;
            var s3 := if bg.Some? then SetBg(s2, x, y, bg.value) else s2;
            var s4 := if font.Some? then SetSet(s3, x, y, font.value) else s3;
            s4 == Repaint(s, x, y, Paint(Some(b), fg, bg, font))
  {
    var s1 := Repaint(s, x, y, GlyphPaint(Some(b)));
    var s2 := Repaint(s1, x, y, FgPaint(fg));
    var s3 := Repaint(s2, x, y, BgPaint(bg));
    RepaintNothing(s1, x, y);
    RepaintNothing(s2, x, y);
    RepaintNothing(s3, x, y);
    RepaintFour(s, x, y, GlyphPaint(Some(b)), FgPaint(fg), BgPaint(bg), SetPaint(font));
  }

  lemma PrintWritesOk(cfg: GridConfig, x: int, y: int, text: seq<char>, fg: Option<Col>,
                      bg: Option<Col>, font: Option<u8>)
    requires ConfigValid(cfg) && PrintFontOk(cfg, x, y, text, font)
    ensures WritesOk(cfg, PrintWrites(cfg, x, y, text, fg, bg, font))
  {
    var ws := PrintWrites(cfg, x, y, text, fg, bg, font);
    forall k | 0 <= k < |ws|
      ensures PaintOkAt(cfg, ws[k].x, ws[k].y, ws[k].p)
    {
      assert ws[k] == Write(x + k, y, PrintPaint(cfg, text[k], fg, bg, font));
    }
  }
}

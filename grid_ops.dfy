/** The multi-cell operations of the grid buffer store, as functions of the
    `Screen` value: text printing (`print_at_set`), rectangles (`draw_rect`),
    `clear` and the floating-glyph pool (`add_instance`).

    Every multi-cell operation is a sequence of single-cell setter groups. It
    is written here as the list of those groups in the order the source's
    loops issue them (`Write`s), executed one after the other by `RepaintAll`;
    `CellAfter` says independently what a list of writes leaves in one cell,
    and `RepaintAllAt` ties the two together. */
module GridOps {
  import opened Bytes
  import opened Codec
  import opened Grid

  // ------------------------------------------------------------ write lists

  /** One group of setter calls aimed at one cell. */
  datatype Write = Write(x: int, y: int, p: Paint)

  predicate WritesOk(cfg: GridConfig, ws: seq<Write>) {
    forall k | 0 <= k < |ws| :: PaintOkAt(cfg, ws[k].x, ws[k].y, ws[k].p)
  }

  /** The writes performed in order. */
  function RepaintAll(s: Screen, ws: seq<Write>): (r: Screen)
    requires Valid(s) && WritesOk(s.cfg, ws)
    ensures Valid(r) && Frame(s, r)
    decreases |ws|
  {
    if ws == [] then s
    else
      var n := |ws| - 1;
      Repaint(RepaintAll(s, ws[..n]), ws[n].x, ws[n].y, ws[n].p)
  }

  /** What the writes leave in cell `(cx, cy)` if it held `c`: every write
      aimed at that cell applies its paint, in order; the others do nothing. */
  function CellAfter(ws: seq<Write>, cx: int, cy: int, c: Cell): Cell
    decreases |ws|
  {
    if ws == [] then c
    else
      var n := |ws| - 1;
      var b := CellAfter(ws[..n], cx, cy, c);
      if ws[n].x == cx && ws[n].y == cy then Apply(ws[n].p, b) else b
  }

  /** Some write of the list is aimed at `(cx, cy)`. */
  predicate Hits(ws: seq<Write>, cx: int, cy: int)
    decreases |ws|
  {
    ws != [] && (Hits(ws[..|ws| - 1], cx, cy) || (ws[|ws| - 1].x == cx && ws[|ws| - 1].y == cy))
  }

  /** Every write of the list carries the paint `p`. */
  predicate Uniform(ws: seq<Write>, p: Paint) {
    forall k | 0 <= k < |ws| :: ws[k].p == p
  }

  /** Executing the writes on the grid changes each cell exactly as
      `CellAfter` says. */
  lemma {:induction false} RepaintAllAt(s: Screen, ws: seq<Write>, cx: int, cy: int)
    requires Valid(s) && WritesOk(s.cfg, ws) && InGrid(s.cfg, cx, cy)
    ensures CellAt(RepaintAll(s, ws), cx, cy) == CellAfter(ws, cx, cy, CellAt(s, cx, cy))
    decreases |ws|
  {
    if ws != [] {
      var n := |ws| - 1;
      RepaintAllAt(s, ws[..n], cx, cy);
      RepaintAt(RepaintAll(s, ws[..n]), ws[n].x, ws[n].y, ws[n].p, cx, cy);
    }
  }

  /** Running two lists one after the other is running their concatenation. */
  lemma {:induction false} RepaintAllAppend(s: Screen, a: seq<Write>, b: seq<Write>)
    requires Valid(s) && WritesOk(s.cfg, a) && WritesOk(s.cfg, b)
    ensures WritesOk(s.cfg, a + b)
    ensures RepaintAll(s, a + b) == RepaintAll(RepaintAll(s, a), b)
    decreases |b|
  {
    if b != [] {
      var n := |b| - 1;
      assert (a + b)[..|a| + n] == a + b[..n];
      RepaintAllAppend(s, a, b[..n]);
    } else {
      assert a + b == a;
    }
  }

  /** A loop that performs the writes one at a time: after the first `n + 1`
      of them the state is the state after the first `n`, repainted once. */
  lemma RepaintAllStep(s: Screen, ws: seq<Write>, n: nat)
    requires Valid(s) && WritesOk(s.cfg, ws) && n < |ws|
    ensures WritesOk(s.cfg, ws[..n]) && WritesOk(s.cfg, ws[..n + 1])
    ensures RepaintAll(s, ws[..n + 1]) == Repaint(RepaintAll(s, ws[..n]), ws[n].x, ws[n].y, ws[n].p)
  {
    assert ws[..n + 1][..n] == ws[..n];
    assert ws[..n + 1][n] == ws[n];
  }

  /** One more write at the end of the list is one more repaint. */
  lemma RepaintAllSnoc(s: Screen, ws: seq<Write>, w: Write)
    requires Valid(s) && WritesOk(s.cfg, ws) && PaintOkAt(s.cfg, w.x, w.y, w.p)
    ensures WritesOk(s.cfg, ws + [w])
    ensures RepaintAll(s, ws + [w]) == Repaint(RepaintAll(s, ws), w.x, w.y, w.p)
  {
    assert (ws + [w])[..|ws|] == ws;
  }

  /** The dirty flag stays raised, and is raised whenever a buffer changed. */
  lemma {:induction false} RepaintAllDirtySound(s: Screen, ws: seq<Write>)
    requires Valid(s) && WritesOk(s.cfg, ws)
    ensures DirtySound(s, RepaintAll(s, ws))
    decreases |ws|
  {
    if ws != [] {
      var n := |ws| - 1;
      var prev := RepaintAll(s, ws[..n]);
      RepaintAllDirtySound(s, ws[..n]);
      RepaintDirtySound(prev, ws[n].x, ws[n].y, ws[n].p);
      DirtySoundTrans(s, prev, RepaintAll(s, ws));
    }
  }

  /** Writes that would store what each cell already holds leave the whole
      state as it was, the dirty flag included. */
  lemma {:induction false} RepaintAllIdle(s: Screen, ws: seq<Write>)
    requires Valid(s) && WritesOk(s.cfg, ws)
    requires forall k | 0 <= k < |ws| && InGrid(s.cfg, ws[k].x, ws[k].y) ::
               Apply(ws[k].p, CellAt(s, ws[k].x, ws[k].y)) == CellAt(s, ws[k].x, ws[k].y)
    ensures RepaintAll(s, ws) == s
    decreases |ws|
  {
    if ws != [] {
      var n := |ws| - 1;
      RepaintAllIdle(s, ws[..n]);
    }
  }

  lemma {:induction false} CellAfterAppend(a: seq<Write>, b: seq<Write>, cx: int, cy: int, c: Cell)
    ensures CellAfter(a + b, cx, cy, c) == CellAfter(b, cx, cy, CellAfter(a, cx, cy, c))
    decreases |b|
  {
    if b == [] {
      assert a + b == a;
    } else {
      var n := |b| - 1;
      assert (a + b)[..|a| + n] == a + b[..n];
      CellAfterAppend(a, b[..n], cx, cy, c);
    }
  }

  lemma {:induction false} HitsAppend(a: seq<Write>, b: seq<Write>, cx: int, cy: int)
    ensures Hits(a + b, cx, cy) <==> Hits(a, cx, cy) || Hits(b, cx, cy)
    decreases |b|
  {
    if b == [] {
      assert a + b == a;
    } else {
      var n := |b| - 1;
      assert (a + b)[..|a| + n] == a + b[..n];
      HitsAppend(a, b[..n], cx, cy);
    }
  }

  /** A cell no write is aimed at keeps its value. */
  lemma {:induction false} CellAfterMiss(ws: seq<Write>, cx: int, cy: int, c: Cell)
    requires !Hits(ws, cx, cy)
    ensures CellAfter(ws, cx, cy, c) == c
    decreases |ws|
  {
    if ws != [] {
      CellAfterMiss(ws[..|ws| - 1], cx, cy, c);
    }
  }

  /** When all writes carry the same paint, a cell is painted once or not at
      all: repeated hits change nothing more. */
  lemma {:induction false} CellAfterUniform(ws: seq<Write>, p: Paint, cx: int, cy: int, c: Cell)
    requires Uniform(ws, p)
    ensures CellAfter(ws, cx, cy, c) == if Hits(ws, cx, cy) then Apply(p, c) else c
    decreases |ws|
  {
    if ws != [] {
      var n := |ws| - 1;
      CellAfterUniform(ws[..n], p, cx, cy, c);
      ApplyTwice(p, c);
    }
  }

  // ---------------------------------------------------------------- printing

  /** What `print_at_set` writes for one character: the glyph byte and the
      present overrides, or nothing at all for a character the codec cannot
      encode. */
  function PrintPaint(cfg: GridConfig, ch: char, fg: Option<Col>, bg: Option<Col>,
                      font: Option<u8>): Paint
    requires ConfigValid(cfg)
  {
    match cfg.codePage.Encode(ch)
    case None => NoPaint
    case Some(b) => Paint(Some(b), fg, bg, font)
  }

  /** The i-th character goes to column `x + i` of row `y`, whether or not it
      is written. */
  function PrintWrites(cfg: GridConfig, x: int, y: int, text: seq<char>, fg: Option<Col>,
                       bg: Option<Col>, font: Option<u8>): (ws: seq<Write>)
    requires ConfigValid(cfg)
    ensures |ws| == |text|
  {
    seq(|text|, i requires 0 <= i < |text| => Write(x + i, y, PrintPaint(cfg, text[i], fg, bg, font)))
  }

  /** `print_at_set` only reaches `set_set_at` for a character it writes, i.e.
      an encodable one on the grid; only there must the font-set be valid. */
  predicate PrintFontOk(cfg: GridConfig, x: int, y: int, text: seq<char>, font: Option<u8>)
    requires ConfigValid(cfg)
  {
    forall i | 0 <= i < |text| && InGrid(cfg, x + i, y) && cfg.codePage.Encode(text[i]).Some? ::
      font.None? || (font.value as int) < SetLimit(cfg)
  }

  /** `print_at_set`: a negative coordinate fails the conversion to `usize`
      and nothing is printed at all. */
  function Print(s: Screen, x: int, y: int, text: seq<char>, fg: Option<Col>, bg: Option<Col>,
                 font: Option<u8>): (r: Screen)
    requires Valid(s) && (x >= 0 && y >= 0 ==> PrintFontOk(s.cfg, x, y, text, font))
    ensures Valid(r) && Frame(s, r) && DirtySound(s, r)
    ensures x < 0 || y < 0 ==> r == s
  {
    if x < 0 || y < 0 then s
    else
      var ws := PrintWrites(s.cfg, x, y, text, fg, bg, font);
      RepaintAllDirtySound(s, ws);
      RepaintAll(s, ws)
  }

  /** What printing leaves in cell `(cx, cy)` that held `c` before. */
  function Printed(cfg: GridConfig, x: int, y: int, text: seq<char>, fg: Option<Col>,
                   bg: Option<Col>, font: Option<u8>, cx: int, cy: int, c: Cell): Cell
    requires ConfigValid(cfg)
  {
    if x >= 0 && y >= 0 && cy == y && x <= cx < x + |text| &&
       cfg.codePage.Encode(text[cx - x]).Some?
    then Apply(Paint(cfg.codePage.Encode(text[cx - x]), fg, bg, font), c)
    else c
  }

  lemma {:induction false} PrintWritesAfter(cfg: GridConfig, x: nat, y: nat, text: seq<char>,
                                            fg: Option<Col>, bg: Option<Col>, font: Option<u8>,
                                            cx: int, cy: int, c: Cell)
    requires ConfigValid(cfg)
    ensures CellAfter(PrintWrites(cfg, x, y, text, fg, bg, font), cx, cy, c) ==
            Printed(cfg, x, y, text, fg, bg, font, cx, cy, c)
    decreases |text|
  {
    if text != [] {
      var n := |text| - 1;
      var ws := PrintWrites(cfg, x, y, text, fg, bg, font);
      assert ws[..n] == PrintWrites(cfg, x, y, text[..n], fg, bg, font);
      PrintWritesAfter(cfg, x, y, text[..n], fg, bg, font, cx, cy, c);
      var b := CellAfter(ws[..n], cx, cy, c);
      assert CellAfter(ws, cx, cy, c) == if cx == x + n && cy == y then Apply(ws[n].p, b) else b;
      if cx == x + n && cy == y {
        assert b == c;
      }
    }
  }

  /** The column rule of `print_at_set`: the character at position i of the
      text lands in column `x + i` of row `y` if it is encodable, carrying the
      overrides; unencodable characters still use up their column; every
      other cell is untouched. */
  lemma PrintAt(s: Screen, x: int, y: int, text: seq<char>, fg: Option<Col>,
                bg: Option<Col>, font: Option<u8>, cx: int, cy: int)
    requires Valid(s) && (x >= 0 && y >= 0 ==> PrintFontOk(s.cfg, x, y, text, font))
    requires InGrid(s.cfg, cx, cy)
    ensures CellAt(Print(s, x, y, text, fg, bg, font), cx, cy) ==
            Printed(s.cfg, x, y, text, fg, bg, font, cx, cy, CellAt(s, cx, cy))
  {
    if x >= 0 && y >= 0 {
      var ws := PrintWrites(s.cfg, x, y, text, fg, bg, font);
      RepaintAllAt(s, ws, cx, cy);
      PrintWritesAfter(s.cfg, x, y, text, fg, bg, font, cx, cy, CellAt(s, cx, cy));
    }
  }

  // -------------------------------------------------------------- rectangles

  function Count(n: int): nat {
    if n < 0 then 0 else n
  }

  /** The fields the `set!` step of `draw_rect` writes: `set_fg_at`,
      `set_bg_at`, `set_char_at` (no glyph for a character the codec cannot
      encode) and `set_set_at`, each only when its option is present. */
  function RectPaint(cfg: GridConfig, fg: Option<Col>, bg: Option<Col>, ch: Option<char>,
                     font: Option<u8>): Paint
    requires ConfigValid(cfg)
  {
    Paint(CharPaint(cfg, ch).glyph, fg, bg, font)
  }

  /** The inner loop of a filled rectangle: rows `y .. y+h-1` of column `cx`. */
  function Column(cx: int, y: int, h: nat, p: Paint): (ws: seq<Write>)
    ensures |ws| == h
  {
    seq(h, j requires 0 <= j < h => Write(cx, y + j, p))
  }

  /** A filled rectangle: the columns `x .. x+i-1` from left to right. */
  function Columns(x: int, y: int, i: nat, h: nat, p: Paint): seq<Write> {
    if i == 0 then [] else Columns(x, y, i - 1, h, p) + Column(x + i - 1, y, h, p)
  }

  /** First loop of an outline: for each of the first `i` columns, the top
      row `y` and then the row `y + h - 1`. */
  function Tops(x: int, y: int, h: int, i: nat, p: Paint): seq<Write> {
    if i == 0 then [] else Tops(x, y, h, i - 1, p) + [Write(x + i - 1, y, p), Write(x + i - 1, y + h - 1, p)]
  }

  /** Second loop of an outline: for each of the first `j` rows, the column
      `x` and then the column `x + w - 1`. */
  function Sides(x: int, y: int, w: int, j: nat, p: Paint): seq<Write> {
    if j == 0 then [] else Sides(x, y, w, j - 1, p) + [Write(x, y + j - 1, p), Write(x + w - 1, y + j - 1, p)]
  }

  /** Growing a column by one row after earlier writes `ws`. */
  lemma ColumnSnoc(ws: seq<Write>, cx: int, y: int, j: nat, p: Paint)
    ensures ws + Column(cx, y, j + 1, p) == ws + Column(cx, y, j, p) + [Write(cx, y + j, p)]
  {
    assert Column(cx, y, j + 1, p) == Column(cx, y, j, p) + [Write(cx, y + j, p)];
  }

  /** Columns of height 0 are no writes at all. */
  lemma {:induction false} ColumnsFlat(x: int, y: int, i: nat, h: nat, p: Paint)
    requires h == 0
    ensures Columns(x, y, i, h, p) == []
  {
    if i > 0 {
      ColumnsFlat(x, y, i - 1, h, p);
    }
  }

  function RectWrites(x: int, y: int, w: int, h: int, filled: bool, p: Paint): seq<Write> {
    if filled then Columns(x, y, Count(w), Count(h), p)
    else Tops(x, y, h, Count(w), p) + Sides(x, y, w, Count(h), p)
  }

  /** Whether `draw_rect` issues a `set!` at all (and so reaches the font-set
      assertion when a font-set is given, on or off the grid). */
  predicate RectVisits(w: int, h: int, filled: bool) {
    if filled then w > 0 && h > 0 else w > 0 || h > 0
  }

  /** The cells an outline's two loops visit, for any width and height. */
  predicate OnOutline(x: int, y: int, w: int, h: int, cx: int, cy: int) {
    (x <= cx < x + w && (cy == y || cy == y + h - 1)) ||
    (y <= cy < y + h && (cx == x || cx == x + w - 1))
  }

  predicate Covered(x: int, y: int, w: int, h: int, filled: bool, cx: int, cy: int) {
    if filled then x <= cx < x + w && y <= cy < y + h else OnOutline(x, y, w, h, cx, cy)
  }

  lemma {:induction false} ColumnHits(cx0: int, y: int, h: nat, p: Paint, cx: int, cy: int)
    ensures Uniform(Column(cx0, y, h, p), p)
    ensures Hits(Column(cx0, y, h, p), cx, cy) <==> cx == cx0 && y <= cy < y + h
  {
    if h > 0 {
      assert Column(cx0, y, h, p)[..h - 1] == Column(cx0, y, h - 1, p);
      ColumnHits(cx0, y, h - 1, p, cx, cy);
    }
  }

  lemma {:induction false} ColumnsHits(x: int, y: int, i: nat, h: nat, p: Paint, cx: int, cy: int)
    ensures Uniform(Columns(x, y, i, h, p), p)
    ensures Hits(Columns(x, y, i, h, p), cx, cy) <==> x <= cx < x + i && y <= cy < y + h
  {
    if i > 0 {
      ColumnsHits(x, y, i - 1, h, p, cx, cy);
      ColumnHits(x + i - 1, y, h, p, cx, cy);
      HitsAppend(Columns(x, y, i - 1, h, p), Column(x + i - 1, y, h, p), cx, cy);
    }
  }

  lemma PairHits(a: Write, b: Write, cx: int, cy: int)
    ensures Hits([a, b], cx, cy) <==> (a.x == cx && a.y == cy) || (b.x == cx && b.y == cy)
  {
    assert [a, b][..1] == [a];
    assert [a][..0] == [];
    assert !Hits([], cx, cy);
    assert Hits([a], cx, cy) <==> a.x == cx && a.y == cy;
  }

  lemma {:induction false} TopsHits(x: int, y: int, h: int, i: nat, p: Paint, cx: int, cy: int)
    ensures Uniform(Tops(x, y, h, i, p), p)
    ensures Hits(Tops(x, y, h, i, p), cx, cy) <==>
            x <= cx < x + i && (cy == y || cy == y + h - 1)
  {
    if i > 0 {
      var pair := [Write(x + i - 1, y, p), Write(x + i - 1, y + h - 1, p)];
      TopsHits(x, y, h, i - 1, p, cx, cy);
      HitsAppend(Tops(x, y, h, i - 1, p), pair, cx, cy);
      PairHits(pair[0], pair[1], cx, cy);
    }
  }

  lemma {:induction false} SidesHits(x: int, y: int, w: int, j: nat, p: Paint, cx: int, cy: int)
    ensures Uniform(Sides(x, y, w, j, p), p)
    ensures Hits(Sides(x, y, w, j, p), cx, cy) <==>
            y <= cy < y + j && (cx == x || cx == x + w - 1)
  {
    if j > 0 {
      var pair := [Write(x, y + j - 1, p), Write(x + w - 1, y + j - 1, p)];
      SidesHits(x, y, w, j - 1, p, cx, cy);
      HitsAppend(Sides(x, y, w, j - 1, p), pair, cx, cy);
      PairHits(pair[0], pair[1], cx, cy);
    }
  }

  /** The loops of `draw_rect` aim exactly at the covered cells, all with the
      same paint. */
  lemma RectWritesHits(x: int, y: int, w: int, h: int, filled: bool, p: Paint, cx: int, cy: int)
    ensures Uniform(RectWrites(x, y, w, h, filled, p), p)
    ensures Hits(RectWrites(x, y, w, h, filled, p), cx, cy) <==> Covered(x, y, w, h, filled, cx, cy)
  {
    if filled {
      ColumnsHits(x, y, Count(w), Count(h), p, cx, cy);
    } else {
      TopsHits(x, y, h, Count(w), p, cx, cy);
      SidesHits(x, y, w, Count(h), p, cx, cy);
      HitsAppend(Tops(x, y, h, Count(w), p), Sides(x, y, w, Count(h), p), cx, cy);
    }
  }

  /** `draw_rect` (and `draw_rect_ex`, which has the same body). The font-set
      assertion fires on the first `set!` when a font-set is given, whether or
      not the cell is on the grid. */
  function DrawRect(s: Screen, x: int, y: int, w: int, h: int, filled: bool, fg: Option<Col>,
                    bg: Option<Col>, ch: Option<char>, font: Option<u8>): (r: Screen)
    requires Valid(s)
    requires RectVisits(w, h, filled) && font.Some? ==> (font.value as int) < SetLimit(s.cfg)
    ensures Valid(r) && Frame(s, r) && DirtySound(s, r)
    ensures !RectVisits(w, h, filled) ==> r == s
  {
    if !RectVisits(w, h, filled) then s
    else
      var p := RectPaint(s.cfg, fg, bg, ch, font);
      var ws := RectWrites(x, y, w, h, filled, p);
      RectWritesHits(x, y, w, h, filled, p, 0, 0);
      RepaintAllDirtySound(s, ws);
      RepaintAll(s, ws)
  }

  /** For a proper rectangle the outline is its border: the cells of the
      rectangle on its first or last row or column. */
  lemma OutlineIsBorder(x: int, y: int, w: int, h: int, cx: int, cy: int)
    requires w >= 1 && h >= 1
    ensures OnOutline(x, y, w, h, cx, cy) <==>
            x <= cx < x + w && y <= cy < y + h &&
            (cy == y || cy == y + h - 1 || cx == x || cx == x + w - 1)
  {
  }

  /** `draw_rect`, cell by cell: a filled rectangle applies every given option
      to each cell of `[x, x+w) x [y, y+h)`, an outline to exactly the cells on
      its rows `y`, `y+h-1` and columns `x`, `x+w-1`; all other cells keep
      their value. */
  lemma DrawRectAt(s: Screen, x: int, y: int, w: int, h: int, filled: bool, fg: Option<Col>,
                   bg: Option<Col>, ch: Option<char>, font: Option<u8>, cx: int, cy: int)
    requires Valid(s)
    requires RectVisits(w, h, filled) && font.Some? ==> (font.value as int) < SetLimit(s.cfg)
    requires InGrid(s.cfg, cx, cy)
    ensures CellAt(DrawRect(s, x, y, w, h, filled, fg, bg, ch, font), cx, cy) ==
            if Covered(x, y, w, h, filled, cx, cy)
            then Apply(RectPaint(s.cfg, fg, bg, ch, font), CellAt(s, cx, cy))
            else CellAt(s, cx, cy)
  {
    if RectVisits(w, h, filled) {
      var p := RectPaint(s.cfg, fg, bg, ch, font);
      var ws := RectWrites(x, y, w, h, filled, p);
      RectWritesHits(x, y, w, h, filled, p, cx, cy);
      RepaintAllAt(s, ws, cx, cy);
      CellAfterUniform(ws, p, cx, cy, CellAt(s, cx, cy));
    }
  }

  /** `draw_rect` with every option `None` changes nothing, not even the
      dirty flag. */
  lemma DrawRectNothing(s: Screen, x: int, y: int, w: int, h: int, filled: bool)
    requires Valid(s)
    ensures DrawRect(s, x, y, w, h, filled, None, None, None, None) == s
  {
    if RectVisits(w, h, filled) {
      var ws := RectWrites(x, y, w, h, filled, NoPaint);
      RectWritesHits(x, y, w, h, filled, NoPaint, 0, 0);
      RepaintAllIdle(s, ws);
    }
  }

  // ------------------------------------------------------------------- clear

  /** `clear`: all four buffers zeroed at their lengths, the pool emptied,
      dirty raised unconditionally. */
  function Clear(s: Screen): (r: Screen)
    requires Valid(s)
    ensures Valid(r) && r.cfg == s.cfg && r.instances == s.instances
    ensures r.count == 0 && r.dirty && DirtySound(s, r)
    ensures forall cx, cy | InGrid(r.cfg, cx, cy) :: CellAt(r, cx, cy) == Blank
  {
    s.(glyphs := Zeros(|s.glyphs|), fg := Transparents(|s.fg|), bg := Transparents(|s.bg|),
       sets := Zeros(|s.sets|), count := 0, dirty := true)
  }

  // ----------------------------------------------------------- instance pool

  /** `add_instance`: stores `d` in slot `count` and advances the cursor when
      a slot is free; otherwise reports failure and changes nothing. */
  function AddInstance(s: Screen, d: Instance): (res: (Screen, bool))
    requires Valid(s)
    ensures Valid(res.0) && res.0.cfg == s.cfg && DirtySound(s, res.0)
    ensures res.0.glyphs == s.glyphs && res.0.fg == s.fg && res.0.bg == s.bg && res.0.sets == s.sets
    ensures res.1 <==> s.count < |s.instances|
    ensures res.1 ==> res.0.count == s.count + 1 && res.0.dirty &&
                      res.0.instances == s.instances[s.count := d]
    ensures !res.1 ==> res.0 == s
  {
    if s.count < |s.instances| then
      (s.(instances := s.instances[s.count := d], count := s.count + 1, dirty := true), true)
    else (s, false)
  }

  /** Adding a sequence of instances one after the other; the results of the
      individual calls in order. */
  function AddAll(s: Screen, ds: seq<Instance>): (res: (Screen, seq<bool>))
    requires Valid(s)
    ensures Valid(res.0) && res.0.cfg == s.cfg && |res.1| == |ds|
    ensures |res.0.instances| == |s.instances|
    decreases |ds|
  {
    if ds == [] then (s, [])
    else
      var (t, ok) := AddInstance(s, ds[0]);
      var (r, oks) := AddAll(t, ds[1..]);
      (r, [ok] + oks)
  }

  /** The pool saturates: starting from `count`, exactly the first
      `capacity - count` additions succeed, they fill consecutive slots, and
      every later addition fails. */
  lemma {:induction false} PoolSaturates(s: Screen, ds: seq<Instance>)
    requires Valid(s)
    ensures var (r, oks) := AddAll(s, ds);
      && (forall k | 0 <= k < |ds| :: oks[k] <==> s.count + k < |s.instances|)
      && r.count == (if s.count + |ds| <= |s.instances| then s.count + |ds| else |s.instances|)
      && (forall k | 0 <= k < |ds| && s.count + k < |s.instances| :: r.instances[s.count + k] == ds[k])
      && (forall k | 0 <= k < s.count :: r.instances[k] == s.instances[k])
    decreases |ds|
  {
    if ds != [] {
      var (t, ok) := AddInstance(s, ds[0]);
      PoolSaturates(t, ds[1..]);
      var (r, oks) := AddAll(t, ds[1..]);
      assert AddAll(s, ds) == (r, [ok] + oks);
      if ok {
        forall k | 1 <= k < |ds| && s.count + k < |s.instances|
          ensures r.instances[s.count + k] == ds[k]
        {
          assert ds[1..][k - 1] == ds[k];
        }
      }
    }
  }

  /** After `clear`, the next addition succeeds (given any capacity) and goes
      to slot 0. */
  lemma ClearThenAdd(s: Screen, d: Instance)
    requires Valid(s) && |s.instances| > 0
    ensures AddInstance(Clear(s), d).1 && AddInstance(Clear(s), d).0.instances[0] == d
    ensures AddInstance(Clear(s), d).0.count == 1
  {
  }
}

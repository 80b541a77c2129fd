/** The grid buffer store: four parallel flat byte buffers (glyph indices,
    foreground RGBA, background RGBA, font-set selector) indexed row-major by
    `x + y*width` (the two colour buffers hold four RGBA bytes per cell; the
    model keeps those four bytes as one `Col`), the dirty flag, and the fixed-capacity pool of floating
    glyphs. This module holds the value-level view of that state (`Screen`) and
    the single-cell mutation every setter performs; the `Window` class keeps the
    same state in fields and is proved against these functions. */
module Grid {
  import opened Bytes
  import opened Codec

  /** The two `f32` coordinates of a floating glyph, kept as raw bit patterns:
      nothing in the core computes with them. */
  datatype Position = Position(xBits: bv32, yBits: bv32)

  /** `InstanceData`: a glyph drawn at a free position; `set` and `glyph` are the
      two bytes of its `set_char` field. */
  datatype Instance = Instance(position: Position, font: u8, glyph: u8, fg: Col, bg: Col)

  /** `InstanceData::zeroed()`, the value every pool slot starts with. */
  const ZeroInstance := Instance(Position(0, 0), 0, 0, Transparent, Transparent)

  /** `InstanceData::new`: the glyph byte is the code page's first slot
      holding `ch` (the source unwraps the encoding, so a character outside
      the code page is a panic); everything else is stored as given. */
  function InstanceNew(cp: CodePage, ch: char, fg: Col, bg: Col, position: Position, font: u8): (r: Instance)
    requires cp.Valid() && ch in cp.table
    ensures r.position == position && r.font == font && r.fg == fg && r.bg == bg
    ensures cp.Decode(r.glyph) == ch
    ensures forall g: u8 | cp.Decode(g) == ch :: r.glyph <= g
  {
    Instance(position, font, CharToByte(cp, ch), fg, bg)
  }

  /** What is fixed when the window is created: the grid size in cells, the
      depth of the glyph-atlas array (one layer per configured font) and the
      glyph codec. */
  datatype GridConfig = GridConfig(width: nat, height: nat, layers: nat, codePage: CodePage)

  predicate ConfigValid(cfg: GridConfig) {
    cfg.layers >= 1 && cfg.codePage.Valid()
  }

  /** `a * b`, kept behind a recursive definition so that the solver meets the
      product of the grid's dimensions only where a proof asks for it. */
  function Mul(a: nat, b: nat): nat {
    if a == 0 then 0 else b + Mul(a - 1, b)
  }

  lemma {:induction false} MulIs(a: nat, b: nat)
    ensures Mul(a, b) == a * b
  {
    if a > 0 {
      MulIs(a - 1, b);
    }
  }

  /** Number of cells. */
  function Area(cfg: GridConfig): nat {
    Mul(cfg.height, cfg.width)
  }

  /** `set_set_at` compares against the layer count cast to `u8`, so the bound
      it enforces is the layer count modulo 256. */
  function SetLimit(cfg: GridConfig): nat {
    cfg.layers % 256
  }

  /** One grid cell as seen through the four buffers. */
  datatype Cell = Cell(glyph: u8, fg: Col, bg: Col, font: u8)

  /** What `clear` leaves in every cell. */
  const Blank := Cell(0, Transparent, Transparent, 0)

  /** The CPU-side state of a window. `count` is `instance_count`; the pool's
      capacity is `|instances|`, fixed at creation. */
  datatype Screen = Screen(cfg: GridConfig,
                           glyphs: seq<u8>, fg: seq<Col>, bg: seq<Col>, sets: seq<u8>,
                           dirty: bool, instances: seq<Instance>, count: nat)

  /** The store's invariant: buffer lengths match the grid, the live-count
      cursor stays within the pool, and every font-set byte is the initial 0
      or one that `set_set_at` accepted, i.e. below the layer count as `u8`. */
  predicate Valid(s: Screen) {
    && ConfigValid(s.cfg)
    && |s.glyphs| == Area(s.cfg) && |s.sets| == Area(s.cfg)
    && |s.fg| == Area(s.cfg) && |s.bg| == Area(s.cfg)
    && s.count <= |s.instances|
    && forall k | 0 <= k < |s.sets| :: s.sets[k] == 0 || s.sets[k] as int < SetLimit(s.cfg)
  }

  /** The freshly created window: all buffers zero, clean, empty pool. */
  function Fresh(cfg: GridConfig, capacity: nat): (s: Screen)
    requires ConfigValid(cfg)
    ensures Valid(s) && !s.dirty && s.count == 0 && |s.instances| == capacity
  {
    Screen(cfg, Zeros(Area(cfg)), Transparents(Area(cfg)), Transparents(Area(cfg)), Zeros(Area(cfg)),
           false, seq(capacity, _ => ZeroInstance), 0)
  }

  function Zeros(n: nat): (z: seq<u8>)
    ensures |z| == n && forall k | 0 <= k < n :: z[k] == 0
  {
    seq(n, _ => 0)
  }

  /** `n` zeroed colours: the RGBA bytes all 0, i.e. transparent black. */
  function Transparents(n: nat): (z: seq<Col>)
    ensures |z| == n && forall k | 0 <= k < n :: z[k] == Transparent
  {
    seq(n, _ => Transparent)
  }

  /** The colours of an RGBA byte buffer: bytes `4i .. 4i+3` are the red,
      green, blue and alpha channels of colour `i`. */
  function ColorsOf(bytes: seq<u8>): (cs: seq<Col>)
    ensures |cs| == |bytes| / 4
  {
    seq(|bytes| / 4, i requires 0 <= i < |bytes| / 4 =>
      Col(bytes[4 * i], bytes[4 * i + 1], bytes[4 * i + 2], bytes[4 * i + 3]))
  }

  /** `copy_from_slice` of a colour into bytes `4i .. 4i+3`. */
  function WriteColor(bytes: seq<u8>, i: nat, c: Col): (r: seq<u8>)
    requires 4 * i + 4 <= |bytes|
  {
    bytes[4 * i := c.r][4 * i + 1 := c.g][4 * i + 2 := c.b][4 * i + 3 := c.a]
  }

  /** Writing four bytes changes exactly one decoded colour, and leaves every
      byte outside `4i .. 4i+3` as it was. */
  lemma ColorsOfWrite(bytes: seq<u8>, i: nat, c: Col)
    requires 4 * i + 4 <= |bytes|
    ensures |WriteColor(bytes, i, c)| == |bytes|
    ensures forall k | 0 <= k < |bytes| && !(4 * i <= k < 4 * i + 4) :: WriteColor(bytes, i, c)[k] == bytes[k]
    ensures ColorsOf(WriteColor(bytes, i, c)) == ColorsOf(bytes)[i := c]
  {
    var r := WriteColor(bytes, i, c);
    assert |r| / 4 == |bytes| / 4;
    forall j | 0 <= j < |bytes| / 4
      ensures ColorsOf(r)[j] == ColorsOf(bytes)[i := c][j]
    {
      if j != i {
        assert r[4 * j] == bytes[4 * j] && r[4 * j + 1] == bytes[4 * j + 1];
        assert r[4 * j + 2] == bytes[4 * j + 2] && r[4 * j + 3] == bytes[4 * j + 3];
      }
    }
  }

  /** Bytes `4i .. 4i+3` that already spell `c` decode to `c`, and writing
      `c` over them changes nothing. */
  lemma WriteSameColor(bytes: seq<u8>, i: nat, c: Col)
    requires 4 * i + 4 <= |bytes| && bytes[4 * i..4 * i + 4] == [c.r, c.g, c.b, c.a]
    ensures ColorsOf(bytes)[i] == c && WriteColor(bytes, i, c) == bytes
  {
    var q := bytes[4 * i..4 * i + 4];
    assert q[0] == bytes[4 * i] && q[1] == bytes[4 * i + 1];
    assert q[2] == bytes[4 * i + 2] && q[3] == bytes[4 * i + 3];
  }

  /** A zero-filled RGBA buffer decodes to transparent black everywhere. */
  lemma ColorsOfZeros(n: nat)
    ensures ColorsOf(Zeros(4 * n)) == Transparents(n)
  {
  }

  predicate InGrid(cfg: GridConfig, x: int, y: int) {
    0 <= x < cfg.width && 0 <= y < cfg.height
  }

  lemma MulMono(a: int, b: int, c: int)
    requires a <= b && 0 <= c
    ensures a * c <= b * c
  {
  }

  /** Row-major layout: `x + y*w` addresses a cell inside the buffers ... */
  lemma IndexBound(x: int, y: int, w: nat, h: nat)
    requires 0 <= x < w && 0 <= y < h
    ensures 0 <= x + Mul(y, w) < Mul(h, w)
  {
    MulIs(y, w);
    MulIs(h, w);
    MulMono(y, h - 1, w);
    MulMono(0, y, w);
  }

  /** ... and distinct cells have distinct indices. */
  lemma IndexInjective(x1: int, y1: int, x2: int, y2: int, w: int)
    requires 0 <= x1 < w && 0 <= x2 < w && 0 <= y1 && 0 <= y2
    requires x1 + y1 * w == x2 + y2 * w
    ensures x1 == x2 && y1 == y2
  {
    if y1 < y2 {
      MulMono(y1 + 1, y2, w);
      assert false;
    } else if y2 < y1 {
      MulMono(y2 + 1, y1, w);
      assert false;
    }
  }

  /** The cell index `x + y*width` of an on-grid coordinate. */
  function Index(cfg: GridConfig, x: int, y: int): (i: nat)
    requires InGrid(cfg, x, y)
    ensures i < Area(cfg)
  {
    IndexBound(x, y, cfg.width, cfg.height);
    x + Mul(y, cfg.width)
  }

  lemma IndexOneToOne(cfg: GridConfig, x1: int, y1: int, x2: int, y2: int)
    requires InGrid(cfg, x1, y1) && InGrid(cfg, x2, y2)
    ensures Index(cfg, x1, y1) == Index(cfg, x2, y2) <==> x1 == x2 && y1 == y2
  {
    MulIs(y1, cfg.width);
    MulIs(y2, cfg.width);
    if Index(cfg, x1, y1) == Index(cfg, x2, y2) {
      IndexInjective(x1, y1, x2, y2, cfg.width);
    }
  }

  /** The cell at an on-grid coordinate. */
  function CellAt(s: Screen, x: int, y: int): Cell
    requires Valid(s) && InGrid(s.cfg, x, y)
  {
    var i := Index(s.cfg, x, y);
    Cell(s.glyphs[i], s.fg[i], s.bg[i], s.sets[i])
  }

  /** Which of a cell's four fields a group of setter calls writes, and with what. */
  datatype Paint = Paint(glyph: Option<u8>, fg: Option<Col>, bg: Option<Col>, font: Option<u8>)

  const NoPaint := Paint(None, None, None, None)

  function Apply(p: Paint, c: Cell): Cell {
    Cell(p.glyph.GetOr(c.glyph), p.fg.GetOr(c.fg), p.bg.GetOr(c.bg), p.font.GetOr(c.font))
  }

  /** Applying the same paint twice is applying it once. */
  lemma ApplyTwice(p: Paint, c: Cell)
    ensures Apply(p, Apply(p, c)) == Apply(p, c)
  {
  }

  /** Two consecutive, possibly skipped, applications of one paint: the cell is
      painted exactly when either step hit it. */
  lemma ApplyStep(p: Paint, c0: Cell, c1: Cell, c2: Cell, a: bool, b: bool)
    requires c1 == if a then Apply(p, c0) else c0
    requires c2 == if b then Apply(p, c1) else c1
    ensures c2 == if a || b then Apply(p, c0) else c0
  {
    ApplyTwice(p, c0);
  }

  /** Two groups of setter calls that write different fields. */
  predicate Disjoint(p: Paint, q: Paint) {
    (p.glyph.None? || q.glyph.None?) && (p.fg.None? || q.fg.None?) &&
    (p.bg.None? || q.bg.None?) && (p.font.None? || q.font.None?)
  }

  /** `p` followed by `q`. */
  function Merge(p: Paint, q: Paint): Paint {
    Paint(if q.glyph.Some? then q.glyph else p.glyph, if q.fg.Some? then q.fg else p.fg,
          if q.bg.Some? then q.bg else p.bg, if q.font.Some? then q.font else p.font)
  }

  /** A paint whose font-set write would pass `set_set_at`'s assertion. */
  predicate PaintOk(cfg: GridConfig, p: Paint) {
    p.font.None? || (p.font.value as int) < SetLimit(cfg)
  }

  /** A paint aimed at `(x, y)` that the store can take: only an on-grid write
      stores its font-set byte. */
  predicate PaintOkAt(cfg: GridConfig, x: int, y: int, p: Paint) {
    InGrid(cfg, x, y) ==> PaintOk(cfg, p)
  }

  /** The configuration and the instance pool are untouched. */
  predicate Frame(s: Screen, r: Screen) {
    r.cfg == s.cfg && r.instances == s.instances && r.count == s.count
  }

  /** Something the GPU must see has changed. */
  predicate Changed(s: Screen, r: Screen) {
    s.glyphs != r.glyphs || s.fg != r.fg || s.bg != r.bg || s.sets != r.sets ||
    s.instances != r.instances || s.count != r.count
  }

  /** The dirty flag is never lowered, and is raised whenever something changed. */
  predicate DirtySound(s: Screen, r: Screen) {
    (s.dirty ==> r.dirty) && (Changed(s, r) ==> r.dirty)
  }

  lemma DirtySoundTrans(a: Screen, b: Screen, c: Screen)
    requires DirtySound(a, b) && DirtySound(b, c)
    ensures DirtySound(a, c)
  {
  }

  /** The bounds-checked single-cell write every setter performs: off-grid
      coordinates change nothing; on the grid, the painted fields are stored and
      the dirty flag is raised only if the cell's value actually changed. */
  function Repaint(s: Screen, x: int, y: int, p: Paint): (r: Screen)
    requires Valid(s) && PaintOkAt(s.cfg, x, y, p)
    ensures Valid(r) && Frame(s, r)
    ensures !InGrid(s.cfg, x, y) ==> r == s
    ensures r.dirty == (s.dirty || (InGrid(s.cfg, x, y) && Apply(p, CellAt(s, x, y)) != CellAt(s, x, y)))
  {
    if !InGrid(s.cfg, x, y) then s
    else
      var i := Index(s.cfg, x, y);
      var c := CellAt(s, x, y);
      var n := Apply(p, c);
      if n == c then s
      else s.(glyphs := s.glyphs[i := n.glyph], fg := s.fg[i := n.fg],
               bg := s.bg[i := n.bg], sets := s.sets[i := n.font], dirty := true)
  }

  /** For one repaint the dirty flag is exact: it ends up set precisely when
      it was already set or some buffer changed. */
  lemma RepaintDirty(s: Screen, x: int, y: int, p: Paint)
    requires Valid(s) && PaintOkAt(s.cfg, x, y, p)
    ensures Repaint(s, x, y, p).dirty == (s.dirty || Changed(s, Repaint(s, x, y, p)))
  {
    var r := Repaint(s, x, y, p);
    if InGrid(s.cfg, x, y) && Apply(p, CellAt(s, x, y)) != CellAt(s, x, y) {
      var i := Index(s.cfg, x, y);
      var n := Apply(p, CellAt(s, x, y));
      if n.glyph != s.glyphs[i] {
        assert r.glyphs[i] != s.glyphs[i];
      } else if n.fg != s.fg[i] {
        assert r.fg[i] != s.fg[i];
      } else if n.bg != s.bg[i] {
        assert r.bg[i] != s.bg[i];
      } else {
        assert r.sets[i] != s.sets[i];
      }
    }
  }

  lemma RepaintDirtySound(s: Screen, x: int, y: int, p: Paint)
    requires Valid(s) && PaintOkAt(s.cfg, x, y, p)
    ensures DirtySound(s, Repaint(s, x, y, p))
  {
    RepaintDirty(s, x, y, p);
  }

  /** A repaint changes the addressed cell to `Apply(p, old cell)` and no other cell. */
  lemma RepaintAt(s: Screen, x: int, y: int, p: Paint, cx: int, cy: int)
    requires Valid(s) && PaintOkAt(s.cfg, x, y, p) && InGrid(s.cfg, cx, cy)
    ensures CellAt(Repaint(s, x, y, p), cx, cy) ==
            if cx == x && cy == y then Apply(p, CellAt(s, cx, cy)) else CellAt(s, cx, cy)
  {
    if InGrid(s.cfg, x, y) {
      var i, j := Index(s.cfg, x, y), Index(s.cfg, cx, cy);
      IndexOneToOne(s.cfg, x, y, cx, cy);
    }
  }

  /** Painting nothing is the identity, dirty flag included. */
  lemma RepaintNothing(s: Screen, x: int, y: int)
    requires Valid(s)
    ensures Repaint(s, x, y, NoPaint) == s
  {
  }

  /** Two setter calls on the same cell that write different fields act as one
      repaint with both fields: this is why the source's differing call orders
      (glyph before colours in `print_at_set`, colours before glyph in
      `draw_rect`, ...) all yield the same state. */
  lemma RepaintTwice(s: Screen, x: int, y: int, p: Paint, q: Paint)
    requires Valid(s) && PaintOkAt(s.cfg, x, y, p) && PaintOkAt(s.cfg, x, y, q) && Disjoint(p, q)
    ensures PaintOkAt(s.cfg, x, y, Merge(p, q))
    ensures Repaint(Repaint(s, x, y, p), x, y, q) == Repaint(s, x, y, Merge(p, q))
  {
    if InGrid(s.cfg, x, y) {
      var i := Index(s.cfg, x, y);
      var c := CellAt(s, x, y);
      var s1 := Repaint(s, x, y, p);
      RepaintAt(s, x, y, p, x, y);
      var n1 := Apply(p, c);
      var n2 := Apply(q, n1);
      assert n2 == Apply(Merge(p, q), c);
      if n1 != c && n2 != n1 {
        assert n2 != c;
        assert s.fg[i := n1.fg][i := n2.fg] == s.fg[i := n2.fg];
        assert s.bg[i := n1.bg][i := n2.bg] == s.bg[i := n2.bg];
        assert s.glyphs[i := n1.glyph][i := n2.glyph] == s.glyphs[i := n2.glyph];
        assert s.sets[i := n1.font][i := n2.font] == s.sets[i := n2.font];
      }
    }
  }

  /** Three setter calls on one cell writing different fields. */
  lemma RepaintThree(s: Screen, x: int, y: int, p: Paint, q: Paint, t: Paint)
    requires Valid(s) && PaintOkAt(s.cfg, x, y, p) && PaintOkAt(s.cfg, x, y, q) && PaintOkAt(s.cfg, x, y, t)
    requires Disjoint(p, q) && Disjoint(Merge(p, q), t)
    ensures PaintOkAt(s.cfg, x, y, Merge(Merge(p, q), t))
    ensures Repaint(Repaint(Repaint(s, x, y, p), x, y, q), x, y, t) == Repaint(s, x, y, Merge(Merge(p, q), t))
  {
    RepaintTwice(s, x, y, p, q);
    RepaintTwice(s, x, y, Merge(p, q), t);
  }

  /** Four setter calls on one cell writing different fields. */
  lemma RepaintFour(s: Screen, x: int, y: int, p: Paint, q: Paint, t: Paint, u: Paint)
    requires Valid(s) && PaintOkAt(s.cfg, x, y, p) && PaintOkAt(s.cfg, x, y, q)
    requires PaintOkAt(s.cfg, x, y, t) && PaintOkAt(s.cfg, x, y, u)
    requires Disjoint(p, q) && Disjoint(Merge(p, q), t) && Disjoint(Merge(Merge(p, q), t), u)
    ensures PaintOkAt(s.cfg, x, y, Merge(Merge(Merge(p, q), t), u))
    ensures Repaint(Repaint(Repaint(Repaint(s, x, y, p), x, y, q), x, y, t), x, y, u) ==
            Repaint(s, x, y, Merge(Merge(Merge(p, q), t), u))
  {
    RepaintThree(s, x, y, p, q, t);
    RepaintTwice(s, x, y, Merge(Merge(p, q), t), u);
  }

  function FgPaint(c: Option<Col>): Paint { Paint(None, c, None, None) }
  function BgPaint(c: Option<Col>): Paint { Paint(None, None, c, None) }
  function GlyphPaint(b: Option<u8>): Paint { Paint(b, None, None, None) }
  function SetPaint(v: Option<u8>): Paint { Paint(None, None, None, v) }

  /** `set_fg_at`: writes exactly the colour of cell `x + y*w` (bytes
      `(x + y*w)*4 ..+4`) of the foreground buffer when `(x, y)` is on the grid; dirty only on a change. */
  function SetFg(s: Screen, x: int, y: int, c: Col): (r: Screen)
    requires Valid(s)
    ensures Valid(r) && Frame(s, r)
    ensures !InGrid(s.cfg, x, y) ==> r == s
    ensures InGrid(s.cfg, x, y) ==>
      && r.fg == s.fg[Index(s.cfg, x, y) := c]
      && r.glyphs == s.glyphs && r.bg == s.bg && r.sets == s.sets
      && r.dirty == (s.dirty || s.fg[Index(s.cfg, x, y)] != c)
  {
    var r := Repaint(s, x, y, FgPaint(Some(c)));
    if InGrid(s.cfg, x, y) then
      var i := Index(s.cfg, x, y);
      assert s.fg[i := s.fg[i]] == s.fg && s.bg[i := s.bg[i]] == s.bg;
      assert s.glyphs[i := s.glyphs[i]] == s.glyphs && s.sets[i := s.sets[i]] == s.sets;
      r
    else r
  }

  /** `set_bg_at`: the same on the background buffer. */
  function SetBg(s: Screen, x: int, y: int, c: Col): (r: Screen)
    requires Valid(s)
    ensures Valid(r) && Frame(s, r)
    ensures !InGrid(s.cfg, x, y) ==> r == s
    ensures InGrid(s.cfg, x, y) ==>
      && r.bg == s.bg[Index(s.cfg, x, y) := c]
      && r.glyphs == s.glyphs && r.fg == s.fg && r.sets == s.sets
      && r.dirty == (s.dirty || s.bg[Index(s.cfg, x, y)] != c)
  {
    var r := Repaint(s, x, y, BgPaint(Some(c)));
    if InGrid(s.cfg, x, y) then
      var i := Index(s.cfg, x, y);
      assert s.fg[i := s.fg[i]] == s.fg && s.bg[i := s.bg[i]] == s.bg;
      assert s.glyphs[i := s.glyphs[i]] == s.glyphs && s.sets[i := s.sets[i]] == s.sets;
      r
    else r
  }

  /** `set_char_at_bin`: writes the one glyph byte at `x + y*w`. */
  function SetGlyph(s: Screen, x: int, y: int, b: u8): (r: Screen)
    requires Valid(s)
    ensures Valid(r) && Frame(s, r)
    ensures !InGrid(s.cfg, x, y) ==> r == s
    ensures InGrid(s.cfg, x, y) ==>
      && r.glyphs == s.glyphs[Index(s.cfg, x, y) := b]
      && r.fg == s.fg && r.bg == s.bg && r.sets == s.sets
      && r.dirty == (s.dirty || s.glyphs[Index(s.cfg, x, y)] != b)
  {
    var r := Repaint(s, x, y, GlyphPaint(Some(b)));
    if InGrid(s.cfg, x, y) then
      var i := Index(s.cfg, x, y);
      assert s.fg[i := s.fg[i]] == s.fg && s.bg[i := s.bg[i]] == s.bg;
      assert s.glyphs[i := s.glyphs[i]] == s.glyphs && s.sets[i := s.sets[i]] == s.sets;
      r
    else r
  }

  /** `set_set_at`: writes the one font-set byte at `x + y*w`. The source
      asserts `value < layers as u8` before the bounds test, so the
      precondition holds even for off-grid calls. */
  function SetSet(s: Screen, x: int, y: int, v: u8): (r: Screen)
    requires Valid(s) && (v as int) < SetLimit(s.cfg)
    ensures Valid(r) && Frame(s, r)
    ensures !InGrid(s.cfg, x, y) ==> r == s
    ensures InGrid(s.cfg, x, y) ==>
      && r.sets == s.sets[Index(s.cfg, x, y) := v]
      && r.glyphs == s.glyphs && r.fg == s.fg && r.bg == s.bg
      && r.dirty == (s.dirty || s.sets[Index(s.cfg, x, y)] != v)
  {
    var r := Repaint(s, x, y, SetPaint(Some(v)));
    if InGrid(s.cfg, x, y) then
      var i := Index(s.cfg, x, y);
      assert s.fg[i := s.fg[i]] == s.fg && s.bg[i := s.bg[i]] == s.bg;
      assert s.glyphs[i := s.glyphs[i]] == s.glyphs && s.sets[i := s.sets[i]] == s.sets;
      r
    else r
  }

  /** The glyph byte a character paints: none when the codec cannot encode it. */
  function CharPaint(cfg: GridConfig, ch: Option<char>): Paint
    requires ConfigValid(cfg)
  {
    if ch.Some? then GlyphPaint(cfg.codePage.Encode(ch.value)) else NoPaint
  }

  /** `set_char_at`: an unencodable character changes nothing at all. */
  function SetChar(s: Screen, x: int, y: int, ch: char): (r: Screen)
    requires Valid(s)
    ensures Valid(r) && Frame(s, r)
    ensures s.cfg.codePage.Encode(ch).None? ==> r == s
    ensures s.cfg.codePage.Encode(ch).Some? ==> r == SetGlyph(s, x, y, s.cfg.codePage.Encode(ch).value)
  {
    match s.cfg.codePage.Encode(ch)
    case None => s
    case Some(b) => SetGlyph(s, x, y, b)
  }
}

/** Snapshots: a rectangle of cells copied out of the grid (`take_snapshot`)
    and written back at any position (`apply_snapshot`). A snapshot keeps the
    four buffers' values of its cells in column-major order: the cell in
    column `i` and row `j` of the rectangle is entry `i*height + j`. */
module Snapshots {
  import opened Bytes
  import opened Grid
  import opened GridOps

  /** `Snapshot`; `begin` is where it was taken, `width`/`height` its size. */
  datatype Snapshot = Snapshot(beginX: nat, beginY: nat, width: nat, height: nat,
                               fg: seq<Col>, bg: seq<Col>, sets: seq<u8>, text: seq<u8>)

  /** The entry of column `i`, row `j` in a snapshot of the given height. */
  function SnapIndex(height: nat, i: nat, j: nat): nat {
    Mul(i, height) + j
  }

  /** The four vectors hold one entry per cell of the rectangle. */
  predicate WellFormed(snap: Snapshot) {
    var n := Mul(snap.width, snap.height);
    |snap.fg| == n && |snap.bg| == n && |snap.sets| == n && |snap.text| == n
  }

  lemma {:induction false} SnapIndexBound(w: nat, h: nat, i: nat, j: nat)
    requires i < w && j < h
    ensures SnapIndex(h, i, j) < Mul(w, h)
  {
    if i < w - 1 {
      SnapIndexBound(w - 1, h, i, j);
    }
  }

  /** Every entry belongs to some cell of the rectangle. */
  lemma {:induction false} SnapIndexOnto(w: nat, h: nat, k: nat)
    requires k < Mul(w, h)
    ensures exists i, j | 0 <= i < w && 0 <= j < h :: SnapIndex(h, i, j) == k
  {
    if k < Mul(w - 1, h) {
      SnapIndexOnto(w - 1, h, k);
    } else {
      assert SnapIndex(h, w - 1, k - Mul(w - 1, h)) == k;
    }
  }

  /** Entry `k` of the four vectors, as a cell. */
  function EntryCell(snap: Snapshot, k: nat): Cell
    requires k < |snap.fg| && k < |snap.bg| && k < |snap.sets| && k < |snap.text|
  {
    Cell(snap.text[k], snap.fg[k], snap.bg[k], snap.sets[k])
  }

  /** The stored values of column `i`, row `j`, as a cell. */
  function SnapCell(snap: Snapshot, i: nat, j: nat): Cell
    requires WellFormed(snap) && i < snap.width && j < snap.height
  {
    SnapIndexBound(snap.width, snap.height, i, j);
    var k := SnapIndex(snap.height, i, j);
    Cell(snap.text[k], snap.fg[k], snap.bg[k], snap.sets[k])
  }

  /** `take_snapshot` refuses (panics on) a rectangle whose right edge
      reaches column `width - 1` or whose bottom edge reaches row
      `height - 1`: the comparison is `>=`, so even rectangles that fit
      exactly are refused. */
  predicate CanTake(cfg: GridConfig, x: nat, y: nat, w: nat, h: nat) {
    x + w < cfg.width && y + h < cfg.height
  }

  /** `snap` is what `take_snapshot(x, y, w, h)` returns on `s`: taken at
      `(x, y)`, of size `w` by `h`, holding in column `i`, row `j` the cell
      `(x + i, y + j)`. */
  predicate Captures(s: Screen, snap: Snapshot, x: nat, y: nat, w: nat, h: nat)
    requires Valid(s) && CanTake(s.cfg, x, y, w, h)
  {
    && snap.beginX == x && snap.beginY == y && snap.width == w && snap.height == h
    && WellFormed(snap)
    && forall i, j | 0 <= i < w && 0 <= j < h :: SnapCell(snap, i, j) == CellAt(s, x + i, y + j)
  }

  /** The pushes of `take_snapshot` for one cell: its colours, its font-set
      byte and its glyph byte, each at the end of its vector. */
  function Push(snap: Snapshot, c: Cell): Snapshot {
    snap.(fg := snap.fg + [c.fg], bg := snap.bg + [c.bg], sets := snap.sets + [c.font],
          text := snap.text + [c.glyph])
  }

  /** `take_snapshot` part way: the `i` complete columns of the rectangle
      and the first `j` rows of column `i` pushed, column by column. */
  predicate CapturedSoFar(s: Screen, snap: Snapshot, x: nat, y: nat, i: nat, j: nat)
    requires Valid(s) && CanTake(s.cfg, x, y, snap.width, snap.height)
    requires i <= snap.width && j <= snap.height
  {
    var h := snap.height;
    var n := SnapIndex(h, i, j);
    && |snap.fg| == n && |snap.bg| == n && |snap.sets| == n && |snap.text| == n
    && (forall a, b | 0 <= a < i && 0 <= b < h ::
          SnapIndex(h, a, b) < n && EntryCell(snap, SnapIndex(h, a, b)) == CellAt(s, x + a, y + b))
    && (forall b | 0 <= b < j ::
          SnapIndex(h, i, b) < n && EntryCell(snap, SnapIndex(h, i, b)) == CellAt(s, x + i, y + b))
  }

  lemma CaptureStart(s: Screen, x: nat, y: nat, w: nat, h: nat)
    requires Valid(s) && CanTake(s.cfg, x, y, w, h)
    ensures CapturedSoFar(s, Snapshot(x, y, w, h, [], [], [], []), x, y, 0, 0)
  {
  }

  /** Pushing cell `(x + i, y + j)` captures one more row of column `i`. */
  lemma CapturePush(s: Screen, snap: Snapshot, x: nat, y: nat, i: nat, j: nat)
    requires Valid(s) && CanTake(s.cfg, x, y, snap.width, snap.height)
    requires i < snap.width && j < snap.height && CapturedSoFar(s, snap, x, y, i, j)
    ensures CapturedSoFar(s, Push(snap, CellAt(s, x + i, y + j)), x, y, i, j + 1)
  {
    var h := snap.height;
    var n := SnapIndex(h, i, j);
    var snap' := Push(snap, CellAt(s, x + i, y + j));
    forall a, b | 0 <= a < i && 0 <= b < h
      ensures SnapIndex(h, a, b) < n + 1
      ensures EntryCell(snap', SnapIndex(h, a, b)) == CellAt(s, x + a, y + b)
    {
      assert EntryCell(snap', SnapIndex(h, a, b)) == EntryCell(snap, SnapIndex(h, a, b));
    }
    forall b | 0 <= b < j + 1
      ensures SnapIndex(h, i, b) < n + 1
      ensures EntryCell(snap', SnapIndex(h, i, b)) == CellAt(s, x + i, y + b)
    {
      if b < j {
        assert EntryCell(snap', SnapIndex(h, i, b)) == EntryCell(snap, SnapIndex(h, i, b));
      }
    }
  }

  /** A complete column `i` is the start of column `i + 1`. */
  lemma CaptureNextColumn(s: Screen, snap: Snapshot, x: nat, y: nat, i: nat)
    requires Valid(s) && CanTake(s.cfg, x, y, snap.width, snap.height)
    requires i < snap.width && CapturedSoFar(s, snap, x, y, i, snap.height)
    ensures CapturedSoFar(s, snap, x, y, i + 1, 0)
  {
    assert SnapIndex(snap.height, i + 1, 0) == SnapIndex(snap.height, i, snap.height);
  }

  /** All columns pushed: the snapshot captures the rectangle. */
  lemma CaptureDone(s: Screen, snap: Snapshot, x: nat, y: nat)
    requires Valid(s) && CanTake(s.cfg, x, y, snap.width, snap.height)
    requires snap.beginX == x && snap.beginY == y && CapturedSoFar(s, snap, x, y, snap.width, 0)
    ensures Captures(s, snap, x, y, snap.width, snap.height)
  {
  }

  /** Every font-set byte of the snapshot passes `set_set_at`'s assertion;
      `apply_snapshot` calls it for every entry, on or off the grid. */
  predicate SetsOk(cfg: GridConfig, snap: Snapshot) {
    forall k | 0 <= k < |snap.sets| :: (snap.sets[k] as int) < SetLimit(cfg)
  }

  /** The four setter calls of `apply_snapshot` for one cell write all four
      fields. */
  function FullPaint(c: Cell): Paint {
    Paint(Some(c.glyph), Some(c.fg), Some(c.bg), Some(c.font))
  }

  /** One column of `apply_snapshot`'s inner loop: rows `y0 .. y0+j-1` of
      column `x0 + i`. */
  function SnapColumn(snap: Snapshot, x0: int, y0: int, i: nat, j: nat): (ws: seq<Write>)
    requires WellFormed(snap) && i < snap.width && j <= snap.height
    ensures |ws| == j
  {
    seq(j, r requires 0 <= r < j => Write(x0 + i, y0 + r, FullPaint(SnapCell(snap, i, r))))
  }

  /** Growing a column of `apply_snapshot` by one row after earlier writes
      `ws`. */
  lemma SnapColumnSnoc(ws: seq<Write>, snap: Snapshot, x0: int, y0: int, i: nat, j: nat)
    requires WellFormed(snap) && i < snap.width && j < snap.height
    ensures ws + SnapColumn(snap, x0, y0, i, j + 1) ==
            ws + SnapColumn(snap, x0, y0, i, j) + [Write(x0 + i, y0 + j, FullPaint(SnapCell(snap, i, j)))]
  {
    assert SnapColumn(snap, x0, y0, i, j + 1) ==
           SnapColumn(snap, x0, y0, i, j) + [Write(x0 + i, y0 + j, FullPaint(SnapCell(snap, i, j)))];
  }

  /** The first `i` columns of `apply_snapshot`'s outer loop. */
  function SnapWrites(snap: Snapshot, x0: int, y0: int, i: nat): seq<Write>
    requires WellFormed(snap) && i <= snap.width
  {
    if i == 0 then []
    else SnapWrites(snap, x0, y0, i - 1) + SnapColumn(snap, x0, y0, i - 1, snap.height)
  }

  lemma {:induction false} SnapWritesOk(cfg: GridConfig, snap: Snapshot, x0: int, y0: int, i: nat)
    requires WellFormed(snap) && i <= snap.width && SetsOk(cfg, snap)
    ensures WritesOk(cfg, SnapWrites(snap, x0, y0, i))
  {
    if i > 0 {
      SnapWritesOk(cfg, snap, x0, y0, i - 1);
      var col := SnapColumn(snap, x0, y0, i - 1, snap.height);
      forall k | 0 <= k < |col|
        ensures PaintOkAt(cfg, col[k].x, col[k].y, col[k].p)
      {
        SnapIndexBound(snap.width, snap.height, i - 1, k);
      }
    }
  }

  /** `apply_snapshot(snap, x0, y0)`: every cell of the snapshot written at
      `(x0 + i, y0 + j)`, column by column; cells that fall off the grid
      (negative or too large) are skipped by the setters. */
  function ApplySnapshot(s: Screen, snap: Snapshot, x0: int, y0: int): (r: Screen)
    requires Valid(s) && WellFormed(snap) && SetsOk(s.cfg, snap)
    ensures Valid(r) && Frame(s, r) && DirtySound(s, r)
  {
    var ws := SnapWrites(snap, x0, y0, snap.width);
    SnapWritesOk(s.cfg, snap, x0, y0, snap.width);
    RepaintAllDirtySound(s, ws);
    RepaintAll(s, ws)
  }

  lemma {:induction false} SnapColumnAfter(snap: Snapshot, x0: int, y0: int, i: nat, j: nat,
                                           cx: int, cy: int, c: Cell)
    requires WellFormed(snap) && i < snap.width && j <= snap.height
    ensures CellAfter(SnapColumn(snap, x0, y0, i, j), cx, cy, c) ==
            if cx == x0 + i && y0 <= cy < y0 + j then SnapCell(snap, i, cy - y0) else c
  {
    if j > 0 {
      assert SnapColumn(snap, x0, y0, i, j)[..j - 1] == SnapColumn(snap, x0, y0, i, j - 1);
      SnapColumnAfter(snap, x0, y0, i, j - 1, cx, cy, c);
    }
  }

  lemma {:induction false} SnapWritesAfter(snap: Snapshot, x0: int, y0: int, i: nat,
                                           cx: int, cy: int, c: Cell)
    requires WellFormed(snap) && i <= snap.width
    ensures CellAfter(SnapWrites(snap, x0, y0, i), cx, cy, c) ==
            if x0 <= cx < x0 + i && y0 <= cy < y0 + snap.height
            then SnapCell(snap, cx - x0, cy - y0) else c
  {
    if i > 0 {
      var prev := SnapWrites(snap, x0, y0, i - 1);
      var col := SnapColumn(snap, x0, y0, i - 1, snap.height);
      var b := CellAfter(prev, cx, cy, c);
      SnapWritesAfter(snap, x0, y0, i - 1, cx, cy, c);
      CellAfterAppend(prev, col, cx, cy, c);
      SnapColumnAfter(snap, x0, y0, i - 1, snap.height, cx, cy, b);
      if cx == x0 + i - 1 && y0 <= cy < y0 + snap.height {
        assert CellAfter(col, cx, cy, b) == SnapCell(snap, cx - x0, cy - y0);
      } else {
        assert CellAfter(col, cx, cy, b) == b;
      }
    }
  }

  /** `apply_snapshot`, cell by cell: the rectangle at `(x0, y0)` receives
      the snapshot's cells, every other cell keeps its value. */
  lemma ApplySnapshotAt(s: Screen, snap: Snapshot, x0: int, y0: int, cx: int, cy: int)
    requires Valid(s) && WellFormed(snap) && SetsOk(s.cfg, snap) && InGrid(s.cfg, cx, cy)
    ensures CellAt(ApplySnapshot(s, snap, x0, y0), cx, cy) ==
            if x0 <= cx < x0 + snap.width && y0 <= cy < y0 + snap.height
            then SnapCell(snap, cx - x0, cy - y0) else CellAt(s, cx, cy)
  {
    var ws := SnapWrites(snap, x0, y0, snap.width);
    SnapWritesOk(s.cfg, snap, x0, y0, snap.width);
    RepaintAllAt(s, ws, cx, cy);
    SnapWritesAfter(snap, x0, y0, snap.width, cx, cy, CellAt(s, cx, cy));
  }

  /** A snapshot can always be applied again, unless the layer count is a
      multiple of 256: its font-set bytes came from the grid, where each is 0
      or was accepted by `set_set_at`. With `layers as u8 == 0` every call of
      `set_set_at` panics, `apply_snapshot`'s included. */
  lemma CapturedSetsOk(s: Screen, snap: Snapshot, x: nat, y: nat, w: nat, h: nat)
    requires Valid(s) && CanTake(s.cfg, x, y, w, h) && Captures(s, snap, x, y, w, h)
    requires SetLimit(s.cfg) > 0
    ensures SetsOk(s.cfg, snap)
  {
    forall k | 0 <= k < |snap.sets|
      ensures (snap.sets[k] as int) < SetLimit(s.cfg)
    {
      SnapIndexOnto(w, h, k);
      var i, j :| 0 <= i < w && 0 <= j < h && SnapIndex(h, i, j) == k;
      assert SnapCell(snap, i, j) == CellAt(s, x + i, y + j);
    }
  }

  /** Round trip: applying a snapshot where it was taken, on any later state
      of a window of the same configuration, restores the rectangle's cells
      as they were when it was taken and leaves every other cell alone. */
  lemma SnapshotRoundTrip(s: Screen, snap: Snapshot, x: nat, y: nat, w: nat, h: nat,
                          later: Screen, cx: int, cy: int)
    requires Valid(s) && CanTake(s.cfg, x, y, w, h) && Captures(s, snap, x, y, w, h)
    requires SetLimit(s.cfg) > 0
    requires Valid(later) && later.cfg == s.cfg && InGrid(s.cfg, cx, cy)
    ensures SetsOk(later.cfg, snap)
    ensures CellAt(ApplySnapshot(later, snap, x, y), cx, cy) ==
            if x <= cx < x + w && y <= cy < y + h then CellAt(s, cx, cy) else CellAt(later, cx, cy)
  {
    CapturedSetsOk(s, snap, x, y, w, h);
    ApplySnapshotAt(later, snap, x, y, cx, cy);
  }

  /** Applying a snapshot where it was taken, on the unchanged window,
      changes nothing at all, the dirty flag included. */
  lemma SnapshotReapplyIdle(s: Screen, snap: Snapshot, x: nat, y: nat, w: nat, h: nat)
    requires Valid(s) && CanTake(s.cfg, x, y, w, h) && Captures(s, snap, x, y, w, h)
    requires SetLimit(s.cfg) > 0
    ensures SetsOk(s.cfg, snap)
    ensures ApplySnapshot(s, snap, x, y) == s
  {
    CapturedSetsOk(s, snap, x, y, w, h);
    var ws := SnapWrites(snap, x, y, w);
    SnapWritesOk(s.cfg, snap, x, y, w);
    forall k | 0 <= k < |ws| && InGrid(s.cfg, ws[k].x, ws[k].y)
      ensures Apply(ws[k].p, CellAt(s, ws[k].x, ws[k].y)) == CellAt(s, ws[k].x, ws[k].y)
    {
      SnapWritesAfter(snap, x, y, w, ws[k].x, ws[k].y, Blank);
      SnapWritesTarget(snap, x, y, w, k);
    }
    RepaintAllIdle(s, ws);
  }

  /** The k-th write of `apply_snapshot` lands inside the rectangle and
      carries the snapshot's cell for that position. */
  lemma {:induction false} SnapWritesTarget(snap: Snapshot, x0: int, y0: int, i: nat, k: nat)
    requires WellFormed(snap) && i <= snap.width && k < |SnapWrites(snap, x0, y0, i)|
    ensures var wr := SnapWrites(snap, x0, y0, i)[k];
      x0 <= wr.x < x0 + i && y0 <= wr.y < y0 + snap.height &&
      wr.p == FullPaint(SnapCell(snap, wr.x - x0, wr.y - y0))
  {
    var prev := SnapWrites(snap, x0, y0, i - 1);
    if k < |prev| {
      SnapWritesTarget(snap, x0, y0, i - 1, k);
    }
  }
}

/** `TextBuilder`: a list of text segments, each carrying the fg, bg and
    font-set current when it was added, and a wrapping printer that writes
    the segments' characters one cell at a time through the grid setters. */
module Text {
  import opened Bytes
  import opened Codec
  import opened Grid
  import opened GridOps
  import opened Windows

  // ------------------------------------------------------------- the builder

  datatype TextSegment = TextSegment(text: string, fg: Col, bg: Col, font: u8)

  /** The segments so far and the style the next `text` call records. */
  datatype TextBuilder = TextBuilder(segments: seq<TextSegment>, fg: Col, bg: Col, font: u8)

  /** `TextBuilder::create`: no segments, white on black, font-set 0. */
  function Create(): TextBuilder {
    TextBuilder([], White, Black, 0)
  }

  /** `text`: a new segment with the current style. */
  function AddText(b: TextBuilder, t: string): TextBuilder {
    b.(segments := b.segments + [TextSegment(t, b.fg, b.bg, b.font)])
  }

  /** `fg`, `bg` and `set`: the style of later segments. */
  function WithFg(b: TextBuilder, c: Col): TextBuilder {
    b.(fg := c)
  }

  function WithBg(b: TextBuilder, c: Col): TextBuilder {
    b.(bg := c)
  }

  function WithSet(b: TextBuilder, v: u8): TextBuilder {
    b.(font := v)
  }

  /** One call of the builder chain. */
  datatype Call = Text(t: string) | Fg(c: Col) | Bg(c: Col) | Set(v: u8)

  function Step(b: TextBuilder, c: Call): TextBuilder {
    match c
    case Text(t) => AddText(b, t)
    case Fg(col) => WithFg(b, col)
    case Bg(col) => WithBg(b, col)
    case Set(v) => WithSet(b, v)
  }

  /** A chain of builder calls, first call first. */
  function Chain(b: TextBuilder, calls: seq<Call>): TextBuilder
    decreases |calls|
  {
    if calls == [] then b else Chain(Step(b, calls[0]), calls[1..])
  }

  /** The style a segment records is the one current when `text` was called. */
  lemma AddTextRecordsStyle(b: TextBuilder, t: string)
    ensures |AddText(b, t).segments| == |b.segments| + 1
    ensures AddText(b, t).segments[..|b.segments|] == b.segments
    ensures AddText(b, t).segments[|b.segments|] == TextSegment(t, b.fg, b.bg, b.font)
    ensures AddText(b, t).fg == b.fg && AddText(b, t).bg == b.bg && AddText(b, t).font == b.font
  {
    assert AddText(b, t).segments[..|b.segments|] == b.segments;
  }

  /** Later calls, whatever they are, never alter a segment already added:
      they only append. */
  lemma {:induction false} ChainKeepsSegments(b: TextBuilder, calls: seq<Call>)
    ensures |Chain(b, calls).segments| >= |b.segments|
    ensures Chain(b, calls).segments[..|b.segments|] == b.segments
    decreases |calls|
  {
    if calls != [] {
      var b1 := Step(b, calls[0]);
      assert b1.segments[..|b.segments|] == b.segments;
      ChainKeepsSegments(b1, calls[1..]);
      var r := Chain(b1, calls[1..]);
      assert r.segments[..|b.segments|] == r.segments[..|b1.segments|][..|b.segments|];
    }
  }

  /** A chain of style calls adds no segment. */
  lemma {:induction false} StyleCallsAddNothing(b: TextBuilder, calls: seq<Call>)
    requires forall k | 0 <= k < |calls| :: !calls[k].Text?
    ensures Chain(b, calls).segments == b.segments
    decreases |calls|
  {
    if calls != [] {
      StyleCallsAddNothing(Step(b, calls[0]), calls[1..]);
    }
  }

  // ------------------------------------------------------------------- `len`

  /** The number of bytes the UTF-8 encoding of `c` takes. */
  function Utf8Len(c: char): nat {
    if c as int < 0x80 then 1
    else if c as int < 0x800 then 2
    else if c as int < 0x1_0000 then 3
    else 4
  }

  /** `String::len`: the length of the text in UTF-8 bytes, not in
      characters. */
  function ByteLen(s: string): (n: nat)
    ensures |s| <= n <= 4 * |s|
    ensures (forall k | 0 <= k < |s| :: s[k] as int < 0x80) ==> n == |s|
    decreases |s|
  {
    if s == [] then 0 else ByteLen(s[..|s| - 1]) + Utf8Len(s[|s| - 1])
  }

  /** The byte lengths of all segments added up. */
  function TotalLen(segs: seq<TextSegment>): nat
    decreases |segs|
  {
    if segs == [] then 0 else TotalLen(segs[..|segs| - 1]) + ByteLen(segs[|segs| - 1].text)
  }

  /** The number of characters of all segments. */
  function TotalChars(segs: seq<TextSegment>): nat
    decreases |segs|
  {
    if segs == [] then 0 else TotalChars(segs[..|segs| - 1]) + |segs[|segs| - 1].text|
  }

  /** `len`: the accumulator loop over the segments. */
  method Len(b: TextBuilder) returns (n: nat)
    ensures n == TotalLen(b.segments)
  {
    n := 0;
    var i := 0;
    while i < |b.segments|
      invariant 0 <= i <= |b.segments|
      invariant n == TotalLen(b.segments[..i])
    {
      assert b.segments[..i + 1][..i] == b.segments[..i];
      n := n + ByteLen(b.segments[i].text);
      i := i + 1;
    }
    assert b.segments[..|b.segments|] == b.segments;
  }

  /** `len` counts bytes: between one and four per character. */
  lemma {:induction false} TotalLenBounds(segs: seq<TextSegment>)
    ensures TotalChars(segs) <= TotalLen(segs) <= 4 * TotalChars(segs)
    decreases |segs|
  {
    if segs != [] {
      TotalLenBounds(segs[..|segs| - 1]);
    }
  }

  /** Adding a segment adds its byte length; style calls add nothing. */
  lemma LenAfterText(b: TextBuilder, t: string)
    ensures TotalLen(AddText(b, t).segments) == TotalLen(b.segments) + ByteLen(t)
  {
    assert AddText(b, t).segments[..|b.segments|] == b.segments;
  }

  // ----------------------------------------------------------------- colours

  /** `u8::saturating_sub`. */
  function SatSub(a: u8, b: u8): (r: u8)
    ensures r <= a
    ensures a >= b ==> r as int + b as int == a as int
    ensures a < b ==> r == 0
  {
    if a < b then 0 else a - b
  }

  /** `sub` inside `print_sub_cutoff`: channel-wise saturating difference
      with the alpha forced to opaque. */
  function Sub(a: Col, b: Col): (r: Col)
    ensures r.a == 255
    ensures r.r <= a.r && r.g <= a.g && r.b <= a.b
  {
    Col(SatSub(a.r, b.r), SatSub(a.g, b.g), SatSub(a.b, b.b), 255)
  }

  /** Subtracting the transparent colour (what `print` passes) keeps the
      colour channels and only makes the colour opaque. */
  lemma SubTransparent(a: Col)
    ensures Sub(a, Transparent) == a.(a := 255)
  {
  }

  /** Subtracting a colour at least as bright on every channel gives opaque
      black. */
  lemma SubToBlack(a: Col, b: Col)
    requires a.r <= b.r && a.g <= b.g && a.b <= b.b
    ensures Sub(a, b) == Black
  {
  }

  // ------------------------------------------------------------ the printer

  /** One character of the builder with the style of its segment. */
  datatype Styled = Styled(ch: char, fg: Col, bg: Col, font: u8)

  function Glyphs(seg: TextSegment): (r: seq<Styled>)
    ensures |r| == |seg.text|
  {
    seq(|seg.text|, i requires 0 <= i < |seg.text| => Styled(seg.text[i], seg.fg, seg.bg, seg.font))
  }

  /** All characters of the segments, in order: what the two nested loops
      of `print_sub_cutoff` walk through. */
  function Flatten(segs: seq<TextSegment>): (r: seq<Styled>)
    ensures |r| == TotalChars(segs)
    decreases |segs|
  {
    if segs == [] then [] else Flatten(segs[..|segs| - 1]) + Glyphs(segs[|segs| - 1])
  }

  /** The characters of the first `j` segments come first, unchanged, in
      the characters of the first `m`. */
  lemma {:induction false} FlattenPrefix(segs: seq<TextSegment>, j: nat, m: nat)
    requires j <= m <= |segs|
    ensures |Flatten(segs[..j])| <= |Flatten(segs[..m])|
    ensures Flatten(segs[..m])[..|Flatten(segs[..j])|] == Flatten(segs[..j])
    decreases m - j
  {
    if j < m {
      FlattenPrefix(segs, j, m - 1);
      assert segs[..m][..m - 1] == segs[..m - 1];
      var a := Flatten(segs[..j]);
      var b := Flatten(segs[..m - 1]);
      assert Flatten(segs[..m]) == b + Glyphs(segs[m - 1]);
      assert Flatten(segs[..m])[..|a|] == b[..|a|];
    }
  }

  /** The characters of one more segment. */
  lemma FlattenNext(segs: seq<TextSegment>, si: nat)
    requires si < |segs|
    ensures Flatten(segs[..si + 1]) == Flatten(segs[..si]) + Glyphs(segs[si])
    ensures |Flatten(segs[..si + 1])| == |Flatten(segs[..si])| + |segs[si].text|
  {
    assert segs[..si + 1][..si] == segs[..si];
  }

  lemma FlattenAll(segs: seq<TextSegment>)
    ensures Flatten(segs[..|segs|]) == Flatten(segs)
  {
    assert segs[..|segs|] == segs;
  }

  /** Character `ci` of segment `si` sits at the offset of the segments
      before it plus `ci`. */
  lemma FlattenAt(segs: seq<TextSegment>, si: nat, ci: nat, k: nat)
    requires si < |segs| && ci < |segs[si].text| && k == |Flatten(segs[..si])| + ci
    ensures k < |Flatten(segs)|
    ensures Flatten(segs)[k] == Styled(segs[si].text[ci], segs[si].fg, segs[si].bg, segs[si].font)
  {
    FlattenNext(segs, si);
    FlattenPrefix(segs, si + 1, |segs|);
    assert segs[..|segs|] == segs;
    var f := Flatten(segs[..si + 1]);
    assert f[k] == Glyphs(segs[si])[ci];
  }

  /** The printing cursor. */
  datatype Cursor = Cursor(x: int, y: int)

  /** Where the printer's parameters put the text: wrap once the cursor is
      past column `widthEnd`, back to column `returnX`; stop at row
      `cutoff` if there is one; `colSub` is subtracted from every colour. */
  datatype TextArea = TextArea(widthEnd: int, colSub: Col, returnX: int, cutoff: Option<int>)

  /** The cursor rule after each character. */
  function Advance(c: Cursor, a: TextArea): Cursor {
    if c.x > a.widthEnd then Cursor(a.returnX, c.y + 1) else Cursor(c.x + 1, c.y)
  }

  /** The check made before each character: at or past the cutoff row the
      printer leaves both loops. */
  predicate Blocked(c: Cursor, a: TextArea) {
    a.cutoff.Some? && c.y >= a.cutoff.value
  }

  /** The four setter calls for one character: `set_bg_at`, `set_char_at`,
      `set_fg_at`, `set_set_at`. */
  function StyledPaint(cfg: GridConfig, st: Styled, colSub: Col): Paint
    requires ConfigValid(cfg)
  {
    RectPaint(cfg, Some(Sub(st.fg, colSub)), Some(Sub(st.bg, colSub)), Some(st.ch), Some(st.font))
  }

  /** The paint of each character, in printing order. */
  function Paints(cfg: GridConfig, items: seq<Styled>, colSub: Col): (ps: seq<Paint>)
    requires ConfigValid(cfg)
    ensures |ps| == |items|
    decreases |items|
  {
    if items == [] then []
    else Paints(cfg, items[..|items| - 1], colSub) + [StyledPaint(cfg, items[|items| - 1], colSub)]
  }

  /** The `j`-th paint is that of the `j`-th character. */
  lemma {:induction false} PaintsAt(cfg: GridConfig, items: seq<Styled>, colSub: Col, j: nat)
    requires ConfigValid(cfg) && j < |items|
    ensures Paints(cfg, items, colSub)[j] == StyledPaint(cfg, items[j], colSub)
    decreases |items|
  {
    if j < |items| - 1 {
      PaintsAt(cfg, items[..|items| - 1], colSub, j);
    }
  }

  /** The printer's state: cursor, whether it has left the loops, and the
      writes issued so far. */
  datatype Layout = Layout(pen: Cursor, stopped: bool, ws: seq<Write>)

  /** The printer after the first `k` of the characters whose paints are `ps`. */
  function Run(ps: seq<Paint>, start: Cursor, a: TextArea, k: nat): (r: Layout)
    requires k <= |ps|
    ensures |r.ws| <= k
    decreases k
  {
    if k == 0 then Layout(start, false, [])
    else
      var r := Run(ps, start, a, k - 1);
      if r.stopped then r
      else if Blocked(r.pen, a) then r.(stopped := true)
      else Layout(Advance(r.pen, a), false, r.ws + [Write(r.pen.x, r.pen.y, ps[k - 1])])
  }

  /** Every font-set the printer passes to `set_set_at` is below the layer
      count: `set_set_at` panics otherwise, on or off the grid. */
  predicate FontsFit(cfg: GridConfig, ws: seq<Write>) {
    forall k | 0 <= k < |ws| :: PaintOk(cfg, ws[k].p)
  }

  /** The writes of `print_sub_cutoff` over the whole builder. */
  function TextRun(cfg: GridConfig, b: TextBuilder, start: Cursor, a: TextArea): Layout
    requires ConfigValid(cfg)
  {
    var ps := Paints(cfg, Flatten(b.segments), a.colSub);
    Run(ps, start, a, |ps|)
  }

  /** `print_sub_cutoff` on the grid value: the new state and the cursor it
      returns. */
  function PrintSubCutoff(s: Screen, b: TextBuilder, start: Cursor, a: TextArea): (r: (Screen, Cursor))
    requires Valid(s) && FontsFit(s.cfg, TextRun(s.cfg, b, start, a).ws)
    ensures Valid(r.0) && Frame(s, r.0)
  {
    var run := TextRun(s.cfg, b, start, a);
    FontsFitOk(s.cfg, run.ws);
    (RepaintAll(s, run.ws), run.pen)
  }

  lemma FontsFitOk(cfg: GridConfig, ws: seq<Write>)
    requires FontsFit(cfg, ws)
    ensures WritesOk(cfg, ws)
  {
  }

  /** One step of the printer that does not stop: the character goes to the
      cursor and the cursor advances. */
  lemma RunStep(ps: seq<Paint>, start: Cursor, a: TextArea, k: nat)
    requires k < |ps|
    requires !Run(ps, start, a, k).stopped && !Blocked(Run(ps, start, a, k).pen, a)
    ensures var r := Run(ps, start, a, k);
            Run(ps, start, a, k + 1) ==
            Layout(Advance(r.pen, a), false, r.ws + [Write(r.pen.x, r.pen.y, ps[k])])
  {
  }

  /** The writes of the first `k` characters open the writes of the first
      `n`. */
  lemma {:induction false} RunGrows(ps: seq<Paint>, start: Cursor, a: TextArea,
                                    k: nat, n: nat)
    requires k <= n <= |ps|
    ensures |Run(ps, start, a, k).ws| <= |Run(ps, start, a, n).ws|
    ensures Run(ps, start, a, n).ws[..|Run(ps, start, a, k).ws|] == Run(ps, start, a, k).ws
    decreases n - k
  {
    if k < n {
      RunGrows(ps, start, a, k, n - 1);
      var u := Run(ps, start, a, k).ws;
      var v := Run(ps, start, a, n - 1).ws;
      var r := Run(ps, start, a, n).ws;
      assert r[..|v|] == v;
      assert r[..|u|] == v[..|u|];
    }
  }

  /** A character the printer reaches has a font-set `set_set_at` accepts. */
  lemma RunFontOk(cfg: GridConfig, ps: seq<Paint>, start: Cursor, a: TextArea, k: nat)
    requires k < |ps| && FontsFit(cfg, Run(ps, start, a, |ps|).ws)
    requires !Run(ps, start, a, k).stopped && !Blocked(Run(ps, start, a, k).pen, a)
    ensures PaintOk(cfg, ps[k])
  {
    RunStep(ps, start, a, k);
    RunGrows(ps, start, a, k + 1, |ps|);
    var j := |Run(ps, start, a, k).ws|;
    assert Run(ps, start, a, k + 1).ws[j].p == ps[k];
    assert Run(ps, start, a, |ps|).ws[j] == Run(ps, start, a, k + 1).ws[j];
  }

  /** Once the cursor reaches the cutoff row, nothing more is written and
      the cursor stays where it is. */
  lemma {:induction false} RunStops(ps: seq<Paint>, start: Cursor, a: TextArea,
                                    k: nat, n: nat)
    requires k < n <= |ps|
    requires !Run(ps, start, a, k).stopped && Blocked(Run(ps, start, a, k).pen, a)
    ensures Run(ps, start, a, n) == Run(ps, start, a, k).(stopped := true)
    decreases n - k
  {
    if n > k + 1 {
      RunStops(ps, start, a, k, n - 1);
    }
  }

  /** The cursor rule: each character is written at the cursor left by the
      previous one — the next column, or column `returnX` of the next row
      after a character written past `widthEnd` — and the first one at the
      start. */
  lemma {:induction false} RunCursorRule(ps: seq<Paint>, start: Cursor, a: TextArea,
                                         k: nat)
    requires k <= |ps|
    ensures var ws := Run(ps, start, a, k).ws;
            (|ws| > 0 ==> ws[0].x == start.x && ws[0].y == start.y) &&
            (forall j | 0 <= j < |ws| - 1 ::
               Cursor(ws[j + 1].x, ws[j + 1].y) == Advance(Cursor(ws[j].x, ws[j].y), a))
    ensures var r := Run(ps, start, a, k);
            r.pen == if r.ws == [] then start else Advance(Cursor(r.ws[|r.ws| - 1].x, r.ws[|r.ws| - 1].y), a)
    decreases k
  {
    if k > 0 {
      RunCursorRule(ps, start, a, k - 1);
    }
  }

  /** Without a cutoff every character is written; with one, only rows
      above the cutoff are written. */
  lemma {:induction false} RunCutoff(ps: seq<Paint>, start: Cursor, a: TextArea, k: nat)
    requires k <= |ps|
    ensures a.cutoff.None? ==> |Run(ps, start, a, k).ws| == k && !Run(ps, start, a, k).stopped
    ensures var ws := Run(ps, start, a, k).ws;
            a.cutoff.Some? ==> forall j | 0 <= j < |ws| :: ws[j].y < a.cutoff.value
    ensures Run(ps, start, a, k).stopped ==> Blocked(Run(ps, start, a, k).pen, a)
    decreases k
  {
    if k > 0 {
      RunCutoff(ps, start, a, k - 1);
    }
  }

  /** The `j`-th write carries the `j`-th character and its segment's
      colours minus `colSub`. */
  lemma {:induction false} RunPaints(ps: seq<Paint>, start: Cursor, a: TextArea, k: nat)
    requires k <= |ps|
    ensures !Run(ps, start, a, k).stopped ==> |Run(ps, start, a, k).ws| == k
    ensures var ws := Run(ps, start, a, k).ws;
            forall j | 0 <= j < |ws| :: ws[j].p == ps[j]
    decreases k
  {
    if k > 0 {
      RunPaints(ps, start, a, k - 1);
    }
  }

  /** On the whole builder, the `j`-th write carries the `j`-th character
      with its segment's colours minus `colSub`, its font-set, and the
      character encoded through the code page. */
  lemma TextRunPaints(cfg: GridConfig, b: TextBuilder, start: Cursor, a: TextArea, j: nat)
    requires ConfigValid(cfg) && j < |TextRun(cfg, b, start, a).ws|
    ensures var st := Flatten(b.segments)[j];
            TextRun(cfg, b, start, a).ws[j].p ==
            Paint(CharPaint(cfg, Some(st.ch)).glyph, Some(Sub(st.fg, a.colSub)), Some(Sub(st.bg, a.colSub)), Some(st.font))
  {
    var ps := Paints(cfg, Flatten(b.segments), a.colSub);
    RunPaints(ps, start, a, |ps|);
    PaintsAt(cfg, Flatten(b.segments), a.colSub, j);
  }

  /** Rows at or below the cutoff keep every cell as it was. */
  lemma CutoffRowsUntouched(s: Screen, b: TextBuilder, start: Cursor, a: TextArea, cx: int, cy: int)
    requires Valid(s) && FontsFit(s.cfg, TextRun(s.cfg, b, start, a).ws)
    requires InGrid(s.cfg, cx, cy) && a.cutoff.Some? && cy >= a.cutoff.value
    ensures CellAt(PrintSubCutoff(s, b, start, a).0, cx, cy) == CellAt(s, cx, cy)
  {
    var ps := Paints(s.cfg, Flatten(b.segments), a.colSub);
    var ws := TextRun(s.cfg, b, start, a).ws;
    RunCutoff(ps, start, a, |ps|);
    FontsFitOk(s.cfg, ws);
    RepaintAllAt(s, ws, cx, cy);
    NoHitBelow(ws, cx, cy);
    CellAfterMiss(ws, cx, cy, CellAt(s, cx, cy));
  }

  lemma {:induction false} NoHitBelow(ws: seq<Write>, cx: int, cy: int)
    requires forall j | 0 <= j < |ws| :: ws[j].y < cy
    ensures !Hits(ws, cx, cy)
    decreases |ws|
  {
    if ws != [] {
      NoHitBelow(ws[..|ws| - 1], cx, cy);
    }
  }

  /** A new builder prints nothing and returns the start. */
  lemma CreatePrintsNothing(s: Screen, start: Cursor, a: TextArea)
    requires Valid(s)
    ensures FontsFit(s.cfg, TextRun(s.cfg, Create(), start, a).ws)
    ensures PrintSubCutoff(s, Create(), start, a) == (s, start)
  {
  }

  // ------------------------------------------------------- on the grid class

  /** `set_bg_at`, `set_char_at`, `set_fg_at` and `set_set_at` on one cell
      make one repaint with all four fields. */
  lemma TextCellSetters(s: Screen, x: int, y: int, fg: Col, bg: Col, ch: char, v: u8)
    requires Grid.Valid(s) && (v as int) < SetLimit(s.cfg)
    ensures SetSet(SetFg(SetChar(SetBg(s, x, y, bg), x, y, ch), x, y, fg), x, y, v) ==
            Repaint(s, x, y, RectPaint(s.cfg, Some(fg), Some(bg), Some(ch), Some(v)))
  {
    var s1 := Repaint(s, x, y, BgPaint(Some(bg)));
    var s2 := Repaint(s1, x, y, CharPaint(s.cfg, Some(ch)));
    RepaintNothing(s1, x, y);
    RepaintFour(s, x, y, BgPaint(Some(bg)), CharPaint(s.cfg, Some(ch)), FgPaint(Some(fg)), SetPaint(Some(v)));
  }

  /** The four setter calls for one character, in the source's order. */
  method PrintStyled(w: Window, ghost s0: Screen, ghost ws: seq<Write>, x: int, y: int, st: Styled,
                     colSub: Col)
    requires w.Painted(s0, ws) && (st.font as int) < SetLimit(w.cfg)
    modifies w
    ensures w.Painted(s0, ws + [Write(x, y, StyledPaint(w.cfg, st, colSub))])
  {
    ghost var s := w.Model();
    var fg := Sub(st.fg, colSub);
    var bg := Sub(st.bg, colSub);
    w.SetBgAt(x, y, bg);
    w.SetCharAt(x, y, st.ch);
    w.SetFgAt(x, y, fg);
    w.SetSetAt(x, y, st.font);
    TextCellSetters(s, x, y, fg, bg, st.ch, st.font);
    RepaintAllSnoc(s0, ws, Write(x, y, StyledPaint(w.cfg, st, colSub)));
  }

  /** The grid object after the first `k` characters with paints `ps`, the
      printer still running with its cursor at `(x, y)`. */
  ghost predicate Printing(ps: seq<Paint>, w: Window, s0: Screen, pos: Cursor, a: TextArea, k: nat,
                           x: int, y: int)
    reads w
  {
    PrintingAt(ps, w, s0, pos, a, k) == Some(Cursor(x, y))
  }

  ghost function PrintingAt(ps: seq<Paint>, w: Window, s0: Screen, pos: Cursor, a: TextArea, k: nat): Option<Cursor>
    reads w
  {
    if k <= |ps| && !Run(ps, pos, a, k).stopped && w.Painted(s0, Run(ps, pos, a, k).ws)
    then Some(Run(ps, pos, a, k).pen) else None
  }

  /** What the running printer's state says about the grid object. */
  lemma PrintingHolds(ps: seq<Paint>, w: Window, s0: Screen, pos: Cursor, a: TextArea, k: nat, x: int, y: int)
    requires Printing(ps, w, s0, pos, a, k, x, y)
    ensures k <= |ps| && Run(ps, pos, a, k).pen == Cursor(x, y) && !Run(ps, pos, a, k).stopped
    ensures w.Painted(s0, Run(ps, pos, a, k).ws)
  {
  }

  /** Writing character `k` at the cursor and advancing keeps the printer
      running. */
  lemma PrintingNext(ps: seq<Paint>, w: Window, s0: Screen, pos: Cursor, a: TextArea, k: nat, x: int, y: int)
    requires k < |ps| && Run(ps, pos, a, k).pen == Cursor(x, y) && !Run(ps, pos, a, k).stopped
    requires !Blocked(Cursor(x, y), a) && w.Painted(s0, Run(ps, pos, a, k).ws + [Write(x, y, ps[k])])
    ensures Printing(ps, w, s0, pos, a, k + 1, Advance(Cursor(x, y), a).x, Advance(Cursor(x, y), a).y)
  {
    RunStep(ps, pos, a, k);
  }

  /** The grid object after the whole printer, which returns `(x, y)`. */
  ghost predicate Printed(ps: seq<Paint>, w: Window, s0: Screen, pos: Cursor, a: TextArea, x: int, y: int)
    reads w
  {
    w.Painted(s0, Run(ps, pos, a, |ps|).ws) && Run(ps, pos, a, |ps|).pen == Cursor(x, y)
  }

  /** Leaving both loops at the cutoff row ends the printer. */
  lemma PrintingStops(ps: seq<Paint>, w: Window, s0: Screen, pos: Cursor, a: TextArea, k: nat, x: int, y: int)
    requires Printing(ps, w, s0, pos, a, k, x, y) && k < |ps| && Blocked(Cursor(x, y), a)
    ensures Printed(ps, w, s0, pos, a, x, y)
  {
    RunStops(ps, pos, a, k, |ps|);
  }

  /** The body of the inner loop of `print_sub_cutoff` for character `ci`
      of segment `si`: at the cutoff row `stop` (the source's `break 'b`);
      otherwise the four setter calls at the cursor, then the cursor rule. */
  method PrintChar(b: TextBuilder, w: Window, ghost s0: Screen, ghost pos: Cursor, a: TextArea,
                   ghost ps: seq<Paint>, si: nat, ci: nat, ghost k: nat, x: int, y: int)
    returns (x': int, y': int, stop: bool)
    requires si < |b.segments| && ci < |b.segments[si].text| && k == |Flatten(b.segments[..si])| + ci
    requires ConfigValid(w.cfg) && ps == Paints(w.cfg, Flatten(b.segments), a.colSub)
    requires Printing(ps, w, s0, pos, a, k, x, y) && FontsFit(w.cfg, Run(ps, pos, a, |ps|).ws)
    modifies w
    ensures stop ==> Printed(ps, w, s0, pos, a, x', y')
    ensures !stop ==> Printing(ps, w, s0, pos, a, k + 1, x', y')
  {
    FlattenAt(b.segments, si, ci, k);
    PrintingHolds(ps, w, s0, pos, a, k, x, y);
    if a.cutoff.Some? && y >= a.cutoff.value {
      PrintingStops(ps, w, s0, pos, a, k, x, y);
      return x, y, true;
    }
    var seg := b.segments[si];
    var st := Styled(seg.text[ci], seg.fg, seg.bg, seg.font);
    RunFontOk(w.cfg, ps, pos, a, k);
    PaintsAt(w.cfg, Flatten(b.segments), a.colSub, k);
    PrintStyled(w, s0, Run(ps, pos, a, k).ws, x, y, st, a.colSub);
    PrintingNext(ps, w, s0, pos, a, k, x, y);
    stop := false;
    if x > a.widthEnd {
      x' := a.returnX;
      y' := y + 1;
    } else {
      x' := x + 1;
      y' := y;
    }
  }

  /** `print_sub_cutoff`: segments outer, characters inner; before each
      character the cutoff row ends both loops (`break 'b`); the cursor it
      returns is the one after the last character written. */
  method PrintSubCutoffOn(b: TextBuilder, w: Window, pos: Cursor, a: TextArea) returns (end: Cursor)
    requires w.Valid() && FontsFit(w.cfg, TextRun(w.cfg, b, pos, a).ws)
    modifies w
    ensures w.Painted(old(w.Model()), TextRun(w.cfg, b, pos, a).ws)
    ensures end == TextRun(w.cfg, b, pos, a).pen
  {
    ghost var s0 := w.Model();
    ghost var ps := Paints(w.cfg, Flatten(b.segments), a.colSub);
    var x := pos.x;
    var y := pos.y;
    var si := 0;
    assert b.segments[..0] == [];
    while si < |b.segments|
      invariant 0 <= si <= |b.segments|
      invariant Printing(ps, w, s0, pos, a, |Flatten(b.segments[..si])|, x, y)
    {
      var stop;
      x, y, stop := PrintSegment(b, w, s0, pos, a, ps, si, x, y);
      if stop {
        return Cursor(x, y);
      }
      si := si + 1;
    }
    FlattenAll(b.segments);
    end := Cursor(x, y);
  }

  /** The inner loop of `print_sub_cutoff` over the characters of segment
      `si`; `stop` reports that the cutoff row ended both loops. */
  method PrintSegment(b: TextBuilder, w: Window, ghost s0: Screen, ghost pos: Cursor, a: TextArea,
                      ghost ps: seq<Paint>, si: nat, x0: int, y0: int) returns (x: int, y: int, stop: bool)
    requires si < |b.segments| && ConfigValid(w.cfg) && ps == Paints(w.cfg, Flatten(b.segments), a.colSub)
    requires Printing(ps, w, s0, pos, a, |Flatten(b.segments[..si])|, x0, y0)
    requires FontsFit(w.cfg, Run(ps, pos, a, |ps|).ws)
    modifies w
    ensures stop ==> Printed(ps, w, s0, pos, a, x, y)
    ensures !stop ==> Printing(ps, w, s0, pos, a, |Flatten(b.segments[..si + 1])|, x, y)
  {
    var seg := b.segments[si];
    ghost var base := |Flatten(b.segments[..si])|;
    ghost var k: nat := base;
    x, y := x0, y0;
    var ci := 0;
    while ci < |seg.text|
      invariant 0 <= ci <= |seg.text| && k == base + ci
      invariant Printing(ps, w, s0, pos, a, k, x, y)
    {
      x, y, stop := PrintChar(b, w, s0, pos, a, ps, si, ci, k, x, y);
      if stop {
        return;
      }
      ci := ci + 1;
      k := k + 1;
    }
    FlattenNext(b.segments, si);
    assert k == |Flatten(b.segments[..si + 1])|;
    stop := false;
  }
}

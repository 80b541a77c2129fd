/** The immediate-mode UI layer: a tree of boxes, labels and buttons that
    renders itself into the grid through the window's setters, and a
    `UIData` record that keeps each button's pressed state between frames
    and the list of button events for the game to read.

    The tree is a value: every node is owned by its parent (`Box<dyn UI>`),
    so no node is shared and rendering never changes a node. Rendering is
    stated as the list of writes it makes (see `GridOps.RepaintAll`) and the
    new `UIData` state; the methods below make the setter calls in the
    source's order and are proved to paint exactly those writes. */
module Ui {
  import opened Bytes
  import opened Grid
  import opened GridOps
  import opened Windows
  import opened Input
  import Txt = Text

  type Id = string

  // ------------------------------------------------------------------ styles

  /** `BorderStyle`: what the fill writes on the outline of a box. */
  datatype BorderStyle = BorderStyle(ch: Option<char>, fg: Option<Col>, bg: Option<Col>)

  /** `BorderStyle::empty`: a border that writes nothing. */
  const EmptyBorder := BorderStyle(None, None, None)

  /** `FillStyle`: what the fill writes on every cell of a box, then on its
      outline. */
  datatype FillStyle = FillStyle(background: Option<Col>, foreground: Option<Col>, fillChar: Option<char>,
                                 border: BorderStyle)

  /** `FillStyle::default`: fills nothing. */
  const DefaultFill := FillStyle(None, None, None, EmptyBorder)

  /** `BoxPlacementStyle`: where a box puts its children. */
  datatype Placement = Full | Within(padding: int) | AlignY(height: int) | AlignX(width: int) | SplitY | SplitX

  /** `SingleCharDecoration`: one styled cell beside a button's text. */
  datatype Decoration = Decoration(fg: Option<Col>, bg: Option<Col>, ch: Option<char>)

  /** A node of the tree: `UIBox`, `Label`, `Button`, or the unit element
      `()` that renders nothing. A button's only pressed style, `Flip`, is
      implied. */
  datatype Node =
    | UIBox(fill: FillStyle, placement: Placement, childs: seq<Node>)
    | Label(foreground: Option<Col>, background: Option<Col>, text: string)
    | Button(foreground: Option<Col>, background: Option<Col>, text: string, id: Id,
             keybind: Option<char>, decorationLeft: Option<Decoration>, decorationRight: Option<Decoration>)
    | Nothing

  /** `UIBox::default`: transparent, no children, children placed `Full`. */
  const DefaultBox := UIBox(DefaultFill, Full, [])

  /** `Label::default`: no colours, empty text. */
  const DefaultLabel := Label(None, None, "")

  /** `Button::default`: no colours, empty text and id, no keybind, no
      decorations. */
  const DefaultButton := Button(None, None, "", "", None, None, None)

  /** `UINode::add` on a box: the node, passed through `fun`, becomes the
      last child. */
  function AddChild(n: Node, node: Node, fun: Node -> Node): (r: Node)
    requires n.UIBox?
    ensures r.UIBox? && r.fill == n.fill && r.placement == n.placement
    ensures |r.childs| == |n.childs| + 1 && r.childs[..|n.childs|] == n.childs
    ensures r.childs[|n.childs|] == fun(node)
  {
    n.(childs := n.childs + [fun(node)])
  }

  // -------------------------------------------------------------------- data

  datatype Event = Pressed(id: Id) | Unpressed(id: Id)

  /** `UIDataEntry`. */
  datatype Entry = TextEntry(value: string) | Boolean(flag: bool)

  /** `UIConfig`: the keys the UI reacts to. */
  datatype UIConfig = UIConfig(keySelect: Option<PhysicalKey>, keyDown: Option<PhysicalKey>,
                               keyUp: Option<PhysicalKey>, keyExit: Option<PhysicalKey>, usesMouse: bool)

  /** `UIConfig::default`: Enter selects, the arrow keys move, Escape exits,
      the mouse is used. */
  const DefaultConfig := UIConfig(Some(Code(Enter)), Some(Code(ArrowDown)), Some(Code(ArrowUp)),
                                  Some(Code(Escape)), true)

  /** The contents of a `UIData`. */
  datatype UIState = UIState(selected: Option<Id>, data: map<Id, Entry>, events: seq<Event>,
                             config: UIConfig, lastMousePosition: (int, int))

  /** `UIData::default`: the root is selected, nothing recorded. */
  const DefaultState := UIState(Some("root"), map[], [], DefaultConfig, (0, 0))

  /** `UIData`, updated in place by the buttons and the root. */
  class UIData {
    var selected: Option<Id>
    var data: map<Id, Entry>
    var events: seq<Event>
    var config: UIConfig
    var lastMousePosition: (int, int)

    function Model(): UIState
      reads this
    {
      UIState(selected, data, events, config, lastMousePosition)
    }

    /** `UIData::default`. */
    constructor ()
      ensures Model() == DefaultState
      ensures selected == Some("root")
    {
      selected := Some("root");
      data := map[];
      events := [];
      config := DefaultConfig;
      lastMousePosition := (0, 0);
    }

    /** `UIData::event`: appends; nothing else changes. */
    method AddEvent(e: Event)
      modifies this
      ensures Model() == old(Model()).(events := old(events) + [e])
    {
      events := events + [e];
    }
  }

  /** Nothing a render does removes an event, or changes the selection, the
      configuration or the last mouse position. */
  predicate Keeps(d: UIState, r: UIState) {
    && r.selected == d.selected && r.config == d.config && r.lastMousePosition == d.lastMousePosition
    && |d.events| <= |r.events| && r.events[..|d.events|] == d.events
  }

  lemma KeepsTrans(a: UIState, b: UIState, c: UIState)
    requires Keeps(a, b) && Keeps(b, c)
    ensures Keeps(a, c)
  {
    assert c.events[..|a.events|] == c.events[..|b.events|][..|a.events|];
  }

  // ----------------------------------------------------------------- buttons

  /** The mouse is on the button's text row, within its `len()` bytes from
      `start`, or the button is the selected element. */
  predicate Hovered(ks: KeyState, d: UIState, start: (int, int), text: string, id: Id) {
    || (ks.mousePosition.0 >= start.0 && ks.mousePosition.1 == start.1
        && ks.mousePosition.0 < start.0 + Txt.ByteLen(text))
    || d.selected == Some(id)
  }

  /** The left mouse button is held, or the configured select key is. */
  predicate Pressing(ks: KeyState, d: UIState) {
    ks.mousePressed || (d.config.keySelect.Some? && d.config.keySelect.value in ks.keys)
  }

  /** A button's bookkeeping: the entry under its id becomes
      `Boolean(now)`; a recorded `Boolean(true)` that is no longer held
      logs `Pressed`, a recorded `Boolean(false)` that now is held logs
      `Unpressed`; a text entry, a missing entry or an unchanged state logs
      nothing. */
  function Record(d: UIState, id: Id, now: bool): (r: UIState)
    ensures r.data == d.data[id := Boolean(now)]
    ensures id in d.data && d.data[id] == Boolean(true) && !now ==> r.events == d.events + [Pressed(id)]
    ensures id in d.data && d.data[id] == Boolean(false) && now ==> r.events == d.events + [Unpressed(id)]
    ensures id !in d.data || d.data[id].TextEntry? || d.data[id] == Boolean(now) ==> r.events == d.events
    ensures Keeps(d, r)
  {
    var events :=
      if id in d.data && d.data[id].Boolean? then
        if d.data[id].flag && !now then d.events + [Pressed(id)]
        else if !d.data[id].flag && now then d.events + [Unpressed(id)]
        else d.events
      else d.events;
    d.(data := d.data[id := Boolean(now)], events := events)
  }

  /** `print_at` as writes: a negative coordinate prints nothing. */
  function PrintOps(cfg: GridConfig, x: int, y: int, text: string, fg: Option<Col>, bg: Option<Col>): seq<Write>
    requires ConfigValid(cfg)
  {
    if x < 0 || y < 0 then [] else PrintWrites(cfg, x, y, text, fg, bg, None)
  }

  /** 1 when the button has a left decoration. */
  function LeftWidth(b: Node): int
    requires b.Button?
  {
    if b.decorationLeft.Some? then 1 else 0
  }

  /** What a decoration's three setter calls write. */
  function DecorationPaint(cfg: GridConfig, n: Decoration): Paint
    requires ConfigValid(cfg)
  {
    RectPaint(cfg, n.fg, n.bg, n.ch, None)
  }

  function LeftWrites(cfg: GridConfig, b: Node, start: (int, int)): seq<Write>
    requires ConfigValid(cfg) && b.Button?
  {
    if b.decorationLeft.Some? then [Write(start.0, start.1, DecorationPaint(cfg, b.decorationLeft.value))] else []
  }

  function RightWrites(cfg: GridConfig, b: Node, start: (int, int)): seq<Write>
    requires ConfigValid(cfg) && b.Button?
  {
    if b.decorationRight.Some? then
      [Write(start.0 + LeftWidth(b) + Txt.ByteLen(b.text), start.1, DecorationPaint(cfg, b.decorationRight.value))]
    else []
  }

  /** The text of a button: highlighted, with the colours swapped and moved
      right past the left decoration; otherwise with its own colours, moved
      down by the same amount. */
  function TextWrites(cfg: GridConfig, b: Node, start: (int, int), highlight: bool): seq<Write>
    requires ConfigValid(cfg) && b.Button?
  {
    if highlight then PrintOps(cfg, start.0 + LeftWidth(b), start.1, b.text, b.background, b.foreground)
    else PrintOps(cfg, start.0, start.1 + LeftWidth(b), b.text, b.foreground, b.background)
  }

  // ------------------------------------------------------------------- boxes

  /** What the fill writes on the inside, and on the outline, of a box. */
  function InsidePaint(cfg: GridConfig, f: FillStyle): Paint
    requires ConfigValid(cfg)
  {
    RectPaint(cfg, f.foreground, f.background, f.fillChar, None)
  }

  function BorderPaint(cfg: GridConfig, f: FillStyle): Paint
    requires ConfigValid(cfg)
  {
    RectPaint(cfg, f.border.fg, f.border.bg, f.border.ch, None)
  }

  /** `FillStyle::fill` as writes: the cells of `[start, end)` column by
      column, then for each column its first and last row, then for each
      row its first and last column. */
  function FillWrites(cfg: GridConfig, f: FillStyle, start: (int, int), end: (int, int)): seq<Write>
    requires ConfigValid(cfg)
  {
    var wd := end.0 - start.0;
    var h := end.1 - start.1;
    RectWrites(start.0, start.1, wd, h, true, InsidePaint(cfg, f))
      + RectWrites(start.0, start.1, wd, h, false, BorderPaint(cfg, f))
  }

  /** `SplitY` and `SplitX` are `todo!()`: rendering a box with either
      panics, with or without children. */
  predicate NoSplits(n: Node)
    decreases n
  {
    n.UIBox? ==>
      && !n.placement.SplitY? && !n.placement.SplitX?
      && forall i | 0 <= i < |n.childs| :: NoSplits(n.childs[i])
  }

  /** The rectangle the `k`-th child of a box on `[start, end)` is given. */
  function ChildRect(pl: Placement, start: (int, int), end: (int, int), k: nat): ((int, int), (int, int))
    requires !pl.SplitY? && !pl.SplitX?
  {
    match pl
    case Full => (start, end)
    case Within(p) => ((start.0 + p, start.1 + p), (end.0 - p, end.1 - p))
    case AlignY(h) => ((start.0, start.1 + k * h), (end.0, start.1 + k * h + h))
    case AlignX(wd) => ((start.0 + k * wd, start.1), (start.0 + k * wd + wd, end.1))
  }

  /** `Full` gives every child the box itself, `Within` the box shrunk by
      the padding on all four sides. */
  lemma FixedPlacements(start: (int, int), end: (int, int), p: int, k: nat)
    ensures ChildRect(Full, start, end, k) == (start, end)
    ensures var r := ChildRect(Within(p), start, end, k);
            r.0.0 - start.0 == p && r.0.1 - start.1 == p && end.0 - r.1.0 == p && end.1 - r.1.1 == p
  {
  }

  /** `AlignY` stacks the children downwards from the top of the box, each
      `height` rows tall and as wide as the box, each starting where the
      previous one ends; `AlignX` does the same rightwards. */
  lemma {:induction false} AlignedPlacements(start: (int, int), end: (int, int), h: int, k: nat)
    ensures ChildRect(AlignY(h), start, end, 0).0 == start
    ensures ChildRect(AlignY(h), start, end, k + 1).0.1 == ChildRect(AlignY(h), start, end, k).1.1
    ensures var r := ChildRect(AlignY(h), start, end, k);
            r.1.1 - r.0.1 == h && r.0.0 == start.0 && r.1.0 == end.0
    ensures ChildRect(AlignX(h), start, end, 0).0 == start
    ensures ChildRect(AlignX(h), start, end, k + 1).0.0 == ChildRect(AlignX(h), start, end, k).1.0
    ensures var r := ChildRect(AlignX(h), start, end, k);
            r.1.0 - r.0.0 == h && r.0.1 == start.1 && r.1.1 == end.1
  {
    assert (k + 1) * h == k * h + h;
  }

  // --------------------------------------------------------------- rendering

  /** What a render does: the writes, in order, and the new `UIData`. */
  datatype Rendered = Rendered(ws: seq<Write>, d: UIState)

  /** `render_and_process` of a node on `[start, end)`, with the keyboard in
      state `ks` and the UI data in state `d`. */
  function Render(cfg: GridConfig, n: Node, start: (int, int), end: (int, int), ks: KeyState, d: UIState)
    : (r: Rendered)
    requires ConfigValid(cfg) && NoSplits(n)
    decreases n, 1
  {
    match n
    case UIBox(fill, _, childs) =>
      var c := RenderChildren(cfg, n, |childs|, start, end, ks, d);
      Rendered(FillWrites(cfg, fill, start, end) + c.ws, c.d)
    case Label(fg, bg, text) =>
      Rendered(PrintOps(cfg, start.0, start.1, text, fg, bg), d)
    case Button(_, _, _, _, _, _, _) =>
      var hovered := Hovered(ks, d, start, n.text, n.id);
      Rendered(LeftWrites(cfg, n, start) + RightWrites(cfg, n, start) + TextWrites(cfg, n, start, hovered),
               Record(d, n.id, hovered && Pressing(ks, d)))
    case Nothing =>
      Rendered([], d)
  }

  /** The first `k` children of box `n`, in insertion order, each on its
      own rectangle and seeing the data the previous ones left. */
  function RenderChildren(cfg: GridConfig, n: Node, k: nat, start: (int, int), end: (int, int), ks: KeyState,
                          d: UIState): (r: Rendered)
    requires ConfigValid(cfg) && NoSplits(n) && n.UIBox? && k <= |n.childs|
    decreases n, 0, k
  {
    if k == 0 then Rendered([], d)
    else
      var prev := RenderChildren(cfg, n, k - 1, start, end, ks, d);
      var rect := ChildRect(n.placement, start, end, k - 1);
      var c := Render(cfg, n.childs[k - 1], rect.0, rect.1, ks, prev.d);
      Rendered(prev.ws + c.ws, c.d)
  }

  /** `UIRoot::render_and_process`: the root box on the root's rectangle,
      then the keyboard's mouse position recorded. */
  function RenderRoot(cfg: GridConfig, root: Node, start: (int, int), end: (int, int), ks: KeyState,
                      d: UIState): (r: Rendered)
    requires ConfigValid(cfg) && NoSplits(root)
    ensures r.d.lastMousePosition == ks.mousePosition
  {
    var r := Render(cfg, root, start, end, ks, d);
    Rendered(r.ws, r.d.(lastMousePosition := ks.mousePosition))
  }

  /** Rendering only appends events, and leaves the selection, the
      configuration and the last mouse position alone. */
  lemma {:induction false} RenderKeeps(cfg: GridConfig, n: Node, start: (int, int), end: (int, int),
                                       ks: KeyState, d: UIState)
    requires ConfigValid(cfg) && NoSplits(n)
    ensures Keeps(d, Render(cfg, n, start, end, ks, d).d)
    decreases n, 1
  {
    if n.UIBox? {
      RenderChildrenKeeps(cfg, n, |n.childs|, start, end, ks, d);
    }
  }

  lemma {:induction false} RenderChildrenKeeps(cfg: GridConfig, n: Node, k: nat, start: (int, int),
                                               end: (int, int), ks: KeyState, d: UIState)
    requires ConfigValid(cfg) && NoSplits(n) && n.UIBox? && k <= |n.childs|
    ensures Keeps(d, RenderChildren(cfg, n, k, start, end, ks, d).d)
    decreases n, 0, k
  {
    if k > 0 {
      var prev := RenderChildren(cfg, n, k - 1, start, end, ks, d);
      var rect := ChildRect(n.placement, start, end, k - 1);
      RenderChildrenKeeps(cfg, n, k - 1, start, end, ks, d);
      RenderKeeps(cfg, n.childs[k - 1], rect.0, rect.1, ks, prev.d);
      KeepsTrans(d, prev.d, Render(cfg, n.childs[k - 1], rect.0, rect.1, ks, prev.d).d);
    }
  }

  /** After a render every button of the tree leaves its current state in
      the data: a button records `Boolean(hovered && pressed)` under its
      id. */
  lemma ButtonRecords(cfg: GridConfig, b: Node, start: (int, int), end: (int, int), ks: KeyState, d: UIState)
    requires ConfigValid(cfg) && b.Button?
    ensures var r := Render(cfg, b, start, end, ks, d).d;
            b.id in r.data && r.data[b.id] == Boolean(Hovered(ks, d, start, b.text, b.id) && Pressing(ks, d))
  {
  }

  /** Children render in insertion order: adding a child leaves the writes
      and data of the earlier children as they were. */
  lemma {:induction false} ChildrenPrefix(cfg: GridConfig, n: Node, m: Node, k: nat, start: (int, int),
                                          end: (int, int), ks: KeyState, d: UIState)
    requires ConfigValid(cfg) && NoSplits(n) && NoSplits(m) && n.UIBox? && m.UIBox?
    requires n.placement == m.placement && k <= |n.childs| && k <= |m.childs| && n.childs[..k] == m.childs[..k]
    ensures RenderChildren(cfg, n, k, start, end, ks, d) == RenderChildren(cfg, m, k, start, end, ks, d)
    decreases k
  {
    if k > 0 {
      assert n.childs[..k - 1] == n.childs[..k][..k - 1];
      assert m.childs[..k - 1] == m.childs[..k][..k - 1];
      ChildrenPrefix(cfg, n, m, k - 1, start, end, ks, d);
      assert n.childs[k - 1] == n.childs[..k][k - 1];
    }
  }

  /** `add` then render: the box's fill, then its old children as before,
      then the new child on the next rectangle. */
  lemma AddRendersLast(cfg: GridConfig, n: Node, node: Node, fun: Node -> Node, start: (int, int),
                       end: (int, int), ks: KeyState, d: UIState)
    requires ConfigValid(cfg) && NoSplits(n) && n.UIBox? && NoSplits(fun(node))
    ensures NoSplits(AddChild(n, node, fun))
    ensures var old_ := RenderChildren(cfg, n, |n.childs|, start, end, ks, d);
            var rect := ChildRect(n.placement, start, end, |n.childs|);
            var last := Render(cfg, fun(node), rect.0, rect.1, ks, old_.d);
            Render(cfg, AddChild(n, node, fun), start, end, ks, d) ==
            Rendered(FillWrites(cfg, n.fill, start, end) + old_.ws + last.ws, last.d)
  {
    AddKeepsNoSplits(n, node, fun);
    var m := AddChild(n, node, fun);
    RenderBox(cfg, m, start, end, ks, d);
    AddChildrenLast(cfg, n, node, fun, start, end, ks, d);
    var prev := RenderChildren(cfg, n, |n.childs|, start, end, ks, d);
    var rect := ChildRect(n.placement, start, end, |n.childs|);
    var last := Render(cfg, fun(node), rect.0, rect.1, ks, prev.d);
    AppendAssoc(FillWrites(cfg, n.fill, start, end), prev.ws, last.ws);
  }

  lemma AppendAssoc(a: seq<Write>, b: seq<Write>, c: seq<Write>)
    ensures a + (b + c) == a + b + c
  {
  }

  /** A box renders its fill, then its children. */
  lemma RenderBox(cfg: GridConfig, n: Node, start: (int, int), end: (int, int), ks: KeyState, d: UIState)
    requires ConfigValid(cfg) && NoSplits(n) && n.UIBox?
    ensures var c := RenderChildren(cfg, n, |n.childs|, start, end, ks, d);
            Render(cfg, n, start, end, ks, d) == Rendered(FillWrites(cfg, n.fill, start, end) + c.ws, c.d)
  {
  }

  /** The children of a box after `add`: the old ones as before, then the
      new one on the next rectangle. */
  lemma AddChildrenLast(cfg: GridConfig, n: Node, node: Node, fun: Node -> Node, start: (int, int),
                        end: (int, int), ks: KeyState, d: UIState)
    requires ConfigValid(cfg) && NoSplits(n) && n.UIBox? && NoSplits(fun(node))
    requires NoSplits(AddChild(n, node, fun))
    ensures var prev := RenderChildren(cfg, n, |n.childs|, start, end, ks, d);
            var rect := ChildRect(n.placement, start, end, |n.childs|);
            var last := Render(cfg, fun(node), rect.0, rect.1, ks, prev.d);
            RenderChildren(cfg, AddChild(n, node, fun), |n.childs| + 1, start, end, ks, d) ==
            Rendered(prev.ws + last.ws, last.d)
  {
    var m := AddChild(n, node, fun);
    assert m.childs[..|n.childs|] == n.childs[..|n.childs|];
    ChildrenPrefix(cfg, n, m, |n.childs|, start, end, ks, d);
  }

  /** Adding a child that renders keeps a box renderable. */
  lemma AddKeepsNoSplits(n: Node, node: Node, fun: Node -> Node)
    requires NoSplits(n) && n.UIBox? && NoSplits(fun(node))
    ensures NoSplits(AddChild(n, node, fun))
  {
    var m := AddChild(n, node, fun);
    forall i | 0 <= i < |m.childs|
      ensures NoSplits(m.childs[i])
    {
      if i < |n.childs| {
        assert m.childs[i] == m.childs[..|n.childs|][i];
      }
    }
  }

  /** The root records the mouse position it rendered with and otherwise
      keeps what the tree kept. */
  lemma RootKeeps(cfg: GridConfig, root: Node, start: (int, int), end: (int, int), ks: KeyState, d: UIState)
    requires ConfigValid(cfg) && NoSplits(root)
    ensures var r := RenderRoot(cfg, root, start, end, ks, d).d;
            r.selected == d.selected && r.config == d.config && r.lastMousePosition == ks.mousePosition
            && |d.events| <= |r.events| && r.events[..|d.events|] == d.events
  {
    RenderKeeps(cfg, root, start, end, ks, d);
  }

  /** A label prints its text at `start` with its colours; the end of its
      rectangle plays no part. */
  lemma LabelIgnoresEnd(cfg: GridConfig, l: Node, start: (int, int), e1: (int, int), e2: (int, int),
                        ks: KeyState, d: UIState)
    requires ConfigValid(cfg) && l.Label?
    ensures Render(cfg, l, start, e1, ks, d) == Render(cfg, l, start, e2, ks, d)
    ensures Render(cfg, l, start, e1, ks, d).d == d
    ensures start.0 >= 0 && start.1 >= 0 ==>
            Render(cfg, l, start, e1, ks, d).ws == PrintWrites(cfg, start.0, start.1, l.text, l.foreground, l.background, None)
  {
  }

  /** Where a button puts its text: the `i`-th character goes, when the
      button is hovered, to column `start.0 + i` plus the left decoration's
      width on row `start.1` with the colours swapped; otherwise to column
      `start.0 + i` on row `start.1` plus that width, with its own colours. */
  lemma ButtonText(cfg: GridConfig, b: Node, start: (int, int), highlight: bool, i: nat)
    requires ConfigValid(cfg) && b.Button? && start.0 >= 0 && start.1 >= 0 && i < |b.text|
    ensures var ws := TextWrites(cfg, b, start, highlight);
            |ws| == |b.text| &&
            ws[i] == if highlight
                     then Write(start.0 + LeftWidth(b) + i, start.1,
                                PrintPaint(cfg, b.text[i], b.background, b.foreground, None))
                     else Write(start.0 + i, start.1 + LeftWidth(b),
                                PrintPaint(cfg, b.text[i], b.foreground, b.background, None))
  {
  }

  // ---------------------------------------------------------------- the fill

  /** Two runs of font-free uniform writes can all be taken by the store. */
  lemma UniformOk(cfg: GridConfig, a: seq<Write>, p: Paint, b: seq<Write>, q: Paint)
    requires Uniform(a, p) && Uniform(b, q) && p.font.None? && q.font.None?
    ensures WritesOk(cfg, a + b)
  {
    forall k | 0 <= k < |a + b|
      ensures PaintOkAt(cfg, (a + b)[k].x, (a + b)[k].y, (a + b)[k].p)
    {
      if k < |a| {
        assert (a + b)[k] == a[k];
      } else {
        assert (a + b)[k] == b[k - |a|];
      }
    }
  }

  lemma FillWritesOk(cfg: GridConfig, f: FillStyle, start: (int, int), end: (int, int))
    requires ConfigValid(cfg)
    ensures WritesOk(cfg, FillWrites(cfg, f, start, end))
  {
    var wd := end.0 - start.0;
    var h := end.1 - start.1;
    RectWritesHits(start.0, start.1, wd, h, true, InsidePaint(cfg, f), 0, 0);
    RectWritesHits(start.0, start.1, wd, h, false, BorderPaint(cfg, f), 0, 0);
    UniformOk(cfg, RectWrites(start.0, start.1, wd, h, true, InsidePaint(cfg, f)), InsidePaint(cfg, f),
              RectWrites(start.0, start.1, wd, h, false, BorderPaint(cfg, f)), BorderPaint(cfg, f));
  }

  /** `FillStyle::fill`, cell by cell: the inside paint on every cell of
      `[start, end)`, then the border paint on the cells of its first and
      last row and column; every other cell keeps its value. */
  lemma FillAt(s: Screen, f: FillStyle, start: (int, int), end: (int, int), cx: int, cy: int)
    requires Valid(s) && InGrid(s.cfg, cx, cy)
    ensures WritesOk(s.cfg, FillWrites(s.cfg, f, start, end))
    ensures var wd := end.0 - start.0;
            var h := end.1 - start.1;
            var c0 := CellAt(s, cx, cy);
            var c1 := if Covered(start.0, start.1, wd, h, true, cx, cy) then Apply(InsidePaint(s.cfg, f), c0) else c0;
            CellAt(RepaintAll(s, FillWrites(s.cfg, f, start, end)), cx, cy) ==
            if Covered(start.0, start.1, wd, h, false, cx, cy) then Apply(BorderPaint(s.cfg, f), c1) else c1
  {
    var wd := end.0 - start.0;
    var h := end.1 - start.1;
    var inside := RectWrites(start.0, start.1, wd, h, true, InsidePaint(s.cfg, f));
    var border := RectWrites(start.0, start.1, wd, h, false, BorderPaint(s.cfg, f));
    RectWritesHits(start.0, start.1, wd, h, true, InsidePaint(s.cfg, f), cx, cy);
    RectWritesHits(start.0, start.1, wd, h, false, BorderPaint(s.cfg, f), cx, cy);
    assert FillWrites(s.cfg, f, start, end) == inside + border;
    FillWritesOk(s.cfg, f, start, end);
    RepaintAllAt(s, inside + border, cx, cy);
    CellAfterAppend(inside, border, cx, cy, CellAt(s, cx, cy));
    CellAfterUniform(inside, InsidePaint(s.cfg, f), cx, cy, CellAt(s, cx, cy));
    CellAfterUniform(border, BorderPaint(s.cfg, f), cx, cy, CellAfter(inside, cx, cy, CellAt(s, cx, cy)));
  }

  /** The default fill changes nothing, not even the dirty flag. */
  lemma DefaultFillNothing(s: Screen, start: (int, int), end: (int, int))
    requires Valid(s)
    ensures WritesOk(s.cfg, FillWrites(s.cfg, DefaultFill, start, end))
    ensures RepaintAll(s, FillWrites(s.cfg, DefaultFill, start, end)) == s
  {
    var ws := FillWrites(s.cfg, DefaultFill, start, end);
    var wd := end.0 - start.0;
    var h := end.1 - start.1;
    RectWritesHits(start.0, start.1, wd, h, true, NoPaint, 0, 0);
    RectWritesHits(start.0, start.1, wd, h, false, NoPaint, 0, 0);
    var inside := RectWrites(start.0, start.1, wd, h, true, NoPaint);
    var border := RectWrites(start.0, start.1, wd, h, false, NoPaint);
    assert ws == inside + border;
    assert forall k | 0 <= k < |ws| :: ws[k].p == NoPaint by {
      forall k | 0 <= k < |ws|
        ensures ws[k].p == NoPaint
      {
        if k < |inside| {
          assert ws[k] == inside[k];
        } else {
          assert ws[k] == border[k - |inside|];
        }
      }
    }
    FillWritesOk(s.cfg, DefaultFill, start, end);
    RepaintAllIdle(s, ws);
  }

  /** A default box (default fill, no children) leaves the grid and the data
      as they were. */
  lemma DefaultBoxDrawsNothing(s: Screen, start: (int, int), end: (int, int), ks: KeyState, d: UIState)
    requires Valid(s)
    ensures var r := Render(s.cfg, DefaultBox, start, end, ks, d);
            WritesOk(s.cfg, r.ws) && RepaintAll(s, r.ws) == s && r.d == d
  {
    DefaultFillNothing(s, start, end);
    assert FillWrites(s.cfg, DefaultFill, start, end) + [] == FillWrites(s.cfg, DefaultFill, start, end);
  }

  /** A default label has empty text and issues no write. */
  lemma DefaultLabelDrawsNothing(cfg: GridConfig, start: (int, int), end: (int, int), ks: KeyState, d: UIState)
    requires ConfigValid(cfg)
    ensures Render(cfg, DefaultLabel, start, end, ks, d) == Rendered([], d)
  {
  }

  /** The unit element renders nothing and changes no data. */
  lemma NothingDrawsNothing(cfg: GridConfig, start: (int, int), end: (int, int), ks: KeyState, d: UIState)
    requires ConfigValid(cfg)
    ensures Render(cfg, Nothing, start, end, ks, d) == Rendered([], d)
  {
  }

  // -------------------------------------------------- setter calls on a cell

  /** The fill's `set_char_at`, `set_bg_at`, `set_fg_at` on one cell. */
  lemma FillCellSetters(s: Screen, x: int, y: int, fg: Option<Col>, bg: Option<Col>, ch: Option<char>)
    requires Grid.Valid(s)
    ensures var s1 := if ch.Some? then SetChar(s, x, y, ch.value) else s;
            var s2 := if bg.Some? then SetBg(s1, x, y, bg.value) else s1;
            var s3 := if fg.Some? then SetFg(s2, x, y, fg.value) else s2;
            s3 == Repaint(s, x, y, RectPaint(s.cfg, fg, bg, ch, None))
  {
    var s1 := Repaint(s, x, y, CharPaint(s.cfg, ch));
    var s2 := Repaint(s1, x, y, BgPaint(bg));
    RepaintNothing(s, x, y);
    RepaintNothing(s1, x, y);
    RepaintNothing(s2, x, y);
    RepaintThree(s, x, y, CharPaint(s.cfg, ch), BgPaint(bg), FgPaint(fg));
  }

  /** The border's `set_bg_at`, `set_fg_at`, `set_char_at` on one cell. */
  lemma BorderCellSetters(s: Screen, x: int, y: int, fg: Option<Col>, bg: Option<Col>, ch: Option<char>)
    requires Grid.Valid(s)
    ensures var s1 := if bg.Some? then SetBg(s, x, y, bg.value) else s;
            var s2 := if fg.Some? then SetFg(s1, x, y, fg.value) else s1;
            var s3 := if ch.Some? then SetChar(s2, x, y, ch.value) else s2;
            s3 == Repaint(s, x, y, RectPaint(s.cfg, fg, bg, ch, None))
  {
    var s1 := Repaint(s, x, y, BgPaint(bg));
    var s2 := Repaint(s1, x, y, FgPaint(fg));
    RepaintNothing(s, x, y);
    RepaintNothing(s1, x, y);
    RepaintNothing(s2, x, y);
    RepaintThree(s, x, y, BgPaint(bg), FgPaint(fg), CharPaint(s.cfg, ch));
  }

  /** A decoration's `set_bg_at`, `set_char_at`, `set_fg_at` on one cell. */
  lemma DecorationCellSetters(s: Screen, x: int, y: int, fg: Option<Col>, bg: Option<Col>, ch: Option<char>)
    requires Grid.Valid(s)
    ensures var s1 := if bg.Some? then SetBg(s, x, y, bg.value) else s;
            var s2 := if ch.Some? then SetChar(s1, x, y, ch.value) else s1;
            var s3 := if fg.Some? then SetFg(s2, x, y, fg.value) else s2;
            s3 == Repaint(s, x, y, RectPaint(s.cfg, fg, bg, ch, None))
  {
    var s1 := Repaint(s, x, y, BgPaint(bg));
    var s2 := Repaint(s1, x, y, CharPaint(s.cfg, ch));
    RepaintNothing(s, x, y);
    RepaintNothing(s1, x, y);
    RepaintNothing(s2, x, y);
    RepaintThree(s, x, y, BgPaint(bg), CharPaint(s.cfg, ch), FgPaint(fg));
  }

  /** `print_at` with no font-set as writes. */
  lemma PrintOpsPrint(s: Screen, x: int, y: int, text: string, fg: Option<Col>, bg: Option<Col>)
    requires Valid(s)
    ensures WritesOk(s.cfg, PrintOps(s.cfg, x, y, text, fg, bg))
    ensures Print(s, x, y, text, fg, bg, None) == RepaintAll(s, PrintOps(s.cfg, x, y, text, fg, bg))
  {
  }

  // ------------------------------------------------------- the setter calls

  /** The fill's setter calls on one inside cell: character, background,
      foreground. */
  method FillCell(w: Window, ghost s0: Screen, ghost ws: seq<Write>, x: int, y: int, f: FillStyle)
    requires w.Painted(s0, ws)
    modifies w
    ensures w.Painted(s0, ws + [Write(x, y, InsidePaint(w.cfg, f))])
  {
    ghost var s := w.Model();
    if f.fillChar.Some? {
      w.SetCharAt(x, y, f.fillChar.value);
    }
    if f.background.Some? {
      w.SetBgAt(x, y, f.background.value);
    }
    if f.foreground.Some? {
      w.SetFgAt(x, y, f.foreground.value);
    }
    FillCellSetters(s, x, y, f.foreground, f.background, f.fillChar);
    RepaintAllSnoc(s0, ws, Write(x, y, InsidePaint(w.cfg, f)));
  }

  /** The fill's setter calls on one border cell: background, foreground,
      character. */
  method BorderCell(w: Window, ghost s0: Screen, ghost ws: seq<Write>, x: int, y: int, f: FillStyle)
    requires w.Painted(s0, ws)
    modifies w
    ensures w.Painted(s0, ws + [Write(x, y, BorderPaint(w.cfg, f))])
  {
    ghost var s := w.Model();
    if f.border.bg.Some? {
      w.SetBgAt(x, y, f.border.bg.value);
    }
    if f.border.fg.Some? {
      w.SetFgAt(x, y, f.border.fg.value);
    }
    if f.border.ch.Some? {
      w.SetCharAt(x, y, f.border.ch.value);
    }
    BorderCellSetters(s, x, y, f.border.fg, f.border.bg, f.border.ch);
    RepaintAllSnoc(s0, ws, Write(x, y, BorderPaint(w.cfg, f)));
  }

  /** Two border cells, `(x1, y1)` and then `(x2, y2)`. */
  method BorderPair(w: Window, ghost s0: Screen, ghost ws: seq<Write>, x1: int, y1: int, x2: int, y2: int,
                    f: FillStyle)
    requires w.Painted(s0, ws)
    modifies w
    ensures w.Painted(s0, ws + [Write(x1, y1, BorderPaint(w.cfg, f)), Write(x2, y2, BorderPaint(w.cfg, f))])
  {
    ghost var p := BorderPaint(w.cfg, f);
    BorderCell(w, s0, ws, x1, y1, f);
    BorderCell(w, s0, ws + [Write(x1, y1, p)], x2, y2, f);
    assert ws + [Write(x1, y1, p)] + [Write(x2, y2, p)] == ws + [Write(x1, y1, p), Write(x2, y2, p)];
  }

  /** A decoration's setter calls on its cell: background, character,
      foreground. */
  method DecorationCell(w: Window, ghost s0: Screen, ghost ws: seq<Write>, x: int, y: int, n: Decoration)
    requires w.Painted(s0, ws)
    modifies w
    ensures w.Painted(s0, ws + [Write(x, y, DecorationPaint(w.cfg, n))])
  {
    ghost var s := w.Model();
    if n.bg.Some? {
      w.SetBgAt(x, y, n.bg.value);
    }
    if n.ch.Some? {
      w.SetCharAt(x, y, n.ch.value);
    }
    if n.fg.Some? {
      w.SetFgAt(x, y, n.fg.value);
    }
    DecorationCellSetters(s, x, y, n.fg, n.bg, n.ch);
    RepaintAllSnoc(s0, ws, Write(x, y, DecorationPaint(w.cfg, n)));
  }

  /** `print_at` after the writes `ws`. */
  method PrintOn(w: Window, ghost s0: Screen, ghost ws: seq<Write>, x: int, y: int, text: string,
                 fg: Option<Col>, bg: Option<Col>)
    requires w.Painted(s0, ws)
    modifies w
    ensures w.Painted(s0, ws + PrintOps(w.cfg, x, y, text, fg, bg))
  {
    ghost var s := w.Model();
    w.PrintAt(x, y, text, fg, bg);
    PrintOpsPrint(s, x, y, text, fg, bg);
    RepaintAllAppend(s0, ws, PrintOps(w.cfg, x, y, text, fg, bg));
  }

  // ---------------------------------------------------------------- the fill

  /** The inner loop of the first part of the fill: rows `y .. end-1` of
      column `cx`. */
  method FillColumn(w: Window, ghost s0: Screen, ghost ws: seq<Write>, cx: int, y: int, end: int, f: FillStyle)
    requires w.Painted(s0, ws)
    modifies w
    ensures w.Painted(s0, ws + Column(cx, y, Count(end - y), InsidePaint(w.cfg, f)))
  {
    ghost var p := InsidePaint(w.cfg, f);
    assert ws + Column(cx, y, 0, p) == ws;
    var j := y;
    ghost var k: nat := 0;
    while j < end
      invariant j == y + k && k <= Count(end - y)
      invariant w.Painted(s0, ws + Column(cx, y, k, p))
    {
      FillCell(w, s0, ws + Column(cx, y, k, p), cx, j, f);
      ColumnSnoc(ws, cx, y, k, p);
      j, k := j + 1, k + 1;
    }
  }

  /** The first part of the fill: every cell of the box, column by column. */
  method FillInside(w: Window, f: FillStyle, start: (int, int), end: (int, int))
    requires w.Valid()
    modifies w
    ensures w.Painted(old(w.Model()), RectWrites(start.0, start.1, end.0 - start.0, end.1 - start.1, true,
                                                 InsidePaint(w.cfg, f)))
  {
    ghost var s0 := w.Model();
    ghost var p := InsidePaint(w.cfg, f);
    ghost var h := Count(end.1 - start.1);
    var i := start.0;
    while i < end.0
      invariant start.0 <= i <= start.0 + Count(end.0 - start.0)
      invariant w.Painted(s0, Columns(start.0, start.1, i - start.0, h, p))
    {
      FillColumn(w, s0, Columns(start.0, start.1, i - start.0, h, p), i, start.1, end.1, f);
      i := i + 1;
    }
  }

  /** The second part: for each column, its cell on the first row and then
      its cell on the last. */
  method FillTops(w: Window, f: FillStyle, start: (int, int), end: (int, int))
    requires w.Valid()
    modifies w
    ensures w.Painted(old(w.Model()), Tops(start.0, start.1, end.1 - start.1, Count(end.0 - start.0),
                                           BorderPaint(w.cfg, f)))
  {
    ghost var s0 := w.Model();
    ghost var p := BorderPaint(w.cfg, f);
    var i := start.0;
    while i < end.0
      invariant start.0 <= i <= start.0 + Count(end.0 - start.0)
      invariant w.Painted(s0, Tops(start.0, start.1, end.1 - start.1, i - start.0, p))
    {
      BorderPair(w, s0, Tops(start.0, start.1, end.1 - start.1, i - start.0, p), i, start.1, i, end.1 - 1, f);
      i := i + 1;
    }
  }

  /** The third part: for each row, its cell in the first column and then
      its cell in the last. */
  method FillSides(w: Window, f: FillStyle, start: (int, int), end: (int, int))
    requires w.Valid()
    modifies w
    ensures w.Painted(old(w.Model()), Sides(start.0, start.1, end.0 - start.0, Count(end.1 - start.1),
                                            BorderPaint(w.cfg, f)))
  {
    ghost var s0 := w.Model();
    ghost var p := BorderPaint(w.cfg, f);
    var j := start.1;
    while j < end.1
      invariant start.1 <= j <= start.1 + Count(end.1 - start.1)
      invariant w.Painted(s0, Sides(start.0, start.1, end.0 - start.0, j - start.1, p))
    {
      BorderPair(w, s0, Sides(start.0, start.1, end.0 - start.0, j - start.1, p), start.0, j, end.0 - 1, j, f);
      j := j + 1;
    }
  }

  /** The three loops of the fill, one after the other. */
  lemma FillParts(cfg: GridConfig, f: FillStyle, start: (int, int), end: (int, int))
    requires ConfigValid(cfg)
    ensures FillWrites(cfg, f, start, end) ==
            RectWrites(start.0, start.1, end.0 - start.0, end.1 - start.1, true, InsidePaint(cfg, f))
            + (Tops(start.0, start.1, end.1 - start.1, Count(end.0 - start.0), BorderPaint(cfg, f))
               + Sides(start.0, start.1, end.0 - start.0, Count(end.1 - start.1), BorderPaint(cfg, f)))
  {
  }

  /** `FillStyle::fill`. */
  method Fill(w: Window, f: FillStyle, start: (int, int), end: (int, int))
    requires w.Valid()
    modifies w
    ensures w.Painted(old(w.Model()), FillWrites(w.cfg, f, start, end))
  {
    ghost var s0 := w.Model();
    ghost var wd := end.0 - start.0;
    ghost var h := end.1 - start.1;
    ghost var inside := RectWrites(start.0, start.1, wd, h, true, InsidePaint(w.cfg, f));
    ghost var tops := Tops(start.0, start.1, h, Count(wd), BorderPaint(w.cfg, f));
    ghost var sides := Sides(start.0, start.1, wd, Count(h), BorderPaint(w.cfg, f));
    FillInside(w, f, start, end);
    ghost var s1 := w.Model();
    FillTops(w, f, start, end);
    ghost var s2 := w.Model();
    FillSides(w, f, start, end);
    RepaintAllAppend(s1, tops, sides);
    RepaintAllAppend(s0, inside, tops + sides);
    FillParts(w.cfg, f, start, end);
  }

  // --------------------------------------------------------------- rendering

  /** The first half of `Button::render_and_process`: whether the button is
      hovered and pressed, and the bookkeeping in the data. Returns the
      highlight. */
  method ButtonRecord(ud: UIData, kb: Keyboard, b: Node, start: (int, int)) returns (highlight: bool)
    requires b.Button?
    modifies ud
    ensures highlight == Hovered(kb.State(), old(ud.Model()), start, b.text, b.id)
    ensures ud.Model() == Record(old(ud.Model()), b.id, highlight && Pressing(kb.State(), old(ud.Model())))
  {
    var len := Txt.ByteLen(b.text);
    var hovered := (kb.mousePosition.0 >= start.0 && kb.mousePosition.1 == start.1
                    && kb.mousePosition.0 < start.0 + len)
                   || ud.selected == Some(b.id);
    var pressed := kb.mousePressed || (ud.config.keySelect.Some? && ud.config.keySelect.value in kb.keys);
    highlight := hovered;
    if b.id in ud.data {
      match ud.data[b.id]
      case TextEntry(_) =>
      case Boolean(d) =>
        if d && !(hovered && pressed) {
          ud.AddEvent(Pressed(b.id));
        } else if !d && hovered && pressed {
          ud.AddEvent(Unpressed(b.id));
        }
    }
    ud.data := ud.data[b.id := Boolean(hovered && pressed)];
  }

  /** The left decoration, in the button's first cell. */
  method LeftOn(w: Window, ghost s0: Screen, b: Node, start: (int, int))
    requires w.Painted(s0, []) && b.Button?
    modifies w
    ensures w.Painted(s0, LeftWrites(w.cfg, b, start))
  {
    if b.decorationLeft.Some? {
      DecorationCell(w, s0, [], start.0, start.1, b.decorationLeft.value);
      assert [] + LeftWrites(w.cfg, b, start) == LeftWrites(w.cfg, b, start);
    }
  }

  /** The right decoration, just past the text's byte length. */
  method RightOn(w: Window, ghost s0: Screen, ghost ws: seq<Write>, b: Node, start: (int, int))
    requires w.Painted(s0, ws) && b.Button?
    modifies w
    ensures w.Painted(s0, ws + RightWrites(w.cfg, b, start))
  {
    if b.decorationRight.Some? {
      DecorationCell(w, s0, ws, start.0 + LeftWidth(b) + Txt.ByteLen(b.text), start.1, b.decorationRight.value);
    } else {
      assert ws + [] == ws;
    }
  }

  /** The text: flipped and moved right when highlighted, moved down
      otherwise. */
  method ButtonTextOn(w: Window, ghost s0: Screen, ghost ws: seq<Write>, b: Node, start: (int, int),
                      highlight: bool)
    requires w.Painted(s0, ws) && b.Button?
    modifies w
    ensures w.Painted(s0, ws + TextWrites(w.cfg, b, start, highlight))
  {
    var left := LeftWidth(b);
    if highlight {
      PrintOn(w, s0, ws, start.0 + left, start.1, b.text, b.background, b.foreground);
    } else {
      PrintOn(w, s0, ws, start.0, start.1 + left, b.text, b.foreground, b.background);
    }
  }

  /** The second half: the left decoration, the right one, then the text,
      flipped when highlighted. */
  method ButtonDraw(w: Window, b: Node, start: (int, int), highlight: bool)
    requires w.Valid() && b.Button?
    modifies w
    ensures w.Painted(old(w.Model()), LeftWrites(w.cfg, b, start) + RightWrites(w.cfg, b, start)
                                      + TextWrites(w.cfg, b, start, highlight))
  {
    ghost var s0 := w.Model();
    assert w.Painted(s0, []);
    LeftOn(w, s0, b, start);
    RightOn(w, s0, LeftWrites(w.cfg, b, start), b, start);
    ButtonTextOn(w, s0, LeftWrites(w.cfg, b, start) + RightWrites(w.cfg, b, start), b, start, highlight);
  }

  /** `Button::render_and_process`. */
  method ButtonOn(w: Window, ud: UIData, kb: Keyboard, b: Node, start: (int, int), end: (int, int))
    requires w.Valid() && b.Button?
    modifies w, ud
    ensures var r := Render(w.cfg, b, start, end, kb.State(), old(ud.Model()));
            w.Painted(old(w.Model()), r.ws) && ud.Model() == r.d
  {
    var highlight := ButtonRecord(ud, kb, b, start);
    ButtonDraw(w, b, start, highlight);
  }

  /** `Label::render_and_process`: `print_at` at `start`. */
  method LabelOn(w: Window, l: Node, start: (int, int), end: (int, int))
    requires w.Valid() && l.Label?
    modifies w
    ensures w.Painted(old(w.Model()), PrintOps(w.cfg, start.0, start.1, l.text, l.foreground, l.background))
  {
    ghost var s0 := w.Model();
    assert w.Painted(s0, []);
    PrintOn(w, s0, [], start.0, start.1, l.text, l.foreground, l.background);
    assert [] + PrintOps(w.cfg, start.0, start.1, l.text, l.foreground, l.background) ==
           PrintOps(w.cfg, start.0, start.1, l.text, l.foreground, l.background);
  }

  /** `render_and_process` on any node. */
  method RenderOn(w: Window, ud: UIData, kb: Keyboard, n: Node, start: (int, int), end: (int, int))
    requires w.Valid() && NoSplits(n)
    modifies w, ud
    ensures var r := Render(w.cfg, n, start, end, kb.State(), old(ud.Model()));
            w.Painted(old(w.Model()), r.ws) && ud.Model() == r.d
    decreases n, 3
  {
    match n
    case UIBox(fill, _, _) =>
      ghost var s0 := w.Model();
      Fill(w, fill, start, end);
      ghost var s1 := w.Model();
      ChildrenOn(w, ud, kb, n, start, end);
      ghost var c := RenderChildren(w.cfg, n, |n.childs|, start, end, kb.State(), old(ud.Model()));
      RepaintAllAppend(s0, FillWrites(w.cfg, fill, start, end), c.ws);
    case Label(_, _, _) =>
      LabelOn(w, n, start, end);
    case Button(_, _, _, _, _, _, _) =>
      ButtonOn(w, ud, kb, n, start, end);
    case Nothing =>
      assert w.Painted(old(w.Model()), []);
  }

  /** The children of a box have rendered up to, not including, the `k`-th,
      since the state `s0` and the data `d0`. */
  ghost predicate ChildrenDone(w: Window, ud: UIData, s0: Screen, d0: UIState, n: Node, k: nat,
                               start: (int, int), end: (int, int), ks: KeyState)
    requires NoSplits(n) && n.UIBox? && k <= |n.childs|
    reads w, ud
  {
    w.Valid() &&
    var r := RenderChildren(w.cfg, n, k, start, end, ks, d0);
    w.Painted(s0, r.ws) && ud.Model() == r.d
  }

  /** The `k`-th child of a box rendered on the rectangle `(cs, ce)` its
      placement gives it. */
  method ChildOn(w: Window, ud: UIData, kb: Keyboard, n: Node, k: nat, cs: (int, int), ce: (int, int),
                 start: (int, int), end: (int, int), ghost s0: Screen, ghost d0: UIState)
    requires NoSplits(n) && n.UIBox? && k < |n.childs| && (cs, ce) == ChildRect(n.placement, start, end, k)
    requires ChildrenDone(w, ud, s0, d0, n, k, start, end, kb.State())
    modifies w, ud
    ensures ChildrenDone(w, ud, s0, d0, n, k + 1, start, end, kb.State())
    decreases n, 0
  {
    ghost var ks := kb.State();
    ghost var prev := RenderChildren(w.cfg, n, k, start, end, ks, d0);
    ghost var s1 := w.Model();
    RenderOn(w, ud, kb, n.childs[k], cs, ce);
    RepaintAllAppend(s0, prev.ws, Render(w.cfg, n.childs[k], cs, ce, ks, prev.d).ws);
  }

  /** The loop over a box's children under `Full` and `Within`: every child
      on the same rectangle `(cs, ce)`. */
  method ChildrenFixed(w: Window, ud: UIData, kb: Keyboard, n: Node, cs: (int, int), ce: (int, int),
                       start: (int, int), end: (int, int), ghost s0: Screen, ghost d0: UIState)
    requires NoSplits(n) && n.UIBox? && (n.placement.Full? || n.placement.Within?)
    requires (cs, ce) == ChildRect(n.placement, start, end, 0)
    requires ChildrenDone(w, ud, s0, d0, n, 0, start, end, kb.State())
    modifies w, ud
    ensures ChildrenDone(w, ud, s0, d0, n, |n.childs|, start, end, kb.State())
    decreases n, 1
  {
    for k := 0 to |n.childs|
      invariant ChildrenDone(w, ud, s0, d0, n, k, start, end, kb.State())
    {
      ChildOn(w, ud, kb, n, k, cs, ce, start, end, s0, d0);
    }
  }

  /** The loop under `AlignY`: a running row, advanced by the height after
      each child. */
  method ChildrenAlignY(w: Window, ud: UIData, kb: Keyboard, n: Node, height: int,
                        start: (int, int), end: (int, int), ghost s0: Screen, ghost d0: UIState)
    requires NoSplits(n) && n.UIBox? && n.placement == AlignY(height)
    requires ChildrenDone(w, ud, s0, d0, n, 0, start, end, kb.State())
    modifies w, ud
    ensures ChildrenDone(w, ud, s0, d0, n, |n.childs|, start, end, kb.State())
    decreases n, 1
  {
    var y := start.1;
    for k := 0 to |n.childs|
      invariant y == start.1 + k * height
      invariant ChildrenDone(w, ud, s0, d0, n, k, start, end, kb.State())
    {
      ChildOn(w, ud, kb, n, k, (start.0, y), (end.0, y + height), start, end, s0, d0);
      assert (k + 1) * height == k * height + height;
      y := y + height;
    }
  }

  /** The loop under `AlignX`: a running column, advanced by the width after
      each child. */
  method ChildrenAlignX(w: Window, ud: UIData, kb: Keyboard, n: Node, width: int,
                        start: (int, int), end: (int, int), ghost s0: Screen, ghost d0: UIState)
    requires NoSplits(n) && n.UIBox? && n.placement == AlignX(width)
    requires ChildrenDone(w, ud, s0, d0, n, 0, start, end, kb.State())
    modifies w, ud
    ensures ChildrenDone(w, ud, s0, d0, n, |n.childs|, start, end, kb.State())
    decreases n, 1
  {
    var x := start.0;
    for k := 0 to |n.childs|
      invariant x == start.0 + k * width
      invariant ChildrenDone(w, ud, s0, d0, n, k, start, end, kb.State())
    {
      ChildOn(w, ud, kb, n, k, (x, start.1), (x + width, end.1), start, end, s0, d0);
      assert (k + 1) * width == k * width + width;
      x := x + width;
    }
  }

  /** The children of a box, placed as the box says. */
  method ChildrenOn(w: Window, ud: UIData, kb: Keyboard, n: Node, start: (int, int), end: (int, int))
    requires w.Valid() && NoSplits(n) && n.UIBox?
    modifies w, ud
    ensures var r := RenderChildren(w.cfg, n, |n.childs|, start, end, kb.State(), old(ud.Model()));
            w.Painted(old(w.Model()), r.ws) && ud.Model() == r.d
    decreases n, 2
  {
    ghost var s0 := w.Model();
    ghost var d0 := ud.Model();
    assert ChildrenDone(w, ud, s0, d0, n, 0, start, end, kb.State());
    match n.placement
    case Full =>
      ChildrenFixed(w, ud, kb, n, start, end, start, end, s0, d0);
    case Within(padding) =>
      ChildrenFixed(w, ud, kb, n, (start.0 + padding, start.1 + padding), (end.0 - padding, end.1 - padding),
                    start, end, s0, d0);
    case AlignY(height) =>
      ChildrenAlignY(w, ud, kb, n, height, start, end, s0, d0);
    case AlignX(width) =>
      ChildrenAlignX(w, ud, kb, n, width, start, end, s0, d0);
  }

  /** `UIRoot`: the root box, its rectangle and the data it owns. */
  class UIRoot {
    var start: (int, int)
    var end: (int, int)
    var uiBox: Node
    var data: UIData

    /** `ui_context`: an empty default box over `[start, end)`. */
    constructor (start: (int, int), end: (int, int), data: UIData)
      ensures this.start == start && this.end == end && uiBox == DefaultBox && this.data == data
    {
      this.start := start;
      this.end := end;
      uiBox := DefaultBox;
      this.data := data;
    }

    /** `UINode::add` on the root: adds to the root box. */
    method Add(node: Node, fun: Node -> Node)
      requires uiBox.UIBox?
      modifies this
      ensures uiBox == AddChild(old(uiBox), node, fun)
      ensures start == old(start) && end == old(end) && data == old(data)
    {
      uiBox := uiBox.(childs := uiBox.childs + [fun(node)]);
    }

    /** `render_and_process` on the root. */
    method RenderAndProcess(w: Window, kb: Keyboard)
      requires w.Valid() && NoSplits(uiBox)
      modifies w, data
      ensures var r := RenderRoot(w.cfg, uiBox, start, end, kb.State(), old(data.Model()));
              w.Painted(old(w.Model()), r.ws) && data.Model() == r.d
    {
      RenderOn(w, data, kb, uiBox, start, end);
      data.lastMousePosition := kb.mousePosition;
    }

    /** `retrieve_data`. */
    method RetrieveData() returns (d: UIData)
      ensures d == data
    {
      d := data;
    }
  }
}

/** What wm_composite puts on the screen (kernel/wm.c), and that it is what the mouse hits: above the
    taskbar the window that a click selects is the one whose drawing was the last to write the pixel. */
module Compositor {
  import opened Common
  import opened Gpu
  import opened WindowManager

  const TITLE_BG_FOCUSED: nat := 0x00336699
  const TITLE_BG_UNFOCUSED: nat := 0x00606060
  const TITLE_FG: nat := 0x00FFFFFF
  const CLOSE_BG: nat := 0x00CC3333
  const CLOSE_FG: nat := 0x00FFFFFF
  const BORDER_COLOR: nat := 0x00808080
  const DESKTOP_BG: nat := 0x00000080
  const WATERMARK_FG: nat := 0x00102040
  const TASKBAR_BG: nat := 0x00333333
  const TASKBAR_FG: nat := 0x00C0C0C0
  const TASKBAR_ACTIVE_BG: nat := 0x00336699
  const START_FG: nat := 0x00FFFFFF
  const LABEL_FG: nat := 0x00808080

  type Font = seq<seq<nat>>

  // ---- the drawing calls ----

  /** gpu_draw_rect */
  function Outline(x: int, y: int, w: int, h: int, color: nat): (ops: seq<Op>)
    ensures OpsOk(ops)
  {
    [Fill(x, y, w, 1, color), Fill(x, y + h - 1, w, 1, color), Fill(x, y, 1, h, color), Fill(x + w - 1, y, 1, h, color)]
  }

  function TitleBg(win: Window): nat { if win.focused then TITLE_BG_FOCUSED else TITLE_BG_UNFOCUSED }

  ghost function CloseButton(font: Font, win: Window): (ops: seq<Op>)
    requires FontOk(font)
    ensures OpsOk(ops)
  {
    var cx, cy := win.x + win.w - CLOSE_BTN_W - 2, win.y + 2;
    [Fill(cx, cy, CLOSE_BTN_W, TITLEBAR_H - 4, CLOSE_BG), Char(cx + 4, cy + 1, Glyph(font, 'X'), CLOSE_FG, CLOSE_BG)]
  }

  function Client(win: Window): seq<Op> {
    if win.content.None? then []
    else [Blit(win.x + 1, win.y + TITLEBAR_H + 1, win.content.value, win.contentW, win.contentH, win.contentW)]
  }

  lemma ClientOk(win: Window)
    requires WindowOk(win)
    ensures OpsOk(Client(win))
  {
    if win.content.Some? {
      forall j, i | 0 <= j < win.contentH && 0 <= i < win.contentW
        ensures 0 <= Offset(win.contentW, j, i) < |win.content.value|
      {
        IndexUnique(win.contentW, win.contentH, i, j);
      }
    }
  }

  /** draw_window */
  ghost function WindowOps(font: Font, win: Window): (ops: seq<Op>)
    requires FontOk(font) && WindowOk(win)
    ensures OpsOk(ops)
  {
    ClientOk(win);
    Outline(win.x, win.y, win.w, win.h, BORDER_COLOR)
    + [Fill(win.x + 1, win.y + 1, win.w - 2, TITLEBAR_H, TitleBg(win))]
    + Text(font, win.x + 4, win.y + 3, win.title, TITLE_FG, TitleBg(win))
    + CloseButton(font, win)
    + Client(win)
  }

  const TASKBAR_Y: int := FB_HEIGHT - TASKBAR_H

  ghost function Button(font: Font, win: Window, bx: int): (ops: seq<Op>)
    requires FontOk(font)
    ensures OpsOk(ops)
  {
    var bg := if win.focused then TASKBAR_ACTIVE_BG else TASKBAR_BG;
    [Fill(bx, TASKBAR_Y + 2, ButtonWidth(win), TASKBAR_H - 4, bg)]
    + Text(font, bx + 4, TASKBAR_Y + 5, win.title, TASKBAR_FG, bg)
  }

  ghost predicate IdsOk(ws: seq<Window>, z: seq<int>) { forall i :: 0 <= i < |z| ==> 0 <= z[i] < |ws| }

  ghost function Buttons(font: Font, ws: seq<Window>, z: seq<int>, bx: int): (ops: seq<Op>)
    requires FontOk(font) && IdsOk(ws, z)
    ensures OpsOk(ops)
  {
    if z == [] then []
    else if !ws[z[0]].visible then Buttons(font, ws, z[1..], bx)
    else Button(font, ws[z[0]], bx) + Buttons(font, ws, z[1..], bx + ButtonWidth(ws[z[0]]) + 4)
  }

  ghost function Bar(font: Font): (ops: seq<Op>)
    requires FontOk(font)
    ensures OpsOk(ops)
  {
    [Fill(0, TASKBAR_Y, FB_WIDTH, TASKBAR_H, TASKBAR_BG), Fill(0, TASKBAR_Y, FB_WIDTH, 1, BORDER_COLOR),
     Fill(0, TASKBAR_Y + 1, START_BTN_W, TASKBAR_H - 1, TASKBAR_ACTIVE_BG)]
    + Text(font, 6, TASKBAR_Y + 5, "Start", START_FG, TASKBAR_ACTIVE_BG)
  }

  ghost function Label(font: Font): (ops: seq<Op>)
    requires FontOk(font)
    ensures OpsOk(ops)
  {
    Text(font, FB_WIDTH - 8 * FONT_WIDTH - 4, TASKBAR_Y + 5, "DRAGOON", LABEL_FG, TASKBAR_BG)
  }

  /** draw_taskbar */
  ghost function TaskbarOps(font: Font, s: State): (ops: seq<Op>)
    requires FontOk(font) && IdsOk(s.windows, s.z)
    ensures OpsOk(ops)
  {
    Bar(font) + Buttons(font, s.windows, s.z, START_BTN_W + 4) + Label(font)
  }

  ghost function DesktopOps(font: Font): (ops: seq<Op>)
    requires FontOk(font)
    ensures OpsOk(ops)
  {
    [Fill(0, 0, FB_WIDTH, FB_HEIGHT, DESKTOP_BG)]
    + Text(font, (FB_WIDTH - 10 * FONT_WIDTH) / 2, (FB_HEIGHT - TASKBAR_H) / 2 - 8, "DRAGOON OS",
           WATERMARK_FG, DESKTOP_BG)
  }

  // ---- who draws ----

  datatype Layer = Desktop | Pane(id: int) | Taskbar
  datatype Call = Call(layer: Layer, op: Op)

  function Tagged(layer: Layer, ops: seq<Op>): (cs: seq<Call>)
    ensures |cs| == |ops| && forall i :: 0 <= i < |cs| ==> cs[i] == Call(layer, ops[i])
  {
    seq(|ops|, i requires 0 <= i < |ops| => Call(layer, ops[i]))
  }

  function Ops(cs: seq<Call>): (ops: seq<Op>)
    ensures |ops| == |cs| && forall i :: 0 <= i < |ops| ==> ops[i] == cs[i].op
  {
    seq(|cs|, i requires 0 <= i < |cs| => cs[i].op)
  }

  ghost function Panes(font: Font, ws: seq<Window>, z: seq<int>): (cs: seq<Call>)
    requires FontOk(font) && AllOk(ws) && IdsOk(ws, z)
    ensures OpsOk(Ops(cs))
  {
    if z == [] then []
    else
      var id, below := z[|z| - 1], Panes(font, ws, z[..|z| - 1]);
      if ws[id].visible then below + Tagged(Pane(id), WindowOps(font, ws[id])) else below
  }

  /** wm_composite: every drawing call in order, with the part of the screen it draws. */
  ghost function Composite(font: Font, s: State): (cs: seq<Call>)
    requires FontOk(font) && AllOk(s.windows) && IdsOk(s.windows, s.z)
    ensures OpsOk(Ops(cs))
  {
    Tagged(Desktop, DesktopOps(font)) + Panes(font, s.windows, s.z) + Tagged(Taskbar, TaskbarOps(font, s))
  }

  /** The layer of the last call that wrote the pixel. */
  ghost function LastWriter(cs: seq<Call>, px: int, py: int): Option<Layer> {
    if cs == [] then None
    else if Covers(cs[|cs| - 1].op, px, py) then Some(cs[|cs| - 1].layer)
    else LastWriter(cs[..|cs| - 1], px, py)
  }

  lemma {:induction false} LastWriterConcat(a: seq<Call>, b: seq<Call>, px: int, py: int)
    ensures LastWriter(a + b, px, py) ==
            if LastWriter(b, px, py).Some? then LastWriter(b, px, py) else LastWriter(a, px, py)
  {
    hide Covers;
    if b == [] {
      assert a + b == a;
    } else {
      assert (a + b)[..|a + b| - 1] == a + b[..|b| - 1];
      LastWriterConcat(a, b[..|b| - 1], px, py);
    }
  }

  lemma {:induction false} LastWriterTagged(layer: Layer, ops: seq<Op>, px: int, py: int)
    ensures LastWriter(Tagged(layer, ops), px, py) == if Painted(ops, px, py) then Some(layer) else None
  {
    hide Covers;
    if ops != [] {
      var ops1 := ops[..|ops| - 1];
      LastWriterTagged(layer, ops1, px, py);
      assert Tagged(layer, ops)[..|ops| - 1] == Tagged(layer, ops1);
      PaintedConcat(ops1, [ops[|ops| - 1]], px, py);
      assert ops == ops1 + [ops[|ops| - 1]];
      PaintedOne(ops[|ops| - 1], px, py);
    }
  }

  lemma PaintedConcat(a: seq<Op>, b: seq<Op>, px: int, py: int)
    ensures Painted(a + b, px, py) <==> Painted(a, px, py) || Painted(b, px, py)
  {
    hide Covers;
    if Painted(a, px, py) {
      var i :| 0 <= i < |a| && Covers(a[i], px, py);
      assert Covers((a + b)[i], px, py);
    }
    if Painted(b, px, py) {
      var i :| 0 <= i < |b| && Covers(b[i], px, py);
      assert Covers((a + b)[|a| + i], px, py);
    }
  }

  lemma PaintedOne(op: Op, px: int, py: int)
    ensures Painted([op], px, py) <==> Covers(op, px, py)
  {
    hide Covers;
    assert [op][0] == op;
  }

  // ---- windows paint the rectangle that the hit test uses ----

  predicate InBox(px: int, py: int, x: int, y: int, w: int, h: int) { x <= px < x + w && y <= py < y + h }

  /** The pixels draw_window writes, part by part. */
  lemma WindowPainted(font: Font, win: Window, px: int, py: int)
    requires FontOk(font) && WindowOk(win) && win.visible
    ensures Painted(WindowOps(font, win), px, py) <==>
            || InBox(px, py, win.x, win.y, win.w, 1) || InBox(px, py, win.x, win.y + win.h - 1, win.w, 1)
            || InBox(px, py, win.x, win.y, 1, win.h) || InBox(px, py, win.x + win.w - 1, win.y, 1, win.h)
            || InBox(px, py, win.x + 1, win.y + 1, win.w - 2, 20)
            || InBox(px, py, win.x + 4, win.y + 3, 8 * |win.title|, 16)
            || InBox(px, py, win.x + win.w - 18, win.y + 2, 16, 16)
            || InBox(px, py, win.x + win.w - 14, win.y + 3, 8, 16)
            || InBox(px, py, win.x + 1, win.y + 21, win.contentW, win.contentH)
  {
    hide Painted, Text, Outline, CloseButton, FontOk, OpsOk;
    var a := Outline(win.x, win.y, win.w, win.h, BORDER_COLOR);
    var b := [Fill(win.x + 1, win.y + 1, win.w - 2, TITLEBAR_H, TitleBg(win))];
    var c := Text(font, win.x + 4, win.y + 3, win.title, TITLE_FG, TitleBg(win));
    var d := CloseButton(font, win);
    var e := Client(win);
    PaintedConcat(a + b + c + d, e, px, py);
    PaintedConcat(a + b + c, d, px, py);
    PaintedConcat(a + b, c, px, py);
    PaintedConcat(a, b, px, py);
    TextPainted(font, win.x + 4, win.y + 3, win.title, TITLE_FG, TitleBg(win), px, py);
    PaintedOne(b[0], px, py);
    PaintedOne(e[0], px, py);
    OutlinePainted(win.x, win.y, win.w, win.h, BORDER_COLOR, px, py);
    ClosePainted(font, win, px, py);
  }

  lemma OutlinePainted(x: int, y: int, w: int, h: int, color: nat, px: int, py: int)
    ensures Painted(Outline(x, y, w, h, color), px, py) <==>
            InBox(px, py, x, y, w, 1) || InBox(px, py, x, y + h - 1, w, 1) ||
            InBox(px, py, x, y, 1, h) || InBox(px, py, x + w - 1, y, 1, h)
  {
    var ops := Outline(x, y, w, h, color);
    assert Painted(ops, px, py) <==>
           Covers(ops[0], px, py) || Covers(ops[1], px, py) || Covers(ops[2], px, py) || Covers(ops[3], px, py);
  }

  lemma ClosePainted(font: Font, win: Window, px: int, py: int)
    requires FontOk(font)
    ensures Painted(CloseButton(font, win), px, py) <==>
            InBox(px, py, win.x + win.w - 18, win.y + 2, 16, 16) || InBox(px, py, win.x + win.w - 14, win.y + 3, 8, 16)
  {
    hide FontOk, Glyph;
    var ops := CloseButton(font, win);
    assert Painted(ops, px, py) <==> Covers(ops[0], px, py) || Covers(ops[1], px, py);
  }

  /** The title and the close button lie inside the window. */
  predicate TitleFits(win: Window) {
    win.w >= CLOSE_BTN_W + 2 && win.h >= TITLEBAR_H + 1 && 4 + FONT_WIDTH * |win.title| <= win.w
  }

  /** A window paints exactly the rectangle that the hit test uses, if and only if its title and its
      close button fit. */
  lemma PaintsItsRectangleIff(font: Font, win: Window)
    requires FontOk(font) && WindowOk(win) && win.visible
    ensures TitleFits(win) <==>
            forall px, py :: Painted(WindowOps(font, win), px, py) <==> Contains(win, px, py)
  {
    if TitleFits(win) {
      forall px, py ensures Painted(WindowOps(font, win), px, py) <==> Contains(win, px, py) {
        PaintsItsRectangle(font, win, px, py);
      }
    } else {
      PaintsOutside(font, win);
      var px, py := win.x + Stray(win).0, win.y + Stray(win).1;
      assert !(Painted(WindowOps(font, win), px, py) <==> Contains(win, px, py));
    }
  }

  lemma PaintsItsRectangle(font: Font, win: Window, px: int, py: int)
    requires FontOk(font) && WindowOk(win) && win.visible && TitleFits(win)
    ensures Painted(WindowOps(font, win), px, py) <==> Contains(win, px, py)
  {
    WindowPainted(font, win, px, py);
    hide Painted, WindowOps, FontOk;
  }

  /** Where, relative to its corner, a window that does not fit paints outside its rectangle. */
  function Stray(win: Window): (int, int) {
    if win.w < 18 then (win.w - 18, 2)
    else if win.h < 21 then (1, 20)
    else (3 + 8 * |win.title|, 3)
  }

  /** A window with too long a title, or too small for its close button, paints outside its rectangle. */
  lemma PaintsOutside(font: Font, win: Window)
    requires FontOk(font) && WindowOk(win) && win.visible && !TitleFits(win)
    ensures var (dx, dy) := Stray(win);
      Painted(WindowOps(font, win), win.x + dx, win.y + dy) && !Contains(win, win.x + dx, win.y + dy)
  {
    hide Painted, WindowOps, FontOk;
    var (dx, dy) := Stray(win);
    WindowPainted(font, win, win.x + dx, win.y + dy);
  }

  // ---- the hit test ----

  ghost predicate AllFit(ws: seq<Window>) { forall i :: 0 <= i < |ws| && ws[i].visible ==> TitleFits(ws[i]) }

  function AsLayer(hit: Option<int>): Option<Layer> {
    if hit.Some? then Some(Pane(hit.value)) else None
  }

  /** Among the windows, the last writer is the one that the search from the front finds. */
  lemma {:induction false} PanesWriter(font: Font, ws: seq<Window>, z: seq<int>, px: int, py: int)
    requires FontOk(font) && AllOk(ws) && IdsOk(ws, z) && AllFit(ws)
    ensures LastWriter(Panes(font, ws, z), px, py) == AsLayer(TopAt(ws, z, px, py))
  {
    hide WindowOk, FontOk, WindowOps, OpOk, Contains, TitleFits, Painted;
    if z != [] {
      var id, z1 := z[|z| - 1], z[..|z| - 1];
      PanesWriter(font, ws, z1, px, py);
      if ws[id].visible {
        var ops := WindowOps(font, ws[id]);
        PaintsItsRectangle(font, ws[id], px, py);
        LastWriterConcat(Panes(font, ws, z1), Tagged(Pane(id), ops), px, py);
        LastWriterTagged(Pane(id), ops, px, py);
      }
    }
  }

  /** The taskbar covers the rows from 456 on, and nothing above. */
  lemma TaskbarPainted(font: Font, s: State, px: int, py: int)
    requires FontOk(font) && IdsOk(s.windows, s.z) && 0 <= px < FB_WIDTH && 0 <= py < FB_HEIGHT
    ensures Painted(TaskbarOps(font, s), px, py) <==> py >= TASKBAR_Y
  {
    var buttons := Buttons(font, s.windows, s.z, START_BTN_W + 4);
    BarPainted(font, px, py);
    if Painted(buttons, px, py) { ButtonsLow(font, s.windows, s.z, START_BTN_W + 4, px, py); }
    TextPainted(font, FB_WIDTH - 8 * FONT_WIDTH - 4, TASKBAR_Y + 5, "DRAGOON", LABEL_FG, TASKBAR_BG, px, py);
    PaintedConcat(Bar(font) + buttons, Label(font), px, py);
    PaintedConcat(Bar(font), buttons, px, py);
    hide Painted, Bar, Buttons, Text, FontOk;
  }

  lemma BarPainted(font: Font, px: int, py: int)
    requires FontOk(font) && 0 <= px < FB_WIDTH && 0 <= py < FB_HEIGHT
    ensures Painted(Bar(font), px, py) <==> py >= TASKBAR_Y
  {
    var boxes := [Fill(0, TASKBAR_Y, FB_WIDTH, TASKBAR_H, TASKBAR_BG), Fill(0, TASKBAR_Y, FB_WIDTH, 1, BORDER_COLOR),
                  Fill(0, TASKBAR_Y + 1, START_BTN_W, TASKBAR_H - 1, TASKBAR_ACTIVE_BG)];
    var text := Text(font, 6, TASKBAR_Y + 5, "Start", START_FG, TASKBAR_ACTIVE_BG);
    TextPainted(font, 6, TASKBAR_Y + 5, "Start", START_FG, TASKBAR_ACTIVE_BG, px, py);
    PaintedConcat(boxes, text, px, py);
    assert Covers(boxes[0], px, py) <==> py >= TASKBAR_Y;
    hide Text, FontOk;
  }

  lemma {:induction false} ButtonsLow(font: Font, ws: seq<Window>, z: seq<int>, bx: int, px: int, py: int)
    requires FontOk(font) && IdsOk(ws, z) && Painted(Buttons(font, ws, z, bx), px, py)
    ensures py >= TASKBAR_Y
    decreases |z|
  {
    hide FontOk;
    if z != [] {
      if !ws[z[0]].visible {
        ButtonsLow(font, ws, z[1..], bx, px, py);
      } else {
        var win := ws[z[0]];
        var bx' := bx + ButtonWidth(win) + 4;
        PaintedConcat(Button(font, win, bx), Buttons(font, ws, z[1..], bx'), px, py);
        if Painted(Button(font, win, bx), px, py) {
          ButtonLow(font, win, bx, px, py);
        } else {
          ButtonsLow(font, ws, z[1..], bx', px, py);
        }
      }
    }
  }

  lemma ButtonLow(font: Font, win: Window, bx: int, px: int, py: int)
    requires FontOk(font) && Painted(Button(font, win, bx), px, py)
    ensures py >= TASKBAR_Y
  {
    var bg := if win.focused then TASKBAR_ACTIVE_BG else TASKBAR_BG;
    var box := Fill(bx, TASKBAR_Y + 2, ButtonWidth(win), TASKBAR_H - 4, bg);
    var text := Text(font, bx + 4, TASKBAR_Y + 5, win.title, TASKBAR_FG, bg);
    PaintedConcat([box], text, px, py);
    PaintedOne(box, px, py);
    TextPainted(font, bx + 4, TASKBAR_Y + 5, win.title, TASKBAR_FG, bg, px, py);
    hide FontOk, Text, Painted;
  }

  lemma DesktopPainted(font: Font, px: int, py: int)
    requires FontOk(font) && 0 <= px < FB_WIDTH && 0 <= py < FB_HEIGHT
    ensures Painted(DesktopOps(font), px, py)
  {
    hide FontOk, Text;
    var op := DesktopOps(font)[0];
    assert op == Fill(0, 0, FB_WIDTH, FB_HEIGHT, DESKTOP_BG);
    assert Covers(op, px, py);
  }

  /** For every pixel of the screen: the taskbar wrote last in its rows, above it the window that a
      click there selects, and the desktop where a click selects no window. */
  lemma ClickHitsLastWriter(font: Font, s: State, px: int, py: int)
    requires FontOk(font) && Inv(s) && AllFit(s.windows) && 0 <= px < FB_WIDTH && 0 <= py < FB_HEIGHT
    ensures IdsOk(s.windows, s.z)
    ensures LastWriter(Composite(font, s), px, py) ==
            if py >= TASKBAR_Y then Some(Taskbar)
            else if TopAt(s.windows, s.z, px, py).Some? then Some(Pane(TopAt(s.windows, s.z, px, py).value))
            else Some(Desktop)
  {
    hide Inv, FontOk, Covers, TopAt, AllFit, LastWriter, DesktopOps, TaskbarOps, Panes, Painted, Tagged;
    IdsInOrder(s);
    var a, b := Tagged(Desktop, DesktopOps(font)), Panes(font, s.windows, s.z);
    var c := Tagged(Taskbar, TaskbarOps(font, s));
    LastWriterConcat(a + b, c, px, py);
    LastWriterConcat(a, b, px, py);
    LastWriterTagged(Desktop, DesktopOps(font), px, py);
    LastWriterTagged(Taskbar, TaskbarOps(font, s), px, py);
    DesktopPainted(font, px, py);
    TaskbarPainted(font, s, px, py);
    PanesWriter(font, s.windows, s.z, px, py);
  }

  lemma IdsInOrder(s: State)
    requires Inv(s)
    ensures IdsOk(s.windows, s.z) && AllOk(s.windows)
  {
    hide Inv;
    InvIds(s);
  }

  // ---- the pixels ----

  lemma OpsConcat(a: seq<Call>, b: seq<Call>)
    ensures Ops(a + b) == Ops(a) + Ops(b)
  {
  }

  lemma OpsTagged(layer: Layer, ops: seq<Op>)
    ensures Ops(Tagged(layer, ops)) == ops
  {
  }

  /** Where a window is hit, the windows together show what it draws on its own. */
  lemma {:induction false} PanesPixel(font: Font, ws: seq<Window>, z: seq<int>, px: int, py: int, u: nat, v: nat)
    requires FontOk(font) && AllOk(ws) && IdsOk(ws, z) && AllFit(ws)
    ensures var hit := TopAt(ws, z, px, py);
      Render(Ops(Panes(font, ws, z)), px, py, u) ==
      if hit.Some? then Render(WindowOps(font, ws[hit.value]), px, py, v) else u
  {
    hide WindowOk, FontOk, WindowOps, OpOk, Contains, TitleFits, Painted, Over;
    if z != [] {
      var id, z1 := z[|z| - 1], z[..|z| - 1];
      PanesPixel(font, ws, z1, px, py, u, v);
      if ws[id].visible {
        var ops, below := WindowOps(font, ws[id]), Panes(font, ws, z1);
        PaintsItsRectangle(font, ws[id], px, py);
        OpsConcat(below, Tagged(Pane(id), ops));
        OpsTagged(Pane(id), ops);
        RenderConcat(Ops(below), ops, px, py, u);
        RenderBelow(ops, px, py, Render(Ops(below), px, py, u), v);
      }
    }
  }

  /** Above the taskbar the screen shows, at every point of a window that a click would select, exactly
      what that window draws; in its client area that is its content buffer. */
  lemma ScreenShowsHitWindow(font: Font, s: State, px: int, py: int, u: nat, v: nat)
    requires FontOk(font) && Inv(s) && AllFit(s.windows) && 0 <= px < FB_WIDTH && 0 <= py < TASKBAR_Y
    requires IdsOk(s.windows, s.z)
    ensures var hit := TopAt(s.windows, s.z, px, py);
      hit.Some? ==>
        Render(Ops(Composite(font, s)), px, py, u) == Render(WindowOps(font, s.windows[hit.value]), px, py, v)
  {
    hide Inv, FontOk, Covers, TopAt, AllFit, DesktopOps, TaskbarOps, Panes, Painted, Tagged, Render, OpsOk;
    IdsInOrder(s);
    var a, b := Tagged(Desktop, DesktopOps(font)), Panes(font, s.windows, s.z);
    var c := Tagged(Taskbar, TaskbarOps(font, s));
    OpsConcat(a + b, c);
    OpsConcat(a, b);
    OpsTagged(Desktop, DesktopOps(font));
    OpsTagged(Taskbar, TaskbarOps(font, s));
    RenderConcat(Ops(a), Ops(b), px, py, u);
    RenderConcat(Ops(a + b), Ops(c), px, py, u);
    TaskbarPainted(font, s, px, py);
    RenderBelow(Ops(c), px, py, Render(Ops(a + b), px, py, u), v);
    PanesPixel(font, s.windows, s.z, px, py, Render(Ops(a), px, py, u), v);
  }

  /** Pixel (i, j) of the content buffer. */
  ghost function ContentAt(win: Window, i: nat, j: nat): nat
    requires WindowOk(win) && win.visible && i < win.contentW && j < win.contentH
  {
    IndexUnique(win.contentW, win.contentH, i, j);
    win.content.value[j * win.contentW + i]
  }

  /** A pixel of the client area comes from the content buffer. */
  lemma ClientPixel(font: Font, win: Window, i: nat, j: nat, v: nat)
    requires FontOk(font) && WindowOk(win) && win.visible && i < win.contentW && j < win.contentH
    ensures Render(WindowOps(font, win), win.x + 1 + i, win.y + TITLEBAR_H + 1 + j, v) == ContentAt(win, i, j)
  {
    hide FontOk, Text, Outline, CloseButton;
    ClientOk(win);
    var ops := WindowOps(font, win);
    assert ops[|ops| - 1] == Client(win)[0];
  }

  /** A click that selects the client area of a window shows that window under the mouse, and brings it
      to the front without reordering the others. */
  lemma ClickedWindowIsSeen(font: Font, s: State, mx: int, my: int, buttons: int)
    requires FontOk(font) && Inv(s) && AllFit(s.windows) && 0 <= mx < FB_WIDTH && 0 <= my < FB_HEIGHT
    requires IdsOk(s.windows, s.z)
    ensures AllOk(s.windows)
    ensures var (s', r) := Mouse(s, mx, my, buttons);
      r >= 0 ==>
        LastWriter(Composite(font, s), mx, my) == Some(Pane(r)) && OnTop(s', r) && s'.z == Without(s.z, r) + [r]
  {
    hide FontOk, Inv, AllFit, LastWriter, Composite, TopAt, OnTop, Without;
    IdsInOrder(s);
    ClickHitsLastWriter(font, s, mx, my);
    ClickRaises(s, mx, my, buttons);
  }

  /** A click that reports a window is one on the window that the search finds. */
  lemma ClickRaises(s: State, mx: int, my: int, buttons: int)
    requires Inv(s) && IdsOk(s.windows, s.z)
    ensures var (s', r) := Mouse(s, mx, my, buttons);
      r >= 0 ==>
        && my < TASKBAR_Y && TopAt(s.windows, s.z, mx, my) == Some(r)
        && OnTop(s', r) && s'.z == Without(s.z, r) + [r]
  {
    hide Inv, TopAt, Without, DragSlot, ButtonAt, Focus, OnClose;
    var hit := TopAt(s.windows, s.z, mx, my);
    if hit.Some? {
      var s1 := s.(buttons := buttons);
      ButtonsKeep(s, buttons);
      FocusInFront(s1, hit.value);
    }
  }

  lemma FocusInFront(s: State, id: int)
    requires Inv(s) && Listed(s, id)
    ensures Focus(s, id).z == Without(s.z, id) + [id]
  {
    hide Ordered, AllOk, FocusOk, OneDrag, Without, Focus;
    FocusKeeps(s, id);
  }

  /** With a window too narrow for its close button the promise fails: the pixel shows the window, a
      click there finds the desktop. */
  lemma NarrowWindowMisses(font: Font)
    requires FontOk(font)
    ensures var s := Create(Initial(), "", 100, 100, 1, 1, true).0;
      Inv(s) && IdsOk(s.windows, s.z) && !AllFit(s.windows) && AllOk(s.windows) &&
      TopAt(s.windows, s.z, 85, 102).None? && LastWriter(Composite(font, s), 85, 102) == Some(Pane(0))
  {
    hide FontOk, Inv, LastWriter, Composite, WindowOps, WindowOk, Create, AllFit, TopAt;
    var s := Create(Initial(), "", 100, 100, 1, 1, true).0;
    NarrowWindow(s);
    IdsInOrder(s);
    NarrowHit(s);
    var px, py := 85, 102;
    WindowPainted(font, s.windows[0], px, py);
    FrontWindowWrites(font, s, px, py);
  }

  lemma NarrowHit(s: State)
    requires 0 < |s.windows| && IdsOk(s.windows, s.z) && s.z == [0] && s.windows[0].visible
    requires s.windows[0].x == 100 && s.windows[0].w == 3
    ensures !AllFit(s.windows) && TopAt(s.windows, s.z, 85, 102).None?
  {
    var z: seq<int> := [];
    assert s.z[..0] == z;
  }

  lemma NarrowWindow(s: State)
    requires s == Create(Initial(), "", 100, 100, 1, 1, true).0
    ensures Inv(s) && s.z == [0] && WindowOk(s.windows[0]) && s.windows[0].visible && s.windows[0].title == ""
    ensures s.windows[0].x == 100 && s.windows[0].y == 100 && s.windows[0].w == 3 && s.windows[0].h == 23
    ensures s.windows[0].contentW == 1 && s.windows[0].contentH == 1
  {
    InitialInv();
    CreateKeeps(Initial(), "", 100, 100, 1, 1, true);
  }

  /** Whatever the front window paints above the taskbar, inside its rectangle or not, is seen. */
  lemma FrontWindowWrites(font: Font, s: State, px: int, py: int)
    requires FontOk(font) && Inv(s) && IdsOk(s.windows, s.z) && s.z != [] && 0 <= px < FB_WIDTH && 0 <= py < TASKBAR_Y
    requires WindowOk(s.windows[s.z[|s.z| - 1]]) && AllOk(s.windows)
    requires Painted(WindowOps(font, s.windows[s.z[|s.z| - 1]]), px, py)
    ensures LastWriter(Composite(font, s), px, py) == Some(Pane(s.z[|s.z| - 1]))
  {
    hide Inv, FontOk, Covers, WindowOk, LastWriter, DesktopOps, TaskbarOps, WindowOps, Painted, Tagged, AllOk, Panes;
    var id, z1 := s.z[|s.z| - 1], s.z[..|s.z| - 1];
    FrontShown(s);
    var a, b := Tagged(Desktop, DesktopOps(font)), Panes(font, s.windows, s.z);
    var c := Tagged(Taskbar, TaskbarOps(font, s));
    PanesStep(font, s.windows, s.z);
    LastWriterConcat(a + b, c, px, py);
    LastWriterConcat(a, b, px, py);
    LastWriterTagged(Taskbar, TaskbarOps(font, s), px, py);
    TaskbarPainted(font, s, px, py);
    LastWriterTagged(Pane(id), WindowOps(font, s.windows[id]), px, py);
    LastWriterConcat(Panes(font, s.windows, z1), Tagged(Pane(id), WindowOps(font, s.windows[id])), px, py);
  }

  lemma FrontShown(s: State)
    requires Inv(s) && s.z != []
    ensures Listed(s, s.z[|s.z| - 1])
  {
    hide AllOk, FocusOk, OneDrag;
    OrderedIds(s);
  }

  lemma PanesStep(font: Font, ws: seq<Window>, z: seq<int>)
    requires FontOk(font) && AllOk(ws) && IdsOk(ws, z) && z != [] && ws[z[|z| - 1]].visible
    ensures IdsOk(ws, z[..|z| - 1]) && WindowOk(ws[z[|z| - 1]])
    ensures Panes(font, ws, z) ==
            Panes(font, ws, z[..|z| - 1]) + Tagged(Pane(z[|z| - 1]), WindowOps(font, ws[z[|z| - 1]]))
  {
    hide FontOk, WindowOps, Tagged, WindowOk;
  }

  // ---- exactly when the promise holds ----

  /** The click at this point selects what the screen shows there. */
  ghost predicate Matches(font: Font, s: State, px: int, py: int)
    requires FontOk(font) && AllOk(s.windows) && IdsOk(s.windows, s.z)
  {
    var hit := TopAt(s.windows, s.z, px, py);
    LastWriter(Composite(font, s), px, py) == Some(if hit.Some? then Pane(hit.value) else Desktop)
  }

  /** The same windows at other places and in another order. */
  ghost predicate Rearranged(s: State, s': State) {
    && |s'.windows| == |s.windows|
    && forall i :: 0 <= i < |s.windows| ==>
         s'.windows[i] == s.windows[i].(x := s'.windows[i].x, y := s'.windows[i].y, focused := s'.windows[i].focused)
  }

  predicate AboveTaskbar(px: int, py: int) { 0 <= px < FB_WIDTH && 0 <= py < TASKBAR_Y }

  ghost predicate AlwaysMatches(font: Font, s: State)
    requires FontOk(font)
  {
    forall s', px, py ::
      Inv(s') && IdsOk(s'.windows, s'.z) && Rearranged(s, s') && AboveTaskbar(px, py) ==> Matches(font, s', px, py)
  }

  /** Clicks select what the screen shows, however the windows are placed and stacked, if and only if
      every visible window is large enough for its title and its close button. */
  lemma MatchesIff(font: Font, s: State)
    requires FontOk(font) && Inv(s)
    ensures AllFit(s.windows) <==> AlwaysMatches(font, s)
  {
    if AllFit(s.windows) {
      forall s', px, py | Inv(s') && IdsOk(s'.windows, s'.z) && Rearranged(s, s') && AboveTaskbar(px, py)
        ensures Matches(font, s', px, py)
      {
        RearrangedFit(s, s');
        ClickHitsLastWriter(font, s', px, py);
      }
    } else {
      var id :| 0 <= id < |s.windows| && s.windows[id].visible && !TitleFits(s.windows[id]);
      var s' := Exposed(font, s, id);
      assert !Matches(font, s', 0, 0);
    }
  }

  lemma RearrangedFit(s: State, s': State)
    requires AllFit(s.windows) && Rearranged(s, s')
    ensures AllFit(s'.windows)
  {
    forall i | 0 <= i < |s'.windows| && s'.windows[i].visible ensures TitleFits(s'.windows[i]) {
      assert TitleFits(s.windows[i]);
    }
  }

  /** A window that does not fit, in front and placed so that its stray pixel is the screen's first. */
  lemma Exposed(font: Font, s: State, id: nat) returns (s': State)
    requires FontOk(font) && Inv(s) && id < |s.windows| && s.windows[id].visible && !TitleFits(s.windows[id])
    ensures Inv(s') && IdsOk(s'.windows, s'.z) && Rearranged(s, s') && !Matches(font, s', 0, 0)
  {
    s' := PlacedInFront(s, id, -Stray(s.windows[id]).0, -Stray(s.windows[id]).1);
    IdsInOrder(s');
    hide Inv, FontOk, WindowOps, Composite;
    PaintsOutside(font, s'.windows[id]);
    NotHit(s', id);
    FrontWindowWrites(font, s', 0, 0);
  }

  lemma PlacedInFront(s: State, id: nat, x: int, y: int) returns (s': State)
    requires Inv(s) && Listed(s, id)
    ensures Inv(s') && Rearranged(s, s') && OnTop(s', id) && s'.windows[id].x == x && s'.windows[id].y == y
  {
    hide Focus, Ordered, AllOk, FocusOk, OneDrag, Without;
    FocusKeeps(s, id);
    FocusMoves(s, id);
    var s1 := Focus(s, id);
    s' := PlacedAt(s1, id, x, y);
  }

  lemma PlacedAt(s: State, id: nat, x: int, y: int) returns (s': State)
    requires Inv(s) && id < WM_MAX_WINDOWS
    ensures Inv(s') && s' == s.(windows := s.windows[id := s.windows[id].(x := x, y := y)])
  {
    hide Ordered, AllOk, FocusOk;
    var win := s.windows[id];
    MoveKeeps(s, id, x, y, win.dragging, win.dragX, win.dragY);
    s' := s.(windows := s.windows[id := win.(x := x, y := y)]);
  }

  lemma NotHit(s: State, id: nat)
    requires id < |s.windows| && IdsOk(s.windows, s.z) && !Contains(s.windows[id], 0, 0)
    ensures TopAt(s.windows, s.z, 0, 0) != Some(id)
  {
  }
}

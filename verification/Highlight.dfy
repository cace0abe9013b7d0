/** How the screen shows the focus (kernel/wm.c): the colour of title bars and of taskbar buttons. */
module Highlight {
  import opened Common
  import opened Gpu
  import opened WindowManager
  import opened Compositor
  import opened WindowEffects

  lemma FilledLast(a: seq<Op>, op: Op, px: int, py: int, u: nat)
    requires OpsOk(a) && op.Fill? && Covers(op, px, py)
    ensures OpsOk(a + [op]) && Render(a + [op], px, py, u) == op.color
  {
    assert (a + [op])[..|a|] == a;
  }

  /** Above its text and its close button a title bar has the colour that tells the focus. */
  lemma TitleBarPixel(font: Font, win: Window, px: int, v: nat)
    requires FontOk(font) && WindowOk(win) && win.visible && TitleFits(win) && win.x + 1 <= px < win.x + win.w - 1
    ensures Render(WindowOps(font, win), px, win.y + 1, v) == if win.focused then 0x00336699 else 0x00606060
  {
    hide FontOk, WindowOk, Painted, Render, Outline, Text, CloseButton, Covers;
    var py, bg := win.y + 1, TitleBg(win);
    var a := Outline(win.x, win.y, win.w, win.h, BORDER_COLOR);
    var b := [Fill(win.x + 1, win.y + 1, win.w - 2, TITLEBAR_H, bg)];
    var c := Text(font, win.x + 4, win.y + 3, win.title, TITLE_FG, bg);
    var d, e := CloseButton(font, win), Client(win);
    ClientOk(win);
    BarCovers(win, px, bg);
    FilledLast(a, b[0], px, py, v);
    TextPainted(font, win.x + 4, win.y + 3, win.title, TITLE_FG, bg, px, py);
    Unpainted(a + b, c, px, py, v);
    ClosePainted(font, win, px, py);
    Unpainted(a + b + c, d, px, py, v);
    ClientBelow(win, px);
    Unpainted(a + b + c + d, e, px, py, v);
  }

  lemma BarCovers(win: Window, px: int, bg: nat)
    requires win.x + 1 <= px < win.x + win.w - 1
    ensures Covers(Fill(win.x + 1, win.y + 1, win.w - 2, TITLEBAR_H, bg), px, win.y + 1)
  {
  }

  lemma ClientBelow(win: Window, px: int)
    ensures !Painted(Client(win), px, win.y + 1)
  {
  }

  /** On the screen the second row of a title bar, where that window is on top, has the focus colour
      exactly if the window is the front-most of all. */
  lemma TitleShowsFocus(font: Font, s: State, px: int, py: int, u: nat)
    requires FontOk(font) && Inv(s) && AllFit(s.windows) && 0 <= px < FB_WIDTH && 0 <= py < TASKBAR_Y
    requires IdsOk(s.windows, s.z) && AllOk(s.windows) && TopAt(s.windows, s.z, px, py).Some?
    requires var win := s.windows[TopAt(s.windows, s.z, px, py).value];
      py == win.y + 1 && win.x + 1 <= px < win.x + win.w - 1
    ensures Render(Ops(Composite(font, s)), px, py, u) ==
            if OnTop(s, TopAt(s.windows, s.z, px, py).value) then 0x00336699 else 0x00606060
  {
    hide FontOk, Inv, Composite, TopAt, Render, WindowOk, TitleFits, OnTop, WindowOps;
    HitWindow(s, px, py);
    var id := TopAt(s.windows, s.z, px, py).value;
    FocusIsTop(s, id);
    ScreenShowsHitWindow(font, s, px, py, u, u);
    TitleBarPixel(font, s.windows[id], px, u);
  }

  lemma FocusIsTop(s: State, id: int)
    requires Inv(s) && 0 <= id < |s.windows|
    ensures s.windows[id].focused <==> OnTop(s, id)
  {
    hide AllOk, Ordered, OneDrag;
  }

  /** Above its text a button has the colour that tells the focus. */
  lemma ButtonPixel(font: Font, win: Window, bx: int, px: int, u: nat)
    requires FontOk(font) && bx <= px < bx + ButtonWidth(win)
    ensures Render(Button(font, win, bx), px, TASKBAR_Y + 2, u) == if win.focused then 0x00336699 else 0x00333333
  {
    hide FontOk, Painted, Render, Text, ButtonWidth;
    var bg := if win.focused then TASKBAR_ACTIVE_BG else TASKBAR_BG;
    var box := Fill(bx, TASKBAR_Y + 2, ButtonWidth(win), TASKBAR_H - 4, bg);
    FilledLast([], box, px, TASKBAR_Y + 2, u);
    assert [] + [box] == [box];
    TextPainted(font, bx + 4, TASKBAR_Y + 5, win.title, TASKBAR_FG, bg, px, TASKBAR_Y + 2);
    Unpainted([box], Text(font, bx + 4, TASKBAR_Y + 5, win.title, TASKBAR_FG, bg), px, TASKBAR_Y + 2, u);
  }

  lemma {:induction false} ButtonsPixel(font: Font, ws: seq<Window>, z: seq<int>, bx: int, k: nat, px: int, u: nat)
    requires FontOk(font) && IdsOk(ws, z) && k < |z| && InButton(ws, z, bx, k, px)
    ensures Render(Buttons(font, ws, z, bx), px, TASKBAR_Y + 2, u) ==
            if ws[z[k]].focused then 0x00336699 else 0x00333333
    decreases |z|
  {
    hide FontOk, ButtonX, InButton, Button, ButtonWidth, Painted, Render;
    var win := ws[z[0]];
    var bx' := bx + if win.visible then ButtonWidth(win) + 4 else 0;
    if k > 0 {
      InButtonShift(ws, z, bx, k, px);
      ButtonsPixel(font, ws, z[1..], bx', k - 1, px, u);
      if win.visible {
        ButtonsPixel(font, ws, z[1..], bx', k - 1, px, Render(Button(font, win, bx), px, TASKBAR_Y + 2, u));
        RenderConcat(Button(font, win, bx), Buttons(font, ws, z[1..], bx'), px, TASKBAR_Y + 2, u);
      }
    } else {
      FirstIn(ws, z, bx, px);
      ButtonPixel(font, win, bx, px, u);
      LaterButtons(font, ws, z, bx, px);
      Unpainted(Button(font, win, bx), Buttons(font, ws, z[1..], bx'), px, TASKBAR_Y + 2, u);
    }
  }

  lemma FirstIn(ws: seq<Window>, z: seq<int>, bx: int, px: int)
    requires IdsOk(ws, z) && z != [] && InButton(ws, z, bx, 0, px)
    ensures ws[z[0]].visible && bx <= px < bx + ButtonWidth(ws[z[0]])
  {
  }

  lemma LaterButtons(font: Font, ws: seq<Window>, z: seq<int>, bx: int, px: int)
    requires FontOk(font) && IdsOk(ws, z) && z != [] && InButton(ws, z, bx, 0, px) && ws[z[0]].visible
    ensures !Painted(Buttons(font, ws, z[1..], bx + ButtonWidth(ws[z[0]]) + 4), px, TASKBAR_Y + 2)
  {
    hide FontOk, ButtonX, InButton, Buttons, ButtonWidth, Painted;
    var bx' := bx + ButtonWidth(ws[z[0]]) + 4;
    ButtonsDrawn(font, ws, z[1..], bx', px, TASKBAR_Y + 2);
    forall k | 0 <= k < |z[1..]| ensures !InButton(ws, z[1..], bx', k, px) {
      ButtonsApart(ws, z, bx, k + 1, px);
      InButtonShift(ws, z, bx, k + 1, px);
    }
  }

  /** On the screen a taskbar button has the focus colour exactly if its window is the front-most. */
  lemma ButtonShowsFocus(font: Font, s: State, k: nat, px: int, u: nat)
    requires FontOk(font) && Inv(s) && IdsOk(s.windows, s.z) && AllOk(s.windows)
    requires k < |s.z| && InButton(s.windows, s.z, 64, k, px)
    ensures Render(Ops(Composite(font, s)), px, TASKBAR_Y + 2, u) ==
            if OnTop(s, s.z[k]) then 0x00336699 else 0x00333333
  {
    hide FontOk, Inv, InButton, OnTop, Render, Painted, Buttons, Bar, Label, Panes, DesktopOps, OpOk;
    FocusIsTop(s, s.z[k]);
    var py := TASKBAR_Y + 2;
    var buttons := Buttons(font, s.windows, s.z, 64);
    var below := Tagged(Desktop, DesktopOps(font)) + Panes(font, s.windows, s.z);
    OpsConcat(below, Tagged(Taskbar, TaskbarOps(font, s)));
    OpsTagged(Taskbar, TaskbarOps(font, s));
    BelowOk(font, s);
    var v := Render(Ops(below), px, py, u);
    RenderConcat(Ops(below), TaskbarOps(font, s), px, py, u);
    LabelBelow(font, px);
    Unpainted(Bar(font) + buttons, Label(font), px, py, v);
    RenderConcat(Bar(font), buttons, px, py, v);
    ButtonsPixel(font, s.windows, s.z, 64, k, px, Render(Bar(font), px, py, v));
  }

  lemma BelowOk(font: Font, s: State)
    requires FontOk(font) && AllOk(s.windows) && IdsOk(s.windows, s.z)
    ensures OpsOk(Ops(Tagged(Desktop, DesktopOps(font)) + Panes(font, s.windows, s.z)))
  {
    hide FontOk, DesktopOps, Panes, OpOk, AllOk;
    OpsConcat(Tagged(Desktop, DesktopOps(font)), Panes(font, s.windows, s.z));
    OpsTagged(Desktop, DesktopOps(font));
  }

  lemma LabelBelow(font: Font, px: int)
    requires FontOk(font)
    ensures !Painted(Label(font), px, TASKBAR_Y + 2)
  {
    hide FontOk, Painted, Text;
    TextPainted(font, FB_WIDTH - 8 * FONT_WIDTH - 4, TASKBAR_Y + 5, "DRAGOON", LABEL_FG, TASKBAR_BG, px, TASKBAR_Y + 2);
  }
}

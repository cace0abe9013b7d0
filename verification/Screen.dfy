/** The drawing half of kernel/wm.c: the calls that draw_window, draw_taskbar and wm_composite make on a
    render target give the picture that the compositor's list of calls describes. */
module Screen {
  import opened Common
  import opened Gpu
  import opened WindowManager
  import opened Compositor
  import opened Windows

  /** gpu_draw_rect */
  method DrawRect(gpu: Target, x: int, y: int, w: int, h: int, color: nat)
    requires gpu.Valid()
    modifies gpu.buf
    ensures gpu.buf[..] == DrawAll(old(gpu.buf[..]), gpu.width, Outline(x, y, w, h, color))
  {
    hide FontOk, Draw, DrawAll, Outline;
    ghost var ops := OutlineCalls(gpu.buf[..], gpu.width, x, y, w, h, color);
    gpu.HLine(x, y, w, color);
    gpu.HLine(x, y + h - 1, w, color);
    gpu.VLine(x, y, h, color);
    gpu.VLine(x + w - 1, y, h, color);
  }

  lemma OutlineCalls(s: seq<nat>, width: nat, x: int, y: int, w: int, h: int, color: nat) returns (ops: seq<Op>)
    ensures ops == [Fill(x, y, w, 1, color), Fill(x, y + h - 1, w, 1, color),
                    Fill(x, y, 1, h, color), Fill(x + w - 1, y, 1, h, color)]
    ensures DrawAll(s, width, Outline(x, y, w, h, color)) ==
            Draw(Draw(Draw(Draw(s, width, ops[0]), width, ops[1]), width, ops[2]), width, ops[3])
  {
    ops := Outline(x, y, w, h, color);
    hide Draw, DrawAll;
    DrawAllOne(s, width, ops[0]);
    DrawAllSnoc(s, width, [ops[0]], ops[1]);
    DrawAllSnoc(s, width, [ops[0], ops[1]], ops[2]);
    DrawAllSnoc(s, width, [ops[0], ops[1], ops[2]], ops[3]);
    assert [ops[0]] + [ops[1]] == [ops[0], ops[1]];
    assert [ops[0], ops[1]] + [ops[2]] == [ops[0], ops[1], ops[2]];
    assert [ops[0], ops[1], ops[2]] + [ops[3]] == ops;
  }

  /** The close button of draw_window. */
  method DrawClose(gpu: Target, win: Window)
    requires gpu.Valid()
    modifies gpu.buf
    ensures gpu.buf[..] == DrawAll(old(gpu.buf[..]), gpu.width, CloseButton(gpu.font, win))
  {
    hide FontOk, Draw, DrawAll, Glyph;
    ghost var s := gpu.buf[..];
    ghost var ops := CloseButton(gpu.font, win);
    var cx, cy := win.x + win.w - CLOSE_BTN_W - 2, win.y + 2;
    gpu.FillRect(cx, cy, CLOSE_BTN_W, TITLEBAR_H - 4, CLOSE_BG);
    gpu.DrawChar(cx + 4, cy + 1, 'X', CLOSE_FG, CLOSE_BG);
    DrawAllOne(s, gpu.width, ops[0]);
    DrawAllSnoc(s, gpu.width, [ops[0]], ops[1]);
    assert [ops[0]] + [ops[1]] == ops;
  }

  /** The client area of draw_window. */
  method DrawClient(gpu: Target, win: Window)
    requires gpu.Valid() && WindowOk(win)
    modifies gpu.buf
    ensures OpsOk(Client(win)) && gpu.buf[..] == DrawAll(old(gpu.buf[..]), gpu.width, Client(win))
  {
    ClientOk(win);
    hide FontOk, Draw, DrawAll, WindowOk;
    DrawAllNone(gpu.buf[..], gpu.width);
    if win.content.Some? {
      ghost var op := Client(win)[0];
      assert OpOk(op);
      DrawAllOne(gpu.buf[..], gpu.width, op);
      hide OpOk, OpsOk;
      gpu.BlitFrom(win.x + 1, win.y + TITLEBAR_H + 1, win.content.value, win.contentW, win.contentH, win.contentW);
    }
  }

  lemma WindowParts(font: Font, win: Window)
    requires FontOk(font) && WindowOk(win)
    ensures OpsOk(Client(win))
    ensures WindowOps(font, win) ==
            Outline(win.x, win.y, win.w, win.h, BORDER_COLOR)
            + [Fill(win.x + 1, win.y + 1, win.w - 2, TITLEBAR_H, TitleBg(win))]
            + Text(font, win.x + 4, win.y + 3, win.title, TITLE_FG, TitleBg(win))
            + CloseButton(font, win)
            + Client(win)
  {
    ClientOk(win);
    hide FontOk, Outline, Text, CloseButton, Client;
  }

  /** draw_window */
  method DrawWindow(gpu: Target, win: Window)
    requires gpu.Valid() && WindowOk(win)
    modifies gpu.buf
    ensures gpu.buf[..] == DrawAll(old(gpu.buf[..]), gpu.width, WindowOps(gpu.font, win))
  {
    ghost var s, w := gpu.buf[..], gpu.width;
    ghost var a := Outline(win.x, win.y, win.w, win.h, BORDER_COLOR);
    ghost var b := [Fill(win.x + 1, win.y + 1, win.w - 2, TITLEBAR_H, TitleBg(win))];
    ghost var c := Text(gpu.font, win.x + 4, win.y + 3, win.title, TITLE_FG, TitleBg(win));
    ghost var d, e := CloseButton(gpu.font, win), Client(win);
    WindowParts(gpu.font, win);
    hide FontOk, Draw, DrawAll, WindowOk, Outline, Text, CloseButton, Client, WindowOps, OpsOk;
    DrawRect(gpu, win.x, win.y, win.w, win.h, BORDER_COLOR);
    gpu.FillRect(win.x + 1, win.y + 1, win.w - 2, TITLEBAR_H, TitleBg(win));
    DrawAllOne(DrawAll(s, w, a), w, b[0]);
    DrawAllConcat(s, w, a, b);
    gpu.DrawString(win.x + 4, win.y + 3, win.title, TITLE_FG, TitleBg(win));
    DrawAllConcat(s, w, a + b, c);
    DrawClose(gpu, win);
    DrawAllConcat(s, w, a + b + c, d);
    DrawClient(gpu, win);
    DrawAllConcat(s, w, a + b + c + d, e);
  }

  /** One button of draw_taskbar. */
  method DrawButton(gpu: Target, win: Window, bx: int)
    requires gpu.Valid()
    modifies gpu.buf
    ensures gpu.buf[..] == DrawAll(old(gpu.buf[..]), gpu.width, Button(gpu.font, win, bx))
  {
    hide FontOk, Draw, DrawAll, Text;
    ghost var s := gpu.buf[..];
    var bg := if win.focused then TASKBAR_ACTIVE_BG else TASKBAR_BG;
    ghost var box := Fill(bx, TASKBAR_Y + 2, ButtonWidth(win), TASKBAR_H - 4, bg);
    ghost var text := Text(gpu.font, bx + 4, TASKBAR_Y + 5, win.title, TASKBAR_FG, bg);
    gpu.FillRect(bx, TASKBAR_Y + 2, ButtonWidth(win), TASKBAR_H - 4, bg);
    DrawAllOne(s, gpu.width, box);
    gpu.DrawString(bx + 4, TASKBAR_Y + 5, win.title, TASKBAR_FG, bg);
    DrawAllConcat(s, gpu.width, [box], text);
  }

  /** The loop over the windows in draw_taskbar. */
  method DrawButtons(gpu: Target, ws: seq<Window>, z: seq<int>)
    requires gpu.Valid() && IdsOk(ws, z)
    modifies gpu.buf
    ensures gpu.buf[..] == DrawAll(old(gpu.buf[..]), gpu.width, Buttons(gpu.font, ws, z, START_BTN_W + 4))
  {
    hide FontOk, Draw, DrawAll, Button, ButtonWidth;
    ghost var all := Buttons(gpu.font, ws, z, START_BTN_W + 4);
    var bx := START_BTN_W + 4;
    assert z[0..] == z;
    for i := 0 to |z|
      invariant DrawAll(gpu.buf[..], gpu.width, Buttons(gpu.font, ws, z[i..], bx)) ==
                DrawAll(old(gpu.buf[..]), gpu.width, all)
    {
      ghost var s := gpu.buf[..];
      assert z[i..][1..] == z[i + 1..];
      var win := ws[z[i]];
      if win.visible {
        DrawButton(gpu, win, bx);
        ghost var bx' := bx + ButtonWidth(win) + 4;
        DrawAllConcat(s, gpu.width, Button(gpu.font, win, bx), Buttons(gpu.font, ws, z[i + 1..], bx'));
        bx := bx + ButtonWidth(win) + 4;
      }
    }
    assert z[|z|..] == [];
    DrawAllNone(gpu.buf[..], gpu.width);
  }

  /** The fixed parts at the left of the taskbar. */
  method DrawBar(gpu: Target)
    requires gpu.Valid()
    modifies gpu.buf
    ensures gpu.buf[..] == DrawAll(old(gpu.buf[..]), gpu.width, Bar(gpu.font))
  {
    ghost var s, w := gpu.buf[..], gpu.width;
    ghost var b0 := Fill(0, TASKBAR_Y, FB_WIDTH, TASKBAR_H, TASKBAR_BG);
    ghost var b1 := Fill(0, TASKBAR_Y, FB_WIDTH, 1, BORDER_COLOR);
    ghost var b2 := Fill(0, TASKBAR_Y + 1, START_BTN_W, TASKBAR_H - 1, TASKBAR_ACTIVE_BG);
    ghost var text := Text(gpu.font, 6, TASKBAR_Y + 5, "Start", START_FG, TASKBAR_ACTIVE_BG);
    assert Bar(gpu.font) == [b0] + [b1] + [b2] + text;
    hide FontOk, Draw, DrawAll, Text, Bar;
    gpu.FillRect(0, TASKBAR_Y, FB_WIDTH, TASKBAR_H, TASKBAR_BG);
    DrawAllOne(s, w, b0);
    gpu.HLine(0, TASKBAR_Y, FB_WIDTH, BORDER_COLOR);
    DrawAllSnoc(s, w, [b0], b1);
    gpu.FillRect(0, TASKBAR_Y + 1, START_BTN_W, TASKBAR_H - 1, TASKBAR_ACTIVE_BG);
    DrawAllSnoc(s, w, [b0] + [b1], b2);
    gpu.DrawString(6, TASKBAR_Y + 5, "Start", START_FG, TASKBAR_ACTIVE_BG);
    DrawAllConcat(s, w, [b0] + [b1] + [b2], text);
  }

  /** draw_taskbar */
  method DrawTaskbar(gpu: Target, ghost st: State, ws: seq<Window>, z: seq<int>)
    requires gpu.Valid() && IdsOk(ws, z) && st.windows == ws && st.z == z
    modifies gpu.buf
    ensures gpu.buf[..] == DrawAll(old(gpu.buf[..]), gpu.width, TaskbarOps(gpu.font, st))
  {
    hide FontOk, Draw, DrawAll, Bar, Buttons, Text, IdsOk;
    ghost var s, w := gpu.buf[..], gpu.width;
    ghost var a, b := Bar(gpu.font), Buttons(gpu.font, ws, z, START_BTN_W + 4);
    DrawBar(gpu);
    DrawButtons(gpu, ws, z);
    DrawAllConcat(s, w, a, b);
    gpu.DrawString(FB_WIDTH - 8 * FONT_WIDTH - 4, TASKBAR_Y + 5, "DRAGOON", LABEL_FG, TASKBAR_BG);
    DrawAllConcat(s, w, a + b, Label(gpu.font));
  }

  /** The loop over the windows in wm_composite. */
  method DrawPanes(gpu: Target, ws: seq<Window>, z: seq<int>)
    requires gpu.Valid() && AllOk(ws) && IdsOk(ws, z)
    modifies gpu.buf
    ensures gpu.buf[..] == DrawAll(old(gpu.buf[..]), gpu.width, Ops(Panes(gpu.font, ws, z)))
  {
    hide FontOk, Draw, DrawAll, WindowOk, WindowOps, OpsOk;
    ghost var s, w := gpu.buf[..], gpu.width;
    DrawAllNone(s, w);
    assert z[..0] == [];
    for i := 0 to |z|
      invariant gpu.buf[..] == DrawAll(s, w, Ops(Panes(gpu.font, ws, z[..i])))
    {
      assert z[..i + 1][..i] == z[..i];
      var win := ws[z[i]];
      if win.visible {
        DrawWindow(gpu, win);
        ghost var below, ops := Panes(gpu.font, ws, z[..i]), WindowOps(gpu.font, win);
        OpsConcat(below, Tagged(Pane(z[i]), ops));
        OpsTagged(Pane(z[i]), ops);
        DrawAllConcat(s, w, Ops(below), ops);
      }
    }
    assert z[..|z|] == z;
  }

  /** The desktop of wm_composite. */
  method DrawDesktop(gpu: Target)
    requires gpu.Valid() && gpu.width == FB_WIDTH && gpu.height == FB_HEIGHT
    modifies gpu.buf
    ensures gpu.buf[..] == DrawAll(old(gpu.buf[..]), gpu.width, DesktopOps(gpu.font))
  {
    hide FontOk, Draw, DrawAll, Text;
    ghost var s := gpu.buf[..];
    ghost var box := Fill(0, 0, FB_WIDTH, FB_HEIGHT, DESKTOP_BG);
    gpu.Clear(DESKTOP_BG);
    DrawAllOne(s, gpu.width, box);
    var wx, wy := (FB_WIDTH - 10 * FONT_WIDTH) / 2, (FB_HEIGHT - TASKBAR_H) / 2 - 8;
    gpu.DrawString(wx, wy, "DRAGOON OS", WATERMARK_FG, DESKTOP_BG);
    DrawAllConcat(s, gpu.width, [box], Text(gpu.font, wx, wy, "DRAGOON OS", WATERMARK_FG, DESKTOP_BG));
  }

  /** wm_composite: afterwards every pixel of the screen is what the list of calls renders there. */
  method WmComposite(wm: WindowTable, gpu: Target)
    requires wm.Valid() && Inv(wm.Abs())
    requires gpu.Valid() && gpu.width == FB_WIDTH && gpu.height == FB_HEIGHT
    modifies gpu.buf
    ensures IdsOk(old(wm.Abs()).windows, old(wm.Abs()).z)
    ensures AllOk(old(wm.Abs()).windows)
    ensures gpu.buf[..] == Frame(gpu.font, old(wm.Abs()), old(gpu.buf[..]))
  {
    IdsInOrder(wm.Abs());
    hide FontOk, Draw, DrawAll, Inv, AllOk, IdsOk, OpsOk;
    ghost var st := wm.Abs();
    ghost var s, font := gpu.buf[..], gpu.font;
    var ws, z := wm.windows[..], wm.zOrder[..wm.zCount];
    ghost var a, b, c := Tagged(Desktop, DesktopOps(font)), Panes(font, ws, z), Tagged(Taskbar, TaskbarOps(font, st));
    CompositeOps(font, st);
    hide DesktopOps, TaskbarOps, Panes, Composite;
    DrawDesktop(gpu);
    DrawPanes(gpu, ws, z);
    DrawAllConcat(s, FB_WIDTH, DesktopOps(font), Ops(b));
    DrawTaskbar(gpu, st, ws, z);
    DrawAllConcat(s, FB_WIDTH, DesktopOps(font) + Ops(b), TaskbarOps(font, st));
  }

  lemma CompositeOps(font: Font, s: State)
    requires FontOk(font) && AllOk(s.windows) && IdsOk(s.windows, s.z)
    ensures Ops(Composite(font, s)) == DesktopOps(font) + Ops(Panes(font, s.windows, s.z)) + TaskbarOps(font, s)
  {
    hide DesktopOps, TaskbarOps, Panes, FontOk;
    var a, b := Tagged(Desktop, DesktopOps(font)), Panes(font, s.windows, s.z);
    var c := Tagged(Taskbar, TaskbarOps(font, s));
    OpsConcat(a + b, c);
    OpsConcat(a, b);
    OpsTagged(Desktop, DesktopOps(font));
    OpsTagged(Taskbar, TaskbarOps(font, s));
  }

  /** The frame buffer that wm_composite leaves when it finds below. */
  ghost function Frame(font: Font, s: State, below: seq<nat>): (r: seq<nat>)
    requires FontOk(font) && AllOk(s.windows) && IdsOk(s.windows, s.z)
    ensures |r| == |below|
  {
    DrawAll(below, FB_WIDTH, Ops(Composite(font, s)))
  }

  /** The point is pixel (i, j) of the client area of the window id that a click there selects. */
  ghost predicate ClientPoint(s: State, px: int, py: int, id: int, i: nat, j: nat)
    requires IdsOk(s.windows, s.z)
  {
    && TopAt(s.windows, s.z, px, py) == Some(id) && Listed(s, id)
    && i < s.windows[id].contentW && j < s.windows[id].contentH
    && px == s.windows[id].x + 1 + i && py == s.windows[id].y + TITLEBAR_H + 1 + j
  }

  /** In the frame buffer that wm_composite leaves, a pixel of the client area of the window that a click
      there selects holds that window's content. */
  lemma FrameShowsContent(font: Font, s: State, below: seq<nat>, px: nat, py: nat, id: int, i: nat, j: nat)
    requires FontOk(font) && Inv(s) && AllOk(s.windows) && IdsOk(s.windows, s.z) && AllFit(s.windows)
    requires |below| == FB_WIDTH * FB_HEIGHT && px < FB_WIDTH && py < TASKBAR_Y
    requires ClientPoint(s, px, py, id, i, j) && WindowOk(s.windows[id])
    ensures Frame(font, s, below)[py * FB_WIDTH + px] == ContentAt(s.windows[id], i, j)
  {
    hide Inv, AllFit, FontOk, Composite, WindowOps, Render, DrawAll, TopAt, AllOk, WindowOk, ContentAt;
    var win := s.windows[id];
    ClientPixel(font, win, i, j, 0);
    FramePixel(below, Ops(Composite(font, s)), px, py);
    ScreenShowsHitWindow(font, s, px, py, below[py * FB_WIDTH + px], 0);
  }

  /** Element py * 640 + px of the frame is the pixel at (px, py). */
  lemma FramePixel(frame: seq<nat>, ops: seq<Op>, px: nat, py: nat)
    requires OpsOk(ops) && |frame| == FB_WIDTH * FB_HEIGHT && px < FB_WIDTH && py < FB_HEIGHT
    ensures DrawAll(frame, FB_WIDTH, ops)[py * FB_WIDTH + px] == Render(ops, px, py, frame[py * FB_WIDTH + px])
  {
    hide X, Y, OpsOk, DrawAll, Render;
    IndexUnique(FB_WIDTH, FB_HEIGHT, px, py);
    DrawAllPixel(frame, FB_WIDTH, ops, py * FB_WIDTH + px);
  }
}

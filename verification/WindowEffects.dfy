/** What the calls of kernel/wm.c do, said of the windows and of what is drawn: creation, destruction,
    clicks on windows and on the taskbar, and drags from the press of the button to its release. */
module WindowEffects {
  import opened Common
  import opened Gpu
  import opened WindowManager
  import opened Compositor

  // ---- focus, creation, destruction ----

  /** s' is s with window id focused and in front, the others behind it in their order. */
  ghost predicate Fronted(s: State, s': State, id: int) {
    && |s'.windows| == |s.windows| && s'.buttons == s.buttons
    && s'.z == Without(s.z, id) + [id]
    && forall k :: 0 <= k < |s.windows| ==> s'.windows[k] == s.windows[k].(focused := k == id)
  }

  lemma FocusEffect(s: State, id: int)
    requires Inv(s) && Listed(s, id)
    ensures Fronted(s, Focus(s, id), id)
  {
    hide Ordered, AllOk, FocusOk, OneDrag, Without;
    FocusKeeps(s, id);
    FocusMoves(s, id);
  }

  lemma FocusButtons(s: State, id: int)
    ensures Focus(s, id).buttons == s.buttons
  {
    hide Without;
  }

  /** Taking an element out keeps the order of the others. */
  lemma WithoutOrder(z: seq<int>, id: int, i: nat, j: nat) returns (i': nat, j': nat)
    requires NoDup(z) && i < j < |z| && z[i] != id && z[j] != id
    ensures i' < j' < |Without(z, id)| && Without(z, id)[i'] == z[i] && Without(z, id)[j'] == z[j]
  {
    hide IndexOf;
    var k := if id in z then IndexOf(z, id) else |z|;
    i', j' := if i < k then i else i - 1, if j < k then j else j - 1;
  }

  /** A new window has the place and the size asked for, the first 31 characters of the title and a black
      content; it takes the lowest free slot and is focused in front of the others. A call that fails shows
      nothing and leaves the other windows alone. */
  lemma CreateEffect(s: State, title: string, x: int, y: int, w: int, h: int, room: bool)
    requires Inv(s)
    ensures var (s', id) := Create(s, title, x, y, w, h, room);
      && |s'.windows| == |s.windows| && s'.buttons == s.buttons
      && (id == -1 ==> s'.z == s.z && forall k :: 0 <= k < |s.windows| && s.windows[k].visible ==>
            s'.windows[k] == s.windows[k])
      && (id != -1 ==>
            && 0 <= id < |s.windows| && !s.windows[id].visible && s'.z == s.z + [id]
            && (forall k :: 0 <= k < id ==> s.windows[k].visible)
            && (forall k :: 0 <= k < |s.windows| && k != id ==> s'.windows[k] == s.windows[k].(focused := false))
            && var win := s'.windows[id];
               && win.x == x && win.y == y && win.contentW == w && win.contentH == h
               && win.w == w + 2 && win.h == h + 22
               && win.title == (if |title| <= 31 then title else title[..31])
               && win.visible && win.focused && !win.dragging && win.content.Some?
               && |win.content.value| == (if w > 0 && h > 0 then w * h else 0)
               && forall p :: 0 <= p < |win.content.value| ==> win.content.value[p] == 0)
  {
    hide Without, Ordered, AllOk, FocusOk, OneDrag, Focus;
    CreateKeeps(s, title, x, y, w, h, room);
    match FreeSlot(s.windows, 0)
    case None =>
    case Some(id) =>
      if room {
        var shown := Shown(Shaped(s.windows[id], title, x, y, w, h), Blank(PixelCount(w, h)));
        FocusMoves(s.(windows := s.windows[id := shown], z := s.z + [id]), id);
        FocusButtons(s.(windows := s.windows[id := shown], z := s.z + [id]), id);
      }
  }

  /** Destroying a window takes it off the screen; the others keep their order, and the front-most of them
      is focused. */
  lemma DestroyEffect(s: State, id: int)
    requires Inv(s)
    ensures var s' := Destroy(s, id);
      && |s'.windows| == |s.windows| && s'.buttons == s.buttons
      && (!Listed(s, id) ==> s' == s)
      && (Listed(s, id) ==>
            && s'.z == Without(s.z, id)
            && (forall k :: 0 <= k < |s.windows| && k != id ==>
                  s'.windows[k] == s.windows[k].(focused := OnTop(s', k)))
            && !s'.windows[id].visible && s'.windows[id].content.None? && !s'.windows[id].focused)
  {
    hide Without, Ordered, AllOk, OneDrag, Focus;
    DestroyKeeps(s, id);
    if Listed(s, id) {
      var s1 := s.(windows := s.windows[id := Hidden(s.windows[id])], z := Without(s.z, id));
      if s1.z != [] {
        var top := s1.z[|s1.z| - 1];
        FrontListed(s, id);
        FocusMoves(s1, top);
        FocusButtons(s1, top);
      }
    }
  }

  lemma FrontListed(s: State, id: int)
    requires Inv(s) && Listed(s, id) && Without(s.z, id) != []
    ensures var z := Without(s.z, id);
      var top := z[|z| - 1]; top != id && Listed(s, top)
  {
    hide Without, AllOk, FocusOk, OneDrag;
    OrderedIds(s);
    WithoutIs(s.z, id);
    var z := Without(s.z, id);
    assert z[|z| - 1] in z;
  }

  // ---- the mouse ----

  ghost predicate NoDrag(s: State) {
    forall j :: 0 <= j < |s.windows| ==> !s.windows[j].dragging
  }

  /** The left button goes down. */
  predicate Pressed(s: State, buttons: int) { buttons % 2 == 1 && s.buttons % 2 == 0 }

  /** A mouse call without a press and without a drag only notes the buttons. */
  lemma IdleMouse(s: State, mx: int, my: int, buttons: int)
    requires Inv(s) && IdsOk(s.windows, s.z) && NoDrag(s) && !Pressed(s, buttons)
    ensures Mouse(s, mx, my, buttons) == (s.(buttons := buttons), -1)
  {
    hide Inv, ClickOn, ButtonAt, TopAt, Focus;
  }

  /** The window that a press above the taskbar finds: visible and under the point. */
  lemma HitWindow(s: State, mx: int, my: int)
    requires Inv(s) && IdsOk(s.windows, s.z)
    ensures var hit := TopAt(s.windows, s.z, mx, my);
      hit.Some? ==> Listed(s, hit.value) && Contains(s.windows[hit.value], mx, my)
  {
    hide Inv;
  }

  /** A press above the taskbar on the desktop does nothing. */
  lemma DesktopClick(s: State, mx: int, my: int, buttons: int)
    requires Inv(s) && IdsOk(s.windows, s.z) && NoDrag(s) && Pressed(s, buttons) && my < TASKBAR_Y
    requires TopAt(s.windows, s.z, mx, my).None?
    ensures Mouse(s, mx, my, buttons) == (s.(buttons := buttons), -1)
  {
    hide Inv, ClickOn, ButtonAt, TopAt, Focus;
  }

  /** The box that draw_window fills for the close button. */
  ghost predicate InCloseBox(font: Font, win: Window, mx: int, my: int)
    requires FontOk(font)
  {
    Covers(CloseButton(font, win)[0], mx, my)
  }

  /** A press on window id brings it to the front. It asks to close the window exactly on the box drawn for
      the close button. Anywhere else in the title rows it starts a drag of this window and no other, holding
      the point under the mouse; below them it reports the window. */
  lemma WindowClick(font: Font, s: State, mx: int, my: int, buttons: int, id: int)
    requires FontOk(font) && Inv(s) && IdsOk(s.windows, s.z) && NoDrag(s) && Pressed(s, buttons) && my < TASKBAR_Y
    requires TopAt(s.windows, s.z, mx, my) == Some(id)
    ensures Listed(s, id)
    ensures var (s', r) := Mouse(s, mx, my, buttons);
      var win := s.windows[id];
      && (r == -(id + 100) <==> InCloseBox(font, win, mx, my))
      && (r == id <==> my >= win.y + 21)
      && (r == -1 <==> my < win.y + 21 && !InCloseBox(font, win, mx, my))
      && s'.buttons == buttons
      && (if r == -1 then Grabbed(s, s', id, mx, my) else Fronted(s, s'.(buttons := s.buttons), id))
  {
    hide Inv, FontOk, TopAt, ButtonAt, Focus, Without, Glyph;
    HitWindow(s, mx, my);
    ButtonsKeep(s, buttons);
    FocusEffect(s.(buttons := buttons), id);
    CloseBoxIs(font, s.windows[id], mx, my);
  }

  /** s' is s with window id in front, held by the mouse at (mx, my). */
  ghost predicate Grabbed(s: State, s': State, id: int, mx: int, my: int)
    requires Listed(s, id)
  {
    && |s'.windows| == |s.windows| && s'.z == Without(s.z, id) + [id]
    && (forall k :: 0 <= k < |s.windows| && k != id ==> s'.windows[k] == s.windows[k].(focused := false))
    && var win := s.windows[id];
       s'.windows[id] == win.(focused := true, dragging := true, dragX := mx - win.x, dragY := my - win.y)
  }

  lemma CloseBoxIs(font: Font, win: Window, mx: int, my: int)
    requires FontOk(font)
    ensures InCloseBox(font, win, mx, my) <==>
            win.x + win.w - 18 <= mx < win.x + win.w - 2 && win.y + 2 <= my < win.y + 18
  {
    hide FontOk, Glyph;
  }

  /** Of the pixels drawn for the close button, exactly the bottom row of its cross, which lies below the box,
      does not close the window: a press there starts a drag. */
  lemma CloseButtonIff(font: Font, s: State, mx: int, my: int, buttons: int, id: int)
    requires FontOk(font) && Inv(s) && IdsOk(s.windows, s.z) && NoDrag(s) && Pressed(s, buttons) && my < TASKBAR_Y
    requires TopAt(s.windows, s.z, mx, my) == Some(id)
    ensures Listed(s, id)
    ensures Painted(CloseButton(font, s.windows[id]), mx, my) ==>
      var r := Mouse(s, mx, my, buttons).1;
      if my == s.windows[id].y + 18 then r == -1 else r == -(id + 100)
  {
    hide Inv, FontOk, TopAt, Mouse, CloseButton, Painted, Fronted, Grabbed, InCloseBox;
    WindowClick(font, s, mx, my, buttons, id);
    CloseBoxIs(font, s.windows[id], mx, my);
    ClosePainted(font, s.windows[id], mx, my);
  }

  /** A press on the drawn title bar outside the box holds the window, one on the drawn content reports it. */
  lemma DrawnPartClicked(font: Font, s: State, mx: int, my: int, buttons: int, id: int)
    requires FontOk(font) && Inv(s) && IdsOk(s.windows, s.z) && NoDrag(s) && Pressed(s, buttons) && my < TASKBAR_Y
    requires TopAt(s.windows, s.z, mx, my) == Some(id)
    ensures Listed(s, id)
    ensures var win := s.windows[id];
      var (s', r) := Mouse(s, mx, my, buttons);
      && (Painted(Client(win), mx, my) ==> r == id)
      && var bar := Fill(win.x + 1, win.y + 1, win.w - 2, TITLEBAR_H, TitleBg(win));
         Covers(bar, mx, my) && !InCloseBox(font, win, mx, my) ==> r == -1 && Grabbed(s, s', id, mx, my)
  {
    hide Inv, FontOk, TopAt, Mouse, Fronted, Grabbed, InCloseBox;
    WindowClick(font, s, mx, my, buttons, id);
  }

  // ---- drags ----

  /** Where a held window goes. */
  function Clamped(y: int): int { if y < 0 then 0 else if y > 436 then 436 else y }

  /** A mouse call while window id is held: it follows the mouse, its title bar kept on the screen, until the
      left button is released; then it stays where it is and is no longer held. Nothing else changes. */
  lemma DragEffect(s: State, mx: int, my: int, buttons: int, id: nat)
    requires Inv(s) && IdsOk(s.windows, s.z) && id < |s.windows| && s.windows[id].dragging && s.buttons % 2 == 1
    ensures var win := s.windows[id];
      var win' := if buttons % 2 == 0 then win.(dragging := false)
                  else win.(x := mx - win.dragX, y := Clamped(my - win.dragY));
      Mouse(s, mx, my, buttons) == (State(s.windows[id := win'], s.z, buttons), -1)
  {
    hide Ordered, AllOk, FocusOk, ClickOn, ButtonAt, TopAt, Focus;
    HeldSlot(s, id);
  }

  lemma HeldSlot(s: State, id: nat)
    requires OneDrag(s) && id < |s.windows| && s.windows[id].dragging
    ensures DragSlot(s.windows, 0) == Some(id)
  {
    hide DragSlot;
  }

  /** A window is held only while the left button is down. */
  ghost predicate Held(s: State) { s.buttons % 2 == 0 ==> NoDrag(s) }

  lemma StepHeld(s: State, e: Event)
    requires Inv(s) && Held(s)
    ensures Held(Step(s, e))
  {
    hide Inv, Create, Destroy, Focus, Mouse, Paint;
    match e
    case Creates(title, x, y, w, h, room) => CreateHeld(s, title, x, y, w, h, room);
    case Destroys(id) => DestroyHeld(s, id);
    case Focuses(id) => FocusHeld(s, id);
    case Mouses(mx, my, buttons) =>
      IdsInOrder(s);
      MouseHeld(s, mx, my, buttons);
    case Draws(id, content) => PaintHeld(s, id, content);
  }

  lemma FocusHeld(s: State, id: int)
    requires Held(s)
    ensures Held(Focus(s, id))
  {
    hide Without;
  }

  lemma PaintHeld(s: State, id: int, content: seq<nat>)
    requires Held(s)
    ensures Held(Paint(s, id, content))
  {
  }

  lemma CreateHeld(s: State, title: string, x: int, y: int, w: int, h: int, room: bool)
    requires Held(s)
    ensures Held(Create(s, title, x, y, w, h, room).0)
  {
    hide Focus, FreeSlot, Blank, PixelCount, Shortened;
    match FreeSlot(s.windows, 0)
    case None =>
    case Some(id) =>
      var win := Shaped(s.windows[id], title, x, y, w, h);
      FocusHeld(s.(windows := s.windows[id := Shown(win, Blank(PixelCount(w, h)))], z := s.z + [id]), id);
  }

  lemma DestroyHeld(s: State, id: int)
    requires Held(s)
    ensures Held(Destroy(s, id))
  {
    hide Focus, Without;
    if Listed(s, id) {
      var s1 := s.(windows := s.windows[id := Hidden(s.windows[id])], z := Without(s.z, id));
      if s1.z != [] { FocusHeld(s1, s1.z[|s1.z| - 1]); }
    }
  }

  lemma MouseHeld(s: State, mx: int, my: int, buttons: int)
    requires Inv(s) && IdsOk(s.windows, s.z) && Held(s)
    ensures Held(Mouse(s, mx, my, buttons).0)
  {
    hide Ordered, AllOk, FocusOk, ClickOn, ButtonAt, TopAt, Focus, DragSlot;
    var slot := DragSlot(s.windows, 0);
    if buttons % 2 == 0 {
      if slot.Some? {
        DragEffect(s, mx, my, buttons, slot.value);
      } else {
        IdleMouse(s, mx, my, buttons);
      }
    } else {
      MouseButtons(s, mx, my, buttons);
    }
  }

  lemma MouseButtons(s: State, mx: int, my: int, buttons: int)
    requires Inv(s) && IdsOk(s.windows, s.z)
    ensures Mouse(s, mx, my, buttons).0.buttons == buttons
  {
    hide Inv, ButtonAt, TopAt, Without;
  }

  lemma {:induction false} RunHeld(s: State, es: seq<Event>)
    requires Inv(s) && Held(s)
    ensures Held(Run(s, es))
    decreases |es|
  {
    hide Inv, Step, Held;
    if es != [] {
      StepKeeps(s, es[0]);
      StepHeld(s, es[0]);
      RunHeld(Step(s, es[0]), es[1..]);
    }
  }

  /** In every run from wm_init a window is held only while the left button is down. */
  lemma AlwaysHeld(es: seq<Event>)
    requires Inv(Initial())
    ensures Held(Run(Initial(), es))
  {
    hide Inv, Step, Run;
    RunHeld(Initial(), es);
  }

  datatype Move = Move(x: int, y: int, buttons: int)

  function Moves(ms: seq<Move>): seq<Event> {
    seq(|ms|, i requires 0 <= i < |ms| => Mouses(ms[i].x, ms[i].y, ms[i].buttons))
  }

  ghost predicate ButtonDown(ms: seq<Move>) { forall i :: 0 <= i < |ms| ==> ms[i].buttons % 2 == 1 }

  lemma MoveStep(s: State, ms: seq<Move>)
    requires Inv(s) && ms != []
    ensures IdsOk(s.windows, s.z) && Inv(Mouse(s, ms[0].x, ms[0].y, ms[0].buttons).0)
    ensures Run(s, Moves(ms)) == Run(Mouse(s, ms[0].x, ms[0].y, ms[0].buttons).0, Moves(ms[1..]))
  {
    hide Inv, Mouse;
    IdsInOrder(s);
    MouseKeeps(s, ms[0].x, ms[0].y, ms[0].buttons);
    assert Moves(ms)[1..] == Moves(ms[1..]);
  }

  /** However the mouse is moved with the button down, the held window is where the last move put it and
      nothing else has changed. */
  lemma {:induction false} DragRun(s: State, ms: seq<Move>, id: nat)
    requires Inv(s) && id < |s.windows| && s.windows[id].dragging && s.buttons % 2 == 1
    requires ms != [] && ButtonDown(ms)
    ensures var win, last := s.windows[id], ms[|ms| - 1];
      Run(s, Moves(ms)) ==
      State(s.windows[id := win.(x := last.x - win.dragX, y := Clamped(last.y - win.dragY))], s.z, last.buttons)
    decreases |ms|
  {
    hide Inv, Mouse, Run, Moves, Clamped;
    MoveStep(s, ms);
    DragEffect(s, ms[0].x, ms[0].y, ms[0].buttons, id);
    var s1 := Mouse(s, ms[0].x, ms[0].y, ms[0].buttons).0;
    if |ms| == 1 {
      assert ms[1..] == [];
      NoMoves(s1);
    } else {
      DragRun(s1, ms[1..], id);
    }
  }

  lemma NoMoves(s: State)
    requires Inv(s)
    ensures Run(s, Moves([])) == s
  {
    hide Inv;
  }

  /** A whole drag: a press on the title bar of window id, moves with the button down, and the release. The
      window has moved with the mouse, its title bar kept on the screen; it is in front and not held; the
      other windows are where they were, in their order. */
  lemma DragGesture(font: Font, s: State, mx: int, my: int, buttons: int, id: int, ms: seq<Move>, release: Move)
    requires FontOk(font) && Inv(s) && IdsOk(s.windows, s.z) && NoDrag(s) && Pressed(s, buttons) && my < TASKBAR_Y
    requires TopAt(s.windows, s.z, mx, my) == Some(id) && Mouse(s, mx, my, buttons).1 == -1
    requires ms != [] && ButtonDown(ms) && release.buttons % 2 == 0
    ensures Listed(s, id) && Inv(Mouse(s, mx, my, buttons).0)
    ensures var s1 := Run(Mouse(s, mx, my, buttons).0, Moves(ms));
      && IdsOk(s1.windows, s1.z)
      && var s', win, last := Mouse(s1, release.x, release.y, release.buttons).0, s.windows[id], ms[|ms| - 1];
         && |s'.windows| == |s.windows| && s'.z == Without(s.z, id) + [id] && NoDrag(s')
         && s'.windows[id].x == win.x + (last.x - mx) && s'.windows[id].y == Clamped(win.y + (last.y - my))
         && forall k :: 0 <= k < |s.windows| && k != id ==> s'.windows[k] == s.windows[k].(focused := false)
  {
    hide Inv, FontOk, TopAt, Mouse, InCloseBox, Run, Moves, Without, Fronted;
    WindowClick(font, s, mx, my, buttons, id);
    MouseKeeps(s, mx, my, buttons);
    var s0 := Mouse(s, mx, my, buttons).0;
    DragRun(s0, ms, id);
    var s1 := Run(s0, Moves(ms));
    IdsInOrder(s1);
    DragEffect(s1, release.x, release.y, release.buttons, id);
  }

  // ---- the taskbar ----

  /** Where the taskbar button of the k-th window of z starts: the buttons stand side by side, four pixels
      apart, from column bx on. */
  ghost function ButtonX(ws: seq<Window>, z: seq<int>, bx: int, k: nat): int
    requires IdsOk(ws, z) && k <= |z|
  {
    if k == 0 then bx
    else ButtonX(ws, z, bx, k - 1) + if ws[z[k - 1]].visible then 8 * |ws[z[k - 1]].title| + 28 else 0
  }

  lemma {:induction false} ButtonXShift(ws: seq<Window>, z: seq<int>, bx: int, k: nat)
    requires IdsOk(ws, z) && 0 < k <= |z|
    ensures ButtonX(ws, z, bx, k) ==
            ButtonX(ws, z[1..], bx + if ws[z[0]].visible then ButtonWidth(ws[z[0]]) + 4 else 0, k - 1)
  {
    if k > 1 { ButtonXShift(ws, z, bx, k - 1); }
  }

  /** The column lies in the k-th button, 8 pixels wide per character and 24 more. */
  ghost predicate InButton(ws: seq<Window>, z: seq<int>, bx: int, k: nat, mx: int)
    requires IdsOk(ws, z) && k < |z|
  {
    && ws[z[k]].visible
    && ButtonX(ws, z, bx, k) <= mx < ButtonX(ws, z, bx, k) + 8 * |ws[z[k]].title| + 24
  }

  lemma InButtonShift(ws: seq<Window>, z: seq<int>, bx: int, k: nat, mx: int)
    requires IdsOk(ws, z) && 0 < k < |z|
    ensures InButton(ws, z, bx, k, mx) <==>
            InButton(ws, z[1..], bx + if ws[z[0]].visible then ButtonWidth(ws[z[0]]) + 4 else 0, k - 1, mx)
  {
    hide ButtonX, ButtonWidth;
    ButtonXShift(ws, z, bx, k);
  }

  lemma {:induction false} ButtonXGrows(ws: seq<Window>, z: seq<int>, bx: int, k: nat)
    requires IdsOk(ws, z) && k <= |z|
    ensures bx <= ButtonX(ws, z, bx, k)
  {
    if k > 0 { ButtonXGrows(ws, z, bx, k - 1); }
  }

  /** The walk along the taskbar finds the window in whose button the column lies, or none. */
  lemma {:induction false} ButtonFound(ws: seq<Window>, z: seq<int>, bx: int, mx: int)
    requires IdsOk(ws, z)
    ensures forall k :: 0 <= k < |z| && InButton(ws, z, bx, k, mx) ==> ButtonAt(ws, z, bx, mx) == Some(z[k])
    ensures (forall k :: 0 <= k < |z| ==> !InButton(ws, z, bx, k, mx)) ==> ButtonAt(ws, z, bx, mx).None?
    decreases |z|
  {
    hide ButtonX, ButtonWidth, InButton, ButtonAt;
    if z != [] {
      var win := ws[z[0]];
      var bx' := bx + if win.visible then ButtonWidth(win) + 4 else 0;
      ButtonFound(ws, z[1..], bx', mx);
      FirstButton(ws, z, bx, mx);
      forall k | 0 < k < |z| ensures InButton(ws, z, bx, k, mx) <==> InButton(ws, z[1..], bx', k - 1, mx) {
        InButtonShift(ws, z, bx, k, mx);
      }
      if InButton(ws, z, bx, 0, mx) {
        forall k | 0 < k < |z| ensures !InButton(ws, z, bx, k, mx) {
          ButtonsApart(ws, z, bx, k, mx);
        }
      } else if ButtonAt(ws, z, bx, mx).Some? && forall k :: 0 <= k < |z| ==> !InButton(ws, z, bx, k, mx) {
        forall k | 0 <= k < |z[1..]| ensures !InButton(ws, z[1..], bx', k, mx) {
          assert !InButton(ws, z, bx, k + 1, mx);
        }
      }
    } else {
      NoButton(ws, bx, mx);
    }
  }

  lemma NoButton(ws: seq<Window>, bx: int, mx: int)
    ensures ButtonAt(ws, [], bx, mx).None?
  {
  }

  lemma FirstButton(ws: seq<Window>, z: seq<int>, bx: int, mx: int)
    requires IdsOk(ws, z) && z != []
    ensures ButtonAt(ws, z, bx, mx) ==
            if InButton(ws, z, bx, 0, mx) then Some(z[0])
            else ButtonAt(ws, z[1..], bx + if ws[z[0]].visible then ButtonWidth(ws[z[0]]) + 4 else 0, mx)
  {
  }

  /** Buttons do not overlap. */
  lemma ButtonsApart(ws: seq<Window>, z: seq<int>, bx: int, k: nat, mx: int)
    requires IdsOk(ws, z) && 0 < k < |z| && InButton(ws, z, bx, 0, mx)
    ensures !InButton(ws, z, bx, k, mx)
  {
    hide ButtonX;
    FirstColumn(ws, z, bx);
    ButtonXShift(ws, z, bx, k);
    ButtonXGrows(ws, z[1..], bx + ButtonWidth(ws[z[0]]) + 4, k - 1);
  }

  lemma FirstColumn(ws: seq<Window>, z: seq<int>, bx: int)
    requires IdsOk(ws, z)
    ensures ButtonX(ws, z, bx, 0) == bx
  {
  }

  /** The taskbar buttons are drawn where ButtonX puts them. */
  lemma {:induction false} ButtonsDrawn(font: Font, ws: seq<Window>, z: seq<int>, bx: int, px: int, py: int)
    requires FontOk(font) && IdsOk(ws, z)
    ensures Painted(Buttons(font, ws, z, bx), px, py) <==>
            TASKBAR_Y + 2 <= py < TASKBAR_Y + 22 && exists k :: 0 <= k < |z| && InButton(ws, z, bx, k, px)
    decreases |z|
  {
    hide FontOk, ButtonX, InButton, Button, ButtonWidth, Painted;
    if z == [] {
      NothingPainted(px, py);
    } else {
      var win := ws[z[0]];
      var bx' := bx + if win.visible then ButtonWidth(win) + 4 else 0;
      ButtonsDrawn(font, ws, z[1..], bx', px, py);
      forall k | 0 < k < |z| ensures InButton(ws, z, bx, k, px) <==> InButton(ws, z[1..], bx', k - 1, px) {
        InButtonShift(ws, z, bx, k, px);
      }
      FirstDrawn(font, ws, z, bx, px, py);
      if exists k :: 0 <= k < |z[1..]| && InButton(ws, z[1..], bx', k, px) {
        var k :| 0 <= k < |z[1..]| && InButton(ws, z[1..], bx', k, px);
        assert InButton(ws, z, bx, k + 1, px);
      }
      if win.visible { PaintedConcat(Button(font, win, bx), Buttons(font, ws, z[1..], bx'), px, py); }
    }
  }

  lemma NothingPainted(px: int, py: int)
    ensures !Painted([], px, py)
  {
  }

  /** The button of a window fills its columns, on twenty rows. */
  lemma FirstDrawn(font: Font, ws: seq<Window>, z: seq<int>, bx: int, px: int, py: int)
    requires FontOk(font) && IdsOk(ws, z) && z != []
    ensures InButton(ws, z, bx, 0, px) ==> ws[z[0]].visible
    ensures ws[z[0]].visible ==>
            (Painted(Button(font, ws[z[0]], bx), px, py) <==>
             TASKBAR_Y + 2 <= py < TASKBAR_Y + 22 && InButton(ws, z, bx, 0, px))
  {
    hide FontOk, Painted, Text;
    var win := ws[z[0]];
    var bg := if win.focused then TASKBAR_ACTIVE_BG else TASKBAR_BG;
    var box := Fill(bx, TASKBAR_Y + 2, ButtonWidth(win), TASKBAR_H - 4, bg);
    var text := Text(font, bx + 4, TASKBAR_Y + 5, win.title, TASKBAR_FG, bg);
    PaintedConcat([box], text, px, py);
    PaintedOne(box, px, py);
    TextPainted(font, bx + 4, TASKBAR_Y + 5, win.title, TASKBAR_FG, bg, px, py);
    FirstColumn(ws, z, bx);
  }

  /** A press on the taskbar right of the start button brings the window to the front whose button is drawn
      over that column, and moves no other; beside the buttons it does nothing. On the start button it
      reports -2. */
  lemma TaskbarClick(s: State, mx: int, my: int, buttons: int)
    requires Inv(s) && IdsOk(s.windows, s.z) && NoDrag(s) && Pressed(s, buttons) && my >= TASKBAR_Y
    ensures var (s', r) := Mouse(s, mx, my, buttons);
      && r == (if mx < 60 then -2 else -1) && s'.buttons == buttons
      && (forall k :: 0 <= k < |s.z| && mx >= 60 && InButton(s.windows, s.z, 64, k, mx) ==>
            Fronted(s, s'.(buttons := s.buttons), s.z[k]))
      && (mx < 60 || (forall k :: 0 <= k < |s.z| ==> !InButton(s.windows, s.z, 64, k, mx)) ==>
            s' == s.(buttons := buttons))
  {
    hide Inv, ClickOn, ButtonAt, TopAt, Focus, Without, InButton;
    ButtonFound(s.windows, s.z, 64, mx);
    ButtonsKeep(s, buttons);
    var hit := ButtonAt(s.windows, s.z, 64, mx);
    if hit.Some? {
      HitListed(s, hit.value);
      FocusEffect(s.(buttons := buttons), hit.value);
    }
  }

  lemma HitListed(s: State, id: int)
    requires Inv(s) && id in s.z
    ensures Listed(s, id)
  {
    hide AllOk, FocusOk, OneDrag;
  }
}

/** The window manager as kernel/wm.c keeps it: an array of windows and an array z_order that loops
    shift in place, with the drawing into a render target. */
module Windows {
  import opened Common
  import opened WindowManager
  import opened Compositor

  class WindowTable {
    const windows: array<Window>
    const zOrder: array<int>
    var zCount: nat
    var prevButtons: int

    ghost predicate Valid()
      reads this
    {
      windows.Length == WM_MAX_WINDOWS && zOrder.Length == WM_MAX_WINDOWS && zCount <= WM_MAX_WINDOWS
    }

    ghost function Abs(): State
      reads this, windows, zOrder
      requires Valid()
    {
      State(windows[..], zOrder[..zCount], prevButtons)
    }

    /** wm_init */
    constructor ()
      ensures Valid() && fresh(windows) && fresh(zOrder) && Abs() == Initial() && Inv(Abs())
    {
      windows := new Window[WM_MAX_WINDOWS](i => Window(0, 0, 0, 0, "", None, 0, 0, false, false, false, 0, 0));
      zOrder := new int[WM_MAX_WINDOWS](i => 0);
      zCount, prevButtons := 0, 0;
      new;
      InitialInv();
      assert windows[..] == Initial().windows;
    }

    // ---- focus ----

    method SetFocus(id: nat)
      requires Valid() && id < WM_MAX_WINDOWS
      modifies windows
      ensures forall i :: 0 <= i < WM_MAX_WINDOWS ==> windows[i] == old(windows[i]).(focused := i == id)
    {
      for i := 0 to WM_MAX_WINDOWS
        invariant forall k :: 0 <= k < WM_MAX_WINDOWS ==>
                    windows[k] == if k < i then old(windows[k]).(focused := false) else old(windows[k])
      {
        windows[i] := windows[i].(focused := false);
      }
      windows[id] := windows[id].(focused := true);
    }

    /** The position of id in the z-order, or -1. */
    method Position(id: int) returns (pos: int)
      requires Valid()
      ensures var z := zOrder[..zCount]; if id in z then pos == IndexOf(z, id) else pos == -1
    {
      hide IndexOf;
      ghost var z := zOrder[..zCount];
      for i := 0 to zCount
        invariant forall j :: 0 <= j < i ==> z[j] != id
      {
        if zOrder[i] == id {
          FirstIndex(z, id, i);
          return i;
        }
      }
      return -1;
    }

    /** Moves the window at pos to the end of the z-order. */
    method Raise(pos: nat, id: int)
      requires Valid() && pos < zCount && zOrder[pos] == id
      modifies zOrder
      ensures var z := old(zOrder[..zCount]); zOrder[..zCount] == z[..pos] + z[pos + 1..] + [id]
    {
      hide Shifting;
      ghost var z := zOrder[..zCount];
      ShiftEnds(z, pos);
      for i := pos to zCount - 1
        invariant zOrder[..zCount] == Shifting(z, pos, i)
      {
        ShiftStep(z, pos, i);
        ghost var before := zOrder[..zCount];
        assert before[i + 1] == zOrder[i + 1];
        zOrder[i] := zOrder[i + 1];
        assert zOrder[..zCount] == before[i := z[i + 1]];
      }
      ghost var shifted := zOrder[..zCount];
      zOrder[zCount - 1] := id;
      assert zOrder[..zCount] == shifted[zCount - 1 := id];
    }

    /** Brings the window to the end of the z-order. */
    method ToTop(id: int)
      requires Valid()
      modifies zOrder
      ensures var z := old(zOrder[..zCount]);
        zOrder[..zCount] == if id in z then Without(z, id) + [id] else z
    {
      hide IndexOf, Without;
      ghost var z := zOrder[..zCount];
      var pos := Position(id);
      if pos >= 0 {
        AtIndex(z, id, pos);
        if pos < zCount - 1 {
          Raise(pos, id);
        }
      }
    }

    /** wm_focus_window */
    method FocusWindow(id: int)
      requires Valid()
      modifies windows, zOrder
      ensures Abs() == Focus(old(Abs()), id)
    {
      if id < 0 || id >= WM_MAX_WINDOWS || !windows[id].visible {
        return;
      }
      hide Without;
      ghost var s := Abs();
      SetFocus(id);
      assert windows[..] == Focus(s, id).windows;
      ToTop(id);
    }

    // ---- creation and destruction ----

    /** The loop that copies a title. */
    method CopyTitle(title: string) returns (t: string)
      ensures t == Shortened(title)
    {
      var ti := 0;
      t := "";
      while ti < |title| && ti < TITLE_MAX
        invariant 0 <= ti <= |title| && ti <= TITLE_MAX && t == title[..ti]
      {
        t := t + [title[ti]];
        ti := ti + 1;
      }
    }

    method FindFree() returns (id: int)
      requires Valid()
      ensures var slot := FreeSlot(windows[..], 0); if slot.Some? then id == slot.value else id == -1
    {
      for i := 0 to WM_MAX_WINDOWS
        invariant FreeSlot(windows[..], 0) == FreeSlot(windows[..], i)
      {
        if !windows[i].visible {
          return i;
        }
      }
      return -1;
    }

    /** wm_create_window */
    method CreateWindow(title: string, x: int, y: int, w: int, h: int, room: bool) returns (id: int)
      requires Valid() && Inv(Abs())
      modifies windows, zOrder, this`zCount
      ensures Valid() && Inv(Abs()) && (Abs(), id) == Create(old(Abs()), title, x, y, w, h, room)
    {
      hide Focus, FreeSlot, Inv, Shaped, Blank, PixelCount, Without;
      ghost var s := Abs();
      CreateKeeps(s, title, x, y, w, h, room);
      id := FindFree();
      if id >= 0 { RoomInOrder(s, id); }
      if id < 0 {
        return -1;
      }
      Shape(id, title, x, y, w, h);
      ghost var win := Shaped(s.windows[id], title, x, y, w, h);
      if !room {
        Unbacked(id);
        assert Abs() == s.(windows := s.windows[id := win.(content := None)]);
        return -1;
      }
      Insert(id, Blank(PixelCount(w, h)));
      Overwrite(s.windows, id, win, Shown(win, Blank(PixelCount(w, h))));
      assert Abs() == Focus(State(s.windows[id :=
          Shown(win, Blank(PixelCount(w, h)))],
        s.z + [id], s.buttons), id);
    }

    /** Shows the window and puts it on top. */
    method Insert(id: nat, content: seq<nat>)
      requires Valid() && id < WM_MAX_WINDOWS && zCount < WM_MAX_WINDOWS
      modifies windows, zOrder, this`zCount
      ensures Valid()
      ensures Abs() == Focus(State(old(windows[..])[id :=
                  Shown(old(windows[id]), content)],
                old(zOrder[..zCount]) + [id], old(prevButtons)), id)
    {
      hide Focus;
      Show(id, content);
      Push(id);
      FocusWindow(id);
    }

    method Unbacked(id: nat)
      requires Valid() && id < WM_MAX_WINDOWS
      modifies windows
      ensures windows[..] == old(windows[..])[id := old(windows[id]).(content := None)]
    {
      windows[id] := windows[id].(content := None);
    }

    method Shape(id: nat, title: string, x: int, y: int, w: int, h: int)
      requires Valid() && id < WM_MAX_WINDOWS
      modifies windows
      ensures windows[..] == old(windows[..])[id := Shaped(old(windows[id]), title, x, y, w, h)]
    {
      var t := CopyTitle(title);
      hide Shortened;
      windows[id] := windows[id].(title := t, x := x, y := y, contentW := w, contentH := h,
                                  w := w + 2, h := h + TITLEBAR_H + 2);
    }

    method Show(id: nat, content: seq<nat>)
      requires Valid() && id < WM_MAX_WINDOWS
      modifies windows
      ensures windows[..] == old(windows[..])[id :=
                Shown(old(windows[id]), content)]
    {
      windows[id] := windows[id].(content := Some(content), visible := true, focused := false, dragging := false);
    }

    method Push(id: int)
      requires Valid() && zCount < WM_MAX_WINDOWS
      modifies zOrder, this`zCount
      ensures Valid() && zOrder[..zCount] == old(zOrder[..zCount]) + [id]
    {
      zOrder[zCount] := id;
      zCount := zCount + 1;
    }

    /** The shifting loop of wm_destroy_window. */
    method Unlist(id: int)
      requires Valid()
      modifies zOrder, this`zCount
      ensures Valid() && zOrder[..zCount] == Without(old(zOrder[..zCount]), id)
    {
      hide Shifting, FirstAt, Without;
      ghost var z := zOrder[..zCount];
      ghost var p := FirstAt(z, id);
      var found := Shift(id, p);
      if found {
        ghost var shifted := zOrder[..zCount];
        ShiftEnds(z, p);
        zCount := zCount - 1;
        assert zOrder[..zCount] == shifted[..zCount];
      }
    }

    /** The loop, with p the place of id, or the length if it is not listed. */
    method Shift(id: int, ghost p: nat) returns (found: bool)
      requires Valid() && p == FirstAt(zOrder[..zCount], id)
      modifies zOrder
      ensures found <==> p < zCount
      ensures var z := old(zOrder[..zCount]); zOrder[..zCount] == if p < zCount then Shifting(z, p, zCount - 1) else z
    {
      hide Shifting, FirstAt, Without;
      ghost var z := zOrder[..zCount];
      if p < zCount { ShiftEnds(z, p); }
      found := false;
      for i := 0 to zCount
        invariant found <==> p < i
        invariant zOrder[..zCount] == if i <= p then z else Shifting(z, p, if i < zCount then i else zCount - 1)
      {
        ghost var before := zOrder[..zCount];
        assert before[i] == zOrder[i];
        if zOrder[i] == id {
          found := true;
        }
        if found && i + 1 < zCount {
          ShiftStep(z, p, i);
          assert before[i + 1] == zOrder[i + 1];
          zOrder[i] := zOrder[i + 1];
          assert zOrder[..zCount] == before[i := z[i + 1]];
        }
      }
    }

    method Hide(id: nat)
      requires Valid() && id < WM_MAX_WINDOWS
      modifies windows
      ensures windows[..] == old(windows[..])[id := Hidden(old(windows[id]))]
    {
      windows[id] := windows[id].(content := None);
      windows[id] := windows[id].(visible := false, focused := false);
    }

    /** wm_destroy_window */
    method DestroyWindow(id: int)
      requires Valid()
      modifies windows, zOrder, this`zCount
      ensures Valid() && Abs() == Destroy(old(Abs()), id)
    {
      hide Focus, Without;
      if id < 0 || id >= WM_MAX_WINDOWS || !windows[id].visible {
        return;
      }
      ghost var s := Abs();
      Hide(id);
      Unlist(id);
      ghost var s1 := Abs();
      assert s1 == State(s.windows[id := Hidden(s.windows[id])], Without(s.z, id), s.buttons);
      if zCount > 0 {
        FocusWindow(zOrder[zCount - 1]);
      }
    }

    // ---- the mouse ----

    method FindDragged() returns (id: int)
      requires Valid()
      ensures var slot := DragSlot(windows[..], 0); if slot.Some? then id == slot.value else id == -1
    {
      for i := 0 to WM_MAX_WINDOWS
        invariant DragSlot(windows[..], 0) == DragSlot(windows[..], i)
      {
        if windows[i].dragging {
          return i;
        }
      }
      return -1;
    }

    /** The walk along the taskbar buttons. */
    method FindButton(mx: int) returns (id: int)
      requires Valid() && IdsOk(windows[..], zOrder[..zCount])
      ensures var hit := ButtonAt(windows[..], zOrder[..zCount], START_BTN_W + 4, mx);
        if hit.Some? then id == hit.value else id == -1
    {
      hide ButtonWidth, ButtonAt;
      ghost var ws, z := windows[..], zOrder[..zCount];
      var bx := START_BTN_W + 4;
      assert z[0..] == z;
      for i := 0 to zCount
        invariant ButtonAt(ws, z, START_BTN_W + 4, mx) == ButtonAt(ws, z[i..], bx, mx)
      {
        ButtonStep(ws, z, i, bx, mx);
        var win := windows[zOrder[i]];
        if win.visible {
          var bw := ButtonWidth(win);
          if mx >= bx && mx < bx + bw {
            return zOrder[i];
          }
          bx := bx + bw + 4;
        }
      }
      ButtonStep(ws, z, zCount, bx, mx);
      return -1;
    }

    /** The hit test, from the front to the back. */
    method FindHit(mx: int, my: int) returns (id: int)
      requires Valid() && IdsOk(windows[..], zOrder[..zCount])
      ensures var hit := TopAt(windows[..], zOrder[..zCount], mx, my);
        if hit.Some? then id == hit.value else id == -1
    {
      ghost var ws, z := windows[..], zOrder[..zCount];
      var i := zCount - 1;
      assert z[..zCount] == z;
      while i >= 0
        invariant -1 <= i < zCount
        invariant TopAt(ws, z, mx, my) == TopAt(ws, z[..i + 1], mx, my)
      {
        assert z[..i + 1][..i] == z[..i];
        var win := windows[zOrder[i]];
        if win.visible && !(mx < win.x || mx >= win.x + win.w || my < win.y || my >= win.y + win.h) {
          return zOrder[i];
        }
        i := i - 1;
      }
      return -1;
    }

    /** What follows a hit. */
    method Click(id: int, mx: int, my: int) returns (r: int)
      requires Valid() && Listed(Abs(), id)
      modifies windows, zOrder
      ensures (Abs(), r) == ClickOn(old(Abs()), id, mx, my)
    {
      FocusMoves(Abs(), id);
      hide Focus;
      FocusWindow(id);
      var win := windows[id];
      var cx := win.x + win.w - CLOSE_BTN_W - 2;
      var cy := win.y + 2;
      if mx >= cx && mx < cx + CLOSE_BTN_W && my >= cy && my < cy + TITLEBAR_H - 4 {
        return -(id + 100);
      }
      if my < win.y + TITLEBAR_H + 1 {
        windows[id] := windows[id].(dragging := true, dragX := mx - win.x, dragY := my - win.y);
        return -1;
      }
      return id;
    }

    /** wm_handle_mouse */
    method HandleMouse(mx: int, my: int, buttons: int) returns (r: int)
      requires Valid() && Inv(Abs())
      modifies windows, zOrder, this`prevButtons
      ensures Valid() && Inv(Abs()) && IdsOk(old(windows[..]), old(zOrder[..zCount]))
      ensures (Abs(), r) == Mouse(old(Abs()), mx, my, buttons)
    {
      MouseKeeps(Abs(), mx, my, buttons);
      IdsInOrder(Abs());
      hide Inv, Focus, ClickOn, ButtonAt, TopAt, DragSlot, AllOk;
      var clicked := Left(buttons) && !Left(prevButtons);
      var released := !Left(buttons) && Left(prevButtons);
      prevButtons := buttons;
      var drag := FindDragged();
      if drag >= 0 {
        Follow(drag, released, mx, my);
        return -1;
      }
      if !clicked {
        return -1;
      }
      if my >= FB_HEIGHT - TASKBAR_H {
        if mx < START_BTN_W {
          return -2;
        }
        var button := FindButton(mx);
        if button >= 0 {
          FocusWindow(button);
        }
        return -1;
      }
      var hit := FindHit(mx, my);
      if hit >= 0 {
        r := Click(hit, mx, my);
        return;
      }
      return -1;
    }

    /** The body of the drag loop. */
    method Follow(id: nat, released: bool, mx: int, my: int)
      requires Valid() && id < WM_MAX_WINDOWS
      modifies windows
      ensures windows[..] ==
              var win := old(windows[id]);
              old(windows[..])[id := if released then win.(dragging := false) else Dragged(win, mx, my)]
    {
      if released {
        windows[id] := windows[id].(dragging := false);
      } else {
        windows[id] := windows[id].(x := mx - windows[id].dragX, y := my - windows[id].dragY);
        if windows[id].y < 0 {
          windows[id] := windows[id].(y := 0);
        }
        if windows[id].y > FB_HEIGHT - TASKBAR_H - TITLEBAR_H {
          windows[id] := windows[id].(y := FB_HEIGHT - TASKBAR_H - TITLEBAR_H);
        }
      }
    }
  }

  lemma Overwrite<T>(xs: seq<T>, i: nat, x: T, y: T)
    requires i < |xs|
    ensures xs[i := x][i := y] == xs[i := y]
  {
  }

  /** Where the first id stands, or the length. */
  ghost function FirstAt(z: seq<int>, id: int): (p: nat)
    ensures p <= |z| && (p < |z| ==> z[p] == id) && forall k :: 0 <= k < p ==> z[k] != id
    ensures Without(z, id) == if p < |z| then z[..p] + z[p + 1..] else z
  {
    if id in z then IndexOf(z, id) else |z|
  }

  /** z while the elements behind p move down by one, up to place i. */
  ghost function Shifting(z: seq<int>, p: nat, i: nat): (r: seq<int>)
    requires p <= i < |z|
    ensures |r| == |z|
  {
    z[..p] + z[p + 1..i + 1] + z[i..]
  }

  lemma ShiftEnds(z: seq<int>, p: nat)
    requires p < |z|
    ensures Shifting(z, p, p) == z
    ensures Shifting(z, p, |z| - 1)[..|z| - 1] == z[..p] + z[p + 1..]
    ensures Shifting(z, p, |z| - 1)[|z| - 1 := z[p]] == z[..p] + z[p + 1..] + [z[p]]
  {
  }

  lemma ShiftStep(z: seq<int>, p: nat, i: nat)
    requires p <= i < |z| - 1
    ensures Shifting(z, p, i)[i] == z[i] && Shifting(z, p, i)[i + 1] == z[i + 1]
    ensures Shifting(z, p, i)[i := z[i + 1]] == Shifting(z, p, i + 1)
  {
  }

  lemma ButtonStep(ws: seq<Window>, z: seq<int>, i: nat, bx: int, mx: int)
    requires IdsOk(ws, z) && i <= |z|
    ensures ButtonAt(ws, z[i..], bx, mx) ==
            if i == |z| then None
            else if !ws[z[i]].visible then ButtonAt(ws, z[i + 1..], bx, mx)
            else if bx <= mx < bx + ButtonWidth(ws[z[i]]) then Some(z[i])
            else ButtonAt(ws, z[i + 1..], bx + ButtonWidth(ws[z[i]]) + 4, mx)
  {
    hide ButtonWidth;
    if i < |z| { assert z[i..][0] == z[i] && z[i..][1..] == z[i + 1..]; }
  }

  lemma FirstIndex(z: seq<int>, id: int, k: nat)
    requires k < |z| && z[k] == id && forall j :: 0 <= j < k ==> z[j] != id
    ensures IndexOf(z, id) == k
  {
    hide IndexOf;
  }

  lemma AtIndex(z: seq<int>, id: int, p: nat)
    requires id in z && p == IndexOf(z, id)
    ensures p < |z| && z[p] == id
    ensures Without(z, id) == z[..p] + z[p + 1..]
    ensures p == |z| - 1 ==> Without(z, id) + [id] == z
  {
    hide IndexOf;
  }
}

/** Windows and their z-order (kernel/wm.c): creation, destruction, focus and mouse input as transitions
    of a state, with the invariant that every run keeps. */
module WindowManager {
  import opened Common
  import opened Gpu

  const WM_MAX_WINDOWS: nat := 8
  const TITLEBAR_H: int := 20
  const TASKBAR_H: int := 24
  const CLOSE_BTN_W: int := 16
  const START_BTN_W: int := 60
  const FB_WIDTH: nat := 640
  const FB_HEIGHT: nat := 480
  const TITLE_MAX: nat := 31

  /** struct wm_window; content is None where the source holds a null pointer. */
  datatype Window = Window(x: int, y: int, w: int, h: int, title: string, content: Option<seq<nat>>,
                           contentW: int, contentH: int, visible: bool, focused: bool,
                           dragging: bool, dragX: int, dragY: int)

  /** z lists windows from back to front. */
  datatype State = State(windows: seq<Window>, z: seq<int>, buttons: int)

  function PixelCount(w: int, h: int): (n: nat) { if w > 0 && h > 0 then w * h else 0 }

  ghost predicate WindowOk(win: Window) {
    && (win.content.Some? <==> win.visible)
    && (win.visible ==>
         && |win.content.value| == PixelCount(win.contentW, win.contentH)
         && win.w == win.contentW + 2 && win.h == win.contentH + TITLEBAR_H + 2)
  }

  predicate Listed(s: State, id: int) {
    0 <= id < |s.windows| && s.windows[id].visible
  }

  /** The z-order lists the visible windows, each once. */
  ghost predicate Ordered(s: State) {
    && NoDup(s.z)
    && (forall i :: 0 <= i < |s.z| ==> Listed(s, s.z[i]))
    && (forall id :: Listed(s, id) ==> id in s.z)
  }

  predicate OnTop(s: State, id: int) { s.z != [] && id == s.z[|s.z| - 1] }

  /** The focused window is the topmost one. */
  ghost predicate FocusOk(s: State) {
    forall id :: 0 <= id < |s.windows| ==> (s.windows[id].focused <==> OnTop(s, id))
  }

  ghost predicate OneDrag(s: State) {
    forall i, j ::
      0 <= i < |s.windows| && 0 <= j < |s.windows| && s.windows[i].dragging && s.windows[j].dragging ==> i == j
  }

  ghost predicate AllOk(ws: seq<Window>) { forall i :: 0 <= i < |ws| ==> WindowOk(ws[i]) }

  ghost predicate Inv(s: State) {
    |s.windows| == WM_MAX_WINDOWS && AllOk(s.windows) && Ordered(s) && FocusOk(s) && OneDrag(s)
  }

  // ---- the z-order as a list ----

  function IndexOf(z: seq<int>, id: int): (k: nat)
    requires id in z
    ensures k < |z| && z[k] == id && forall j :: 0 <= j < k ==> z[j] != id
  {
    if z[0] == id then 0
    else
      var k := IndexOf(z[1..], id);
      assert forall j :: 1 <= j <= k ==> z[j] == z[1..][j - 1];
      k + 1
  }

  function Without(z: seq<int>, id: int): (r: seq<int>) {
    if id in z then z[..IndexOf(z, id)] + z[IndexOf(z, id) + 1..] else z
  }

  /** A duplicate-free sequence without one element. */
  lemma WithoutIs(z: seq<int>, id: int)
    requires NoDup(z)
    ensures NoDup(Without(z, id)) && id !in Without(z, id)
    ensures forall x :: x != id ==> (x in z <==> x in Without(z, id))
    ensures |Without(z, id)| == |z| - if id in z then 1 else 0
  {
    hide IndexOf;
    if id in z { CutOut(z, IndexOf(z, id)); }
  }

  lemma CutOut(z: seq<int>, k: nat)
    requires NoDup(z) && k < |z|
    ensures var r := z[..k] + z[k + 1..];
            NoDup(r) && z[k] !in r && forall x :: x != z[k] ==> (x in z <==> x in r)
  {
    var r := z[..k] + z[k + 1..];
    forall i | 0 <= i < |r| ensures r[i] == z[if i < k then i else i + 1] {
    }
    forall x | x != z[k] && x in z ensures x in r {
      var i :| 0 <= i < |z| && z[i] == x;
      assert r[if i < k then i else i - 1] == x;
    }
  }

  // ---- operations ----

  /** wm_focus_window */
  function Focus(s: State, id: int): State {
    if !Listed(s, id) then s
    else
      s.(windows := seq(|s.windows|, i requires 0 <= i < |s.windows| => s.windows[i].(focused := i == id)),
         z := if id in s.z then Without(s.z, id) + [id] else s.z)
  }

  /** The first slot from i on that is not visible. */
  function FreeSlot(ws: seq<Window>, i: nat): (r: Option<nat>)
    requires i <= |ws|
    ensures r.Some? ==> i <= r.value < |ws| && !ws[r.value].visible && forall j :: i <= j < r.value ==> ws[j].visible
    ensures r.None? ==> forall j :: i <= j < |ws| ==> ws[j].visible
    decreases |ws| - i
  {
    if i == |ws| then None else if !ws[i].visible then Some(i) else FreeSlot(ws, i + 1)
  }

  function Shortened(title: string): string {
    if |title| <= TITLE_MAX then title else title[..TITLE_MAX]
  }

  /** The fields written before the content buffer is allocated. */
  function Shaped(win: Window, title: string, x: int, y: int, w: int, h: int): Window {
    win.(title := Shortened(title), x := x, y := y, contentW := w, contentH := h,
         w := w + 2, h := h + TITLEBAR_H + 2)
  }

  function Blank(n: nat): (c: seq<nat>)
    ensures |c| == n
  {
    seq(n, i => 0)
  }

  /** A window that is put on the screen. */
  function Shown(win: Window, content: seq<nat>): Window {
    win.(content := Some(content), visible := true, focused := false, dragging := false)
  }

  function Hidden(win: Window): Window {
    win.(content := None, visible := false, focused := false)
  }

  /** wm_create_window; room tells whether pages_alloc succeeded for the content. */
  function Create(s: State, title: string, x: int, y: int, w: int, h: int, room: bool): (r: (State, int)) {
    match FreeSlot(s.windows, 0)
    case None => (s, -1)
    case Some(id) =>
      var win := Shaped(s.windows[id], title, x, y, w, h);
      if !room then (s.(windows := s.windows[id := win.(content := None)]), -1)
      else
        var shown := Shown(win, Blank(PixelCount(w, h)));
        (Focus(s.(windows := s.windows[id := shown], z := s.z + [id]), id), id as int)
  }

  /** wm_destroy_window */
  function Destroy(s: State, id: int): State {
    if !Listed(s, id) then s
    else
      var win := Hidden(s.windows[id]);
      var s' := s.(windows := s.windows[id := win], z := Without(s.z, id));
      if s'.z == [] then s' else Focus(s', s'.z[|s'.z| - 1])
  }

  predicate Contains(win: Window, mx: int, my: int) {
    win.x <= mx < win.x + win.w && win.y <= my < win.y + win.h
  }

  /** The first window under the point, from the front to the back of z. */
  function TopAt(ws: seq<Window>, z: seq<int>, mx: int, my: int): (r: Option<int>)
    requires forall i :: 0 <= i < |z| ==> 0 <= z[i] < |ws|
    ensures r.Some? ==>
              exists i :: 0 <= i < |z| && z[i] == r.value && ws[r.value].visible && Contains(ws[r.value], mx, my) &&
                forall j :: i < j < |z| ==> !(ws[z[j]].visible && Contains(ws[z[j]], mx, my))
    ensures r.None? ==> forall j :: 0 <= j < |z| ==> !(ws[z[j]].visible && Contains(ws[z[j]], mx, my))
  {
    if z == [] then None
    else
      var id := z[|z| - 1];
      if ws[id].visible && Contains(ws[id], mx, my) then Some(id) else TopAt(ws, z[..|z| - 1], mx, my)
  }

  function ButtonWidth(win: Window): int { (|win.title| + 2) * FONT_WIDTH + 8 }

  /** The window whose taskbar button is under column mx, the buttons starting at bx. */
  function ButtonAt(ws: seq<Window>, z: seq<int>, bx: int, mx: int): (r: Option<int>)
    requires forall i :: 0 <= i < |z| ==> 0 <= z[i] < |ws|
    ensures r.Some? ==> r.value in z && ws[r.value].visible
  {
    if z == [] then None
    else if !ws[z[0]].visible then ButtonAt(ws, z[1..], bx, mx)
    else if bx <= mx < bx + ButtonWidth(ws[z[0]]) then Some(z[0])
    else ButtonAt(ws, z[1..], bx + ButtonWidth(ws[z[0]]) + 4, mx)
  }

  /** The first window from i on that is being dragged. */
  function DragSlot(ws: seq<Window>, i: nat): (r: Option<nat>)
    requires i <= |ws|
    ensures r.Some? ==> i <= r.value < |ws| && ws[r.value].dragging && forall j :: i <= j < r.value ==> !ws[j].dragging
    ensures r.None? ==> forall j :: i <= j < |ws| ==> !ws[j].dragging
    decreases |ws| - i
  {
    if i == |ws| then None else if ws[i].dragging then Some(i) else DragSlot(ws, i + 1)
  }

  /** buttons & MOUSE_BTN_LEFT */
  predicate Left(buttons: int) { buttons % 2 == 1 }

  /** A dragged window follows the mouse, its title bar kept between the top edge and the taskbar. */
  function Dragged(win: Window, mx: int, my: int): Window {
    var y := my - win.dragY;
    var low := FB_HEIGHT - TASKBAR_H - TITLEBAR_H;
    win.(x := mx - win.dragX, y := if y < 0 then 0 else if y > low then low else y)
  }

  predicate OnClose(win: Window, mx: int, my: int) {
    var cx, cy := win.x + win.w - CLOSE_BTN_W - 2, win.y + 2;
    cx <= mx < cx + CLOSE_BTN_W && cy <= my < cy + TITLEBAR_H - 4
  }

  /** A click on window id. */
  function ClickOn(s: State, id: int, mx: int, my: int): (State, int)
    requires Listed(s, id)
  {
    var s' := Focus(s, id);
    var win := s.windows[id];
    if OnClose(win, mx, my) then (s', -(id + 100))
    else if my < win.y + TITLEBAR_H + 1 then
      var held := s'.windows[id].(dragging := true, dragX := mx - win.x, dragY := my - win.y);
      (s'.(windows := s'.windows[id := held]), -1)
    else (s', id)
  }

  /** wm_handle_mouse */
  function Mouse(s: State, mx: int, my: int, buttons: int): (State, int)
    requires forall i :: 0 <= i < |s.z| ==> 0 <= s.z[i] < |s.windows|
  {
    var clicked, released := Left(buttons) && !Left(s.buttons), !Left(buttons) && Left(s.buttons);
    var s1 := s.(buttons := buttons);
    var drag := DragSlot(s.windows, 0);
    if drag.Some? then
      var win := s.windows[drag.value];
      (s1.(windows := s.windows[drag.value := if released then win.(dragging := false) else Dragged(win, mx, my)]), -1)
    else if !clicked then (s1, -1)
    else if my >= FB_HEIGHT - TASKBAR_H then
      if mx < START_BTN_W then (s1, -2)
      else
        var hit := ButtonAt(s.windows, s.z, START_BTN_W + 4, mx);
        (if hit.Some? then Focus(s1, hit.value) else s1, -1)
    else
      var hit := TopAt(s.windows, s.z, mx, my);
      if hit.Some? then ClickOn(s1, hit.value, mx, my) else (s1, -1)
  }

  // ---- the invariant ----

  /** When a slot is free, z_order has room for one more window. */
  lemma RoomInOrder(s: State, id: nat)
    requires Inv(s) && id < WM_MAX_WINDOWS && !s.windows[id].visible
    ensures |s.z| < WM_MAX_WINDOWS && id !in s.z
  {
    hide AllOk, FocusOk, OneDrag;
    OrderedIds(s);
    assert id !in s.z;
    Pigeonhole(s.z + [id], WM_MAX_WINDOWS);
  }

  lemma OrderedIds(s: State)
    requires Ordered(s)
    ensures forall i :: 0 <= i < |s.z| ==> 0 <= s.z[i] < |s.windows| && s.windows[s.z[i]].visible
    ensures forall id :: 0 <= id < |s.windows| && s.windows[id].visible ==> id in s.z
  {
    forall id | 0 <= id < |s.windows| && s.windows[id].visible ensures id in s.z { assert Listed(s, id); }
    forall i | 0 <= i < |s.z| ensures 0 <= s.z[i] < |s.windows| && s.windows[s.z[i]].visible {
      assert Listed(s, s.z[i]);
    }
  }

  /** Everything but the focus is in order. */
  ghost predicate Unfocused(s: State) {
    |s.windows| == WM_MAX_WINDOWS && AllOk(s.windows) && Ordered(s) && OneDrag(s)
  }

  lemma FocusKeeps(s: State, id: int)
    requires Unfocused(s) && Listed(s, id)
    ensures Inv(Focus(s, id)) && OnTop(Focus(s, id), id)
    ensures Focus(s, id).z == Without(s.z, id) + [id] && Without(Focus(s, id).z, id) == Without(s.z, id)
  {
    hide Without, Ordered, AllOk, FocusOk, OneDrag, Focus;
    FocusMoves(s, id);
    FocusOrder(s, id);
    FocusOrdered(s, id);
    FocusWindows(s, Focus(s, id), id);
  }

  /** The focused window goes to the end of the order; the others keep theirs. */
  lemma FocusOrder(s: State, id: int)
    requires Ordered(s) && Listed(s, id)
    ensures Focus(s, id).z == Without(s.z, id) + [id] && Without(Focus(s, id).z, id) == Without(s.z, id)
    ensures OnTop(Focus(s, id), id)
  {
    hide Without;
    FocusMember(s, id);
    RaisedTail(s.z, id);
  }

  lemma FocusWindows(s: State, s': State, id: int)
    requires |s'.windows| == |s.windows| && OnTop(s', id)
    requires forall k :: 0 <= k < |s.windows| ==> s'.windows[k] == s.windows[k].(focused := k == id)
    ensures FocusOk(s') && (AllOk(s.windows) ==> AllOk(s'.windows)) && (OneDrag(s) ==> OneDrag(s'))
  {
  }

  lemma FocusMember(s: State, id: int)
    requires Ordered(s) && Listed(s, id)
    ensures id in s.z
  {
  }

  lemma RaisedTail(z: seq<int>, id: int)
    requires NoDup(z)
    ensures Without(Without(z, id) + [id], id) == Without(z, id)
  {
    hide Without;
    WithoutIs(z, id);
    AtEnd(Without(z, id), id);
  }

  lemma AtEnd(r: seq<int>, id: int)
    requires id !in r
    ensures Without(r + [id], id) == r
  {
    var z := r + [id];
    assert z[|r|] == id;
    assert forall j :: 0 <= j < |r| ==> z[j] == r[j] && r[j] != id;
    assert IndexOf(z, id) == |r|;
  }

  lemma FocusOrdered(s: State, id: int)
    requires Ordered(s) && Listed(s, id)
    ensures Ordered(Focus(s, id))
  {
    hide Without, Focus, OnTop;
    OrderedIds(s);
    FocusMember(s, id);
    FocusMoves(s, id);
    FocusOrder(s, id);
    WithoutIs(s.z, id);
    SameMembers(s, Focus(s, id));
  }

  /** The order stays right when the same windows are listed and shown. */
  lemma SameMembers(s: State, s': State)
    requires Ordered(s) && |s'.windows| == |s.windows| && (NoDup(s.z) ==> NoDup(s'.z))
    requires forall k :: 0 <= k < |s.windows| ==> s'.windows[k].visible == s.windows[k].visible
    requires forall x :: x in s'.z <==> x in s.z
    ensures Ordered(s')
  {
    OrderedIds(s);
    forall i | 0 <= i < |s'.z| ensures Listed(s', s'.z[i]) { assert s'.z[i] in s'.z; }
  }

  lemma CreateKeeps(s: State, title: string, x: int, y: int, w: int, h: int, room: bool)
    requires Inv(s)
    ensures var (s', id) := Create(s, title, x, y, w, h, room);
      Inv(s') && (id == -1 <==> (forall i :: 0 <= i < WM_MAX_WINDOWS ==> s.windows[i].visible) || !room)
      && (id != -1 ==> 0 <= id < WM_MAX_WINDOWS && !s.windows[id].visible && s'.z == s.z + [id] && OnTop(s', id))
  {
    hide Focus, PixelCount, Blank, Shortened, Without, Ordered, AllOk, FocusOk, OneDrag;
    match FreeSlot(s.windows, 0)
    case None =>
    case Some(id) =>
      var win := Shaped(s.windows[id], title, x, y, w, h);
      RoomInOrder(s, id);
      if !room {
        SlotKeeps(s, id, win.(content := None));
      } else {
        var shown := Shown(win, Blank(PixelCount(w, h)));
        ShowKeeps(s, id, shown);
        var s1 := s.(windows := s.windows[id := shown], z := s.z + [id]);
        FocusKeeps(s1, id);
        FocusLast(s1, id);
      }
  }

  lemma FocusLast(s: State, id: int)
    requires Ordered(s) && Listed(s, id) && OnTop(s, id)
    ensures Focus(s, id).z == s.z
  {
    hide Without;
    FocusOrder(s, id);
    var r := s.z[..|s.z| - 1];
    assert s.z == r + [id];
    AtEnd(r, id);
  }

  /** Rewriting a hidden slot changes nothing that the invariant sees. */
  lemma SlotKeeps(s: State, id: nat, win: Window)
    requires Inv(s) && id < WM_MAX_WINDOWS && !s.windows[id].visible
    requires WindowOk(win) && !win.visible
    requires win.focused == s.windows[id].focused && (win.dragging ==> s.windows[id].dragging)
    ensures Inv(s.(windows := s.windows[id := win]))
  {
    hide WindowOk, Ordered;
    SameMembers(s, s.(windows := s.windows[id := win]));
  }

  lemma ShowKeeps(s: State, id: nat, win: Window)
    requires Inv(s) && id < WM_MAX_WINDOWS && !s.windows[id].visible && id !in s.z
    requires WindowOk(win) && win.visible && !win.dragging
    ensures Unfocused(s.(windows := s.windows[id := win], z := s.z + [id]))
  {
    hide WindowOk, FocusOk;
    OrderedIds(s);
    var s' := s.(windows := s.windows[id := win], z := s.z + [id]);
    forall i | 0 <= i < |s'.z| ensures Listed(s', s'.z[i]) {
    }
  }

  lemma DestroyKeeps(s: State, id: int)
    requires Inv(s)
    ensures Inv(Destroy(s, id)) && Destroy(s, id).z == Without(s.z, id)
    ensures !Listed(Destroy(s, id), id)
  {
    hide WindowOk, Without, Focus, Ordered, AllOk, FocusOk, OneDrag;
    if !Listed(s, id) {
      NotListed(s, id);
    } else {
      var win := Hidden(s.windows[id]);
      var s1 := s.(windows := s.windows[id := win], z := Without(s.z, id));
      HideKeeps(s, id, win);
      if s1.z != [] {
        var top := s1.z[|s1.z| - 1];
        OrderedIds(s1);
        FocusKeeps(s1, top);
        FocusLast(s1, top);
        FocusShows(s1, top, id);
      }
    }
  }

  lemma NotListed(s: State, id: int)
    requires Ordered(s) && !Listed(s, id)
    ensures Without(s.z, id) == s.z
  {
    OrderedIds(s);
  }

  lemma FocusShows(s: State, id: int, k: int)
    ensures Listed(Focus(s, id), k) <==> Listed(s, k)
  {
  }

  lemma HideKeeps(s: State, id: int, win: Window)
    requires Inv(s) && Listed(s, id)
    requires win == Hidden(s.windows[id])
    ensures Unfocused(s.(windows := s.windows[id := win], z := Without(s.z, id)))
    ensures Without(s.z, id) == [] ==> FocusOk(s.(windows := s.windows[id := win], z := Without(s.z, id)))
  {
    hide Without, Ordered, FocusOk;
    HideOrdered(s, id, win);
    HideFocus(s, id, win);
  }

  lemma HideFocus(s: State, id: int, win: Window)
    requires Ordered(s) && FocusOk(s) && Listed(s, id) && !win.focused
    ensures Without(s.z, id) == [] ==> FocusOk(s.(windows := s.windows[id := win], z := Without(s.z, id)))
  {
    hide Without;
    WithoutIs(s.z, id);
    FocusMember(s, id);
    if Without(s.z, id) == [] {
      assert |s.z| == 1;
      assert OnTop(s, id);
    }
  }

  lemma HideOrdered(s: State, id: int, win: Window)
    requires Ordered(s) && Listed(s, id) && !win.visible
    ensures Ordered(s.(windows := s.windows[id := win], z := Without(s.z, id)))
  {
    hide Without;
    OrderedIds(s);
    WithoutIs(s.z, id);
    var s' := s.(windows := s.windows[id := win], z := Without(s.z, id));
    forall i | 0 <= i < |s'.z| ensures Listed(s', s'.z[i]) {
      assert s'.z[i] in s'.z;
    }
  }

  /** A change of position or drag state keeps the invariant as long as one window at most is dragged. */
  lemma MoveKeeps(s: State, id: nat, x: int, y: int, d: bool, dx: int, dy: int)
    requires Inv(s) && id < WM_MAX_WINDOWS
    requires d ==> forall j :: 0 <= j < WM_MAX_WINDOWS && s.windows[j].dragging ==> j == id
    ensures Inv(s.(windows := s.windows[id := s.windows[id].(x := x, y := y, dragging := d, dragX := dx, dragY := dy)]))
  {
    hide Ordered;
    var win := s.windows[id].(x := x, y := y, dragging := d, dragX := dx, dragY := dy);
    assert WindowOk(s.windows[id]);
    SameMembers(s, s.(windows := s.windows[id := win]));
  }

  lemma ClickKeeps(s: State, id: int, mx: int, my: int)
    requires Inv(s) && Listed(s, id) && forall j :: 0 <= j < WM_MAX_WINDOWS ==> !s.windows[j].dragging
    ensures Inv(ClickOn(s, id, mx, my).0) && ClickOn(s, id, mx, my).0.z == Focus(s, id).z
  {
    hide Focus, OnClose, Without, Ordered, AllOk, FocusOk, OneDrag;
    FocusKeeps(s, id);
    FocusMoves(s, id);
    var win := s.windows[id];
    MoveKeeps(Focus(s, id), id, win.x, win.y, true, mx - win.x, my - win.y);
  }

  lemma FocusMoves(s: State, id: int)
    requires Listed(s, id)
    ensures |Focus(s, id).windows| == |s.windows|
    ensures forall k :: 0 <= k < |s.windows| ==> Focus(s, id).windows[k] == s.windows[k].(focused := k == id)
  {
  }

  lemma ButtonsKeep(s: State, buttons: int)
    requires Inv(s)
    ensures Inv(s.(buttons := buttons))
  {
    hide WindowOk, Ordered;
    SameMembers(s, s.(buttons := buttons));
  }

  /** Mouse input keeps the invariant. */
  lemma MouseKeeps(s: State, mx: int, my: int, buttons: int)
    requires Inv(s)
    ensures Inv(Mouse(s, mx, my, buttons).0)
  {
    hide Inv, Focus, ClickOn, Dragged, ButtonAt, TopAt, DragSlot, Left;
    ButtonsKeep(s, buttons);
    InvIds(s);
    var s1 := s.(buttons := buttons);
    var drag := DragSlot(s.windows, 0);
    if drag.Some? {
      DragKeeps(s1, drag.value, mx, my);
    } else if my >= FB_HEIGHT - TASKBAR_H {
      var hit := ButtonAt(s.windows, s.z, START_BTN_W + 4, mx);
      if hit.Some? { FocusInv(s1, hit.value); }
    } else {
      var hit := TopAt(s.windows, s.z, mx, my);
      if hit.Some? { ClickKeeps(s1, hit.value, mx, my); }
    }
  }

  lemma FocusInv(s: State, id: int)
    requires Inv(s)
    ensures Inv(Focus(s, id))
  {
    hide Without, Ordered, AllOk, FocusOk, OneDrag;
    if Listed(s, id) { FocusKeeps(s, id); }
  }

  lemma InvIds(s: State)
    requires Inv(s)
    ensures |s.windows| == WM_MAX_WINDOWS && AllOk(s.windows)
    ensures forall i :: 0 <= i < |s.z| ==> 0 <= s.z[i] < |s.windows|
  {
    hide FocusOk, OneDrag, WindowOk;
    OrderedIds(s);
  }

  /** While it is dragged a window's title bar stays between the top edge and the taskbar. */
  lemma DragKeeps(s: State, id: nat, mx: int, my: int)
    requires Inv(s) && id < WM_MAX_WINDOWS && s.windows[id].dragging
    ensures Inv(s.(windows := s.windows[id := Dragged(s.windows[id], mx, my)]))
    ensures Inv(s.(windows := s.windows[id := s.windows[id].(dragging := false)]))
    ensures 0 <= Dragged(s.windows[id], mx, my).y <= FB_HEIGHT - TASKBAR_H - TITLEBAR_H
  {
    hide Ordered, AllOk, FocusOk;
    var win := s.windows[id];
    var win' := Dragged(win, mx, my);
    MoveKeeps(s, id, win'.x, win'.y, true, win.dragX, win.dragY);
    MoveKeeps(s, id, win.x, win.y, false, win.dragX, win.dragY);
  }

  // ---- runs ----

  /** wm_init, on memory that starts as zero. */
  function Initial(): State {
    State(seq(WM_MAX_WINDOWS, i => Window(0, 0, 0, 0, "", None, 0, 0, false, false, false, 0, 0)), [], 0)
  }

  /** Calls into the window manager, and an application drawing into its content buffer. */
  datatype Event =
    | Creates(title: string, x: int, y: int, w: int, h: int, room: bool)
    | Destroys(id: int)
    | Focuses(id: int)
    | Mouses(mx: int, my: int, buttons: int)
    | Draws(id: int, content: seq<nat>)

  function Paint(s: State, id: int, content: seq<nat>): State {
    if Listed(s, id) && |content| == PixelCount(s.windows[id].contentW, s.windows[id].contentH) then
      s.(windows := s.windows[id := s.windows[id].(content := Some(content))])
    else s
  }

  ghost function Step(s: State, e: Event): State
    requires Inv(s)
  {
    match e
    case Creates(title, x, y, w, h, room) => Create(s, title, x, y, w, h, room).0
    case Destroys(id) => Destroy(s, id)
    case Focuses(id) => Focus(s, id)
    case Mouses(mx, my, buttons) => Mouse(s, mx, my, buttons).0
    case Draws(id, content) => Paint(s, id, content)
  }

  lemma PaintKeeps(s: State, id: int, content: seq<nat>)
    requires Inv(s)
    ensures Inv(Paint(s, id, content))
  {
    hide PixelCount, Ordered;
    SameMembers(s, Paint(s, id, content));
  }

  lemma StepKeeps(s: State, e: Event)
    requires Inv(s)
    ensures Inv(Step(s, e))
  {
    hide Inv, Create, Destroy, Focus, Mouse, Paint;
    match e
    case Creates(title, x, y, w, h, room) =>
      CreateKeeps(s, title, x, y, w, h, room);
    case Destroys(id) =>
      DestroyKeeps(s, id);
    case Focuses(id) =>
      FocusInv(s, id);
    case Mouses(mx, my, buttons) =>
      MouseKeeps(s, mx, my, buttons);
    case Draws(id, content) =>
      PaintKeeps(s, id, content);
  }

  /** The state after a run of calls; the invariant holds throughout. */
  ghost function Run(s: State, es: seq<Event>): (s': State)
    requires Inv(s)
    ensures Inv(s')
    decreases |es|
  {
    if es == [] then s
    else
      StepKeeps(s, es[0]);
      Run(Step(s, es[0]), es[1..])
  }

  lemma InitialInv()
    ensures Inv(Initial())
  {
  }
}

/** Drawing into a render target (kernel/gpu.c): nested loops that write pixels of a flat buffer and clip
    against its edges, and the pictures they make. */
module Gpu {
  import opened Bits

  const FONT_WIDTH: nat := 8
  const FONT_HEIGHT: nat := 16

  /** What a drawing call puts on an unbounded plane. */
  datatype Op =
    | Fill(x: int, y: int, w: int, h: int, color: nat)
    | Char(x: int, y: int, glyph: seq<nat>, fg: nat, bg: nat)
    | Blit(x: int, y: int, src: seq<nat>, w: int, h: int, stride: int)

  function Offset(stride: int, j: int, i: int): int { j * stride + i }

  ghost predicate OpOk(op: Op) {
    match op
    case Fill(_, _, _, _, _) => true
    case Char(_, _, glyph, _, _) => |glyph| == FONT_HEIGHT
    case Blit(_, _, src, w, h, stride) =>
      forall j, i :: 0 <= j < h && 0 <= i < w ==> 0 <= Offset(stride, j, i) < |src|
  }

  function Width(op: Op): int { if op.Char? then FONT_WIDTH else op.w }
  function Height(op: Op): int { if op.Char? then FONT_HEIGHT else op.h }

  predicate Covers(op: Op, px: int, py: int) {
    op.x <= px < op.x + Width(op) && op.y <= py < op.y + Height(op)
  }

  /** Bit col of a glyph row, counted from the left. */
  predicate Ink(bits: nat, col: nat) { And(bits, Shr(0x80, col)) != 0 }

  ghost function ColorAt(op: Op, px: int, py: int): nat
    requires OpOk(op) && Covers(op, px, py)
  {
    match op
    case Fill(_, _, _, _, color) => color
    case Char(x, y, glyph, fg, bg) => if Ink(glyph[py - y], px - x) then fg else bg
    case Blit(x, y, src, _, _, stride) => src[Offset(stride, py - y, px - x)]
  }

  ghost function Over(op: Op, px: int, py: int, below: nat): nat
    requires OpOk(op)
  {
    if Covers(op, px, py) then ColorAt(op, px, py) else below
  }

  /** The mask 0x80 >> col picks the bits of a glyph row from the highest down. */
  lemma InkIs(bits: nat, col: nat)
    requires col < FONT_WIDTH
    ensures Ink(bits, col) <==> Bit(bits, 7 - col)
  {
    hide And, Shr, Bit, Pow2;
    Pow2Values();
    ShrPow2(7, col);
    AndPow2(bits, 7 - col);
    Pow2Step(8);
  }

  /** A character shows its glyph, the highest bit of each row leftmost, in its box and nowhere else; a blit
      shows the source picture. */
  lemma PixelOf(op: Op, i: int, j: int, below: nat)
    requires OpOk(op) && !op.Fill?
    ensures Over(op, op.x + i, op.y + j, below) ==
            if op.Char? && 0 <= i < 8 && 0 <= j < 16 then (if Bit(op.glyph[j], 7 - i) then op.fg else op.bg)
            else if op.Blit? && 0 <= i < op.w && 0 <= j < op.h then op.src[Offset(op.stride, j, i)]
            else below
  {
    hide Bit, Ink;
    if op.Char? && 0 <= i < 8 && 0 <= j < 16 { InkIs(op.glyph[j], i); }
  }

  ghost predicate OpsOk(ops: seq<Op>) { forall i :: 0 <= i < |ops| ==> OpOk(ops[i]) }

  /** The pixel at (px, py) after the calls ops. */
  ghost function Render(ops: seq<Op>, px: int, py: int, below: nat): nat
    requires OpsOk(ops)
  {
    if ops == [] then below
    else Over(ops[|ops| - 1], px, py, Render(ops[..|ops| - 1], px, py, below))
  }

  ghost predicate Painted(ops: seq<Op>, px: int, py: int) {
    exists i :: 0 <= i < |ops| && Covers(ops[i], px, py)
  }

  lemma {:induction false} RenderConcat(a: seq<Op>, b: seq<Op>, px: int, py: int, below: nat)
    requires OpsOk(a) && OpsOk(b)
    ensures OpsOk(a + b)
    ensures Render(a + b, px, py, below) == Render(b, px, py, Render(a, px, py, below))
  {
    hide OpOk, Over;
    if b == [] {
      assert a + b == a;
    } else {
      var b1 := b[..|b| - 1];
      assert (a + b)[..|a + b| - 1] == a + b1;
      RenderConcat(a, b1, px, py, below);
    }
  }

  /** Where nothing was painted the pixel stays; where something was, it does not matter what was below. */
  lemma {:induction false} RenderBelow(ops: seq<Op>, px: int, py: int, u: nat, v: nat)
    requires OpsOk(ops)
    ensures !Painted(ops, px, py) ==> Render(ops, px, py, u) == u
    ensures Painted(ops, px, py) ==> Render(ops, px, py, u) == Render(ops, px, py, v)
  {
    hide OpOk, Covers, ColorAt;
    if ops != [] {
      var ops1 := ops[..|ops| - 1];
      RenderBelow(ops1, px, py, u, v);
      if Painted(ops, px, py) && !Covers(ops[|ops| - 1], px, py) {
        var i :| 0 <= i < |ops| && Covers(ops[i], px, py);
        assert Covers(ops1[i], px, py);
      }
      if Painted(ops1, px, py) {
        var i :| 0 <= i < |ops1| && Covers(ops1[i], px, py);
        assert Covers(ops[i], px, py);
      }
    }
  }

  /** Calls that do not paint the pixel leave it. */
  lemma Unpainted(a: seq<Op>, b: seq<Op>, px: int, py: int, u: nat)
    requires OpsOk(a) && OpsOk(b) && !Painted(b, px, py)
    ensures OpsOk(a + b) && Render(a + b, px, py, u) == Render(a, px, py, u)
  {
    hide OpOk, Painted, Render;
    RenderConcat(a, b, px, py, u);
    RenderBelow(b, px, py, Render(a, px, py, u), u);
  }

  // ---- pictures ----

  /** Column and row of element k of a buffer with rows of w pixels. */
  function X(w: nat, k: nat): nat { if w == 0 then 0 else k % w }
  function Y(w: nat, k: nat): nat { if w == 0 then 0 else k / w }

  /** The buffer s after the call op. */
  ghost function Draw(s: seq<nat>, w: nat, op: Op): (r: seq<nat>)
    requires OpOk(op)
    ensures |r| == |s| && forall k :: 0 <= k < |s| ==> r[k] == Over(op, X(w, k), Y(w, k), s[k])
  {
    seq(|s|, k requires 0 <= k < |s| => Over(op, X(w, k), Y(w, k), s[k]))
  }

  ghost function DrawAll(s: seq<nat>, w: nat, ops: seq<Op>): (r: seq<nat>)
    requires OpsOk(ops)
    ensures |r| == |s|
  {
    if ops == [] then s else Draw(DrawAll(s, w, ops[..|ops| - 1]), w, ops[|ops| - 1])
  }

  lemma {:induction false} DrawAllPixel(s: seq<nat>, w: nat, ops: seq<Op>, k: nat)
    requires OpsOk(ops) && k < |s|
    ensures DrawAll(s, w, ops)[k] == Render(ops, X(w, k), Y(w, k), s[k])
  {
    hide OpOk, Over, X, Y;
    if ops != [] { DrawAllPixel(s, w, ops[..|ops| - 1], k); }
  }

  lemma {:induction false} DrawAllConcat(s: seq<nat>, w: nat, a: seq<Op>, b: seq<Op>)
    requires OpsOk(a) && OpsOk(b)
    ensures OpsOk(a + b) && DrawAll(s, w, a + b) == DrawAll(DrawAll(s, w, a), w, b)
  {
    hide OpOk, Draw;
    if b == [] {
      assert a + b == a;
    } else {
      assert (a + b)[..|a + b| - 1] == a + b[..|b| - 1];
      DrawAllConcat(s, w, a, b[..|b| - 1]);
    }
  }

  lemma DrawAllOne(s: seq<nat>, w: nat, op: Op)
    requires OpOk(op)
    ensures OpsOk([op]) && DrawAll(s, w, [op]) == Draw(s, w, op)
  {
    hide OpOk, Draw;
    assert [op][..0] == [];
    assert DrawAll(s, w, [op]) == Draw(DrawAll(s, w, [op][..0]), w, op);
  }

  lemma DrawAllSnoc(s: seq<nat>, w: nat, ops: seq<Op>, op: Op)
    requires OpOk(op) && OpsOk(ops)
    ensures OpsOk(ops + [op]) && DrawAll(s, w, ops + [op]) == Draw(DrawAll(s, w, ops), w, op)
  {
    hide OpOk, Draw;
    DrawAllConcat(s, w, ops, [op]);
    DrawAllOne(DrawAll(s, w, ops), w, op);
  }

  lemma Coordinates(w: nat, h: nat, k: nat)
    requires k < w * h
    ensures X(w, k) < w && Y(w, k) < h
  {
    MulSmall(w, k / w - h);
    assert w * (k / w - h) == w * (k / w) - w * h;
  }

  lemma IndexUnique(w: nat, h: nat, x: nat, y: nat)
    requires x < w && y < h
    ensures y * w + x < w * h
    ensures forall k: nat :: X(w, k) == x && Y(w, k) == y <==> k == y * w + x
  {
    MulSmall(w, h - 1 - y);
    assert w * (h - 1 - y) == w * h - w - y * w;
    if h - 1 == y { assert w * (h - 1 - y) == 0; }
    DivModUnique(y * w + x, w, y, x);
    forall k: nat | X(w, k) == x && Y(w, k) == y ensures k == y * w + x {
      assert k == w * (k / w) + k % w;
    }
  }

  // ---- strings ----

  /** font_data: a glyph for each of the characters 32..126. */
  ghost predicate FontOk(font: seq<seq<nat>>) {
    |font| == 95 && forall i :: 0 <= i < |font| ==> |font[i]| == FONT_HEIGHT
  }

  /** font_get_glyph */
  function Glyph(font: seq<seq<nat>>, c: char): seq<nat>
    requires FontOk(font)
  {
    var code := c as int;
    if code < 32 || code > 126 then font[0] else font[code - 32]
  }

  /** The calls made by gpu_draw_string: one per character, each a glyph further right. */
  ghost function Text(font: seq<seq<nat>>, x: int, y: int, s: string, fg: nat, bg: nat): (ops: seq<Op>)
    requires FontOk(font)
    ensures |ops| == |s| && OpsOk(ops)
  {
    seq(|s|, i requires 0 <= i < |s| => Char(x + i * FONT_WIDTH, y, Glyph(font, s[i]), fg, bg))
  }

  /** A string paints one box, 8 pixels wide per character. */
  lemma TextPainted(font: seq<seq<nat>>, x: int, y: int, s: string, fg: nat, bg: nat, px: int, py: int)
    requires FontOk(font)
    ensures Painted(Text(font, x, y, s, fg, bg), px, py) <==>
            x <= px < x + |s| * FONT_WIDTH && y <= py < y + FONT_HEIGHT
  {
    hide Glyph, FontOk, OpOk;
    var ops := Text(font, x, y, s, fg, bg);
    if x <= px < x + |s| * FONT_WIDTH && y <= py < y + FONT_HEIGHT {
      var i := (px - x) / FONT_WIDTH;
      assert Covers(ops[i], px, py);
    }
  }

  /** Pixel (i, j) of the k-th character of a string is that of its glyph; what the font does not have is
      shown as a blank, the glyph of the space. */
  lemma TextPixel(font: seq<seq<nat>>, x: int, y: int, s: string, fg: nat, bg: nat, k: nat, i: nat, j: nat, u: nat)
    requires FontOk(font) && k < |s| && i < 8 && j < 16
    ensures var code := s[k] as int;
      Render(Text(font, x, y, s, fg, bg), x + 8 * k + i, y + j, u) ==
      if Bit(font[if 32 <= code <= 126 then code - 32 else 0][j], 7 - i) then fg else bg
  {
    hide Bit, Ink, OpOk, Render, Painted, OpsOk, Over, Glyph;
    var ops, px, py := Text(font, x, y, s, fg, bg), x + 8 * k + i, y + j;
    TextTail(font, x, y, s, fg, bg, k, px, py);
    GlyphIs(font, s[k]);
    TextSplit(ops, k);
    Unpainted(ops[..k] + [ops[k]], ops[k + 1..], px, py, u);
    LastOver(ops[..k], ops[k], px, py, u);
    PixelOf(ops[k], i, j, Render(ops[..k], px, py, u));
  }

  lemma GlyphIs(font: seq<seq<nat>>, c: char)
    requires FontOk(font)
    ensures var code := c as int; Glyph(font, c) == font[if 32 <= code <= 126 then code - 32 else 0]
    ensures |Glyph(font, c)| == FONT_HEIGHT
  {
  }

  lemma TextSplit(ops: seq<Op>, k: nat)
    requires OpsOk(ops) && k < |ops|
    ensures ops == ops[..k] + [ops[k]] + ops[k + 1..]
    ensures OpsOk(ops[..k]) && OpOk(ops[k]) && OpsOk(ops[..k] + [ops[k]]) && OpsOk(ops[k + 1..])
  {
    hide OpOk;
  }

  lemma LastOver(ops: seq<Op>, op: Op, px: int, py: int, u: nat)
    requires OpsOk(ops) && OpOk(op)
    ensures OpsOk(ops + [op]) && Render(ops + [op], px, py, u) == Over(op, px, py, Render(ops, px, py, u))
  {
    hide OpOk, Over;
    assert (ops + [op])[..|ops|] == ops;
  }

  lemma TextTail(font: seq<seq<nat>>, x: int, y: int, s: string, fg: nat, bg: nat, k: nat, px: int, py: int)
    requires FontOk(font) && k < |s| && px < x + 8 * (k + 1)
    ensures !Painted(Text(font, x, y, s, fg, bg)[k + 1..], px, py)
  {
    hide FontOk, Glyph, OpsOk;
  }

  // ---- in place ----

  class Target {
    const buf: array<nat>
    const width: nat
    const height: nat
    const font: seq<seq<nat>>

    ghost predicate Valid() { buf.Length == width * height && FontOk(font) }

    /** gpu_set_target */
    constructor (buf: array<nat>, width: nat, height: nat, font: seq<seq<nat>>)
      requires buf.Length == width * height && FontOk(font)
      ensures Valid() && this.buf == buf && this.width == width && this.height == height && this.font == font
    {
      this.buf, this.width, this.height, this.font := buf, width, height, font;
    }

    /** One store cur_buf[y * cur_w + x]. */
    method Store(x: nat, y: nat, color: nat)
      requires Valid() && x < width && y < height
      modifies buf
      ensures forall k :: 0 <= k < buf.Length ==>
                buf[k] == if X(width, k) == x && Y(width, k) == y then color else old(buf[k])
    {
      IndexUnique(width, height, x, y);
      hide X, Y, FontOk;
      buf[y * width + x] := color;
    }

    /** gpu_pixel */
    method Pixel(x: int, y: int, color: nat)
      requires Valid()
      modifies buf
      ensures buf[..] == Draw(old(buf[..]), width, Fill(x, y, 1, 1, color))
    {
      InRange();
      hide X, Y, FontOk;
      if 0 <= x < width && 0 <= y < height {
        Store(x, y, color);
      }
    }

    lemma InRange()
      requires Valid()
      ensures forall k :: 0 <= k < buf.Length ==> X(width, k) < width && Y(width, k) < height
    {
      hide X, Y, FontOk;
      forall k | 0 <= k < buf.Length ensures X(width, k) < width && Y(width, k) < height {
        Coordinates(width, height, k);
      }
    }

    /** The columns x0..x1 of one row. */
    method Span(y: nat, x0: nat, x1: int, color: nat)
      requires Valid() && y < height && x1 <= width
      modifies buf
      ensures forall k :: 0 <= k < buf.Length ==>
                buf[k] == if Y(width, k) == y && x0 <= X(width, k) < x1 then color else old(buf[k])
    {
      hide X, Y, FontOk;
      var i := x0;
      while i < x1
        invariant x0 <= i && (i <= x1 || i == x0)
        invariant forall k :: 0 <= k < buf.Length ==>
                    buf[k] == if Y(width, k) == y && x0 <= X(width, k) < i then color else old(buf[k])
      {
        Store(i, y, color);
        i := i + 1;
      }
    }

    /** gpu_fill_rect */
    method FillRect(x: int, y: int, w: int, h: int, color: nat)
      requires Valid()
      modifies buf
      ensures buf[..] == Draw(old(buf[..]), width, Fill(x, y, w, h, color))
    {
      InRange();
      hide X, Y, FontOk;
      var x0 := if x < 0 then 0 else x;
      var y0 := if y < 0 then 0 else y;
      var x1 := if x + w > width then width else x + w;
      var y1 := if y + h > height then height else y + h;
      var j := y0;
      while j < y1
        invariant y0 <= j && (j <= y1 || j == y0)
        invariant forall k :: 0 <= k < buf.Length ==>
                    buf[k] == if y0 <= Y(width, k) < j && x0 <= X(width, k) < x1 then color else old(buf[k])
      {
        Span(j, x0, x1, color);
        j := j + 1;
      }
    }

    /** gpu_hline: a rectangle one pixel high. */
    method HLine(x: int, y: int, w: int, color: nat)
      requires Valid()
      modifies buf
      ensures buf[..] == Draw(old(buf[..]), width, Fill(x, y, w, 1, color))
    {
      InRange();
      hide X, Y, FontOk;
      if y < 0 || y >= height {
        return;
      }
      Span(y, if x < 0 then 0 else x, if x + w > width then width else x + w, color);
    }

    /** gpu_vline: a rectangle one pixel wide. */
    method VLine(x: int, y: int, h: int, color: nat)
      requires Valid()
      modifies buf
      ensures buf[..] == Draw(old(buf[..]), width, Fill(x, y, 1, h, color))
    {
      InRange();
      hide X, Y, FontOk;
      if x < 0 || x >= width {
        return;
      }
      var y0 := if y < 0 then 0 else y;
      var y1 := if y + h > height then height else y + h;
      var j := y0;
      while j < y1
        invariant y0 <= j && (j <= y1 || j == y0)
        invariant forall k :: 0 <= k < buf.Length ==>
                    buf[k] == if y0 <= Y(width, k) < j && X(width, k) == x then color else old(buf[k])
      {
        Store(x, j, color);
        j := j + 1;
      }
    }

    /** gpu_clear, which runs over the buffer as one row. */
    method Clear(color: nat)
      requires Valid()
      modifies buf
      ensures buf[..] == Draw(old(buf[..]), width, Fill(0, 0, width, height, color))
    {
      InRange();
      hide X, Y, FontOk;
      for i := 0 to width * height
        invariant forall k :: 0 <= k < i ==> buf[k] == color
      {
        buf[i] := color;
      }
    }

    /** One row of a glyph. */
    method CharRow(x: int, py: nat, bits: nat, fg: nat, bg: nat)
      requires Valid() && py < height
      modifies buf
      ensures forall k :: 0 <= k < buf.Length ==>
                buf[k] ==
                if Y(width, k) == py && x <= X(width, k) < x + FONT_WIDTH
                then (if Ink(bits, X(width, k) - x) then fg else bg)
                else old(buf[k])
    {
      InRange();
      hide X, Y, FontOk, Ink;
      for col := 0 to FONT_WIDTH
        invariant forall k :: 0 <= k < buf.Length ==>
                    buf[k] ==
                    if Y(width, k) == py && x <= X(width, k) < x + col
                    then (if Ink(bits, X(width, k) - x) then fg else bg)
                    else old(buf[k])
      {
        var px := x + col;
        if px >= 0 && px < width {
          Store(px, py, if Ink(bits, col) then fg else bg);
        }
      }
    }

    /** gpu_draw_char */
    method DrawChar(x: int, y: int, c: char, fg: nat, bg: nat)
      requires Valid()
      modifies buf
      ensures |Glyph(font, c)| == FONT_HEIGHT
      ensures buf[..] == Draw(old(buf[..]), width, Char(x, y, Glyph(font, c), fg, bg))
    {
      InRange();
      var glyph := Glyph(font, c);
      hide X, Y, FontOk, Ink, Glyph;
      for row := 0 to FONT_HEIGHT
        invariant forall k :: 0 <= k < buf.Length ==>
                    buf[k] ==
                    if y <= Y(width, k) < y + row && x <= X(width, k) < x + FONT_WIDTH
                    then (if Ink(glyph[Y(width, k) - y], X(width, k) - x) then fg else bg)
                    else old(buf[k])
      {
        var py := y + row;
        if py >= 0 && py < height {
          CharRow(x, py, glyph[row], fg, bg);
        }
      }
    }

    /** gpu_draw_string */
    method DrawString(x: int, y: int, s: string, fg: nat, bg: nat)
      requires Valid()
      modifies buf
      ensures buf[..] == DrawAll(old(buf[..]), width, Text(font, x, y, s, fg, bg))
    {
      hide OpOk, Draw, DrawAll, Glyph;
      ghost var ops := Text(font, x, y, s, fg, bg);
      var cx := x;
      DrawAllNone(buf[..], width);
      assert ops[..0] == [];
      for i := 0 to |s|
        invariant cx == x + i * FONT_WIDTH
        invariant buf[..] == DrawAll(old(buf[..]), width, ops[..i])
      {
        DrawChar(cx, y, s[i], fg, bg);
        assert ops[..i + 1] == ops[..i] + [ops[i]];
        DrawAllSnoc(old(buf[..]), width, ops[..i], ops[i]);
        cx := cx + FONT_WIDTH;
      }
      assert ops[..|s|] == ops;
    }

    /** One row of a blit. */
    method BlitRow(dx: int, py: nat, j: nat, src: seq<nat>, sw: int, stride: int)
      requires Valid() && py < height
      requires forall i :: 0 <= i < sw ==> 0 <= Offset(stride, j, i) < |src|
      modifies buf
      ensures forall k :: 0 <= k < buf.Length ==>
                buf[k] ==
                if Y(width, k) == py && dx <= X(width, k) < dx + sw
                then src[Offset(stride, j, X(width, k) - dx)]
                else old(buf[k])
    {
      InRange();
      hide X, Y, FontOk, Offset;
      var i := 0;
      while i < sw
        invariant 0 <= i && (i <= sw || i == 0)
        invariant forall k :: 0 <= k < buf.Length ==>
                    buf[k] ==
                    if Y(width, k) == py && dx <= X(width, k) < dx + i
                    then src[Offset(stride, j, X(width, k) - dx)]
                    else old(buf[k])
      {
        var px := dx + i;
        if px >= 0 && px < width {
          Store(px, py, src[Offset(stride, j, i)]);
        }
        i := i + 1;
      }
    }

    /** gpu_blit */
    method BlitFrom(dx: int, dy: int, src: seq<nat>, sw: int, sh: int, stride: int)
      requires Valid() && OpOk(Blit(dx, dy, src, sw, sh, stride))
      modifies buf
      ensures buf[..] == Draw(old(buf[..]), width, Blit(dx, dy, src, sw, sh, stride))
    {
      InRange();
      hide X, Y, FontOk, Offset;
      var j := 0;
      while j < sh
        invariant 0 <= j && (j <= sh || j == 0)
        invariant forall k :: 0 <= k < buf.Length ==>
                    buf[k] ==
                    if dy <= Y(width, k) < dy + j && dx <= X(width, k) < dx + sw
                    then src[Offset(stride, Y(width, k) - dy, X(width, k) - dx)]
                    else old(buf[k])
      {
        var py := dy + j;
        if py >= 0 && py < height {
          BlitRow(dx, py, j, src, sw, stride);
        }
        j := j + 1;
      }
    }
  }

  lemma DrawAllNone(s: seq<nat>, w: nat)
    ensures DrawAll(s, w, []) == s
  {
  }
}

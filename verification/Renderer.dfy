/** The screensaver's two renderers (screensaver_direct.c): the fast one writes the
    panel's rotated framebuffer, the snapshot one a plain logical buffer. */
module Renderer {
  import opened Arith

  type Rgb565 = bv16

  /** The panel's native resolution. The logical screen is panelV wide and panelH high. */
  datatype Geometry = Geometry(panelH: nat, panelV: nat, rotation270: bool) {
    function W(): nat { panelV }
    function H(): nat { panelH }
  }

  /** Where a renderer keeps pixel (x, y). */
  datatype Layout = Native | Logical

  datatype Write = Write(x: int, y: int, colour: Rgb565)
  datatype Rect = Rect(x0: int, y0: int, w: int, h: int)

  predicate OnScreen(g: Geometry, x: int, y: int) {
    0 <= x < g.W() && 0 <= y < g.H()
  }

  function NativeIndex(g: Geometry, x: int, y: int): int {
    var nativeX := if g.rotation270 then g.panelH - 1 - y else y;
    var nativeY := if g.rotation270 then x else g.panelV - 1 - x;
    nativeY * g.panelH + nativeX
  }

  function Address(g: Geometry, layout: Layout, x: int, y: int): int {
    match layout
    case Native => NativeIndex(g, x, y)
    case Logical => y * g.W() + x
  }

  function Pixels(g: Geometry): nat { g.panelH * g.panelV }

  lemma AddressInside(g: Geometry, layout: Layout, x: int, y: int)
    requires OnScreen(g, x, y)
    ensures 0 <= Address(g, layout, x, y) < Pixels(g)
  {
    match layout
    case Native =>
      var a, b := if g.rotation270 then x else g.panelV - 1 - x, if g.rotation270 then g.panelH - 1 - y else y;
      AreaBound(a, b, g.panelH, g.panelV);
    case Logical =>
      AreaBound(y, x, g.W(), g.H());
  }

  lemma AddressInjective(g: Geometry, layout: Layout, x: int, y: int, x': int, y': int)
    requires OnScreen(g, x, y) && OnScreen(g, x', y')
    ensures Address(g, layout, x, y) == Address(g, layout, x', y') ==> x == x' && y == y'
  {
    if Address(g, layout, x, y) == Address(g, layout, x', y') {
      match layout
      case Native =>
        if g.rotation270 {
          QuotientUnique(x, g.panelH - 1 - y, x', g.panelH - 1 - y', g.panelH);
        } else {
          QuotientUnique(g.panelV - 1 - x, y, g.panelV - 1 - x', y', g.panelH);
        }
      case Logical =>
        QuotientUnique(y, x, y', x', g.W());
    }
  }

  /** Every framebuffer cell belongs to exactly one screen pixel, for both rotations. */
  lemma NativeIndexOnto(g: Geometry, n: nat) returns (x: int, y: int)
    requires n < Pixels(g)
    ensures OnScreen(g, x, y) && NativeIndex(g, x, y) == n
    ensures forall x', y' :: OnScreen(g, x', y') && NativeIndex(g, x', y') == n ==> x' == x && y' == y
  {
    assert 0 < g.panelH;
    var a, b := n / g.panelH, n % g.panelH;
    DivModLaw(n, g.panelH);
    AreaBound(a, b, g.panelH, g.panelV);
    x, y := if g.rotation270 then a else g.panelV - 1 - a, if g.rotation270 then g.panelH - 1 - b else b;
    forall x', y' | OnScreen(g, x', y') && NativeIndex(g, x', y') == n
      ensures x' == x && y' == y
    {
      AddressInjective(g, Native, x, y, x', y');
    }
  }

  /** The panel is the screen turned by a quarter. Without the 270 degree setting the
      screen's origin is the first cell of the panel's last row, one pixel right is one
      panel row up, and one pixel down is one cell right. */
  lemma TurnedRight(g: Geometry, x: int, y: int)
    requires !g.rotation270
    ensures NativeIndex(g, 0, 0) == (g.panelV - 1) * g.panelH
    ensures NativeIndex(g, x + 1, y) == NativeIndex(g, x, y) - g.panelH
    ensures NativeIndex(g, x, y + 1) == NativeIndex(g, x, y) + 1
  {
    MulStep(g.panelV - 1 - x - 1, g.panelH);
  }

  /** With it the origin is the last cell of the first row, and both steps are reversed. */
  lemma TurnedLeft(g: Geometry, x: int, y: int)
    requires g.rotation270
    ensures NativeIndex(g, 0, 0) == g.panelH - 1
    ensures NativeIndex(g, x + 1, y) == NativeIndex(g, x, y) + g.panelH
    ensures NativeIndex(g, x, y + 1) == NativeIndex(g, x, y) - 1
  {
    MulStep(x, g.panelH);
  }

  lemma MulStep(a: int, n: int)
    ensures (a + 1) * n == a * n + n
  {
  }

  /** The two settings show the same picture upside down: each pixel's two places are the
      same distance from the two ends of the framebuffer. */
  lemma TurnsAreOpposite(panelH: nat, panelV: nat, x: int, y: int)
    ensures NativeIndex(Geometry(panelH, panelV, false), x, y) + NativeIndex(Geometry(panelH, panelV, true), x, y)
      == panelH * panelV - 1
  {
    MulSum(panelV - 1 - x, x, panelH);
    MulStep(panelV - 1, panelH);
  }

  lemma MulSum(a: int, b: int, n: int)
    ensures a * n + b * n == (a + b) * n
  {
  }

  // ---------------------------------------------------------------- colours

  function Darken(c: Rgb565): Rgb565 {
    var half := (c >> 1) & 0x7BEF;
    (half >> 1) & 0x7BEF
  }

  /** The scrim divides each of the three channels by four, dropping the remainders,
      with nothing leaking from one channel into the next. */
  lemma DarkenQuartersChannels(c: Rgb565)
    ensures Darken(c) >> 11 == (c >> 11) >> 2
    ensures (Darken(c) >> 5) & 0x3F == ((c >> 5) & 0x3F) >> 2
    ensures Darken(c) & 0x1F == (c & 0x1F) >> 2
  {
  }

  // ------------------------------------------------------- what a picture shows

  /** The last write at (x, y), or `under` when nothing was drawn there. */
  function Top(writes: seq<Write>, x: int, y: int, under: Rgb565): Rgb565 {
    if writes == [] then under
    else
      var w := writes[|writes| - 1];
      if w.x == x && w.y == y then w.colour else Top(writes[..|writes| - 1], x, y, under)
  }

  predicate InRect(r: Rect, x: int, y: int) {
    r.x0 <= x < r.x0 + r.w && r.y0 <= y < r.y0 + r.h
  }

  /** The scrim has passed (x, y) once it stands at row sy, column sx. */
  predicate Passed(x: int, y: int, sx: int, sy: int) {
    y < sy || (y == sy && x < sx)
  }

  /** Effect over black, darkened once where the scrim has passed, text on top. */
  function Shown(effect: seq<Write>, r: Rect, sx: int, sy: int, text: seq<Write>, x: int, y: int): Rgb565 {
    var back := Top(effect, x, y, 0);
    Top(text, x, y, if InRect(r, x, y) && Passed(x, y, sx, sy) then Darken(back) else back)
  }

  /** The finished picture at (x, y). */
  function Picture(effect: seq<Write>, r: Rect, text: seq<Write>, x: int, y: int): Rgb565 {
    var back := Top(effect, x, y, 0);
    Top(text, x, y, if InRect(r, x, y) then Darken(back) else back)
  }

  /** Write k is the last one at (x, y). */
  predicate LastAt(writes: seq<Write>, x: int, y: int, k: int) {
    && 0 <= k < |writes| && writes[k].x == x && writes[k].y == y
    && forall j :: k < j < |writes| ==> !(writes[j].x == x && writes[j].y == y)
  }

  ghost predicate Untouched(writes: seq<Write>, x: int, y: int) {
    forall k :: 0 <= k < |writes| ==> !(writes[k].x == x && writes[k].y == y)
  }

  /** What a finished pixel is: the text drawn last on it; where there is no text, the effect
      drawn last on it, black where there is none, with each channel cut to a quarter inside
      the clock's rectangle and only there. */
  lemma PictureMeaning(effect: seq<Write>, r: Rect, text: seq<Write>, x: int, y: int, k: int, j: int)
    ensures LastAt(text, x, y, k) ==> Picture(effect, r, text, x, y) == text[k].colour
    ensures Untouched(text, x, y) && Untouched(effect, x, y) ==> Picture(effect, r, text, x, y) == 0
    ensures Untouched(text, x, y) && LastAt(effect, x, y, j) ==>
      var p, c := Picture(effect, r, text, x, y), effect[j].colour;
      if 0 <= x - r.x0 < r.w && 0 <= y - r.y0 < r.h
      then p >> 11 == c >> 13 && (p >> 5) & 0x3F == ((c >> 5) & 0x3F) / 4 && p & 0x1F == (c & 0x1F) / 4
      else p == c
  {
    TopOf(text, x, y, k);
    TopOf(effect, x, y, j);
    if 0 <= j < |effect| {
      DarkenQuartersChannels(effect[j].colour);
    }
  }

  lemma {:induction false} TopOf(writes: seq<Write>, x: int, y: int, k: int)
    ensures LastAt(writes, x, y, k) ==> forall under :: Top(writes, x, y, under) == writes[k].colour
    ensures Untouched(writes, x, y) ==> forall under :: Top(writes, x, y, under) == under
    decreases |writes|
  {
    if writes != [] {
      var n := |writes| - 1;
      if LastAt(writes, x, y, k) && k < n {
        assert LastAt(writes[..n], x, y, k);
      }
      TopOf(writes[..n], x, y, k);
    }
  }

  ghost predicate Displays(g: Geometry, layout: Layout, buf: seq<Rgb565>, effect: seq<Write>, r: Rect, sx: int,
                           sy: int, text: seq<Write>)
  {
    Pixels(g) <= |buf| &&
    forall x, y :: OnScreen(g, x, y) ==>
      0 <= Address(g, layout, x, y) < |buf| &&
      buf[Address(g, layout, x, y)] == Shown(effect, r, sx, sy, text, x, y)
  }

  // ------------------------------------------------------------- the renderers

  /** put_pixel_native and put_pixel_logical_buffer: off-screen writes are dropped. */
  method PutPixel(g: Geometry, layout: Layout, buf: array<Rgb565>, w: Write)
    requires Pixels(g) <= buf.Length
    modifies buf
    ensures OnScreen(g, w.x, w.y) ==> 0 <= Address(g, layout, w.x, w.y) < buf.Length
    ensures OnScreen(g, w.x, w.y) ==> buf[..] == old(buf[..])[Address(g, layout, w.x, w.y) := w.colour]
    ensures !OnScreen(g, w.x, w.y) ==> buf[..] == old(buf[..])
  {
    if w.x < 0 || w.y < 0 || w.x >= g.W() || w.y >= g.H() {
      return;
    }
    AddressInside(g, layout, w.x, w.y);
    buf[Address(g, layout, w.x, w.y)] := w.colour;
  }

  lemma TopSnoc(writes: seq<Write>, w: Write, x: int, y: int, under: Rgb565)
    ensures Top(writes + [w], x, y, under) == if w.x == x && w.y == y then w.colour else Top(writes, x, y, under)
  {
    assert (writes + [w])[..|writes|] == writes;
  }

  lemma AfterEffectWrite(g: Geometry, layout: Layout, before: seq<Rgb565>, after: seq<Rgb565>, effect: seq<Write>,
                         r: Rect, w: Write)
    requires Displays(g, layout, before, effect, r, r.x0, r.y0, [])
    requires |after| == |before|
    requires OnScreen(g, w.x, w.y) ==>
      0 <= Address(g, layout, w.x, w.y) < |before| && after == before[Address(g, layout, w.x, w.y) := w.colour]
    requires !OnScreen(g, w.x, w.y) ==> after == before
    ensures Displays(g, layout, after, effect + [w], r, r.x0, r.y0, [])
  {
    forall x, y | OnScreen(g, x, y)
      ensures after[Address(g, layout, x, y)] == Shown(effect + [w], r, r.x0, r.y0, [], x, y)
    {
      TopSnoc(effect, w, x, y, 0);
      if OnScreen(g, w.x, w.y) {
        AddressInjective(g, layout, x, y, w.x, w.y);
      }
    }
  }

  lemma AfterTextWrite(g: Geometry, layout: Layout, before: seq<Rgb565>, after: seq<Rgb565>, effect: seq<Write>,
                       r: Rect, sx: int, sy: int, text: seq<Write>, w: Write)
    requires Displays(g, layout, before, effect, r, sx, sy, text)
    requires |after| == |before|
    requires OnScreen(g, w.x, w.y) ==>
      0 <= Address(g, layout, w.x, w.y) < |before| && after == before[Address(g, layout, w.x, w.y) := w.colour]
    requires !OnScreen(g, w.x, w.y) ==> after == before
    ensures Displays(g, layout, after, effect, r, sx, sy, text + [w])
  {
    forall x, y | OnScreen(g, x, y)
      ensures after[Address(g, layout, x, y)] == Shown(effect, r, sx, sy, text + [w], x, y)
    {
      var back := Top(effect, x, y, 0);
      TopSnoc(text, w, x, y, if InRect(r, x, y) && Passed(x, y, sx, sy) then Darken(back) else back);
      if OnScreen(g, w.x, w.y) {
        AddressInjective(g, layout, x, y, w.x, w.y);
      }
    }
  }

  lemma AfterScrimPixel(g: Geometry, layout: Layout, before: seq<Rgb565>, after: seq<Rgb565>, effect: seq<Write>,
                        r: Rect, sx: int, sy: int)
    requires Displays(g, layout, before, effect, r, sx, sy, []) && InRect(r, sx, sy)
    requires |after| == |before|
    requires OnScreen(g, sx, sy) ==>
      0 <= Address(g, layout, sx, sy) < |before|
      && after == before[Address(g, layout, sx, sy) := Darken(before[Address(g, layout, sx, sy)])]
    requires !OnScreen(g, sx, sy) ==> after == before
    ensures Displays(g, layout, after, effect, r, sx + 1, sy, [])
  {
    forall x, y | OnScreen(g, x, y)
      ensures after[Address(g, layout, x, y)] == Shown(effect, r, sx + 1, sy, [], x, y)
    {
      if OnScreen(g, sx, sy) {
        AddressInjective(g, layout, x, y, sx, sy);
      }
    }
  }

  lemma RowDone(g: Geometry, layout: Layout, buf: seq<Rgb565>, effect: seq<Write>, r: Rect, x: int, y: int)
    requires Displays(g, layout, buf, effect, r, x, y, []) && r.x0 <= x && r.x0 + r.w <= x
    ensures Displays(g, layout, buf, effect, r, r.x0, y + 1, [])
  {
    forall px, py | OnScreen(g, px, py)
      ensures Shown(effect, r, x, y, [], px, py) == Shown(effect, r, r.x0, y + 1, [], px, py)
    {
    }
  }

  /** One pixel of the region; pixels off the screen are passed over. */
  method ScrimPixel(g: Geometry, layout: Layout, buf: array<Rgb565>, r: Rect, ghost effect: seq<Write>, x: int, y: int)
    requires Displays(g, layout, buf[..], effect, r, x, y, []) && InRect(r, x, y)
    modifies buf
    ensures Displays(g, layout, buf[..], effect, r, x + 1, y, [])
    ensures forall k :: Pixels(g) <= k < buf.Length ==> buf[k] == old(buf[k])
  {
    ghost var before := buf[..];
    if !(x < 0 || y < 0 || x >= g.W() || y >= g.H()) {
      AddressInside(g, layout, x, y);
      var idx := Address(g, layout, x, y);
      buf[idx] := Darken(buf[idx]);
    }
    AfterScrimPixel(g, layout, before, buf[..], effect, r, x, y);
  }

  /** scrim_clock_region, and its logical twin in the snapshot renderer. */
  method Scrim(g: Geometry, layout: Layout, buf: array<Rgb565>, r: Rect, ghost effect: seq<Write>)
    returns (ghost sy: int)
    requires Displays(g, layout, buf[..], effect, r, r.x0, r.y0, [])
    modifies buf
    ensures Displays(g, layout, buf[..], effect, r, r.x0, sy, [])
    ensures forall k :: Pixels(g) <= k < buf.Length ==> buf[k] == old(buf[k])
    ensures r.y0 + r.h <= sy
  {
    var y := r.y0;
    while y < r.y0 + r.h
      invariant Displays(g, layout, buf[..], effect, r, r.x0, y, [])
      invariant forall k :: Pixels(g) <= k < buf.Length ==> buf[k] == old(buf[k])
    {
      var x := r.x0;
      while x < r.x0 + r.w
        invariant r.x0 <= x && r.y0 <= y
        invariant Displays(g, layout, buf[..], effect, r, x, y, [])
        invariant forall k :: Pixels(g) <= k < buf.Length ==> buf[k] == old(buf[k])
      {
        ScrimPixel(g, layout, buf, r, effect, x, y);
        x := x + 1;
      }
      RowDone(g, layout, buf[..], effect, r, x, y);
      y := y + 1;
    }
    sy := y;
  }

  /** One renderer, from clearing the buffer to the clock text. The effect and the text
      arrive as pixel writes; what they draw is not this module's concern. */
  method Render(g: Geometry, layout: Layout, buf: array<Rgb565>, effect: seq<Write>, r: Rect, text: seq<Write>)
    requires Pixels(g) <= buf.Length
    modifies buf
    ensures forall x, y :: OnScreen(g, x, y) ==> 0 <= Address(g, layout, x, y) < Pixels(g)
    ensures forall x, y :: OnScreen(g, x, y) ==> buf[Address(g, layout, x, y)] == Picture(effect, r, text, x, y)
    ensures forall k :: Pixels(g) <= k < buf.Length ==> buf[k] == old(buf[k])
  {
    forall k | 0 <= k < Pixels(g) {
      buf[k] := 0;
    }
    forall x, y | OnScreen(g, x, y)
      ensures 0 <= Address(g, layout, x, y) < Pixels(g)
    {
      AddressInside(g, layout, x, y);
    }
    for k := 0 to |effect|
      invariant Displays(g, layout, buf[..], effect[..k], r, r.x0, r.y0, [])
      invariant forall k :: Pixels(g) <= k < buf.Length ==> buf[k] == old(buf[k])
    {
      ghost var before := buf[..];
      if OnScreen(g, effect[k].x, effect[k].y) {
        AddressInside(g, layout, effect[k].x, effect[k].y);
      }
      PutPixel(g, layout, buf, effect[k]);
      AfterEffectWrite(g, layout, before, buf[..], effect[..k], r, effect[k]);
      assert effect[..k + 1] == effect[..k] + [effect[k]];
    }
    assert effect[..|effect|] == effect;
    ghost var sy := Scrim(g, layout, buf, r, effect);
    for k := 0 to |text|
      invariant Displays(g, layout, buf[..], effect, r, r.x0, sy, text[..k])
      invariant forall k :: Pixels(g) <= k < buf.Length ==> buf[k] == old(buf[k])
    {
      ghost var before := buf[..];
      if OnScreen(g, text[k].x, text[k].y) {
        AddressInside(g, layout, text[k].x, text[k].y);
      }
      PutPixel(g, layout, buf, text[k]);
      AfterTextWrite(g, layout, before, buf[..], effect, r, r.x0, sy, text[..k], text[k]);
      assert text[..k + 1] == text[..k] + [text[k]];
    }
    assert text[..|text|] == text;
  }

  /** Both renderers over the same effect and text show the same picture, and the
      snapshot renderer leaves the rest of a larger buffer alone. */
  method RenderBoth(g: Geometry, effect: seq<Write>, r: Rect, text: seq<Write>, framebuffer: array<Rgb565>,
                    pixels: array<Rgb565>)
    requires framebuffer.Length == Pixels(g) <= pixels.Length && framebuffer != pixels
    modifies framebuffer, pixels
    ensures forall x, y :: OnScreen(g, x, y) ==>
      0 <= NativeIndex(g, x, y) < framebuffer.Length && 0 <= y * g.W() + x < pixels.Length
    ensures forall x, y :: OnScreen(g, x, y) ==> framebuffer[NativeIndex(g, x, y)] == pixels[y * g.W() + x]
    ensures forall k :: Pixels(g) <= k < pixels.Length ==> pixels[k] == old(pixels[k])
  {
    Render(g, Native, framebuffer, effect, r, text);
    Render(g, Logical, pixels, effect, r, text);
    forall x, y | OnScreen(g, x, y)
      ensures 0 <= NativeIndex(g, x, y) < framebuffer.Length && 0 <= y * g.W() + x < pixels.Length
      ensures framebuffer[NativeIndex(g, x, y)] == pixels[y * g.W() + x]
    {
      AddressInside(g, Native, x, y);
      AddressInside(g, Logical, x, y);
      assert framebuffer[Address(g, Native, x, y)] == Picture(effect, r, text, x, y);
      assert pixels[Address(g, Logical, x, y)] == Picture(effect, r, text, x, y);
    }
  }
}

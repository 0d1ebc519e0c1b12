/** The sprite sheet encoder and its two decoders (tools/sprite_convert.py and
    sprite_codec.c). A frame is 64x64 optional RGB565 colours, row by row. */
module SpriteCodec {
  import opened Arith
  import opened Options
  import opened Sequences

  const FRAME: nat := 64
  const FRAME_PIXELS: nat := 4096
  const FRAME_BYTES: nat := 16384

  type Byte = b: int | 0 <= b < 256
  type Rgb565 = c: int | 0 <= c < 65536

  datatype Rect = Rect(x0: nat, y0: nat, w: nat, h: nat)

  /** A frame as load_frames builds it. */
  type Frame = f: seq<Option<Rgb565>> | |f| == FRAME_PIXELS witness seq(FRAME_PIXELS, _ => None)

  datatype Error = NoOpaquePixel | TooManyColours | IndexOutOfRange | BadCoverage
  datatype EncodeResult = Encoded(rect: Rect, palette: seq<Rgb565>, streams: seq<seq<Byte>>)
    | EncodeFailed(error: Error)
  datatype DecodeResult = Decoded(bytes: seq<Byte>) | DecodeFailed(error: Error)

  // ---------------------------------------------------------------- colours

  /** Shifts of disjoint bit groups are written as products and sums. */
  function ToRgb565(r: Byte, g: Byte, b: Byte): Rgb565 {
    (r / 8) * 2048 + (g / 4) * 32 + b / 8
  }

  function ExpandBgra(c: Rgb565): (px: seq<Byte>)
    ensures |px| == 4
  {
    var r5, g6, b5 := c / 2048, (c / 32) % 64, c % 32;
    [b5 * 8 + b5 / 4, g6 * 4 + g6 / 16, r5 * 8 + r5 / 4, 255]
  }

  /** Expansion loses nothing: the leading bits of each channel are the colour's, the bits
      below repeat them, alpha is full, and reducing the pixel gives the colour back. */
  lemma ExpandKeepsColour(c: Rgb565)
    ensures var px := ExpandBgra(c);
      && px[0] / 8 == c % 32 && px[1] / 4 == (c / 32) % 64 && px[2] / 8 == c / 2048
      && px[0] % 8 == px[0] / 32 && px[1] % 4 == px[1] / 64 && px[2] % 8 == px[2] / 32
      && px[3] == 255 && ToRgb565(px[2], px[1], px[0]) == c
  {
    var r5, g6, b5 := c / 2048, (c / 32) % 64, c % 32;
    assert c == r5 * 2048 + g6 * 32 + b5;
    assert (r5 * 8 + r5 / 4) / 8 == r5 && (g6 * 4 + g6 / 16) / 4 == g6 && (b5 * 8 + b5 / 4) / 8 == b5;
  }

  const CLEAR: seq<Byte> := [0, 0, 0, 0]

  // ------------------------------------------------------------ run lengths

  /** How far the run that starts at s[0] reaches, at most 255, given that it reaches k. */
  function RunFrom(s: seq<Byte>, k: nat): (n: nat)
    requires 0 < |s| && k <= |s| && k <= 255
    requires forall j :: 0 <= j < k ==> s[j] == s[0]
    ensures k <= n <= |s| && n <= 255
    ensures forall j :: 0 <= j < n ==> s[j] == s[0]
    ensures n == |s| || n == 255 || s[n] != s[0]
    decreases |s| - k
  {
    if k < |s| && k < 255 && s[k] == s[0] then RunFrom(s, k + 1) else k
  }

  /** The (run, index) pairs, flattened, that the greedy encoder emits. */
  function GreedyRle(s: seq<Byte>): (stream: seq<Byte>)
    decreases |s|
  {
    if s == [] then []
    else
      var n := RunFrom(s, 1);
      [n, s[0]] + GreedyRle(s[n..])
  }

  function ExpandRuns(stream: seq<Byte>): (s: seq<Byte>) {
    if |stream| < 2 then [] else seq(stream[0], _ => stream[1]) + ExpandRuns(stream[2..])
  }

  /** A stream the decoders accept: whole pairs whose indexes the palette has. */
  predicate WellFormed(stream: seq<Byte>, colours: nat) {
    |stream| % 2 == 0 &&
    forall k {:trigger stream[2 * k]} :: 0 <= k < |stream| / 2 ==> 1 <= stream[2 * k] && stream[2 * k + 1] < colours
  }

  lemma WellFormedCons(n: Byte, b: Byte, rest: seq<Byte>, colours: nat)
    requires 1 <= n && b < colours && WellFormed(rest, colours)
    ensures WellFormed([n, b] + rest, colours)
  {
    var g := [n, b] + rest;
    forall k | 0 <= k < |g| / 2
      ensures 1 <= g[2 * k] && g[2 * k + 1] < colours
    {
      if k > 0 {
        assert g[2 * k] == rest[2 * (k - 1)] && g[2 * k + 1] == rest[2 * (k - 1) + 1];
      }
    }
  }

  lemma WellFormedTail(stream: seq<Byte>, colours: nat)
    requires WellFormed(stream, colours) && stream != []
    ensures |stream| >= 2 && 1 <= stream[0] && stream[1] < colours
    ensures WellFormed(stream[2..], colours)
  {
    assert stream[2 * 0] >= 1;
    forall k | 0 <= k < |stream[2..]| / 2
      ensures 1 <= stream[2..][2 * k] && stream[2..][2 * k + 1] < colours
    {
      assert stream[2..][2 * k] == stream[2 * (k + 1)];
    }
  }

  /** The greedy stream is well formed and expands to what was encoded. */
  lemma {:induction false} GreedyExpands(s: seq<Byte>, colours: nat)
    requires forall k :: 0 <= k < |s| ==> s[k] < colours
    ensures ExpandRuns(GreedyRle(s)) == s
    ensures WellFormed(GreedyRle(s), colours)
    decreases |s|
  {
    if s != [] {
      var n := RunFrom(s, 1);
      GreedyExpands(s[n..], colours);
      PairExpands(s, n, GreedyRle(s[n..]));
      WellFormedCons(n, s[0], GreedyRle(s[n..]), colours);
    }
  }

  lemma PairExpands(s: seq<Byte>, n: Byte, rest: seq<Byte>)
    requires 0 < n <= |s| && (forall j :: 0 <= j < n ==> s[j] == s[0]) && ExpandRuns(rest) == s[n..]
    ensures ExpandRuns([n, s[0]] + rest) == s
  {
    var g := [n, s[0]] + rest;
    assert g[2..] == rest;
    assert seq(n, _ => s[0]) == s[..n];
    Split(s, n);
  }

  /** No stream that expands to an index sequence ending in s is shorter than the
      greedy stream for s. */
  lemma {:induction false} GreedyOptimalForSuffix(s: seq<Byte>, other: seq<Byte>, d: nat)
    requires |other| % 2 == 0
    requires d <= |ExpandRuns(other)| && s == ExpandRuns(other)[d..]
    ensures |GreedyRle(s)| <= |other|
    decreases |other|
  {
    if s != [] {
      var run := seq(other[0], _ => other[1]);
      if d >= |run| {
        DropPast(run, ExpandRuns(other[2..]), d);
        GreedyOptimalForSuffix(s, other[2..], d - |run|);
      } else {
        RunCovers(run, ExpandRuns(other[2..]), d, s);
        GreedyOptimalForSuffix(s[RunFrom(s, 1)..], other[2..], d + RunFrom(s, 1) - |run|);
        GreedyLength(s);
      }
    }
  }

  lemma GreedyLength(s: seq<Byte>)
    requires s != []
    ensures |GreedyRle(s)| == 2 + |GreedyRle(s[RunFrom(s, 1)..])|
  {
  }

  /** The greedy run from inside a run reaches at least its end. */
  lemma RunCovers(run: seq<Byte>, rest: seq<Byte>, d: nat, s: seq<Byte>)
    requires d < |run| <= 255 && (forall j :: 0 <= j < |run| ==> run[j] == run[0]) && s == (run + rest)[d..]
    ensures var n := RunFrom(s, 1); n >= |run| - d && s[n..] == rest[d + n - |run|..]
  {
    var n := RunFrom(s, 1);
    assert forall j :: 0 <= j < |run| - d ==> s[j] == run[d + j] == run[0];
    DropPast(run, rest, d + n);
    DropTwice(run + rest, d, n);
  }

  /** The greedy encoding is optimal: no stream for the same indexes is shorter. */
  lemma GreedyIsOptimal(s: seq<Byte>, other: seq<Byte>)
    requires |other| % 2 == 0 && ExpandRuns(other) == s
    ensures |GreedyRle(s)| <= |other|
  {
    assert s == ExpandRuns(other)[0..];
    GreedyOptimalForSuffix(s, other, 0);
  }

  /** The inner loop: where the run that starts at i ends. */
  method RunEnd(cropped: seq<Byte>, i: nat) returns (j: nat)
    requires i < |cropped|
    ensures i < j <= |cropped| && j - i <= 255 && j - i == RunFrom(cropped[i..], 1)
  {
    ghost var rest := cropped[i..];
    j := i;
    while j < |cropped| && j - i < 255 && cropped[j] == cropped[i]
      invariant i <= j <= |cropped| && j - i <= 255
      invariant forall k :: 0 <= k < j - i ==> rest[k] == rest[0]
      invariant j > i ==> RunFrom(rest, 1) == RunFrom(rest, j - i)
    {
      j := j + 1;
      assert rest[j - i - 1] == rest[0];
    }
  }

  /** The two nested loops that emit one frame's stream. */
  method EncodeRuns(cropped: seq<Byte>) returns (stream: seq<Byte>)
    ensures stream == GreedyRle(cropped)
  {
    stream := [];
    var i := 0;
    assert cropped[0..] == cropped;
    while i < |cropped|
      invariant i <= |cropped|
      invariant stream + GreedyRle(cropped[i..]) == GreedyRle(cropped)
    {
      var j := RunEnd(cropped, i);
      GreedyPeels(cropped, i, j);
      Associate(stream, [(j - i) as Byte, cropped[i]], GreedyRle(cropped[j..]));
      stream := stream + [j - i, cropped[i]];
      i := j;
    }
    assert cropped[i..] == [];
  }

  lemma GreedyPeels(cropped: seq<Byte>, i: nat, j: nat)
    requires i < j <= |cropped| && j - i <= 255 && j - i == RunFrom(cropped[i..], 1)
    ensures GreedyRle(cropped[i..]) == [j - i, cropped[i]] + GreedyRle(cropped[j..])
  {
    assert cropped[i..][j - i..] == cropped[j..];
  }

  // ------------------------------------------------------ the picture a stream means

  ghost predicate RectInFrame(r: Rect) {
    0 < r.w && 0 < r.h && r.x0 + r.w <= FRAME && r.y0 + r.h <= FRAME
  }

  ghost predicate InRect(r: Rect, i: nat) {
    r.x0 <= i % FRAME < r.x0 + r.w && r.y0 <= i / FRAME < r.y0 + r.h
  }

  /** Position of frame pixel i in the crop rectangle, row by row. */
  ghost function CropPos(r: Rect, i: nat): int {
    (i / FRAME - r.y0) * r.w + (i % FRAME - r.x0)
  }

  /** Frame pixel of crop position p: the address both decoders compute. */
  function FramePixel(r: Rect, p: nat): nat
    requires 0 < r.w
  {
    (r.y0 + p / r.w) * FRAME + r.x0 + p % r.w
  }

  lemma CropPosBelow(r: Rect, i: nat)
    requires RectInFrame(r) && i < FRAME_PIXELS && InRect(r, i)
    ensures 0 <= CropPos(r, i) < r.w * r.h
    ensures FramePixel(r, CropPos(r, i)) == i
  {
    var a, b := i / FRAME - r.y0, i % FRAME - r.x0;
    AreaBound(a, b, r.w, r.h);
    DivModOf(a, r.w, b);
  }

  lemma FramePixelInRect(r: Rect, p: nat)
    requires RectInFrame(r) && p < r.w * r.h
    ensures FramePixel(r, p) < FRAME_PIXELS
    ensures InRect(r, FramePixel(r, p)) && CropPos(r, FramePixel(r, p)) == p
  {
    var a, b := p / r.w, p % r.w;
    DivModLaw(p, r.w);
    AreaBound(a, b, r.w, r.h);
    FrameDivMod(r.y0 + a, r.x0 + b);
  }

  lemma FrameDivMod(y: nat, x: nat)
    requires x < FRAME
    ensures (y * FRAME + x) / FRAME == y && (y * FRAME + x) % FRAME == x
  {
  }

  /** What frame pixel i shows once the first `done` crop positions are decoded. */
  ghost function PixelAfter(r: Rect, palette: seq<Rgb565>, indexes: seq<Byte>, done: nat, i: nat): seq<Byte>
    requires done <= |indexes|
  {
    if InRect(r, i) && 0 <= CropPos(r, i) < done && 0 < indexes[CropPos(r, i)] < |palette|
    then ExpandBgra(palette[indexes[CropPos(r, i)]]) else CLEAR
  }

  /** `out` shows the picture with these palette indexes in the rectangle and nothing outside. */
  ghost predicate Shows(out: seq<Byte>, r: Rect, palette: seq<Rgb565>, indexes: seq<Byte>, done: nat)
    requires done <= |indexes|
  {
    |out| == FRAME_BYTES &&
    forall i :: 0 <= i < FRAME_PIXELS ==> out[4 * i..4 * i + 4] == PixelAfter(r, palette, indexes, done, i)
  }

  /** Every pair's index is transparent or in the palette; runs may be of any length. */
  predicate PairsFit(stream: seq<Byte>, colours: nat) {
    |stream| % 2 == 0 &&
    forall k {:trigger stream[2 * k + 1]} :: 0 <= k < |stream| / 2 ==>
      stream[2 * k + 1] == 0 || stream[2 * k + 1] < colours
  }

  lemma PairsFitStep(stream: seq<Byte>, colours: nat)
    requires |stream| >= 2 && (stream[1] == 0 || stream[1] < colours)
    ensures PairsFit(stream, colours) <==> PairsFit(stream[2..], colours)
  {
    if PairsFit(stream, colours) {
      PairsFitTail(stream, colours);
    } else if |stream| % 2 == 0 {
      var k :| 0 <= k < |stream| / 2 && stream[2 * k + 1] != 0 && stream[2 * k + 1] >= colours;
      assert k > 0;
      assert stream[2..][2 * (k - 1) + 1] == stream[2 * k + 1];
    }
  }

  lemma PairsFitTail(stream: seq<Byte>, colours: nat)
    requires PairsFit(stream, colours) && stream != []
    ensures |stream| >= 2 && (stream[1] == 0 || stream[1] < colours)
    ensures PairsFit(stream[2..], colours)
  {
    assert stream[2 * 0 + 1] == stream[1];
    forall k | 0 <= k < |stream[2..]| / 2
      ensures stream[2..][2 * k + 1] == 0 || stream[2..][2 * k + 1] < colours
    {
      assert stream[2..][2 * k + 1] == stream[2 * (k + 1) + 1];
    }
  }

  lemma WellFormedPairsFit(stream: seq<Byte>, colours: nat)
    requires WellFormed(stream, colours)
    ensures PairsFit(stream, colours)
  {
    forall k | 0 <= k < |stream| / 2
      ensures stream[2 * k + 1] == 0 || stream[2 * k + 1] < colours
    {
      assert stream[2 * k] >= 1;
    }
  }

  /** The four bytes both decoders store for one pixel. */
  method PutPixel(out: array<Byte>, px: nat, bgra: seq<Byte>)
    requires |bgra| == 4 && 4 * px + 4 <= out.Length
    modifies out
    ensures out[..] == old(out[..4 * px]) + bgra + old(out[4 * px + 4..])
  {
    out[4 * px], out[4 * px + 1], out[4 * px + 2], out[4 * px + 3] := bgra[0], bgra[1], bgra[2], bgra[3];
  }

  /** Storing four bytes changes one pixel. */
  lemma PixelPut(before: seq<Byte>, px: nat, bgra: seq<Byte>, i: nat)
    requires |bgra| == 4 && |before| == FRAME_BYTES && px < FRAME_PIXELS && i < FRAME_PIXELS
    ensures var after := before[..4 * px] + bgra + before[4 * px + 4..];
      after[4 * i..4 * i + 4] == if i == px then bgra else before[4 * i..4 * i + 4]
  {
  }

  /** One more crop position decoded changes only its pixel of the picture. */
  lemma NextPixel(r: Rect, palette: seq<Rgb565>, indexes: seq<Byte>, p: nat, i: nat)
    requires RectInFrame(r) && p < |indexes| && p < r.w * r.h && 0 < indexes[p] < |palette| && i < FRAME_PIXELS
    ensures PixelAfter(r, palette, indexes, p + 1, i) ==
      if i == FramePixel(r, p) then ExpandBgra(palette[indexes[p]]) else PixelAfter(r, palette, indexes, p, i)
  {
    FramePixelInRect(r, p);
    if InRect(r, i) {
      CropPosBelow(r, i);
    }
  }

  lemma ShowsNextPixel(before: seq<Byte>, after: seq<Byte>, r: Rect, palette: seq<Rgb565>, indexes: seq<Byte>, p: nat)
    requires RectInFrame(r) && p < |indexes| && p < r.w * r.h
    requires Shows(before, r, palette, indexes, p)
    requires 0 < indexes[p] < |palette| && FramePixel(r, p) < FRAME_PIXELS
    requires after ==
      before[..4 * FramePixel(r, p)] + ExpandBgra(palette[indexes[p]]) + before[4 * FramePixel(r, p) + 4..]
    ensures Shows(after, r, palette, indexes, p + 1)
  {
    var px := FramePixel(r, p);
    forall i | 0 <= i < FRAME_PIXELS
      ensures after[4 * i..4 * i + 4] == PixelAfter(r, palette, indexes, p + 1, i)
    {
      assert before[4 * i..4 * i + 4] == PixelAfter(r, palette, indexes, p, i);
      PixelPut(before, px, ExpandBgra(palette[indexes[p]]), i);
      NextPixel(r, palette, indexes, p, i);
    }
  }

  lemma ShowsSkipClear(out: seq<Byte>, r: Rect, palette: seq<Rgb565>, indexes: seq<Byte>, p: nat, q: nat)
    requires p <= q <= |indexes|
    requires Shows(out, r, palette, indexes, p)
    requires forall k :: p <= k < q ==> indexes[k] == 0
    ensures Shows(out, r, palette, indexes, q)
  {
    forall i | 0 <= i < FRAME_PIXELS
      ensures out[4 * i..4 * i + 4] == PixelAfter(r, palette, indexes, q, i)
    {
      assert out[4 * i..4 * i + 4] == PixelAfter(r, palette, indexes, p, i);
    }
  }

  lemma ShowsAllClear(out: seq<Byte>, r: Rect, palette: seq<Rgb565>, indexes: seq<Byte>)
    requires |out| == FRAME_BYTES && forall k :: 0 <= k < |out| ==> out[k] == 0
    ensures Shows(out, r, palette, indexes, 0)
  {
    forall i | 0 <= i < FRAME_PIXELS
      ensures out[4 * i..4 * i + 4] == CLEAR
    {
    }
  }

  lemma ShowsBeyondRect(out: seq<Byte>, r: Rect, palette: seq<Rgb565>, indexes: seq<Byte>, done: nat)
    requires RectInFrame(r) && r.w * r.h <= done <= |indexes|
    ensures Shows(out, r, palette, indexes, r.w * r.h) <==> Shows(out, r, palette, indexes, done)
  {
    forall i | 0 <= i < FRAME_PIXELS
      ensures PixelAfter(r, palette, indexes, r.w * r.h, i) == PixelAfter(r, palette, indexes, done, i)
    {
      if InRect(r, i) {
        CropPosBelow(r, i);
      }
    }
  }

  /** One run's pixels, clipped to the crop rectangle. In C the loop bound does the
      clipping; in Python a run past the rectangle is refused by the coverage check. */
  method FillRun(out: array<Byte>, r: Rect, palette: seq<Rgb565>, ghost indexes: seq<Byte>, pos: nat, run: Byte,
                 index: Byte)
    requires RectInFrame(r) && 0 < index < |palette|
    requires pos + run <= |indexes| && forall k :: pos <= k < pos + run ==> indexes[k] == index
    requires Shows(out[..], r, palette, indexes, pos)
    modifies out
    ensures Shows(out[..], r, palette, indexes, pos + run)
  {
    var bgra := ExpandBgra(palette[index]);
    var p := pos;
    while p < pos + run && p < r.w * r.h
      invariant pos <= p <= pos + run
      invariant Shows(out[..], r, palette, indexes, p)
    {
      FramePixelInRect(r, p);
      ghost var before := out[..];
      PutPixel(out, FramePixel(r, p), bgra);
      ShowsNextPixel(before, out[..], r, palette, indexes, p);
      p := p + 1;
    }
    if p < pos + run {
      ShowsBeyondRect(out[..], r, palette, indexes, p);
      ShowsBeyondRect(out[..], r, palette, indexes, pos + run);
    }
  }

  /** Index 0 is transparent: its run leaves the pixels clear. */
  method PaintRun(out: array<Byte>, r: Rect, palette: seq<Rgb565>, ghost indexes: seq<Byte>, pos: nat, run: Byte,
                  index: Byte)
    requires RectInFrame(r) && (index == 0 || index < |palette|)
    requires pos + run <= |indexes| && forall k :: pos <= k < pos + run ==> indexes[k] == index
    requires Shows(out[..], r, palette, indexes, pos)
    modifies out
    ensures Shows(out[..], r, palette, indexes, pos + run)
  {
    if index != 0 {
      FillRun(out, r, palette, indexes, pos, run, index);
    } else {
      ShowsSkipClear(out[..], r, palette, indexes, pos, pos + run);
    }
  }

  /** The buffer is cleared first. */
  method ClearBuffer(out: array<Byte>, r: Rect, palette: seq<Rgb565>, ghost indexes: seq<Byte>)
    requires out.Length == FRAME_BYTES
    modifies out
    ensures Shows(out[..], r, palette, indexes, 0)
  {
    forall k | 0 <= k < FRAME_BYTES {
      out[k] := 0;
    }
    ShowsAllClear(out[..], r, palette, indexes);
  }

  /** The stream has been read up to `read`, and what is left gives the indexes from pos. */
  ghost predicate Reading(stream: seq<Byte>, colours: nat, indexes: seq<Byte>, read: nat, pos: nat) {
    && read <= |stream| && pos <= |indexes|
    && PairsFit(stream[read..], colours)
    && (WellFormed(stream, colours) ==> WellFormed(stream[read..], colours))
    && indexes[pos..] == ExpandRuns(stream[read..])
  }

  lemma ReadPair(stream: seq<Byte>, colours: nat, indexes: seq<Byte>, read: nat, pos: nat)
    requires Reading(stream, colours, indexes, read, pos) && pos < |indexes|
    ensures read + 2 <= |stream|
    ensures var run, index := stream[read], stream[read + 1];
      && (index == 0 || index < colours)
      && pos + run <= |indexes| && (forall k :: pos <= k < pos + run ==> indexes[k] == index)
      && Reading(stream, colours, indexes, read + 2, pos + run)
  {
    var rest := stream[read..];
    PairsFitTail(rest, colours);
    if WellFormed(rest, colours) {
      WellFormedTail(rest, colours);
    }
    assert rest[2..] == stream[read + 2..];
    RunAtFront(indexes, pos, rest);
  }

  lemma ReadToTheEnd(stream: seq<Byte>, colours: nat, indexes: seq<Byte>, read: nat, pos: nat)
    requires Reading(stream, colours, indexes, read, pos) && pos == |indexes|
    ensures WellFormed(stream, colours) ==> read == |stream|
  {
    if WellFormed(stream, colours) && read < |stream| {
      WellFormedTail(stream[read..], colours);
    }
  }

  /** sprite_decode_frame: reads pairs until the rectangle is full and writes the buffer. */
  method SpriteDecodeFrame(r: Rect, palette: seq<Rgb565>, stream: seq<Byte>, out: array<Byte>) returns (read: nat)
    requires RectInFrame(r) && PairsFit(stream, |palette|)
    requires r.w * r.h <= |ExpandRuns(stream)| && out.Length == FRAME_BYTES
    modifies out
    ensures Shows(out[..], r, palette, ExpandRuns(stream), r.w * r.h)
    ensures read <= |stream|
    ensures WellFormed(stream, |palette|) && |ExpandRuns(stream)| == r.w * r.h ==> read == |stream|
  {
    ghost var indexes := ExpandRuns(stream);
    var total := r.w * r.h;
    var pos: nat := 0;
    read := 0;
    ClearBuffer(out, r, palette, indexes);
    while pos < total
      invariant Reading(stream, |palette|, indexes, read, pos)
      invariant Shows(out[..], r, palette, indexes, pos)
      decreases |stream| - read
    {
      ReadPair(stream, |palette|, indexes, read, pos);
      var run, index := stream[read], stream[read + 1];
      read := read + 2;
      PaintRun(out, r, palette, indexes, pos, run, index);
      pos := pos + run;
    }
    ShowsBeyondRect(out[..], r, palette, indexes, pos);
    if |indexes| == total {
      ReadToTheEnd(stream, |palette|, indexes, read, pos);
    }
  }

  lemma RunAtFront(indexes: seq<Byte>, pos: nat, rest: seq<Byte>)
    requires pos <= |indexes| && |rest| >= 2 && indexes[pos..] == ExpandRuns(rest)
    ensures pos + rest[0] <= |indexes|
    ensures forall k :: pos <= k < pos + rest[0] ==> indexes[k] == rest[1]
    ensures indexes[pos + rest[0]..] == ExpandRuns(rest[2..])
  {
    Repeated(indexes, pos, rest[0], rest[1], ExpandRuns(rest[2..]));
  }

  lemma Repeated(indexes: seq<Byte>, pos: nat, run: nat, index: Byte, tail: seq<Byte>)
    requires pos <= |indexes| && indexes[pos..] == seq(run, _ => index) + tail
    ensures pos + run <= |indexes| && indexes[pos + run..] == tail
    ensures forall k :: pos <= k < pos + run ==> indexes[k] == index
  {
    forall k | pos <= k < pos + run
      ensures indexes[k] == index
    {
      assert indexes[k] == indexes[pos..][k - pos];
    }
    assert indexes[pos + run..] == indexes[pos..][run..];
  }

  /** decode_frame, the Python reference decoder. */
  method DecodeFrame(r: Rect, palette: seq<Rgb565>, stream: seq<Byte>) returns (result: DecodeResult)
    requires RectInFrame(r)
    ensures result == DecodeFailed(IndexOutOfRange) <==> !PairsFit(stream, |palette|)
    ensures result == DecodeFailed(BadCoverage) <==> PairsFit(stream, |palette|) && |ExpandRuns(stream)| != r.w * r.h
    ensures result.Decoded? <==> PairsFit(stream, |palette|) && |ExpandRuns(stream)| == r.w * r.h
    ensures result.Decoded? ==> Shows(result.bytes, r, palette, ExpandRuns(stream), r.w * r.h)
  {
    ghost var indexes := ExpandRuns(stream);
    var out := new Byte[FRAME_BYTES](_ => 0);
    ShowsAllClear(out[..], r, palette, indexes);
    var fits, pos := PaintPairs(out, r, palette, stream);
    if !fits {
      return DecodeFailed(IndexOutOfRange);
    }
    if pos != r.w * r.h {
      return DecodeFailed(BadCoverage);
    }
    result := Decoded(out[..]);
  }

  /** The pairs before k have been painted, and none of them was wrong. */
  ghost predicate Painting(stream: seq<Byte>, colours: nat, indexes: seq<Byte>, k: nat, pos: nat) {
    && k <= |stream| && pos <= |indexes|
    && (PairsFit(stream, colours) <==> PairsFit(stream[k..], colours))
    && indexes[pos..] == ExpandRuns(stream[k..])
  }

  lemma BadPair(rest: seq<Byte>, colours: nat)
    requires |rest| >= 2 && rest[1] != 0 && rest[1] >= colours
    ensures !PairsFit(rest, colours)
  {
    assert rest[2 * 0 + 1] == rest[1];
  }

  lemma NextPair(stream: seq<Byte>, colours: nat, indexes: seq<Byte>, k: nat, pos: nat)
    requires Painting(stream, colours, indexes, k, pos) && k + 2 <= |stream|
    requires stream[k + 1] == 0 || stream[k + 1] < colours
    ensures var run, index := stream[k], stream[k + 1];
      && pos + run <= |indexes| && (forall j :: pos <= j < pos + run ==> indexes[j] == index)
      && Painting(stream, colours, indexes, k + 2, pos + run)
  {
    var rest := stream[k..];
    PairsFitStep(rest, colours);
    RunAtFront(indexes, pos, rest);
    assert rest[2..] == stream[k + 2..];
  }

  /** Its loop over the pairs; a missing second byte or an index outside the palette stops it. */
  method PaintPairs(out: array<Byte>, r: Rect, palette: seq<Rgb565>, stream: seq<Byte>)
    returns (fits: bool, pos: nat)
    requires RectInFrame(r) && Shows(out[..], r, palette, ExpandRuns(stream), 0)
    modifies out
    ensures fits <==> PairsFit(stream, |palette|)
    ensures fits ==> pos == |ExpandRuns(stream)| && Shows(out[..], r, palette, ExpandRuns(stream), pos)
  {
    ghost var indexes := ExpandRuns(stream);
    fits, pos := true, 0;
    var k: nat := 0;
    assert stream[0..] == stream;
    while k < |stream|
      invariant Painting(stream, |palette|, indexes, k, pos) && fits
      invariant Shows(out[..], r, palette, indexes, pos)
    {
      if k + 1 >= |stream| {
        return false, pos;
      }
      var run, index := stream[k], stream[k + 1];
      if index >= |palette| && index != 0 {
        BadPair(stream[k..], |palette|);
        return false, pos;
      }
      NextPair(stream, |palette|, indexes, k, pos);
      PaintRun(out, r, palette, indexes, pos, run, index);
      pos := pos + run;
      k := k + 2;
    }
    assert stream[k..] == [];
  }

  // -------------------------------------------------------------- the encoder

  datatype Box = Empty | Box(x0: nat, x1: nat, y0: nat, y1: nat)

  /** `b` is the smallest rectangle that holds the pixels in s. */
  ghost predicate Bounds(b: Box, s: set<nat>) {
    if b.Empty? then s == {}
    else
      && (forall i :: i in s ==> b.x0 <= i % FRAME <= b.x1 && b.y0 <= i / FRAME <= b.y1)
      && (exists i :: i in s && i % FRAME == b.x0)
      && (exists i :: i in s && i % FRAME == b.x1)
      && (exists i :: i in s && i / FRAME == b.y0)
      && (exists i :: i in s && i / FRAME == b.y1)
  }

  function Min(a: nat, b: nat): nat { if a <= b then a else b }
  function Max(a: nat, b: nat): nat { if a <= b then b else a }

  function Grow(b: Box, i: nat): Box {
    var x, y := i % FRAME, i / FRAME;
    if b.Empty? then Box(x, x, y, y)
    else Box(Min(b.x0, x), Max(b.x1, x), Min(b.y0, y), Max(b.y1, y))
  }

  lemma GrowBounds(b: Box, s: set<nat>, i: nat)
    requires Bounds(b, s)
    ensures Bounds(Grow(b, i), s + {i})
  {
    var g, t := Grow(b, i), s + {i};
    assert i in t;
    if b.Box? {
      var i0 :| i0 in s && i0 % FRAME == b.x0;
      var i1 :| i1 in s && i1 % FRAME == b.x1;
      var j0 :| j0 in s && j0 / FRAME == b.y0;
      var j1 :| j1 in s && j1 / FRAME == b.y1;
      assert (if i % FRAME <= b.x0 then i else i0) in t;
      assert (if i % FRAME >= b.x1 then i else i1) in t;
      assert (if i / FRAME <= b.y0 then i else j0) in t;
      assert (if i / FRAME >= b.y1 then i else j1) in t;
    }
  }

  /** The opaque pixels among the first n of a frame, and their colours. */
  ghost function OpaqueIn(frame: Frame, n: nat): (s: set<nat>)
    requires n <= |frame|
    ensures forall i :: i in s <==> 0 <= i < n && frame[i].Some?
  {
    if n == 0 then {}
    else OpaqueIn(frame, n - 1) + (if frame[n - 1].Some? then {n - 1} else {})
  }

  ghost function ColoursIn(frame: Frame, n: nat): (s: set<int>)
    requires n <= |frame|
    ensures forall i :: 0 <= i < n && frame[i].Some? ==> frame[i].value in s
    ensures forall c :: c in s ==> 0 <= c < 65536
  {
    if n == 0 then {}
    else ColoursIn(frame, n - 1) + (if frame[n - 1].Some? then {frame[n - 1].value} else {})
  }

  ghost function OpaquePixels(frames: seq<Frame>): set<nat> {
    if frames == [] then {}
    else OpaquePixels(frames[..|frames| - 1]) + OpaqueIn(frames[|frames| - 1], |frames[|frames| - 1]|)
  }

  ghost function Colours(frames: seq<Frame>): (s: set<int>)
    ensures forall c :: c in s ==> 0 <= c < 65536
  {
    if frames == [] then {}
    else Colours(frames[..|frames| - 1]) + ColoursIn(frames[|frames| - 1], |frames[|frames| - 1]|)
  }

  lemma {:induction false} FrameCovered(frames: seq<Frame>, f: nat, i: nat)
    requires f < |frames| && i < FRAME_PIXELS && frames[f][i].Some?
    ensures i in OpaquePixels(frames) && frames[f][i].value in Colours(frames)
    decreases |frames|
  {
    if f < |frames| - 1 {
      FrameCovered(frames[..|frames| - 1], f, i);
    }
  }

  lemma {:induction false} OpaqueInRange(frames: seq<Frame>)
    ensures forall i :: i in OpaquePixels(frames) ==> i < FRAME_PIXELS
    decreases |frames|
  {
    if frames != [] {
      OpaqueInRange(frames[..|frames| - 1]);
    }
  }

  function GrowIf(b: Box, c: Option<Rgb565>, i: nat): Box {
    if c.Some? then Grow(b, i) else b
  }

  lemma SurveyStep(frame: Frame, i: nat, b: Box, seen: set<nat>)
    requires i < FRAME_PIXELS && Bounds(b, seen + OpaqueIn(frame, i))
    ensures Bounds(GrowIf(b, frame[i], i), seen + OpaqueIn(frame, i + 1))
  {
    var s := seen + OpaqueIn(frame, i);
    if frame[i].Some? {
      GrowBounds(b, s, i);
      assert seen + OpaqueIn(frame, i + 1) == s + {i};
    } else {
      assert seen + OpaqueIn(frame, i + 1) == s;
    }
  }

  function AddColour(colours: set<int>, c: Option<Rgb565>): set<int> {
    if c.Some? then colours + {c.value} else colours
  }

  lemma ColoursStep(frame: Frame, i: nat, colours: set<int>, colours0: set<int>)
    requires i < |frame| && colours == colours0 + ColoursIn(frame, i)
    ensures AddColour(colours, frame[i]) == colours0 + ColoursIn(frame, i + 1)
  {
  }

  method SurveyFrame(frame: Frame, b0: Box, colours0: set<int>, ghost seen: set<nat>)
    returns (b: Box, colours: set<int>)
    requires Bounds(b0, seen)
    ensures Bounds(b, seen + OpaqueIn(frame, |frame|))
    ensures colours == colours0 + ColoursIn(frame, |frame|)
  {
    b, colours := b0, colours0;
    assert seen + OpaqueIn(frame, 0) == seen;
    for i := 0 to |frame|
      invariant Surveyed(frame, i, b, colours, colours0, seen)
    {
      SurveyStep(frame, i, b, seen);
      ColoursStep(frame, i, colours, colours0);
      b, colours := GrowIf(b, frame[i], i), AddColour(colours, frame[i]);
    }
  }

  /** The first i pixels of the frame are accounted for. */
  ghost predicate Surveyed(frame: Frame, i: nat, b: Box, colours: set<int>, colours0: set<int>, seen: set<nat>)
    requires i <= |frame|
  {
    Bounds(b, seen + OpaqueIn(frame, i)) && colours == colours0 + ColoursIn(frame, i)
  }

  /** Bounding box and colour set, in one pass over all frames. */
  method Survey(frames: seq<Frame>) returns (b: Box, colours: set<int>)
    ensures Bounds(b, OpaquePixels(frames))
    ensures colours == Colours(frames)
  {
    b, colours := Empty, {};
    for f := 0 to |frames|
      invariant Bounds(b, OpaquePixels(frames[..f])) && colours == Colours(frames[..f])
    {
      b, colours := SurveyFrame(frames[f], b, colours, OpaquePixels(frames[..f]));
      assert frames[..f + 1][..f] == frames[..f];
    }
    assert frames[..|frames|] == frames;
  }

  predicate Increasing(s: seq<Rgb565>) {
    forall i, j :: 0 <= i < j < |s| ==> s[i] < s[j]
  }

  lemma Member<T>(s: set<T>) returns (x: T)
    requires s != {}
    ensures x in s
  {
    x :| x in s;
  }

  lemma Least(s: set<int>) returns (m: int)
    requires s != {}
    ensures m in s && forall y :: y in s ==> m <= y
  {
    m := Member(s);
    if s != {m} {
      var rest := s - {m};
      assert forall y :: y in s ==> y == m || y in rest;
      var n := Least(rest);
      m := if n < m then n else m;
    }
  }

  method Sorted(colours: set<int>) returns (s: seq<Rgb565>)
    requires forall c :: c in colours ==> 0 <= c < 65536
    ensures Increasing(s) && |s| == |colours|
    ensures forall c :: c in colours ==> c in s
  {
    s := [];
    var rest := colours;
    while rest != {}
      invariant Increasing(s) && |s| + |rest| == |colours|
      invariant rest <= colours
      invariant forall c :: c in colours ==> c in s || c in rest
      invariant forall i, c :: 0 <= i < |s| && c in rest ==> s[i] < c
    {
      ghost var least := Least(rest);
      var m :| m in rest && forall y :: y in rest ==> m <= y;
      s, rest := s + [m], rest - {m};
    }
  }

  /** The bytes a source pixel should show. */
  function PixelBytes(c: Option<Rgb565>): (px: seq<Byte>)
    ensures |px| == 4
  {
    match c case None => CLEAR case Some(v) => ExpandBgra(v)
  }

  /** A source pixel's palette index: 0 is transparent. */
  ghost predicate IndexMeans(palette: seq<Rgb565>, index: Byte, c: Option<Rgb565>) {
    index < |palette| && (index == 0 <==> c.None?) && (c.Some? ==> palette[index] == c.value)
  }

  method CropFrame(frame: Frame, r: Rect, palette: seq<Rgb565>, index: map<Rgb565, Byte>) returns (cropped: seq<Byte>)
    requires RectInFrame(r)
    requires IndexFor(palette, index) && FrameFits(frame, r, index)
    ensures |cropped| == r.w * r.h
    ensures forall p :: 0 <= p < |cropped| ==> FramePixel(r, p) < FRAME_PIXELS
    ensures forall p :: 0 <= p < |cropped| ==> IndexMeans(palette, cropped[p], frame[FramePixel(r, p)])
  {
    cropped := [];
    for y := 0 to r.h
      invariant |cropped| == y * r.w && CropMeans(palette, cropped, frame, r)
    {
      for x := 0 to r.w
        invariant |cropped| == y * r.w + x && CropMeans(palette, cropped, frame, r)
      {
        var c := frame[(r.y0 + y) * FRAME + r.x0 + x];
        CropNext(palette, cropped, frame, r, index, x, y);
        cropped := cropped + [if c.None? then 0 else index[c.value]];
      }
      assert (y + 1) * r.w == y * r.w + r.w;
    }
  }

  ghost predicate CropMeans(palette: seq<Rgb565>, cropped: seq<Byte>, frame: Frame, r: Rect)
    requires RectInFrame(r)
  {
    forall p :: 0 <= p < |cropped| ==>
      FramePixel(r, p) < FRAME_PIXELS && IndexMeans(palette, cropped[p], frame[FramePixel(r, p)])
  }

  lemma CropNext(palette: seq<Rgb565>, cropped: seq<Byte>, frame: Frame, r: Rect, index: map<Rgb565, Byte>, x: nat,
                 y: nat)
    requires RectInFrame(r) && x < r.w && y < r.h
    requires IndexFor(palette, index) && FrameFits(frame, r, index)
    requires |cropped| == y * r.w + x && CropMeans(palette, cropped, frame, r)
    ensures var c := frame[(r.y0 + y) * FRAME + r.x0 + x];
      (c.Some? ==> c.value in index) && CropMeans(palette, cropped + [if c.None? then 0 else index[c.value]], frame, r)
  {
    DivModOf(y, r.w, x);
    assert FramePixel(r, |cropped|) == (r.y0 + y) * FRAME + r.x0 + x;
  }

  /** What a sheet must satisfy to be a faithful encoding of its frames. */
  ghost predicate FaithfulStream(r: Rect, palette: seq<Rgb565>, stream: seq<Byte>, frame: Frame) {
    && WellFormed(stream, |palette|)
    && |ExpandRuns(stream)| == r.w * r.h
    && stream == GreedyRle(ExpandRuns(stream))
    && forall i :: 0 <= i < FRAME_PIXELS ==>
         PixelAfter(r, palette, ExpandRuns(stream), r.w * r.h, i) == PixelBytes(frame[i])
  }

  lemma StreamFaithful(r: Rect, palette: seq<Rgb565>, cropped: seq<Byte>, frame: Frame)
    requires RectInFrame(r) && |cropped| == r.w * r.h && |palette| <= 256
    requires forall p :: 0 <= p < |cropped| ==> FramePixel(r, p) < FRAME_PIXELS
    requires forall p :: 0 <= p < |cropped| ==> IndexMeans(palette, cropped[p], frame[FramePixel(r, p)])
    requires forall i :: 0 <= i < FRAME_PIXELS && frame[i].Some? ==> InRect(r, i)
    ensures FaithfulStream(r, palette, GreedyRle(cropped), frame)
  {
    GreedyExpands(cropped, |palette|);
    forall i | 0 <= i < FRAME_PIXELS
      ensures PixelAfter(r, palette, cropped, r.w * r.h, i) == PixelBytes(frame[i])
    {
      if InRect(r, i) {
        CropPosBelow(r, i);
      }
      PixelFaithful(r, palette, cropped, frame, i);
    }
  }

  lemma PixelFaithful(r: Rect, palette: seq<Rgb565>, cropped: seq<Byte>, frame: Frame, i: nat)
    requires RectInFrame(r) && |cropped| == r.w * r.h && i < FRAME_PIXELS
    requires InRect(r, i) ==>
      0 <= CropPos(r, i) < |cropped| && FramePixel(r, CropPos(r, i)) == i &&
        IndexMeans(palette, cropped[CropPos(r, i)], frame[i])
    requires frame[i].Some? ==> InRect(r, i)
    ensures PixelAfter(r, palette, cropped, r.w * r.h, i) == PixelBytes(frame[i])
  {
  }

  ghost predicate IndexFor(palette: seq<Rgb565>, index: map<Rgb565, Byte>) {
    0 < |palette| <= 256 && forall c :: c in index ==> 0 < index[c] < |palette| && palette[index[c]] == c
  }

  ghost predicate FrameFits(frame: Frame, r: Rect, index: map<Rgb565, Byte>) {
    forall i :: 0 <= i < FRAME_PIXELS && frame[i].Some? ==> InRect(r, i) && frame[i].value in index
  }

  function RectOf(b: Box): Rect
    requires b.Box?
  {
    if b.x0 <= b.x1 && b.y0 <= b.y1 then Rect(b.x0, b.y0, b.x1 - b.x0 + 1, b.y1 - b.y0 + 1) else Rect(0, 0, 0, 0)
  }

  lemma RectOfBounds(b: Box, s: set<nat>)
    requires b.Box? && Bounds(b, s) && forall i :: i in s ==> i < FRAME_PIXELS
    ensures b.x0 <= b.x1 && b.y0 <= b.y1 && RectInFrame(RectOf(b))
    ensures forall i :: i in s ==> InRect(RectOf(b), i)
  {
    var i0 :| i0 in s && i0 % FRAME == b.x0;
    var i1 :| i1 in s && i1 % FRAME == b.x1;
    var j1 :| j1 in s && j1 / FRAME == b.y1;
  }

  /** Cropping and encoding one frame. */
  method EncodeOne(frame: Frame, r: Rect, palette: seq<Rgb565>, index: map<Rgb565, Byte>) returns (stream: seq<Byte>)
    requires RectInFrame(r) && IndexFor(palette, index) && FrameFits(frame, r, index)
    ensures FaithfulStream(r, palette, stream, frame)
  {
    var cropped := CropFrame(frame, r, palette, index);
    stream := EncodeRuns(cropped);
    StreamFaithful(r, palette, cropped, frame);
  }

  method EncodeFrames(frames: seq<Frame>, r: Rect, palette: seq<Rgb565>, index: map<Rgb565, Byte>)
    returns (streams: seq<seq<Byte>>)
    requires RectInFrame(r) && IndexFor(palette, index)
    requires forall f :: 0 <= f < |frames| ==> FrameFits(frames[f], r, index)
    ensures |streams| == |frames|
    ensures forall f :: 0 <= f < |frames| ==> FaithfulStream(r, palette, streams[f], frames[f])
  {
    streams := [];
    for f := 0 to |frames|
      invariant |streams| == f
      invariant forall g :: 0 <= g < f ==> FaithfulStream(r, palette, streams[g], frames[g])
    {
      var stream := EncodeOne(frames[f], r, palette, index);
      streams := streams + [stream];
    }
  }

  method BuildIndex(palette: seq<Rgb565>) returns (index: map<Rgb565, Byte>)
    requires 0 < |palette| <= 256 && Increasing(palette[1..])
    ensures IndexFor(palette, index)
    ensures forall c :: c in palette[1..] ==> c in index
  {
    assert forall i :: 1 <= i < |palette| ==> palette[i] == palette[1..][i - 1];
    index := map i | 1 <= i < |palette| :: palette[i] := i;
  }

  method EncodeSheet(frames: seq<Frame>) returns (result: EncodeResult)
    ensures result == EncodeFailed(NoOpaquePixel) <==> OpaquePixels(frames) == {}
    ensures result == EncodeFailed(TooManyColours) <==> OpaquePixels(frames) != {} && |Colours(frames)| > 255
    ensures result.Encoded? <==> OpaquePixels(frames) != {} && |Colours(frames)| <= 255
    ensures result.Encoded? ==>
      && RectInFrame(result.rect)
      && (exists b: Box :: b.Box? && Bounds(b, OpaquePixels(frames)) && result.rect == RectOf(b))
      && |result.palette| == |Colours(frames)| + 1 && result.palette[0] == 0 && Increasing(result.palette[1..])
      && |result.streams| == |frames|
      && forall f :: 0 <= f < |frames| ==> FaithfulStream(result.rect, result.palette, result.streams[f], frames[f])
  {
    var b, colours := Survey(frames);
    if b.Empty? {
      return EncodeFailed(NoOpaquePixel);
    }
    OpaqueInRange(frames);
    RectOfBounds(b, OpaquePixels(frames));
    assert OpaquePixels(frames) != {};
    var r := RectOf(b);
    var sorted := Sorted(colours);
    var palette := [0] + sorted;
    assert palette[1..] == sorted;
    if |palette| > 256 {
      return EncodeFailed(TooManyColours);
    }
    var index := BuildIndex(palette);
    forall f | 0 <= f < |frames|
      ensures FrameFits(frames[f], r, index)
    {
      forall i | 0 <= i < FRAME_PIXELS && frames[f][i].Some?
        ensures InRect(r, i) && frames[f][i].value in index
      {
        FrameCovered(frames, f, i);
        assert frames[f][i].value in sorted;
      }
    }
    var streams := EncodeFrames(frames, r, palette, index);
    result := Encoded(r, palette, streams);
  }

  // ------------------------------------------------------------- round trip

  ghost function ExpectedFrom(frame: Frame): (out: seq<Byte>) {
    seq(FRAME_BYTES, k requires 0 <= k < FRAME_BYTES => PixelBytes(frame[k / 4])[k % 4])
  }

  /** expected_frame: the source pixels, expanded, in order. */
  method ExpectedFrame(frame: Frame) returns (out: seq<Byte>)
    ensures out == ExpectedFrom(frame)
  {
    out := [];
    for i := 0 to |frame|
      invariant |out| == 4 * i
      invariant forall k :: 0 <= k < |out| ==> out[k] == PixelBytes(frame[k / 4])[k % 4]
    {
      ExpectedStep(frame, out, i);
      out := out + PixelBytes(frame[i]);
    }
  }

  lemma ExpectedStep(frame: Frame, out: seq<Byte>, i: nat)
    requires i < FRAME_PIXELS && |out| == 4 * i
    requires forall k :: 0 <= k < |out| ==> out[k] == PixelBytes(frame[k / 4])[k % 4]
    ensures forall k :: 0 <= k < 4 * i + 4 ==> (out + PixelBytes(frame[i]))[k] == PixelBytes(frame[k / 4])[k % 4]
  {
    forall k | 4 * i <= k < 4 * i + 4
      ensures k / 4 == i && k % 4 == k - 4 * i
    {
    }
  }

  lemma ByteOfPixel(out: seq<Byte>, frame: Frame, i: nat, m: nat)
    requires |out| == FRAME_BYTES && i < FRAME_PIXELS && m < 4
    requires out[4 * i..4 * i + 4] == PixelBytes(frame[i])
    ensures out[4 * i + m] == PixelBytes(frame[i])[m]
  {
    assert out[4 * i + m] == out[4 * i..4 * i + 4][m];
  }

  lemma BytesOfPixels(out: seq<Byte>, frame: Frame)
    requires |out| == FRAME_BYTES
    requires forall i :: 0 <= i < FRAME_PIXELS ==> out[4 * i..4 * i + 4] == PixelBytes(frame[i])
    ensures out == ExpectedFrom(frame)
  {
    forall k | 0 <= k < FRAME_BYTES
      ensures out[k] == ExpectedFrom(frame)[k]
    {
      ByteAt(out, frame, k);
    }
  }

  lemma ByteAt(out: seq<Byte>, frame: Frame, k: nat)
    requires |out| == FRAME_BYTES && k < FRAME_BYTES
    requires out[4 * (k / 4)..4 * (k / 4) + 4] == PixelBytes(frame[k / 4])
    ensures out[k] == ExpectedFrom(frame)[k]
  {
    assert k == 4 * (k / 4) + k % 4;
    ByteOfPixel(out, frame, k / 4, k % 4);
  }

  /** A buffer that shows a faithful stream is, byte for byte, the expected frame. */
  lemma RoundTrip(r: Rect, palette: seq<Rgb565>, stream: seq<Byte>, frame: Frame, out: seq<Byte>)
    requires RectInFrame(r) && FaithfulStream(r, palette, stream, frame)
    requires Shows(out, r, palette, ExpandRuns(stream), r.w * r.h)
    ensures out == ExpectedFrom(frame)
  {
    var indexes, done := ExpandRuns(stream), r.w * r.h;
    forall i | 0 <= i < FRAME_PIXELS
      ensures out[4 * i..4 * i + 4] == PixelBytes(frame[i])
    {
      assert out[4 * i..4 * i + 4] == PixelAfter(r, palette, indexes, done, i);
    }
    BytesOfPixels(out, frame);
  }

  /** What the Python decoder returned, and what the C decoder wrote and read. */
  datatype Picture = Picture(python: DecodeResult, bytes: seq<Byte>, read: nat)

  /** Both decoders gave exactly the source frame, and C consumed exactly its stream. */
  ghost predicate Perfect(p: Picture, stream: seq<Byte>, frame: Frame) {
    p.python == Decoded(ExpectedFrom(frame)) && p.bytes == ExpectedFrom(frame) && p.read == |stream|
  }

  /** One frame's check: what the Python decoder and the C decoder make of it. */
  method CheckFrame(r: Rect, palette: seq<Rgb565>, stream: seq<Byte>, frame: Frame) returns (matches: bool, p: Picture)
    requires RectInFrame(r) && FaithfulStream(r, palette, stream, frame)
    ensures matches && Perfect(p, stream, frame)
  {
    var want := ExpectedFrame(frame);
    WellFormedPairsFit(stream, |palette|);
    var got := DecodeFrame(r, palette, stream);
    RoundTrip(r, palette, stream, frame, got.bytes);
    var out := new Byte[FRAME_BYTES](_ => 0);
    var read := SpriteDecodeFrame(r, palette, stream, out);
    RoundTrip(r, palette, stream, frame, out[..]);
    p := Picture(got, out[..], read);
    matches := got == Decoded(want) && out[..] == want;
  }

  method CheckFrames(r: Rect, palette: seq<Rgb565>, streams: seq<seq<Byte>>, frames: seq<Frame>)
    returns (mismatch: bool, pictures: seq<Picture>)
    requires RectInFrame(r) && |streams| == |frames|
    requires forall f :: 0 <= f < |frames| ==> FaithfulStream(r, palette, streams[f], frames[f])
    ensures !mismatch && |pictures| == |frames| && AllPerfect(pictures, streams, frames)
  {
    mismatch, pictures := false, [];
    for f := 0 to |frames|
      invariant !mismatch && |pictures| == f && AllPerfect(pictures, streams, frames)
    {
      var ok, p := CheckFrame(r, palette, streams[f], frames[f]);
      mismatch := mismatch || !ok;
      AllPerfectSnoc(pictures, streams, frames, p);
      pictures := pictures + [p];
    }
  }

  ghost predicate AllPerfect(pictures: seq<Picture>, streams: seq<seq<Byte>>, frames: seq<Frame>) {
    |pictures| <= |streams| && |pictures| <= |frames| &&
    forall f :: 0 <= f < |pictures| ==> Perfect(pictures[f], streams[f], frames[f])
  }

  lemma AllPerfectSnoc(pictures: seq<Picture>, streams: seq<seq<Byte>>, frames: seq<Frame>, p: Picture)
    requires AllPerfect(pictures, streams, frames) && |pictures| < |streams| && |pictures| < |frames|
    requires Perfect(p, streams[|pictures|], frames[|pictures|])
    ensures AllPerfect(pictures + [p], streams, frames)
  {
  }

  /** The check main() makes before it writes anything, extended to the C decoder:
      it never finds a mismatch. */
  method ConvertSheet(frames: seq<Frame>) returns (result: EncodeResult, mismatch: bool, pictures: seq<Picture>)
    ensures !mismatch
    ensures result.Encoded? <==> OpaquePixels(frames) != {} && |Colours(frames)| <= 255
    ensures result.Encoded? ==>
      |pictures| == |result.streams| == |frames| && AllPerfect(pictures, result.streams, frames)
  {
    mismatch, pictures := false, [];
    result := EncodeSheet(frames);
    if result.Encoded? {
      mismatch, pictures := CheckFrames(result.rect, result.palette, result.streams, frames);
    }
  }

  // ---------------------------------------------------------------- the codec, told plainly

  /** Reducing a colour keeps the leading bits of each channel, red first. */
  lemma ReduceKeepsLeadingBits(r: Byte, g: Byte, b: Byte)
    ensures var c := ToRgb565(r, g, b); c / 2048 == r / 8 && (c / 32) % 64 == g / 4 && c % 32 == b / 8
  {
    DivModOf((r / 8) * 64 + g / 4, 32, b / 8);
    DivModOf(r / 8, 64, g / 4);
    DivModOf(r / 8, 2048, (g / 4) * 32 + b / 8);
  }

  /** The source pixel in four bytes, blue first: all zero if it is transparent; otherwise
      opaque, and of the same colour when reduced again. */
  predicate ShowsPixel(px: seq<Byte>, c: Option<Rgb565>) {
    |px| == 4 && if c.None? then px == [0, 0, 0, 0] else px[3] == 255 && ToRgb565(px[2], px[1], px[0]) == c.value
  }

  /** A perfect picture shows every source pixel, from both decoders. */
  lemma PerfectShowsSource(p: Picture, stream: seq<Byte>, frame: Frame, i: nat)
    requires Perfect(p, stream, frame) && i < FRAME_PIXELS
    ensures |p.bytes| == 4 * 4096 && p.python == Decoded(p.bytes)
    ensures ShowsPixel(p.bytes[4 * i..4 * i + 4], frame[i])
  {
    BytesShowPixel(frame, i);
    PixelShows(frame[i]);
  }

  lemma BytesShowPixel(frame: Frame, i: nat)
    requires i < FRAME_PIXELS
    ensures ExpectedFrom(frame)[4 * i..4 * i + 4] == PixelBytes(frame[i])
  {
    var e := ExpectedFrom(frame);
    forall m | 0 <= m < 4
      ensures e[4 * i + m] == PixelBytes(frame[i])[m]
    {
      assert (4 * i + m) / 4 == i && (4 * i + m) % 4 == m;
    }
  }

  lemma PixelShows(c: Option<Rgb565>)
    ensures ShowsPixel(PixelBytes(c), c)
  {
    if c.Some? {
      ExpandKeepsColour(c.value);
    }
  }

  /** A run is a count and then an index; a longer one is cut after 255. */
  lemma RunEncoding(v: Byte, n: nat)
    requires 1 <= n
    ensures GreedyRle(seq(n, _ => v)) == if n <= 255 then [n, v] else [255, v] + GreedyRle(seq(n - 255, _ => v))
  {
    var s: seq<Byte> := seq(n, _ => v);
    var m := RunFrom(s, 1);
    assert m == if n <= 255 then n else 255;
    assert s[m..] == seq(n - m, _ => v);
    assert GreedyRle(s) == [m, s[0]] + GreedyRle(s[m..]);
  }

  /** The crop is read row by row: it starts at the rectangle's corner, goes right within a
      row, and from the end of one row to the start of the next. */
  lemma CropRowByRow(r: Rect, p: nat)
    requires 0 < r.w
    ensures FramePixel(r, 0) == r.y0 * 64 + r.x0
    ensures (p + 1) % r.w != 0 ==> FramePixel(r, p + 1) == FramePixel(r, p) + 1
    ensures (p + 1) % r.w == 0 ==> FramePixel(r, p + 1) == FramePixel(r, p) + 64 - (r.w - 1)
  {
    NextQuotient(p, r.w);
  }

  lemma NextQuotient(p: nat, w: nat)
    requires 0 < w
    ensures (p + 1) % w != 0 ==> (p + 1) / w == p / w && (p + 1) % w == p % w + 1
    ensures (p + 1) % w == 0 ==> (p + 1) / w == p / w + 1 && p % w == w - 1
    ensures 0 / w == 0 && 0 % w == 0
  {
    DivModLaw(p, w);
    DivModLaw(p + 1, w);
    if p % w + 1 < w {
      QuotientUnique(p / w, p % w + 1, (p + 1) / w, (p + 1) % w, w);
    } else {
      assert (p / w + 1) * w == p / w * w + w;
      QuotientUnique(p / w + 1, 0, (p + 1) / w, (p + 1) % w, w);
    }
  }

  /** The pixels that some frame has opaque, and the colours in use. */
  lemma {:induction false} OpaqueExactly(frames: seq<Frame>, i: nat)
    ensures i in OpaquePixels(frames) <==> exists f :: 0 <= f < |frames| && i < |frames[f]| && frames[f][i].Some?
    decreases |frames|
  {
    if frames != [] {
      var n := |frames| - 1;
      OpaqueExactly(frames[..n], i);
      assert forall f :: 0 <= f < n ==> frames[..n][f] == frames[f];
    }
  }

  lemma {:induction false} ColoursInExactly(frame: Frame, n: nat, c: int)
    requires n <= |frame| && c in ColoursIn(frame, n)
    ensures exists i :: 0 <= i < n && frame[i].Some? && frame[i].value == c
    decreases n
  {
    if n > 0 && !(frame[n - 1].Some? && frame[n - 1].value == c) {
      ColoursInExactly(frame, n - 1, c);
    }
  }

  ghost predicate UsesColour(frame: Frame, c: int) {
    exists i :: 0 <= i < |frame| && frame[i].Some? && frame[i].value == c
  }

  lemma {:induction false} ColoursExactly(frames: seq<Frame>, c: int)
    ensures c in Colours(frames) <==> exists f :: 0 <= f < |frames| && UsesColour(frames[f], c)
    decreases |frames|
  {
    if frames != [] {
      var n := |frames| - 1;
      ColoursExactly(frames[..n], c);
      assert forall f :: 0 <= f < n ==> frames[..n][f] == frames[f];
      if c in ColoursIn(frames[n], |frames[n]|) {
        ColoursInExactly(frames[n], |frames[n]|, c);
      }
    }
  }

  /** The rectangle is tight: it holds every opaque pixel, and one on each of its edges. */
  lemma RectIsTight(b: Box, s: set<nat>, i: nat)
    requires b.Box? && Bounds(b, s)
    ensures var r := RectOf(b);
      && (i in s ==> r.x0 <= i % 64 < r.x0 + r.w && r.y0 <= i / 64 < r.y0 + r.h)
      && (exists k :: k in s && k % 64 == r.x0) && (exists k :: k in s && k % 64 == r.x0 + r.w - 1)
      && (exists k :: k in s && k / 64 == r.y0) && (exists k :: k in s && k / 64 == r.y0 + r.h - 1)
  {
    var k :| k in s && k % FRAME == b.x0;
    assert b.x0 <= b.x1 && b.y0 <= b.y1;
  }
}

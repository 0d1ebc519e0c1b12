/** The screensaver's buffer pool (screensaver_direct.c): the renderer and the push
    task hand buffer indexes to each other through two bounded queues. Every step
    below is atomic; any interleaving of the two tasks is a run. */
module FramePool {
  import opened Options

  /** Holding: taken from the free queue. Composed: the frame is drawn, not yet queued. */
  datatype Renderer = Resting | Holding(i: nat) | Composed(i: nat)

  /** Pushing: the panel is being written. Returning: the push is over, well or badly. */
  datatype Pusher = Waiting | Pushing(j: nat) | Returning(j: nat)

  /** `contents` numbers the frame each buffer holds, `drawn` counts frames composed,
      `pushed` lists the frames handed to the panel. */
  datatype Pool = Pool(n: nat, free: seq<nat>, ready: seq<nat>, renderer: Renderer, pusher: Pusher,
                       contents: seq<nat>, drawn: nat, pushed: seq<nat>)

  datatype Step =
    | TakeFree        // xQueueReceive(s_free_queue)
    | MutexFails      // the render mutex cannot be taken: recovery send, no wait
    | Compose         // effect, scrim and text into the held buffer
    | SendReady       // xQueueSend(s_ready_queue), waits while full
    | SendGivesUp     // the ready send fails, which needs a full queue: recovery send
    | ReceiveReady    // the push task wakes
    | PushEnds(ok: bool)
    | ReturnFree      // xQueueSend(s_free_queue), waits while full

  function Range(n: nat): seq<nat> {
    seq(n, i requires 0 <= i < n => i)
  }

  function Start(n: nat): Pool {
    Pool(n, Range(n), [], Resting, Waiting, seq(n, _ => 0), 0, [])
  }

  /** A send that does not wait loses the index when the queue is full. */
  function TrySend(queue: seq<nat>, i: nat, capacity: nat): seq<nat> {
    if |queue| < capacity then queue + [i] else queue
  }

  /** One step, or None when its FreeRTOS task has to wait. */
  function Next(s: Pool, step: Step): Option<Pool> {
    match step
    case TakeFree =>
      if s.renderer.Resting? && s.free != []
      then Some(s.(renderer := Holding(s.free[0]), free := s.free[1..])) else None
    case MutexFails =>
      if s.renderer.Holding? then Some(s.(renderer := Resting, free := TrySend(s.free, s.renderer.i, s.n))) else None
    case Compose =>
      if s.renderer.Holding? && s.renderer.i < |s.contents|
      then
        Some(s.(renderer := Composed(s.renderer.i), contents := s.contents[s.renderer.i := s.drawn],
                drawn := s.drawn + 1))
      else None
    case SendReady =>
      if s.renderer.Composed? && |s.ready| < s.n
      then Some(s.(renderer := Resting, ready := s.ready + [s.renderer.i])) else None
    case SendGivesUp =>
      if s.renderer.Composed? && |s.ready| >= s.n
      then Some(s.(renderer := Resting, free := TrySend(s.free, s.renderer.i, s.n))) else None
    case ReceiveReady =>
      if s.pusher.Waiting? && s.ready != [] && s.ready[0] < |s.contents|
      then Some(s.(pusher := Pushing(s.ready[0]), ready := s.ready[1..], pushed := s.pushed + [s.contents[s.ready[0]]]))
      else None
    case PushEnds(ok) =>
      if s.pusher.Pushing? then Some(s.(pusher := Returning(s.pusher.j))) else None
    case ReturnFree =>
      if s.pusher.Returning? && |s.free| < s.n then Some(s.(pusher := Waiting, free := s.free + [s.pusher.j])) else None
  }

  /** The state after a run, or None when the run contains a step that had to wait. */
  function Run(n: nat, steps: seq<Step>): Option<Pool> {
    if steps == [] then Some(Start(n))
    else
      var s := Run(n, steps[..|steps| - 1]);
      if s.None? then None else Next(s.value, steps[|steps| - 1])
  }

  ghost predicate RendererHas(s: Pool, i: nat) {
    !s.renderer.Resting? && s.renderer.i == i
  }

  ghost predicate PusherHas(s: Pool, i: nat) {
    !s.pusher.Waiting? && s.pusher.j == i
  }

  ghost function Count(queue: seq<nat>, i: nat): nat {
    if queue == [] then 0 else Count(queue[..|queue| - 1], i) + (if queue[|queue| - 1] == i then 1 else 0)
  }

  /** In how many places index i is. */
  ghost function Places(s: Pool, i: nat): nat {
    Count(s.free, i) + (if RendererHas(s, i) then 1 else 0) + Count(s.ready, i) + (if PusherHas(s, i) then 1 else 0)
  }

  ghost function Total(s: Pool): nat {
    |s.free| + (if s.renderer.Resting? then 0 else 1) + |s.ready| + (if s.pusher.Waiting? then 0 else 1)
  }

  function At(contents: seq<nat>, i: nat): nat {
    if i < |contents| then contents[i] else 0
  }

  function FramesOf(contents: seq<nat>, queue: seq<nat>): (frames: seq<nat>)
    ensures |frames| == |queue|
  {
    seq(|queue|, k requires 0 <= k < |queue| => At(contents, queue[k]))
  }

  /** Frames handed to the panel, then those queued, then the one just drawn. */
  function Pipeline(s: Pool): seq<nat> {
    s.pushed + FramesOf(s.contents, s.ready) + (if s.renderer.Composed? then [At(s.contents, s.renderer.i)] else [])
  }

  ghost predicate Inv(s: Pool) {
    && |s.contents| == s.n
    && Total(s) == s.n
    && (forall i: nat :: Places(s, i) == if i < s.n then 1 else 0)
    && InOrder(s)
  }

  ghost predicate InOrder(s: Pool) {
    && Pipeline(s) == Range(s.drawn)
    && (s.pusher.Pushing? ==> s.pushed != [] && At(s.contents, s.pusher.j) == s.pushed[|s.pushed| - 1])
  }

  lemma CountSnoc(queue: seq<nat>, x: nat, i: nat)
    ensures Count(queue + [x], i) == Count(queue, i) + (if x == i then 1 else 0)
  {
    assert (queue + [x])[..|queue|] == queue;
  }

  lemma {:induction false} CountFront(queue: seq<nat>, i: nat)
    requires queue != []
    ensures Count(queue, i) == Count(queue[1..], i) + (if queue[0] == i then 1 else 0)
    decreases |queue|
  {
    if |queue| > 1 {
      var n := |queue| - 1;
      CountFront(queue[..n], i);
      assert queue[1..][..n - 1] == queue[..n][1..];
    }
  }

  lemma {:induction false} CountedIn(queue: seq<nat>, k: nat)
    requires k < |queue|
    ensures Count(queue, queue[k]) >= 1
    decreases |queue|
  {
    if k < |queue| - 1 {
      CountedIn(queue[..|queue| - 1], k);
    }
  }

  lemma {:induction false} CountRange(n: nat, i: nat)
    ensures Count(Range(n), i) == if i < n then 1 else 0
  {
    if n > 0 {
      CountRange(n - 1, i);
      assert Range(n) == Range(n - 1) + [n - 1];
      CountSnoc(Range(n - 1), n - 1, i);
    }
  }

  /** The renderer's buffer is neither queued nor being pushed. */
  lemma RendererOwnsAlone(s: Pool)
    requires Inv(s) && !s.renderer.Resting?
    ensures s.renderer.i < s.n && !PusherHas(s, s.renderer.i)
    ensures forall k :: 0 <= k < |s.ready| ==> s.ready[k] != s.renderer.i
  {
    assert Places(s, s.renderer.i) <= 1;
    forall k | 0 <= k < |s.ready|
      ensures s.ready[k] != s.renderer.i
    {
      CountedIn(s.ready, k);
    }
  }

  lemma StepKeepsPlaces(s: Pool, step: Step, t: Pool, i: nat)
    requires Next(s, step) == Some(t) && Total(s) == s.n
    ensures Places(t, i) == Places(s, i)
  {
    match step
    case TakeFree => CountFront(s.free, i);
    case ReceiveReady => CountFront(s.ready, i);
    case MutexFails => CountSnoc(s.free, s.renderer.i, i);
    case SendReady => CountSnoc(s.ready, s.renderer.i, i);
    case ReturnFree => CountSnoc(s.free, s.pusher.j, i);
    case Compose =>
    case SendGivesUp =>
    case PushEnds(_) =>
  }

  lemma StepKeepsOrder(s: Pool, step: Step, t: Pool)
    requires Inv(s) && Next(s, step) == Some(t)
    ensures |t.contents| == t.n && InOrder(t)
  {
    match step
    case Compose =>
      RendererOwnsAlone(s);
      assert FramesOf(t.contents, t.ready) == FramesOf(s.contents, s.ready);
      assert Range(t.drawn) == Range(s.drawn) + [s.drawn];
    case SendReady =>
      assert FramesOf(t.contents, t.ready) == FramesOf(s.contents, s.ready) + [At(s.contents, s.renderer.i)];
    case ReceiveReady =>
      assert FramesOf(s.contents, s.ready) == [At(s.contents, s.ready[0])] + FramesOf(t.contents, t.ready);
    case SendGivesUp =>
    case TakeFree =>
    case MutexFails =>
    case PushEnds(_) =>
    case ReturnFree =>
  }

  lemma StepKeepsInv(s: Pool, step: Step, t: Pool)
    requires Inv(s) && Next(s, step) == Some(t)
    ensures Inv(t) && t.n == s.n
  {
    forall i: nat
      ensures Places(t, i) == if i < t.n then 1 else 0
    {
      StepKeepsPlaces(s, step, t, i);
    }
    StepKeepsOrder(s, step, t);
  }

  lemma StartInv(n: nat)
    ensures Inv(Start(n))
  {
    forall i: nat
      ensures Places(Start(n), i) == if i < n then 1 else 0
    {
      CountRange(n, i);
    }
    assert Pipeline(Start(n)) == Range(0);
  }

  /** The invariant holds after every run of any length, in any interleaving. */
  lemma {:induction false} RunsKeepInv(n: nat, steps: seq<Step>)
    requires Run(n, steps).Some?
    ensures Inv(Run(n, steps).value) && Run(n, steps).value.n == n
    decreases |steps|
  {
    if steps == [] {
      StartInv(n);
    } else {
      var before := Run(n, steps[..|steps| - 1]).value;
      RunsKeepInv(n, steps[..|steps| - 1]);
      StepKeepsInv(before, steps[|steps| - 1], Run(n, steps).value);
    }
  }

  /** What the invariant means for the code, after every run: each buffer is in one
      place, no send finds its queue full (so no index is ever lost and nobody waits to
      send), the panel gets every frame in the order drawn with none skipped or torn. */
  lemma PoolSafety(n: nat, steps: seq<Step>)
    requires Run(n, steps).Some?
    ensures var s := Run(n, steps).value;
      && (forall i :: 0 <= i < n ==>
           Places(s, i) == 1)
      && (s.renderer.Holding? || s.pusher.Returning? ==> |s.free| < n)
      && (s.renderer.Composed? ==> |s.ready| < n)
      && Next(s, SendGivesUp).None?
      && s.pushed <= Range(s.drawn)
      && (s.pusher.Pushing? ==>
           0 < |s.pushed| && s.pusher.j < |s.contents| && s.contents[s.pusher.j] == s.pushed[|s.pushed| - 1])
  {
    RunsKeepInv(n, steps);
    var s := Run(n, steps).value;
    assert s.pushed <= Pipeline(s);
    if s.pusher.Pushing? {
      assert Places(s, s.pusher.j) >= 1;
    }
  }

  /** screensaver_direct_wait_idle: the free queue counts n exactly when nobody holds a
      buffer, and then every frame drawn has reached the panel. */
  lemma IdleMeansDrained(n: nat, steps: seq<Step>)
    requires Run(n, steps).Some?
    ensures var s := Run(n, steps).value;
      && (|s.free| == n <==> s.renderer.Resting? && s.pusher.Waiting? && s.ready == [])
      && (|s.free| == n ==> s.pushed == Range(s.drawn))
  {
    RunsKeepInv(n, steps);
    var s := Run(n, steps).value;
    if |s.free| == n {
      assert Pipeline(s) == s.pushed;
    }
  }

  /** With at least one buffer the two tasks never wait for each other. */
  lemma NeverStuck(n: nat, steps: seq<Step>) returns (step: Step)
    requires 0 < n && Run(n, steps).Some?
    ensures Next(Run(n, steps).value, step).Some? && Run(n, steps + [step]).Some?
  {
    RunsKeepInv(n, steps);
    var s := Run(n, steps).value;
    step := match s.renderer
      case Holding(_) => Compose
      case Composed(_) => SendReady
      case Resting =>
        match s.pusher
        case Pushing(_) => PushEnds(true)
        case Returning(_) => ReturnFree
        case Waiting => if s.free != [] then TakeFree else ReceiveReady;
    if s.renderer.Holding? {
      RendererOwnsAlone(s);
    }
    if step.ReceiveReady? {
      CountedIn(s.ready, 0);
      assert Places(s, s.ready[0]) >= 1;
    }
    assert (steps + [step])[..|steps|] == steps;
  }
}

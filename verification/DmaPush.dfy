/** Pushing rows to the panel through one shared DMA buffer (bsp_display.c). The
    transfer-done interrupt gives a binary semaphore; it may fire between any two
    operations of the push. */
module DmaPush {
  /** BSP_DMA_BUF_LINES. */
  const DMA_LINES: nat := 64

  type Row = seq<bv16>

  /** Rows sent to the panel from row `top` on. */
  datatype Transfer = Transfer(top: nat, rows: seq<Row>)

  /** `started` lists the transfers begun so far; the last `running` of them are still
      reading the DMA buffer. `torn` records that the buffer was overwritten meanwhile;
      `tick` counts the chances the interrupt had. */
  datatype Hw = Hw(semaphore: bool, started: seq<Transfer>, running: nat, buffer: seq<Row>, torn: bool, tick: nat)

  /** The environment: when a running transfer completes, and which draw calls fail. */
  datatype Env = Env(completes: nat -> bool, drawFails: nat -> bool)

  datatype Status = Ok | InvalidArg | Timeout
  datatype Outcome = Outcome(status: Status, hw: Hw)

  // ------------------------------------------------------------ single operations

  /** The interrupt may complete the oldest transfer; giving a full binary semaphore
      changes nothing. */
  function Interrupt(hw: Hw, env: Env): Hw {
    if env.completes(hw.tick) && hw.running > 0
    then hw.(semaphore := true, running := hw.running - 1, tick := hw.tick + 1)
    else hw.(tick := hw.tick + 1)
  }

  /** Taking without waiting until nothing is left to take. */
  function Drain(hw: Hw, env: Env): Hw
    decreases hw.running, hw.semaphore
  {
    if hw.semaphore then Drain(Interrupt(hw.(semaphore := false), env), env) else hw
  }

  /** Taking with a timeout: an empty semaphore can still be given while waiting. */
  function Wait(hw: Hw, env: Env): Hw {
    if hw.semaphore then hw else Interrupt(hw, env)
  }

  function Copy(hw: Hw, rows: seq<Row>): Hw {
    hw.(buffer := rows, torn := hw.torn || hw.running > 0)
  }

  /** A failing draw call starts no transfer, and the push does not look at its result. */
  function Draw(hw: Hw, env: Env, top: nat): Hw {
    if env.drawFails(hw.tick) then hw.(tick := hw.tick + 1)
    else hw.(started := hw.started + [Transfer(top, hw.buffer)], running := hw.running + 1, tick := hw.tick + 1)
  }

  /** The interrupt's chance before the wait, then the wait. */
  function Token(hw: Hw, env: Env): Hw {
    Wait(Interrupt(hw, env), env)
  }

  /** One chunk, once the token is taken. */
  function SendChunk(hw: Hw, env: Env, rows: seq<Row>, top: nat): Hw {
    Draw(Interrupt(Copy(Interrupt(hw, env), rows), env), env, top)
  }

  // ----------------------------------------------------------------- the push

  function Min(a: nat, b: nat): nat { if a <= b then a else b }

  /** The chunk loop and the final wait. */
  function PushChunks(hw: Hw, env: Env, rows: seq<Row>, top: nat, chunk: nat): Outcome
    requires 0 < chunk
    decreases |rows|
  {
    var token := Token(hw, env);
    if !token.semaphore then Outcome(Timeout, token)
    else
      var taken := token.(semaphore := false);
      if rows == [] then Outcome(Ok, taken)
      else
        var n := Min(|rows|, chunk);
        PushChunks(SendChunk(taken, env, rows[..n], top), env, rows[n..], top + n, chunk)
  }

  lemma PushStep(hw: Hw, env: Env, rows: seq<Row>, top: nat, chunk: nat)
    requires 0 < chunk
    ensures var token := Token(hw, env);
      PushChunks(hw, env, rows, top, chunk) ==
        if !token.semaphore then Outcome(Timeout, token)
        else if rows == [] then Outcome(Ok, token.(semaphore := false))
        else var n := Min(|rows|, chunk);
          PushChunks(SendChunk(token.(semaphore := false), env, rows[..n], top), env, rows[n..], top + n, chunk)
  {
  }

  function Healed(hw: Hw, env: Env): Hw {
    Interrupt(Drain(Interrupt(hw, env), env), env).(semaphore := true)
  }

  function Push(hw: Hw, env: Env, rows: seq<Row>, top: nat, chunk: nat): Outcome {
    if chunk == 0 || chunk > DMA_LINES then Outcome(InvalidArg, hw)
    else if rows == [] then Outcome(Ok, hw)
    else PushChunks(Healed(hw, env), env, rows, top, chunk)
  }

  /** The driver's static state, with the push as the code performs it. */
  class Panel {
    var semaphore: bool
    var dmaBuf: seq<Row>
    var started: seq<Transfer>
    var running: nat
    var torn: bool
    var tick: nat

    constructor ()
      ensures State() == Hw(false, [], 0, [], false, 0)
    {
      semaphore, dmaBuf := false, [];
      started, running, torn, tick := [], 0, false, 0;
    }

    ghost function State(): Hw
      reads this
    {
      Hw(semaphore, started, running, dmaBuf, torn, tick)
    }

    /** A point where the interrupt may run: notify_lvgl_flush_ready. */
    method Preempt(env: Env)
      modifies this
      ensures State() == Interrupt(old(State()), env)
    {
      if env.completes(tick) && running > 0 {
        semaphore := true;
        running := running - 1;
      }
      tick := tick + 1;
    }

    /** xSemaphoreTake with a timeout. */
    method Take(env: Env) returns (taken: bool)
      modifies this
      ensures taken == Wait(old(State()), env).semaphore
      ensures State() == Wait(old(State()), env).(semaphore := false)
    {
      if !semaphore {
        Preempt(env);
      }
      taken := semaphore;
      semaphore := false;
    }

    /** memcpy into the DMA buffer. */
    method CopyRows(rows: seq<Row>)
      modifies this
      ensures State() == Copy(old(State()), rows)
    {
      dmaBuf := rows;
      torn := torn || running > 0;
    }

    /** esp_lcd_panel_draw_bitmap, whose result the push ignores. */
    method DrawBitmap(env: Env, top: nat)
      modifies this
      ensures State() == Draw(old(State()), env, top)
    {
      if !env.drawFails(tick) {
        started := started + [Transfer(top, dmaBuf)];
        running := running + 1;
      }
      tick := tick + 1;
    }

    /** One pass of the chunk loop after the wait. */
    method SendRows(env: Env, rows: seq<Row>, top: nat)
      modifies this
      ensures State() == SendChunk(old(State()), env, rows, top)
    {
      Preempt(env);
      CopyRows(rows);
      Preempt(env);
      DrawBitmap(env, top);
    }

    /** The self-heal: drain to zero, then prime to one. */
    method Heal(env: Env)
      modifies this
      ensures State() == Healed(old(State()), env)
    {
      Preempt(env);
      ghost var undrained := State();
      while semaphore
        invariant Drain(State(), env) == Drain(undrained, env)
        decreases running, semaphore
      {
        semaphore := false;
        Preempt(env);
      }
      Preempt(env);
      semaphore := true;
    }

    /** The wait before a chunk: the interrupt's chance, then the take. */
    method TakeToken(env: Env) returns (taken: bool)
      modifies this
      ensures taken == Token(old(State()), env).semaphore
      ensures State() == Token(old(State()), env).(semaphore := false)
    {
      Preempt(env);
      taken := Take(env);
    }

    /** One pass of the chunk loop. */
    method ChunkRound(env: Env, rows: seq<Row>, top: nat, chunk: nat) returns (taken: bool)
      requires 0 < chunk && rows != []
      modifies this
      ensures !taken ==> PushChunks(old(State()), env, rows, top, chunk) == Outcome(Timeout, State())
      ensures taken ==> var n := Min(|rows|, chunk);
        PushChunks(old(State()), env, rows, top, chunk) == PushChunks(State(), env, rows[n..], top + n, chunk)
    {
      PushStep(State(), env, rows, top, chunk);
      taken := TakeToken(env);
      if taken {
        SendRows(env, rows[..Min(|rows|, chunk)], top);
      }
    }

    /** The same at a place in the rows; `goal` is what the rest of the loop has to reach. */
    method RoundAt(env: Env, rows: seq<Row>, at: nat, n: nat, top: nat, chunk: nat, ghost goal: Outcome)
      returns (taken: bool)
      requires 0 < chunk && at < |rows| && n == Min(|rows| - at, chunk)
      requires PushChunks(State(), env, rows[at..], top, chunk) == goal
      modifies this
      ensures !taken ==> Outcome(Timeout, State()) == goal
      ensures taken ==> PushChunks(State(), env, rows[at + n..], top + n, chunk) == goal
    {
      RestOf(rows, at, n);
      taken := ChunkRound(env, rows[at..], top, chunk);
    }

    method PushLoop(env: Env, rows: seq<Row>, yOffset: nat, chunkRows: nat) returns (status: Status)
      requires 0 < chunkRows
      modifies this
      ensures Outcome(status, State()) == PushChunks(old(State()), env, rows, yOffset, chunkRows)
    {
      var row, at := yOffset, 0;
      ghost var goal := PushChunks(State(), env, rows, yOffset, chunkRows);
      assert rows[at..] == rows;
      while at < |rows|
        invariant at <= |rows| && PushChunks(State(), env, rows[at..], row, chunkRows) == goal
      {
        var n := Min(|rows| - at, chunkRows);
        var taken := RoundAt(env, rows, at, n, row, chunkRows, goal);
        if !taken {
          return Timeout;
        }
        row, at := row + n, at + n;
      }
      assert rows[at..] == [];
      status := LastWait(env, row, chunkRows);
    }

    /** The wait for the last transfer. */
    method LastWait(env: Env, ghost top: nat, ghost chunk: nat) returns (status: Status)
      requires 0 < chunk
      modifies this
      ensures Outcome(status, State()) == PushChunks(old(State()), env, [], top, chunk)
    {
      PushStep(State(), env, [], top, chunk);
      var done := TakeToken(env);
      status := if done then Ok else Timeout;
    }

    /** panel_push_rows_blocking. */
    method PushRows(env: Env, bitmap: seq<Row>, yOffset: nat, totalRows: nat, chunkRows: nat) returns (status: Status)
      requires totalRows <= |bitmap|
      modifies this
      ensures Outcome(status, State()) == Push(old(State()), env, bitmap[..totalRows], yOffset, chunkRows)
    {
      if chunkRows == 0 || chunkRows > DMA_LINES {
        return InvalidArg;
      }
      if totalRows == 0 {
        return Ok;
      }
      Heal(env);
      status := PushLoop(env, bitmap[..totalRows], yOffset, chunkRows);
    }
  }

  // ------------------------------------------------------------- what it guarantees

  lemma RestOf(rows: seq<Row>, at: nat, n: nat)
    requires at + n <= |rows|
    ensures |rows[at..]| == |rows| - at && rows[at..][n..] == rows[at + n..]
  {
  }

  /** The transfers a complete push makes. */
  function Cuts(rows: seq<Row>, top: nat, chunk: nat): seq<Transfer>
    requires 0 < chunk
    decreases |rows|
  {
    if rows == [] then []
    else
      var n := Min(|rows|, chunk);
      [Transfer(top, rows[..n])] + Cuts(rows[n..], top + n, chunk)
  }

  /** Panel rows written by a list of transfers, in order. */
  function Written(transfers: seq<Transfer>): seq<(nat, Row)> {
    if transfers == [] then []
    else
      var t := transfers[0];
      seq(|t.rows|, r requires 0 <= r < |t.rows| => (t.top + r, t.rows[r])) + Written(transfers[1..])
  }

  /** Cut into chunks of any size, every row is written exactly once, in order, in its place. */
  lemma {:induction false} CutsWriteEachRowOnce(rows: seq<Row>, top: nat, chunk: nat)
    requires 0 < chunk
    ensures Written(Cuts(rows, top, chunk)) == seq(|rows|, r requires 0 <= r < |rows| => (top + r, rows[r]))
    decreases |rows|
  {
    if rows != [] {
      var n := Min(|rows|, chunk);
      CutsWriteEachRowOnce(rows[n..], top + n, chunk);
      var cuts := Cuts(rows, top, chunk);
      assert cuts[0] == Transfer(top, rows[..n]) && cuts[1..] == Cuts(rows[n..], top + n, chunk);
    }
  }

  /** At most one token: a running transfer or a full semaphore, never both. */
  predicate Primed(hw: Hw) {
    hw.running + (if hw.semaphore then 1 else 0) <= 1
  }

  lemma TokenKeeps(hw: Hw, env: Env)
    ensures var token := Token(hw, env);
      && token.started == hw.started && token.torn == hw.torn && token.running <= hw.running
      && (Primed(hw) ==> Primed(token))
      && (hw.running == 0 ==> token.semaphore == hw.semaphore)
  {
  }

  /** With the token taken from a primed state the buffer is free: nothing is torn, and
      either the chunk's transfer runs or, if the draw failed, no token is left. */
  lemma SendChunkKeeps(hw: Hw, env: Env, rows: seq<Row>, top: nat)
    requires hw.running == 0 && !hw.semaphore
    ensures var sent := SendChunk(hw, env, rows, top);
      && sent.torn == hw.torn && Primed(sent)
      && (sent.started == hw.started + [Transfer(top, rows)] ||
           (sent.started == hw.started && sent.running == 0 && !sent.semaphore))
  {
  }

  lemma NoTokenTimesOut(hw: Hw, env: Env, rows: seq<Row>, top: nat, chunk: nat)
    requires 0 < chunk && hw.running == 0 && !hw.semaphore
    ensures var out := PushChunks(hw, env, rows, top, chunk);
      out.status == Timeout && out.hw.started == hw.started && out.hw.torn == hw.torn && out.hw.running == 0
  {
    TokenKeeps(hw, env);
  }

  /** Nothing was torn on the way from hw to the outcome, a first part of the cuts was
      started, in order, and with OK all of them were and have completed. */
  ghost predicate Safe(hw: Hw, out: Outcome, cuts: seq<Transfer>) {
    && out.hw.torn == hw.torn && out.hw.running <= 1 && out.status != InvalidArg
    && hw.started <= out.hw.started <= hw.started + cuts
    && (out.status == Ok ==> out.hw.running == 0 && out.hw.started == hw.started + cuts)
  }

  lemma SafeAfter(hw: Hw, sent: Hw, out: Outcome, t: Transfer, rest: seq<Transfer>)
    requires sent.started == hw.started + [t] && sent.torn == hw.torn && Safe(sent, out, rest)
    ensures Safe(hw, out, [t] + rest)
  {
    assert hw.started + [t] + rest == hw.started + ([t] + rest);
  }

  lemma SafeWithNone(hw: Hw, out: Outcome, cuts: seq<Transfer>)
    requires out.hw.torn == hw.torn && out.hw.running <= 1 && out.status == Timeout && out.hw.started == hw.started
    ensures Safe(hw, out, cuts)
  {
  }

  /** From a primed state the chunk loop never tears, and it ends with OK only when every
      transfer was started in order and completed. */
  lemma {:induction false} ChunksSafe(hw: Hw, env: Env, rows: seq<Row>, top: nat, chunk: nat)
    requires 0 < chunk && Primed(hw)
    ensures Safe(hw, PushChunks(hw, env, rows, top, chunk), Cuts(rows, top, chunk))
    decreases |rows|
  {
    var token := Token(hw, env);
    TokenKeeps(hw, env);
    if token.semaphore && rows != [] {
      var n := Min(|rows|, chunk);
      var taken := token.(semaphore := false);
      var sent := SendChunk(taken, env, rows[..n], top);
      SendChunkKeeps(taken, env, rows[..n], top);
      var t, out := Transfer(top, rows[..n]), PushChunks(sent, env, rows[n..], top + n, chunk);
      if sent.started == hw.started + [t] {
        ChunksSafe(sent, env, rows[n..], top + n, chunk);
        SafeAfter(hw, sent, out, t, Cuts(rows[n..], top + n, chunk));
      } else {
        NoTokenTimesOut(sent, env, rows[n..], top + n, chunk);
        SafeWithNone(hw, out, Cuts(rows, top, chunk));
      }
    }
  }

  lemma {:induction false} DrainKeeps(hw: Hw, env: Env)
    ensures var next := Drain(hw, env);
      && next.started == hw.started && next.torn == hw.torn && next.running <= hw.running && !next.semaphore
      && ((forall t :: !env.completes(t)) ==> next.running == hw.running)
    decreases hw.running, hw.semaphore
  {
    if hw.semaphore {
      DrainKeeps(Interrupt(hw.(semaphore := false), env), env);
    }
  }

  /** A push that starts with no transfer running, whatever the semaphore holds: the DMA
      buffer is never overwritten during a transfer, and success means every row was
      sent exactly once, in order, in its place, with nothing left running. */
  lemma PushFromIdle(hw: Hw, env: Env, rows: seq<Row>, top: nat, chunk: nat)
    requires hw.running == 0 && 0 < chunk <= DMA_LINES
    ensures var out := Push(hw, env, rows, top, chunk);
      && out.hw.torn == hw.torn && out.hw.running <= 1 && out.status != InvalidArg
      && hw.started <= out.hw.started <= hw.started + Cuts(rows, top, chunk)
      && (out.status == Ok ==>
           && out.hw.running == 0 && out.hw.started == hw.started + Cuts(rows, top, chunk)
           && Written(Cuts(rows, top, chunk)) == seq(|rows|, r requires 0 <= r < |rows| => (top + r, rows[r])))
  {
    CutsWriteEachRowOnce(rows, top, chunk);
    if rows != [] {
      DrainKeeps(Interrupt(hw, env), env);
      ChunksSafe(Healed(hw, env), env, rows, top, chunk);
    }
  }

  /** The self-heal protects exactly the pushes that start with no transfer running: if
      one is still running at entry, some timing overwrites the buffer under it. */
  lemma TearFreeIffIdle(hw: Hw, rows: seq<Row>, top: nat, chunk: nat)
    requires !hw.torn && rows != [] && 0 < chunk <= DMA_LINES
    ensures (forall env :: !Push(hw, env, rows, top, chunk).hw.torn) <==> hw.running == 0
  {
    if hw.running == 0 {
      forall env
        ensures !Push(hw, env, rows, top, chunk).hw.torn
      {
        PushFromIdle(hw, env, rows, top, chunk);
      }
    } else {
      SlowTransferTears(hw, Env(_ => false, _ => false), rows, top, chunk);
    }
  }

  lemma SlowTransferTears(hw: Hw, env: Env, rows: seq<Row>, top: nat, chunk: nat)
    requires hw.running > 0 && rows != [] && 0 < chunk <= DMA_LINES
    requires forall t :: !env.completes(t)
    ensures Push(hw, env, rows, top, chunk).hw.torn
  {
    DrainKeeps(Interrupt(hw, env), env);
    var healed := Healed(hw, env);
    var n := Min(|rows|, chunk);
    var sent := SendChunk(Token(healed, env).(semaphore := false), env, rows[..n], top);
    assert sent.torn;
    TornStays(sent, env, rows[n..], top + n, chunk);
  }

  lemma {:induction false} TornStays(hw: Hw, env: Env, rows: seq<Row>, top: nat, chunk: nat)
    requires hw.torn && 0 < chunk
    ensures PushChunks(hw, env, rows, top, chunk).hw.torn
    decreases |rows|
  {
    var token := Token(hw, env);
    if token.semaphore && rows != [] {
      var n := Min(|rows|, chunk);
      var sent := SendChunk(token.(semaphore := false), env, rows[..n], top);
      TornStays(sent, env, rows[n..], top + n, chunk);
    }
  }

  /** A push can leave a transfer running, so the case above does happen: if the DMA stalls,
      the push times out with its first transfer under way and nothing torn yet, and if it
      goes on stalling, the next push overwrites the buffer under that transfer. */
  lemma StalledTransferTearsNext(hw: Hw, env: Env, rows1: seq<Row>, rows2: seq<Row>, top1: nat, top2: nat, chunk: nat)
    requires hw.running == 0 && !hw.torn && rows1 != [] && rows2 != [] && 0 < chunk <= DMA_LINES
    requires forall t :: !env.completes(t) && !env.drawFails(t)
    ensures var first := Push(hw, env, rows1, top1, chunk);
      && first.status == Timeout && first.hw.running == 1 && !first.hw.torn
      && Push(first.hw, env, rows2, top2, chunk).hw.torn
  {
    var n := Min(|rows1|, chunk);
    DrainKeeps(Interrupt(hw, env), env);
    var healed := Healed(hw, env);
    assert healed.running == 0 && healed.semaphore && !healed.torn;
    PushStep(healed, env, rows1, top1, chunk);
    var sent := SendChunk(Token(healed, env).(semaphore := false), env, rows1[..n], top1);
    assert sent.running == 1 && !sent.semaphore && !sent.torn;
    PushStep(sent, env, rows1[n..], top1 + n, chunk);
    SlowTransferTears(Push(hw, env, rows1, top1, chunk).hw, env, rows2, top2, chunk);
  }

  /** The running transfer completes between two pushes. */
  function Settled(hw: Hw): Hw {
    if hw.running == 0 then hw else hw.(semaphore := true, running := 0)
  }

  /** A push that timed out and whose transfer completes later leaves nothing behind:
      the next push is as good as a first one. */
  lemma RecoversAfterTimeout(hw: Hw, env1: Env, env2: Env, rows1: seq<Row>, rows2: seq<Row>, top1: nat, top2: nat,
                             chunk: nat)
    requires hw.running == 0 && !hw.torn && 0 < chunk <= DMA_LINES
    ensures var late := Settled(Push(hw, env1, rows1, top1, chunk).hw);
      var out := Push(late, env2, rows2, top2, chunk);
      && !out.hw.torn
      && hw.started <= late.started <= hw.started + Cuts(rows1, top1, chunk)
      && (out.status == Ok ==> out.hw.running == 0 && out.hw.started == late.started + Cuts(rows2, top2, chunk))
  {
    PushFromIdle(hw, env1, rows1, top1, chunk);
    PushFromIdle(Settled(Push(hw, env1, rows1, top1, chunk).hw), env2, rows2, top2, chunk);
  }

  // --------------------------------------------------------------- the push, told plainly

  /** No transfer is larger than asked for, nor than the DMA buffer, and none is empty. */
  lemma {:induction false} CutsFit(rows: seq<Row>, top: nat, chunk: nat)
    requires 0 < chunk <= DMA_LINES
    ensures forall t :: t in Cuts(rows, top, chunk) ==> 1 <= |t.rows| <= chunk && |t.rows| <= 64
    decreases |rows|
  {
    if rows != [] {
      var n := Min(|rows|, chunk);
      CutsFit(rows[n..], top + n, chunk);
    }
  }

  /** Only a chunk of no lines, or of more than the buffer has, is refused, and then nothing
      is touched; nothing to push is a success that touches nothing. */
  lemma PushRefuses(hw: Hw, env: Env, rows: seq<Row>, top: nat, chunk: nat)
    ensures var out := Push(hw, env, rows, top, chunk);
      && (out.status == InvalidArg <==> chunk < 1 || chunk > 64)
      && (out.status == InvalidArg || rows == [] ==> out.hw == hw)
      && (1 <= chunk <= 64 && rows == [] ==> out.status == Ok)
  {
    if 1 <= chunk <= DMA_LINES && rows != [] {
      ChunksNotRefused(Healed(hw, env), env, rows, top, chunk);
    }
  }

  lemma {:induction false} ChunksNotRefused(hw: Hw, env: Env, rows: seq<Row>, top: nat, chunk: nat)
    requires 0 < chunk
    ensures PushChunks(hw, env, rows, top, chunk).status != InvalidArg
    decreases |rows|
  {
    PushStep(hw, env, rows, top, chunk);
    var token := Token(hw, env);
    if token.semaphore && rows != [] {
      var n := Min(|rows|, chunk);
      ChunksNotRefused(SendChunk(token.(semaphore := false), env, rows[..n], top), env, rows[n..], top + n, chunk);
    }
  }

  /** Where transfers complete in time and no draw call fails, a push succeeds, whatever the
      semaphore was left at. */
  lemma PromptPushSucceeds(hw: Hw, env: Env, rows: seq<Row>, top: nat, chunk: nat)
    requires hw.running == 0 && 0 < chunk <= DMA_LINES
    requires forall t :: env.completes(t) && !env.drawFails(t)
    ensures Push(hw, env, rows, top, chunk).status == Ok
  {
    if rows != [] {
      PromptChunks(Healed(hw, env), env, rows, top, chunk);
    }
  }

  lemma {:induction false} PromptChunks(hw: Hw, env: Env, rows: seq<Row>, top: nat, chunk: nat)
    requires 0 < chunk && (hw.semaphore || hw.running > 0)
    requires forall t :: env.completes(t) && !env.drawFails(t)
    ensures PushChunks(hw, env, rows, top, chunk).status == Ok
    decreases |rows|
  {
    PushStep(hw, env, rows, top, chunk);
    var token := Token(hw, env);
    assert token.semaphore;
    if rows != [] {
      var n := Min(|rows|, chunk);
      var sent := SendChunk(token.(semaphore := false), env, rows[..n], top);
      assert sent.running > 0;
      PromptChunks(sent, env, rows[n..], top + n, chunk);
    }
  }

  /** When a wait is served: the semaphore is full, or a running transfer completes before or
      during the wait. */
  lemma TokenExactly(hw: Hw, env: Env)
    ensures Token(hw, env).semaphore <==>
      hw.semaphore || (hw.running > 0 && (env.completes(hw.tick) || env.completes(hw.tick + 1)))
  {
  }
}

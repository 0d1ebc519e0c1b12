/** The host's serial worker (device.rs, worker_loop): it owns the port, pushes snapshots
    over it, answers requests, and gives the port away while it is paused. */
module SerialWorker {
  import opened Options
  import SnapshotStream

  type Snapshot = SnapshotStream.Snapshot

  datatype Message = Nothing | Hangup | Update(snapshot: Snapshot) | Event(text: string) | Rpc(id: nat)
    | Pause(until: nat, id: nat)

  /** How one blocking operation went: what arrived on the channel, whether the use of the
      line succeeded, and the clock before and after waiting. */
  datatype Outcome = Outcome(ok: bool, message: Message, now: nat, after: nat)

  /** What the worker does to the outside. */
  datatype Mark = Opened(at: nat) | Closed | Sent(snapshot: Snapshot) | Replied(id: nat, ok: bool) | Acked(id: nat)

  datatype Arrival = Arrival(message: Message, at: nat)

  datatype Phase = Connecting | Greeting | Syncing | Waiting | Reading | Pausing(until: nat) | BackingOff | Stopped

  datatype World = World(phase: Phase, pending: Option<Snapshot>, log: seq<Mark>, received: seq<Arrival>)

  // ------------------------------------------------------------------ the worker's steps

  function Begin(initial: Option<Snapshot>): World {
    World(Connecting, if initial.Some? && initial.value.seqNo > 0 then initial else None, [], [])
  }

  function Do(w: World, phase: Phase, marks: seq<Mark>): World {
    w.(phase := phase, log := w.log + marks)
  }

  /** A failed use of the line drops the session; the worker then reconnects. */
  function OnLine(w: World, ok: bool, next: Phase): World {
    if ok then w.(phase := next) else Do(w, Connecting, [Closed])
  }

  function Take(w: World, o: Outcome): World {
    w.(received := w.received + [Arrival(o.message, o.after)],
      pending := if o.message.Update? then Some(o.message.snapshot) else w.pending)
  }

  function Serve(w: World, o: Outcome): World {
    match o.message
    case Nothing => w.(phase := Reading)
    case Hangup => Do(w, Stopped, [Closed])
    case Update(s) => OnLine(if o.ok then Do(w, w.phase, [Sent(s)]) else w, o.ok, Reading)
    case Event(_) => OnLine(w, o.ok, Reading)
    case Rpc(id) => OnLine(Do(w, w.phase, [Replied(id, o.ok)]), o.ok, Reading)
    case Pause(until, id) => Do(w, Pausing(until), [Closed, Acked(id)])
  }

  /** Without a session: while backing off, and while paused. */
  function Decline(w: World, o: Outcome, next: Phase): World {
    match o.message
    case Hangup => w.(phase := Stopped)
    case Rpc(id) => Do(w, next, [Replied(id, false)])
    case Pause(until, id) => Do(w, next, [Acked(id)])
    case _ => w.(phase := next)
  }

  /** Extends a pause, or ends it if the new deadline has already passed. */
  function Extended(until: nat, next: nat, now: nat): nat {
    if next <= now then next else if until > next then until else next
  }

  function PauseAfter(until: nat, o: Outcome): nat {
    if o.message.Pause? then Extended(until, o.message.until, o.after) else until
  }

  function Step(w: World, o: Outcome): World {
    match w.phase
    case Connecting =>
      if o.ok then Do(w, if w.pending.Some? then Greeting else Syncing, [Opened(o.now)])
      else w.(phase := BackingOff)
    case Greeting =>
      OnLine(if o.ok && w.pending.Some? then Do(w, Greeting, [Sent(w.pending.value)]) else w, o.ok, Syncing)
    case Syncing => OnLine(w, o.ok, Waiting)
    case Waiting => Serve(Take(w, o), o)
    case Reading => OnLine(w, o.ok, Syncing)
    case Pausing(until) =>
      if o.now >= until then w.(phase := Connecting) else Decline(Take(w, o), o, Pausing(PauseAfter(until, o)))
    case BackingOff =>
      Decline(Take(w, o), o, if o.message.Pause? then Pausing(o.message.until) else Connecting)
    case Stopped => w
  }

  function Run(initial: Option<Snapshot>, script: seq<Outcome>): World {
    if script == [] then Begin(initial)
    else Step(Run(initial, script[..|script| - 1]), script[|script| - 1])
  }

  // ------------------------------------------------------------ the worker in its own form

  /** Runs against a script of outcomes, one per blocking operation, and stops where the
      script ends. */
  class Worker {
    const initial: Option<Snapshot>
    const script: seq<Outcome>
    var cursor: nat
    var pending: Option<Snapshot>
    var paused: Option<(nat, nat)>
    var log: seq<Mark>
    var received: seq<Arrival>

    constructor (initial: Option<Snapshot>, script: seq<Outcome>)
      ensures this.initial == initial && this.script == script && paused == None && At(Connecting)
    {
      this.initial, this.script := initial, script;
      cursor, paused, log, received := 0, None, [], [];
      pending := if initial.Some? && initial.value.seqNo > 0 then initial else None;
    }

    /** The fields are what the steps so far lead to, in the given phase. */
    ghost predicate At(phase: Phase)
      reads this
    {
      cursor <= |script| && Run(initial, script[..cursor]) == World(phase, pending, log, received)
    }

    /** A pause has been asked for; the session is closed, the request not yet acknowledged. */
    ghost predicate AtPause(until: nat, id: nat)
      reads this
    {
      cursor <= |script| &&
        Run(initial, script[..cursor]) == World(Pausing(until), pending, log + [Acked(id)], received)
    }

    /** The script is used up, or the channel was hung up. */
    ghost predicate Ended()
      reads this
    {
      At(Stopped) || (cursor == |script| && exists phase :: At(phase))
    }

    method Next(ghost phase: Phase) returns (o: Outcome)
      requires cursor < |script| && At(phase)
      modifies this`cursor
      ensures cursor == old(cursor) + 1 && o == script[old(cursor)]
      ensures Run(initial, script[..cursor]) == Step(World(phase, pending, log, received), o)
    {
      assert script[..cursor + 1][..cursor] == script[..cursor];
      o := script[cursor];
      cursor := cursor + 1;
    }

    method Receive(o: Outcome)
      modifies this`received, this`pending
      ensures received == old(received) + [Arrival(o.message, o.after)]
      ensures pending == if o.message.Update? then Some(o.message.snapshot) else old(pending)
    {
      received := received + [Arrival(o.message, o.after)];
      if o.message.Update? {
        pending := Some(o.message.snapshot);
      }
    }

    /** Holds the port free until the deadline. */
    method PauseLoop(deadline: nat) returns (resumed: bool)
      requires At(Pausing(deadline)) && paused == None
      modifies this
      ensures cursor >= old(cursor) && paused == None
      ensures if resumed then At(Connecting) else Ended()
    {
      var until: nat := deadline;
      while cursor < |script|
        invariant old(cursor) <= cursor && At(Pausing(until)) && paused == None
        decreases |script| - cursor
      {
        var o := Next(Pausing(until));
        if o.now >= until {
          return true;
        }
        Receive(o);
        match o.message {
          case Hangup =>
            assert At(Stopped);
            return false;
          case Rpc(id) => log := log + [Replied(id, false)];
          case Pause(next, id) =>
            until := if next <= o.after then next else if until > next then until else next;
            log := log + [Acked(id)];
          case _ =>
        }
      }
      resumed := false;
    }

    /** After a failed connection attempt: one command, or the reconnect delay. */
    method BackOff() returns (going: bool)
      requires At(BackingOff) && paused == None
      modifies this
      ensures cursor >= old(cursor)
      ensures if going then Ready() else Ended()
    {
      if cursor == |script| {
        return false;
      }
      var o := Next(BackingOff);
      Receive(o);
      match o.message {
        case Hangup =>
          assert At(Stopped);
          return false;
        case Rpc(id) => log := log + [Replied(id, false)];
        case Pause(until, id) => paused := Some((until, id));
        case _ =>
      }
      going := true;
    }

    /** The top of the worker's loop. */
    ghost predicate Ready()
      reads this
    {
      match paused
      case None => At(Connecting)
      case Some((until, id)) => AtPause(until, id)
    }

    method Close()
      modifies this`log
      ensures log == old(log) + [Closed]
    {
      log := log + [Closed];
    }

    /** One command over the open session. */
    method ServeOne() returns (open: bool, stopped: bool)
      requires cursor < |script| && At(Waiting) && paused == None
      modifies this
      ensures cursor == old(cursor) + 1
      ensures if stopped then At(Stopped) else if open then At(Reading) && paused == None else Ready()
    {
      var o := Next(Waiting);
      Receive(o);
      open, stopped := o.ok, false;
      match o.message {
        case Nothing => open := true;
        case Hangup => stopped := true;
        case Update(s) => if o.ok { log := log + [Sent(s)]; }
        case Event(_) =>
        case Rpc(id) => log := log + [Replied(id, o.ok)];
        case Pause(until, id) => paused, open := Some((until, id)), false;
      }
      if !open || stopped {
        Close();
      }
    }

    /** The greeting, and then rounds of time sync, one command, and one frame. */
    method Session() returns (going: bool)
      requires At(if pending.Some? then Greeting else Syncing) && paused == None
      modifies this
      ensures cursor >= old(cursor)
      ensures if going then Ready() else Ended()
    {
      if pending.Some? {
        if cursor == |script| {
          return false;
        }
        var o := Next(Greeting);
        if !o.ok {
          Close();
          return true;
        }
        log := log + [Sent(pending.value)];
      }
      while true
        invariant old(cursor) <= cursor && At(Syncing) && paused == None
        decreases |script| - cursor
      {
        if cursor == |script| {
          return false;
        }
        var sync := Next(Syncing);
        if !sync.ok {
          Close();
          return true;
        }
        if cursor == |script| {
          assert At(Waiting);
          return false;
        }
        var open, stopped := ServeOne();
        if stopped {
          return false;
        }
        if !open {
          return true;
        }
        if cursor == |script| {
          return false;
        }
        var read := Next(Reading);
        if !read.ok {
          Close();
          return true;
        }
      }
    }

    /** worker_loop. */
    method WorkerLoop()
      requires At(Connecting) && cursor == 0 && paused == None
      modifies this
      ensures Ended()
    {
      while true
        invariant Ready()
        decreases |script| - cursor
      {
        if paused.Some? {
          var (until, id) := paused.value;
          log, paused := log + [Acked(id)], None;
          var resumed := PauseLoop(until);
          if !resumed {
            return;
          }
        }
        if cursor == |script| {
          return;
        }
        var o := Next(Connecting);
        var going: bool;
        if o.ok {
          log := log + [Opened(o.now)];
          going := Session();
        } else {
          going := BackOff();
        }
        if !going {
          return;
        }
      }
    }
  }

  // ------------------------------------------------------------------ what the log means

  /** The snapshot commanded last. */
  function Latest(initial: Option<Snapshot>, received: seq<Arrival>): Option<Snapshot> {
    if received == [] then Begin(initial).pending
    else if received[|received| - 1].message.Update? then Some(received[|received| - 1].message.snapshot)
    else Latest(initial, received[..|received| - 1])
  }

  /** Whether the port is open after these marks. */
  predicate Open(log: seq<Mark>) {
    log != [] && (log[|log| - 1].Opened? || (!log[|log| - 1].Closed? && Open(log[..|log| - 1])))
  }

  /** The last snapshot sent in the session the marks end in. */
  function LastSent(log: seq<Mark>): Option<Snapshot> {
    if log == [] then None
    else
      match log[|log| - 1]
      case Sent(s) => Some(s)
      case Opened(_) => None
      case _ => LastSent(log[..|log| - 1])
  }

  function ReplyIds(log: seq<Mark>): seq<nat> {
    if log == [] then []
    else ReplyIds(log[..|log| - 1]) + if log[|log| - 1].Replied? then [log[|log| - 1].id] else []
  }

  function AckIds(log: seq<Mark>): seq<nat> {
    if log == [] then []
    else AckIds(log[..|log| - 1]) + if log[|log| - 1].Acked? then [log[|log| - 1].id] else []
  }

  function RpcId(m: Message): seq<nat> {
    if m.Rpc? then [m.id] else []
  }

  function PauseId(m: Message): seq<nat> {
    if m.Pause? then [m.id] else []
  }

  function RpcIds(received: seq<Arrival>): seq<nat> {
    if received == [] then []
    else RpcIds(received[..|received| - 1]) + RpcId(received[|received| - 1].message)
  }

  function PauseIds(received: seq<Arrival>): seq<nat> {
    if received == [] then []
    else PauseIds(received[..|received| - 1]) + PauseId(received[|received| - 1].message)
  }

  /** The port is given away only while it is closed, and used only while it is open. */
  predicate Exclusive(log: seq<Mark>) {
    log == [] ||
    (var before, last := log[..|log| - 1], log[|log| - 1];
     Exclusive(before) &&
     match last
     case Opened(_) => !Open(before)
     case Acked(_) => !Open(before)
     case Replied(_, ok) => ok ==> Open(before)
     case _ => Open(before))
  }

  predicate InSession(phase: Phase) {
    phase.Greeting? || phase.Syncing? || phase.Waiting? || phase.Reading?
  }

  /** One mark more. */
  lemma MarkOne(log: seq<Mark>, m: Mark)
    ensures Open(log + [m]) == (m.Opened? || (!m.Closed? && Open(log)))
    ensures LastSent(log + [m]) == (match m case Sent(s) => Some(s) case Opened(_) => None case _ => LastSent(log))
    ensures ReplyIds(log + [m]) == ReplyIds(log) + (if m.Replied? then [m.id] else [])
    ensures AckIds(log + [m]) == AckIds(log) + (if m.Acked? then [m.id] else [])
    ensures Exclusive(log + [m]) == (Exclusive(log) &&
      match m
      case Opened(_) => !Open(log)
      case Acked(_) => !Open(log)
      case Replied(_, ok) => ok ==> Open(log)
      case _ => Open(log))
  {
    assert (log + [m])[..|log|] == log;
  }

  lemma ArrivalOne(initial: Option<Snapshot>, received: seq<Arrival>, a: Arrival)
    ensures Latest(initial, received + [a]) ==
      if a.message.Update? then Some(a.message.snapshot) else Latest(initial, received)
    ensures RpcIds(received + [a]) == RpcIds(received) + RpcId(a.message)
    ensures PauseIds(received + [a]) == PauseIds(received) + PauseId(a.message)
  {
    assert (received + [a])[..|received|] == received;
  }

  predicate Consistent(initial: Option<Snapshot>, w: World) {
    && w.pending == Latest(initial, w.received)
    && ReplyIds(w.log) == RpcIds(w.received) && AckIds(w.log) == PauseIds(w.received)
    && Exclusive(w.log) && Open(w.log) == InSession(w.phase)
    && (w.phase.Greeting? ==> w.pending.Some?)
    && (InSession(w.phase) && !w.phase.Greeting? ==> w.pending.Some? ==> LastSent(w.log) == w.pending)
  }

  lemma MarkTwo(log: seq<Mark>, m: Mark, n: Mark)
    ensures log + [m, n] == (log + [m]) + [n]
  {
  }

  lemma TakeIsConsistent(initial: Option<Snapshot>, w: World, o: Outcome)
    requires Consistent(initial, w)
    ensures var t := Take(w, o);
      && t.pending == Latest(initial, t.received)
      && RpcIds(t.received) == RpcIds(w.received) + RpcId(o.message)
      && PauseIds(t.received) == PauseIds(w.received) + PauseId(o.message)
  {
    ArrivalOne(initial, w.received, Arrival(o.message, o.after));
  }

  lemma ServeUpdate(initial: Option<Snapshot>, w: World, o: Outcome)
    requires Consistent(initial, w) && w.phase.Waiting? && o.message.Update?
    ensures Consistent(initial, Serve(Take(w, o), o))
  {
    TakeIsConsistent(initial, w, o);
    MarkOne(w.log, Closed);
    MarkOne(w.log, Sent(o.message.snapshot));
  }

  lemma ServeRpc(initial: Option<Snapshot>, w: World, o: Outcome)
    requires Consistent(initial, w) && w.phase.Waiting? && o.message.Rpc?
    ensures Consistent(initial, Serve(Take(w, o), o))
  {
    TakeIsConsistent(initial, w, o);
    MarkOne(w.log, Replied(o.message.id, o.ok));
    MarkOne(w.log + [Replied(o.message.id, o.ok)], Closed);
  }

  /** The marks of a pause taken up in a session. */
  lemma PauseMarks(log: seq<Mark>, id: nat)
    requires Exclusive(log) && Open(log)
    ensures var l := log + [Closed, Acked(id)];
      Exclusive(l) && !Open(l) && ReplyIds(l) == ReplyIds(log) && AckIds(l) == AckIds(log) + [id]
  {
    MarkTwo(log, Closed, Acked(id));
    MarkOne(log, Closed);
    MarkOne(log + [Closed], Acked(id));
  }

  lemma ServePause(initial: Option<Snapshot>, w: World, o: Outcome)
    requires Consistent(initial, w) && w.phase.Waiting? && o.message.Pause?
    ensures Consistent(initial, Serve(Take(w, o), o))
  {
    PauseMarks(w.log, o.message.id);
    OffLineIsConsistent(initial, w, o, Serve(Take(w, o), o));
  }

  lemma ServeOther(initial: Option<Snapshot>, w: World, o: Outcome)
    requires Consistent(initial, w) && w.phase.Waiting?
    requires o.message.Nothing? || o.message.Hangup? || o.message.Event?
    ensures Consistent(initial, Serve(Take(w, o), o))
  {
    TakeIsConsistent(initial, w, o);
    MarkOne(w.log, Closed);
  }

  lemma ServeIsConsistent(initial: Option<Snapshot>, w: World, o: Outcome)
    requires Consistent(initial, w) && w.phase.Waiting?
    ensures Consistent(initial, Serve(Take(w, o), o))
  {
    match o.message
    case Update(_) => ServeUpdate(initial, w, o);
    case Rpc(_) => ServeRpc(initial, w, o);
    case Pause(_, _) => ServePause(initial, w, o);
    case _ => ServeOther(initial, w, o);
  }

  /** Without a session, what is logged for a message has to fit the message alone. */
  lemma OffLineIsConsistent(initial: Option<Snapshot>, w: World, o: Outcome, r: World)
    requires Consistent(initial, w) && !InSession(r.phase)
    requires r.received == Take(w, o).received && r.pending == Take(w, o).pending
    requires Exclusive(r.log) && !Open(r.log)
    requires ReplyIds(r.log) == ReplyIds(w.log) + RpcId(o.message)
    requires AckIds(r.log) == AckIds(w.log) + PauseId(o.message)
    ensures Consistent(initial, r)
  {
    TakeIsConsistent(initial, w, o);
  }

  lemma DeclineRpc(initial: Option<Snapshot>, w: World, o: Outcome, next: Phase)
    requires Consistent(initial, w) && !InSession(w.phase) && !InSession(next) && o.message.Rpc?
    ensures Consistent(initial, Decline(Take(w, o), o, next))
  {
    var r := Decline(Take(w, o), o, next);
    assert r == Take(w, o).(log := w.log + [Replied(o.message.id, false)], phase := next);
    MarkOne(w.log, Replied(o.message.id, false));
    OffLineIsConsistent(initial, w, o, r);
  }

  lemma DeclinePause(initial: Option<Snapshot>, w: World, o: Outcome, next: Phase)
    requires Consistent(initial, w) && !InSession(w.phase) && !InSession(next) && o.message.Pause?
    ensures Consistent(initial, Decline(Take(w, o), o, next))
  {
    var r := Decline(Take(w, o), o, next);
    assert r == Take(w, o).(log := w.log + [Acked(o.message.id)], phase := next);
    MarkOne(w.log, Acked(o.message.id));
    OffLineIsConsistent(initial, w, o, r);
  }

  lemma DeclineIsConsistent(initial: Option<Snapshot>, w: World, o: Outcome, next: Phase)
    requires Consistent(initial, w) && !InSession(w.phase) && !InSession(next)
    ensures Consistent(initial, Decline(Take(w, o), o, next))
  {
    match o.message
    case Rpc(_) => DeclineRpc(initial, w, o, next);
    case Pause(_, _) => DeclinePause(initial, w, o, next);
    case _ => ArrivalOne(initial, w.received, Arrival(o.message, o.after));
  }

  lemma GreetIsConsistent(initial: Option<Snapshot>, w: World, o: Outcome)
    requires Consistent(initial, w) && w.phase.Greeting?
    ensures Consistent(initial, Step(w, o))
  {
    MarkOne(w.log, Closed);
    MarkOne(w.log, Sent(w.pending.value));
  }

  lemma ConnectIsConsistent(initial: Option<Snapshot>, w: World, o: Outcome)
    requires Consistent(initial, w) && w.phase.Connecting?
    ensures Consistent(initial, Step(w, o))
  {
    MarkOne(w.log, Opened(o.now));
  }

  lemma LineIsConsistent(initial: Option<Snapshot>, w: World, ok: bool, next: Phase)
    requires Consistent(initial, w) && (w.phase.Syncing? || w.phase.Reading?) && (next.Waiting? || next.Syncing?)
    ensures Consistent(initial, OnLine(w, ok, next))
  {
    MarkOne(w.log, Closed);
  }

  lemma PauseIsConsistent(initial: Option<Snapshot>, w: World, o: Outcome)
    requires Consistent(initial, w) && w.phase.Pausing?
    ensures Consistent(initial, Step(w, o))
  {
    DeclineIsConsistent(initial, w, o, Pausing(PauseAfter(w.phase.until, o)));
  }

  lemma BackOffIsConsistent(initial: Option<Snapshot>, w: World, o: Outcome)
    requires Consistent(initial, w) && w.phase.BackingOff?
    ensures Consistent(initial, Step(w, o))
  {
    DeclineIsConsistent(initial, w, o, if o.message.Pause? then Pausing(o.message.until) else Connecting);
  }

  lemma StepIsConsistent(initial: Option<Snapshot>, w: World, o: Outcome)
    requires Consistent(initial, w)
    ensures Consistent(initial, Step(w, o))
  {
    match w.phase
    case Connecting => ConnectIsConsistent(initial, w, o);
    case Greeting => GreetIsConsistent(initial, w, o);
    case Syncing => LineIsConsistent(initial, w, o.ok, Waiting);
    case Waiting => ServeIsConsistent(initial, w, o);
    case Reading => LineIsConsistent(initial, w, o.ok, Syncing);
    case Pausing(_) => PauseIsConsistent(initial, w, o);
    case BackingOff => BackOffIsConsistent(initial, w, o);
    case Stopped =>
  }

  lemma {:induction false} RunIsConsistent(initial: Option<Snapshot>, script: seq<Outcome>)
    ensures Consistent(initial, Run(initial, script))
    decreases |script|
  {
    if script != [] {
      RunIsConsistent(initial, script[..|script| - 1]);
      StepIsConsistent(initial, Run(initial, script[..|script| - 1]), script[|script| - 1]);
    }
  }

  /** Over every run: the snapshot kept for the device is the one commanded last; while a
      session takes commands, the device has been sent exactly that one in this session. */
  lemma DeviceIsUpToDate(initial: Option<Snapshot>, script: seq<Outcome>)
    ensures var w := Run(initial, script);
      && w.pending == Latest(initial, w.received)
      && (w.phase.Waiting? && w.pending.Some? ==> LastSent(w.log) == Latest(initial, w.received))
  {
    RunIsConsistent(initial, script);
  }

  /** Over every run: every request gets exactly one reply and every pause exactly one
      acknowledgement, in order, and the port is closed whenever a pause is acknowledged. */
  lemma RequestsAreAnswered(initial: Option<Snapshot>, script: seq<Outcome>)
    ensures var w := Run(initial, script);
      && ReplyIds(w.log) == RpcIds(w.received) && AckIds(w.log) == PauseIds(w.received)
      && (forall i :: 0 <= i < |w.log| && w.log[i].Acked? ==> !Open(w.log[..i]))
      && (forall i :: 0 <= i < |w.log| && w.log[i].Sent? ==> Open(w.log[..i]))
  {
    RunIsConsistent(initial, script);
    ExclusiveEverywhere(Run(initial, script).log);
  }

  lemma {:induction false} ExclusiveEverywhere(log: seq<Mark>)
    requires Exclusive(log)
    ensures forall i :: 0 <= i < |log| && log[i].Acked? ==> !Open(log[..i])
    ensures forall i :: 0 <= i < |log| && log[i].Sent? ==> Open(log[..i])
    decreases |log|
  {
    if log != [] {
      var n := |log| - 1;
      ExclusiveEverywhere(log[..n]);
      forall i | 0 <= i < n
        ensures log[..n][i] == log[i] && log[..n][..i] == log[..i]
      {
      }
    }
  }

  // -------------------------------------------------------------------- pauses are kept

  /** The deadline in force: later requests extend it, never shorten it, except one whose
      deadline has passed when it arrives, which resumes. */
  function Deadline(received: seq<Arrival>): nat {
    if received == [] then 0
    else
      var before, a := Deadline(received[..|received| - 1]), received[|received| - 1];
      if a.message.Pause? then Extended(before, a.message.until, a.at) else before
  }

  /** The clock of the outcomes never runs backwards. */
  predicate Forward(script: seq<Outcome>) {
    (forall i :: 0 <= i < |script| ==> script[i].now <= script[i].after) &&
    (forall i, j :: 0 <= i < j < |script| ==> script[i].after <= script[j].now)
  }

  predicate Punctual(w: World, now: nat) {
    match w.phase
    case Pausing(until) => until == Deadline(w.received)
    case Stopped => true
    case _ => Deadline(w.received) <= now
  }

  lemma DeadlineOne(received: seq<Arrival>, a: Arrival)
    ensures Deadline(received + [a]) ==
      if a.message.Pause? then Extended(Deadline(received), a.message.until, a.at) else Deadline(received)
  {
    assert (received + [a])[..|received|] == received;
  }

  lemma ServePhase(w: World, o: Outcome)
    requires w.phase.Waiting?
    ensures var r := Serve(Take(w, o), o);
      && r.received == w.received + [Arrival(o.message, o.after)]
      && (if o.message.Pause? then r.phase == Pausing(o.message.until) else !r.phase.Pausing?)
  {
  }

  lemma ServeIsPunctual(w: World, o: Outcome)
    requires w.phase.Waiting? && Deadline(w.received) <= o.now <= o.after
    ensures Punctual(Serve(Take(w, o), o), o.after)
  {
    DeadlineOne(w.received, Arrival(o.message, o.after));
    ServePhase(w, o);
  }

  lemma DeclinePhase(w: World, o: Outcome, next: Phase)
    ensures var r := Decline(Take(w, o), o, next);
      && r.received == w.received + [Arrival(o.message, o.after)]
      && r.phase == if o.message.Hangup? then Stopped else next
  {
  }

  lemma PauseIsPunctual(w: World, o: Outcome)
    requires w.phase.Pausing? && Punctual(w, o.now) && o.now <= o.after
    ensures Punctual(Step(w, o), o.after)
  {
    if o.now < w.phase.until {
      DeadlineOne(w.received, Arrival(o.message, o.after));
      DeclinePhase(w, o, Pausing(PauseAfter(w.phase.until, o)));
    }
  }

  lemma BackOffIsPunctual(w: World, o: Outcome)
    requires w.phase.BackingOff? && Punctual(w, o.now) && o.now <= o.after
    ensures Punctual(Step(w, o), o.after)
  {
    DeadlineOne(w.received, Arrival(o.message, o.after));
    DeclinePhase(w, o, if o.message.Pause? then Pausing(o.message.until) else Connecting);
  }

  lemma StepIsPunctual(w: World, o: Outcome)
    requires Punctual(w, o.now) && o.now <= o.after
    ensures Punctual(Step(w, o), o.after)
  {
    match w.phase
    case Waiting => ServeIsPunctual(w, o);
    case Pausing(_) => PauseIsPunctual(w, o);
    case BackingOff => BackOffIsPunctual(w, o);
    case _ =>
  }

  lemma {:induction false} RunIsPunctual(initial: Option<Snapshot>, script: seq<Outcome>, now: nat)
    requires Forward(script) && (script != [] ==> script[|script| - 1].after <= now)
    ensures Punctual(Run(initial, script), now)
    decreases |script|
  {
    if script != [] {
      var n := |script| - 1;
      RunIsPunctual(initial, script[..n], script[n].now);
      StepIsPunctual(Run(initial, script[..n]), script[n]);
    }
  }

  /** Over every run: the worker opens the port only when every pause asked for is over. */
  lemma PausesAreKept(initial: Option<Snapshot>, script: seq<Outcome>, o: Outcome)
    requires Forward(script + [o]) && Open(Step(Run(initial, script), o).log) && !Open(Run(initial, script).log)
    ensures Deadline(Run(initial, script).received) <= o.now
  {
    assert forall i :: 0 <= i < |script| ==> (script + [o])[i] == script[i];
    assert (script + [o])[|script|] == o;
    RunIsPunctual(initial, script, o.now);
    RunIsConsistent(initial, script);
    StepIsConsistent(initial, Run(initial, script), o);
  }

  /** The deadline in force covers every request since the last one that came too late to
      ask for anything. */
  lemma {:induction false} DeadlineCovers(received: seq<Arrival>, i: nat)
    requires i < |received| && received[i].message.Pause?
    requires forall j :: i <= j < |received| && received[j].message.Pause? ==>
      received[j].message.until > received[j].at
    ensures Deadline(received) >= received[i].message.until
    decreases |received|
  {
    var n := |received| - 1;
    if i < n {
      assert forall j :: 0 <= j < n ==> received[..n][j] == received[j];
      DeadlineCovers(received[..n], i);
    }
  }

  /** The request asks for nothing any more when it arrives: it resumes. */
  predicate Resumes(a: Arrival) {
    a.message.Pause? && a.message.until <= a.at
  }

  /** The last request that resumes is at i, or there is none. */
  predicate LastResume(received: seq<Arrival>, i: int) {
    && -1 <= i < |received| && (0 <= i ==> Resumes(received[i]))
    && forall j :: i < j < |received| ==> !Resumes(received[j])
  }

  /** Among the requests from i on, d is the latest time asked for. */
  ghost predicate LatestAsked(received: seq<Arrival>, i: int, d: nat) {
    && (exists j :: 0 <= j < |received| && i <= j && received[j].message.Pause? && received[j].message.until == d)
    && (forall j :: 0 <= j < |received| && i <= j && received[j].message.Pause? ==> received[j].message.until <= d)
  }

  predicate SomePause(received: seq<Arrival>, i: int) {
    exists j :: 0 <= j < |received| && i <= j && received[j].message.Pause?
  }

  lemma LatestAskedSnoc(before: seq<Arrival>, a: Arrival, i: int, d: nat)
    requires a.message.Pause? && !Resumes(a) && i < |before|
    requires if SomePause(before, i) then LatestAsked(before, i, d) else d == 0
    ensures LatestAsked(before + [a], i, if d > a.message.until then d else a.message.until)
  {
    var all := before + [a];
    assert all[|before|] == a;
    if d > a.message.until {
      var j :| 0 <= j < |before| && i <= j && before[j].message.Pause? && before[j].message.until == d;
      assert all[j] == before[j];
    }
    forall j | 0 <= j < |all| && i <= j && all[j].message.Pause?
      ensures all[j].message.until <= if d > a.message.until then d else a.message.until
    {
      assert j < |before| ==> all[j] == before[j] && SomePause(before, i);
    }
  }

  lemma NothingMoreAsked(before: seq<Arrival>, a: Arrival, i: int, d: nat)
    requires !a.message.Pause? && i < |before|
    ensures SomePause(before + [a], i) <==> SomePause(before, i)
    ensures LatestAsked(before, i, d) ==> LatestAsked(before + [a], i, d)
  {
    var all := before + [a];
    assert forall j :: 0 <= j < |before| ==> all[j] == before[j];
    assert all[|before|] == a;
  }

  /** The deadline in force is the latest time asked for since the last request that
      resumes, that request included. */
  lemma {:induction false} DeadlineIsLatestAsked(received: seq<Arrival>, i: int)
    requires LastResume(received, i)
    ensures if SomePause(received, i) then LatestAsked(received, i, Deadline(received)) else Deadline(received) == 0
    decreases |received|
  {
    if received != [] {
      var n := |received| - 1;
      var before, a := received[..n], received[n];
      assert received == before + [a];
      DeadlineOne(before, a);
      if i == n {
        assert received[n] == a && Resumes(a);
      } else {
        assert LastResume(before, i);
        DeadlineIsLatestAsked(before, i);
        if a.message.Pause? {
          LatestAskedSnoc(before, a, i, Deadline(before));
          assert SomePause(received, i);
        } else {
          NothingMoreAsked(before, a, i, Deadline(before));
        }
      }
    }
  }

  /** Everything received arrived by now, and a pausing worker was asked to pause. */
  ghost predicate Heard(w: World, now: nat) {
    (forall i :: 0 <= i < |w.received| ==> w.received[i].at <= now)
    && (w.phase.Pausing? ==> exists i :: 0 <= i < |w.received| && w.received[i].message.Pause?)
  }

  lemma StepReceives(w: World, o: Outcome)
    ensures var r := Step(w, o);
      && (r.received == w.received || r.received == w.received + [Arrival(o.message, o.after)])
      && (r.phase.Pausing? && !w.phase.Pausing? ==>
           o.message.Pause? && r.received == w.received + [Arrival(o.message, o.after)])
  {
  }

  lemma StepHears(w: World, o: Outcome)
    requires Heard(w, o.now) && o.now <= o.after
    ensures Heard(Step(w, o), o.after)
  {
    var r := Step(w, o);
    StepReceives(w, o);
    assert forall i :: 0 <= i < |w.received| ==> r.received[i] == w.received[i];
    if r.phase.Pausing? {
      if w.phase.Pausing? {
        var i :| 0 <= i < |w.received| && w.received[i].message.Pause?;
        assert r.received[i].message.Pause?;
      } else {
        assert r.received[|w.received|].message.Pause?;
      }
    }
  }

  lemma {:induction false} RunHears(initial: Option<Snapshot>, script: seq<Outcome>, now: nat)
    requires Forward(script) && (script != [] ==> script[|script| - 1].after <= now)
    ensures Heard(Run(initial, script), now)
    decreases |script|
  {
    if script != [] {
      var n := |script| - 1;
      RunHears(initial, script[..n], script[n].now);
      StepHears(Run(initial, script[..n]), script[n]);
    }
  }

  /** Over every run: a worker pauses until the latest time asked for since the last request
      that resumes, that request included. */
  lemma PausesUntilLatestAsked(initial: Option<Snapshot>, script: seq<Outcome>, now: nat, i: int)
    requires Forward(script) && (script != [] ==> script[|script| - 1].after <= now)
    requires Run(initial, script).phase.Pausing? && LastResume(Run(initial, script).received, i)
    ensures LatestAsked(Run(initial, script).received, i, Run(initial, script).phase.until)
  {
    var w := Run(initial, script);
    RunIsPunctual(initial, script, now);
    RunHears(initial, script, now);
    var j :| 0 <= j < |w.received| && w.received[j].message.Pause?;
    assert SomePause(w.received, i) by {
      if 0 <= i {
        assert w.received[i].message.Pause?;
      }
    }
    DeadlineIsLatestAsked(w.received, i);
  }

  /** Over every run: once a request that resumes is the last one asked for, the worker
      stops pausing at its next look at the clock, and opens the port with the next
      connection that succeeds. */
  lemma ResumeReopens(initial: Option<Snapshot>, script: seq<Outcome>, i: nat, o: Outcome, p: Outcome)
    requires Forward(script) && (script != [] ==> script[|script| - 1].after <= o.now)
    requires var r := Run(initial, script).received;
      && i < |r| && r[i].message.Pause? && r[i].message.until <= r[i].at
      && forall j :: i < j < |r| ==> !r[j].message.Pause?
    requires Run(initial, script).phase.Pausing? && p.ok
    ensures var w := Run(initial, script);
      && Step(w, o).phase == Connecting
      && Step(Step(w, o), p).log == w.log + [Opened(p.now)]
      && InSession(Step(Step(w, o), p).phase)
  {
    var w := Run(initial, script);
    RunHears(initial, script, o.now);
    PausesUntilLatestAsked(initial, script, o.now, i);
  }

  /** The first connection sends the snapshot the worker was started with, unless that was
      never published. */
  lemma FirstGreeting(initial: Option<Snapshot>, p: Outcome, q: Outcome)
    requires p.ok && q.ok
    ensures var w := Step(Step(Begin(initial), p), q);
      if initial.Some? && initial.value.seqNo >= 1 then w.log == [Opened(p.now), Sent(initial.value)]
      else w.log == [Opened(p.now)]
  {
  }

  /** A request is answered with success exactly if the port was open and the line served it,
      and a failure on the line closes the port. */
  lemma ReplyIsHonest(w: World, o: Outcome, id: nat)
    requires o.message == Rpc(id)
    requires w.phase.Waiting? || w.phase.BackingOff? || (w.phase.Pausing? && o.now < w.phase.until)
    ensures Step(w, o).log == w.log +
      (if !w.phase.Waiting? then [Replied(id, false)]
       else if o.ok then [Replied(id, true)] else [Replied(id, false), Closed])
    ensures InSession(Step(w, o).phase) <==> w.phase.Waiting? && o.ok
  {
  }
}

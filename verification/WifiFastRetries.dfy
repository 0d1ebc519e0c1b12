/** How many fast reconnects the Wi-Fi retry machine makes before it moves on. */
module WifiFastRetries {
  import opened WifiRetry

  /** Neither a got-IP event nor a step of a user scan. */
  predicate Plain(e: Event) {
    !e.GotIp? && !e.ScanBegins? && !e.ScanEnds?
  }

  predicate Undisturbed(events: seq<Event>) {
    forall k :: 0 <= k < |events| ==> Plain(events[k])
  }

  /** The fast reconnects that may still follow before the next attempt: one if the timer
      is set for one, and one for every drop below the count. */
  function Budget(n: Net): nat
    requires n.disconnects <= FAST_RETRY_COUNT
  {
    FAST_RETRY_COUNT - n.disconnects + (if n.armed && !n.rescan then 1 else 0)
  }

  /** From n to m: without an attempt in between, the budget went down by what was spent;
      after an attempt what was spent and what is left come to at most three. */
  ghost predicate Spent(n: Net, m: Net)
    requires n.disconnects <= FAST_RETRY_COUNT
  {
    && m.disconnects <= FAST_RETRY_COUNT && |n.world.attempts| <= |m.world.attempts|
    && if |m.world.attempts| == |n.world.attempts|
       then n.world.fast <= m.world.fast && m.world.fast - n.world.fast + Budget(m) <= Budget(n)
       else m.world.fast + Budget(m) <= FAST_RETRY_COUNT
  }

  /** What an advance leaves: nothing but the place moved, or a fresh count. */
  predicate Advanced(n: Net, next: Net) {
    if next.world.attempts == n.world.attempts then next == n.(pos := next.pos)
    else |n.world.attempts| < |next.world.attempts| && next.disconnects == 0 && next.world.fast == 0 && !next.armed
  }

  lemma StartAdvances(n: Net, driver: Driver)
    requires n.pos < |n.candidates|
    ensures Advanced(n, AttemptNext(n, driver).0)
  {
  }

  lemma AdvancedTwice(n: Net, mid: Net, m: Net)
    requires Advanced(n, mid) && Advanced(mid, m)
    ensures Advanced(n, m)
  {
  }

  lemma {:induction false} AdvanceAdvances(n: Net, driver: Driver)
    ensures Advanced(n, Advance(n, driver).0)
    decreases |n.candidates| - n.pos
  {
    if n.pos < |n.candidates| {
      var (next, ok) := AttemptNext(n, driver);
      StartAdvances(n, driver);
      if !ok {
        AdvanceAdvances(next, driver);
        AdvancedTwice(n, next, Advance(next, driver).0);
      }
    }
  }

  lemma LossSpends(down: Net, next: Net)
    requires down.disconnects <= FAST_RETRY_COUNT && Advanced(down, next)
    ensures Spent(down, next) && Spent(down, ScheduleRetry(next.(disconnects := FAST_RETRY_COUNT), true))
  {
  }

  lemma RetrySpends(down: Net, driver: Driver, reason: Reason)
    requires down.disconnects <= FAST_RETRY_COUNT
    ensures Spent(down, Retried(down, driver, reason))
  {
    if reason.AuthFailure? {
      AdvanceAdvances(down, driver);
      LossSpends(down, Advance(down, driver).0);
    }
  }

  /** What the budget depends on. */
  predicate SameBudget(n: Net, m: Net) {
    && m.disconnects == n.disconnects && m.armed == n.armed && m.rescan == n.rescan
    && m.world.fast == n.world.fast && m.world.attempts == n.world.attempts
  }

  lemma SpentFrom(n: Net, same: Net, m: Net)
    requires SameBudget(n, same) && n.disconnects <= FAST_RETRY_COUNT && Spent(same, m)
    ensures Spent(n, m)
  {
  }

  lemma DisconnectSpends(n: Net, driver: Driver, reason: Reason, ends: bool)
    requires n.disconnects <= FAST_RETRY_COUNT
    ensures Spent(n, OnDisconnected(n, driver, reason, ends))
  {
    if !(n.ignoreOwn && reason.Own?) {
      var down := Down(n, ends);
      RetrySpends(down, driver, reason);
      SpentFrom(n, down, Retried(down, driver, reason));
    }
  }

  lemma TimerSpends(n: Net, driver: Driver, connectOk: bool)
    requires n.disconnects <= FAST_RETRY_COUNT && n.armed
    ensures Spent(n, OnTimer(n, driver, connectOk))
  {
    if n.rescan && 0 < n.profileCount {
      MoveOnSpends(n, driver);
    }
  }

  lemma MoveOnSpends(n: Net, driver: Driver)
    requires n.disconnects <= FAST_RETRY_COUNT && n.rescan
    ensures Spent(n, MovedOn(n, driver))
  {
    AdvanceAdvances(Wrapped(n), driver);
    SlowRetrySpends(n, Advance(Wrapped(n), driver).0);
  }

  /** The slow retry: what follows the advance takes nothing from the budget. */
  lemma SlowRetrySpends(n: Net, next: Net)
    requires n.disconnects <= FAST_RETRY_COUNT && n.rescan && Advanced(Wrapped(n), next)
    ensures Spent(n, next) && Spent(n, ScheduleRetry(next, true))
  {
  }

  lemma EventSpends(n: Net, driver: Driver, e: Event)
    requires n.disconnects <= FAST_RETRY_COUNT && Plain(e)
    ensures Spent(n, Handle(n, driver, e))
  {
    match e
    case Disconnected(reason, ends) => DisconnectSpends(n, driver, reason, ends);
    case TimerFires(ok) =>
      if n.armed {
        TimerSpends(n, driver, ok);
      }
    case StaStart(_) =>
  }

  lemma {:induction false} RunSpends(n: Net, driver: Driver, events: seq<Event>)
    requires n.disconnects <= FAST_RETRY_COUNT && Undisturbed(events)
    ensures Spent(n, Run(n, driver, events))
    decreases |events|
  {
    if events != [] {
      var k := |events| - 1;
      RunSpends(n, driver, events[..k]);
      EventSpends(Run(n, driver, events[..k]), driver, events[k]);
    }
  }

  lemma StepBounded(n: Net, driver: Driver, e: Event)
    requires n.disconnects <= FAST_RETRY_COUNT
    ensures Handle(n, driver, e).disconnects <= FAST_RETRY_COUNT
  {
    if Plain(e) {
      EventSpends(n, driver, e);
    }
  }

  lemma {:induction false} DisconnectsBounded(n: Net, driver: Driver, events: seq<Event>)
    requires n.disconnects <= FAST_RETRY_COUNT
    ensures Run(n, driver, events).disconnects <= FAST_RETRY_COUNT
    decreases |events|
  {
    if events != [] {
      var k := |events| - 1;
      DisconnectsBounded(n, driver, events[..k]);
      StepBounded(Run(n, driver, events[..k]), driver, events[k]);
    }
  }

  /** Over every run and every stretch of it without got-IP events and user scans: before
      the next attempt at most the budget left at its start is spent on fast reconnects,
      which is at most four, and after each attempt at most three are. */
  lemma FastRetriesBounded(n: Net, driver: Driver, past: seq<Event>, stretch: seq<Event>)
    requires n.disconnects <= FAST_RETRY_COUNT && Undisturbed(stretch)
    ensures var m := Run(n, driver, past); var r := Run(m, driver, stretch);
      && m.disconnects <= FAST_RETRY_COUNT && Budget(m) <= FAST_RETRY_COUNT + 1
      && (|r.world.attempts| == |m.world.attempts| ==> r.world.fast - m.world.fast <= Budget(m))
      && (|r.world.attempts| > |m.world.attempts| ==> r.world.fast <= FAST_RETRY_COUNT)
  {
    DisconnectsBounded(n, driver, past);
    RunSpends(Run(n, driver, past), driver, stretch);
  }

  const TICK: Event := TimerFires(true)
  const DROP: Event := Disconnected(OtherReason, true)
  const LATE: Event := Disconnected(OtherReason, false)

  /** A fast retry is pending, or something can be reported that asks for one. */
  predicate UnderWay(n: Net) {
    || (n.armed && !n.rescan) || n.world.linkUp || n.world.owed || n.world.cancelled > 0
    || (n.world.starting && 0 <= n.current < n.profileCount)
  }

  /** What can really be spent of the budget. */
  function Reach(n: Net): nat
    requires n.disconnects <= FAST_RETRY_COUNT
  {
    if UnderWay(n) then Budget(n) else 0
  }

  /** The event that spends it. */
  function Next(n: Net): Event {
    if n.armed && !n.rescan then TICK
    else if n.world.linkUp || n.world.owed then DROP
    else if n.world.cancelled > 0 then LATE
    else StaStart(true)
  }

  /** How far the run that spends it still goes. */
  function Distance(n: Net): nat
    requires n.disconnects <= FAST_RETRY_COUNT
  {
    3 * Budget(n) +
    (if n.armed && !n.rescan then 0 else if n.world.linkUp || n.world.owed || n.world.cancelled > 0 then 1 else 2)
  }

  /** e can happen, and what it spends is missing from what can be spent after it. */
  predicate Spends(n: Net, e: Event, m: Net)
    requires n.disconnects <= FAST_RETRY_COUNT
  {
    && Possible(n, e) && m.disconnects <= FAST_RETRY_COUNT
    && m.profileCount == n.profileCount && m.world.attempts == n.world.attempts
    && m.world.fast + Reach(m) == n.world.fast + Reach(n) && Distance(m) < Distance(n)
  }

  lemma TickSpends(n: Net, driver: Driver)
    requires 0 < n.profileCount && n.disconnects <= FAST_RETRY_COUNT && n.armed && !n.rescan
    ensures Spends(n, TICK, Handle(n, driver, TICK))
  {
  }

  lemma LossAsksForFast(n: Net, driver: Driver, ends: bool)
    requires 0 < n.profileCount && n.disconnects < FAST_RETRY_COUNT && !(n.armed && !n.rescan)
    requires Possible(n, Disconnected(OtherReason, ends))
    ensures Spends(n, Disconnected(OtherReason, ends), Handle(n, driver, Disconnected(OtherReason, ends)))
  {
    var down := Down(n, ends);
    assert Handle(n, driver, Disconnected(OtherReason, ends)) ==
      ScheduleRetry(down.(disconnects := n.disconnects + 1), false);
  }

  lemma StartSpends(n: Net, driver: Driver)
    requires n.disconnects <= FAST_RETRY_COUNT && n.world.starting && 0 <= n.current < n.profileCount
    requires !(n.armed && !n.rescan) && !n.world.linkUp && !n.world.owed && n.world.cancelled == 0
    ensures Spends(n, StaStart(true), Handle(n, driver, StaStart(true)))
  {
  }

  lemma NextSpends(n: Net, driver: Driver)
    requires 0 < n.profileCount && n.disconnects <= FAST_RETRY_COUNT && Reach(n) > 0
    ensures Plain(Next(n)) && Spends(n, Next(n), Handle(n, driver, Next(n)))
  {
    if n.armed && !n.rescan {
      TickSpends(n, driver);
    } else if n.world.linkUp || n.world.owed || n.world.cancelled > 0 {
      LossAsksForFast(n, driver, n.world.linkUp || n.world.owed);
    } else {
      StartSpends(n, driver);
    }
  }

  /** A possible run without attempts that spends all of it. */
  lemma {:induction false} Spree(n: Net, driver: Driver) returns (events: seq<Event>)
    requires 0 < n.profileCount && n.disconnects <= FAST_RETRY_COUNT
    ensures Undisturbed(events) && PossibleRun(n, driver, events)
    ensures var r := Run(n, driver, events);
      r.world.attempts == n.world.attempts && r.world.fast == n.world.fast + Reach(n)
    decreases Distance(n)
  {
    if Reach(n) == 0 {
      events := [];
    } else {
      NextSpends(n, driver);
      var rest := Spree(Handle(n, driver, Next(n)), driver);
      events := [Next(n)] + rest;
      RunFirst(n, driver, Next(n), rest, events);
    }
  }

  lemma MoveOnAttempts(n: Net, driver: Driver)
    requires Ready(n)
    ensures |MovedOn(n, driver).world.attempts| > |n.world.attempts|
  {
    var first := Wrapped(n);
    SamePlace(n, first);
    var (next, ok) := AttemptNext(first, driver);
    StartAttempts(first, driver);
    AttemptFollows(first, next);
    AdvanceStep(first, driver);
    if !ok {
      AdvanceFollows(next, driver);
    }
  }

  lemma QuietStep(n: Net, driver: Driver, e: Event)
    requires Ready(n) && !UnderWay(n) && Plain(e) && Possible(n, e)
    ensures var m := Handle(n, driver, e);
      || |m.world.attempts| > |n.world.attempts|
      || (!UnderWay(m) && m.world.fast == n.world.fast && m.world.attempts == n.world.attempts)
  {
    if e.TimerFires? {
      MoveOnAttempts(n, driver);
    }
  }

  /** A possible run, undisturbed and without an attempt. */
  ghost predicate Stretch(n: Net, driver: Driver, events: seq<Event>) {
    && Undisturbed(events) && PossibleRun(n, driver, events)
    && |Run(n, driver, events).world.attempts| == |n.world.attempts|
  }

  /** No such run from n spends more than k fast reconnects. */
  ghost predicate AtMost(n: Net, k: nat) {
    forall driver, events :: Stretch(n, driver, events) ==> Run(n, driver, events).world.fast - n.world.fast <= k
  }

  /** Where nothing is under way, no fast reconnect comes before the next attempt. */
  lemma {:induction false} RunQuiet(n: Net, driver: Driver, events: seq<Event>)
    requires Ready(n) && !UnderWay(n) && Stretch(n, driver, events)
    ensures !UnderWay(Run(n, driver, events)) && Run(n, driver, events).world.fast == n.world.fast
    decreases |events|
  {
    if events != [] {
      var k := |events| - 1;
      var before := Run(n, driver, events[..k]);
      AttemptsAreCyclic(n, driver, events[..k]);
      EventFollows(before, driver, events[k]);
      PossiblePrefix(n, driver, events, k);
      RunQuiet(n, driver, events[..k]);
      QuietStep(before, driver, events[k]);
    }
  }

  lemma ReachBounds(n: Net, driver: Driver, events: seq<Event>)
    requires Ready(n) && n.disconnects <= FAST_RETRY_COUNT && Stretch(n, driver, events)
    ensures Run(n, driver, events).world.fast - n.world.fast <= Reach(n)
  {
    if UnderWay(n) {
      RunSpends(n, driver, events);
    } else {
      RunQuiet(n, driver, events);
    }
  }

  /** The budget is exact where something is under way, and nothing of it can be spent
      where not: no possible run exceeds it, and some possible run spends all of it. */
  lemma FastBudgetExact(n: Net, k: nat)
    requires Ready(n) && n.disconnects <= FAST_RETRY_COUNT
    ensures AtMost(n, k) <==> Reach(n) <= k
  {
    if Reach(n) <= k {
      forall driver, events | Stretch(n, driver, events)
        ensures Run(n, driver, events).world.fast - n.world.fast <= k
      {
        ReachBounds(n, driver, events);
      }
    } else {
      var driver: Driver := _ => Started;
      var events := Spree(n, driver);
      assert Stretch(n, driver, events);
    }
  }

  /** After a got-IP event at most three fast reconnects follow before the next attempt,
      got-IP event or user scan, exactly when the event did not find the timer running:
      it does not stop it. */
  lemma ThreeFastExactlyWhenTimerIdle(n: Net)
    requires Ready(n)
    ensures AtMost(OnGotIp(n), FAST_RETRY_COUNT) <==> !n.armed
  {
    SamePlace(n, OnGotIp(n));
    FastBudgetExact(OnGotIp(n), FAST_RETRY_COUNT);
  }

  /** After a user scan that paused the retries the same holds exactly when a drop is
      counted at its end. */
  lemma ThreeFastExactlyAfterScanEnds(n: Net)
    requires Ready(n) && n.disconnects <= FAST_RETRY_COUNT && n.paused > 0
    ensures AtMost(OnScanEnds(n), FAST_RETRY_COUNT) <==> n.disconnects >= 1
  {
    SamePlace(n, OnScanEnds(n));
    FastBudgetExact(OnScanEnds(n), FAST_RETRY_COUNT);
  }

  /** For a scan with nothing in between, told from the state before it: exactly when a
      drop had been counted, or it left a connected manager with no fast retry pending. */
  lemma ThreeFastExactlyAfterScan(n: Net, startOk: bool)
    requires Ready(n) && n.disconnects <= FAST_RETRY_COUNT
    ensures AtMost(UserScan(n, startOk), FAST_RETRY_COUNT) <==>
      n.disconnects >= 1 || (n.connected && !(n.armed && !n.rescan))
  {
    SamePlace(n, UserScan(n, startOk));
    FastBudgetExact(UserScan(n, startOk), FAST_RETRY_COUNT);
  }

  /** A pending fast retry and then a drop: one is spent and the next is pending. */
  lemma TickThenDrop(n: Net, driver: Driver, rest: seq<Event>) returns (m: Net)
    requires n.armed && !n.rescan && n.disconnects < FAST_RETRY_COUNT && 0 < n.profileCount
    ensures m.armed && !m.rescan && m.disconnects == n.disconnects + 1 && m.profileCount == n.profileCount
    ensures m.world.fast == n.world.fast + 1 && m.world.attempts == n.world.attempts
    ensures Run(n, driver, [TICK, DROP] + rest) == Run(m, driver, rest)
    ensures PossibleRun(m, driver, rest) ==> PossibleRun(n, driver, [TICK, DROP] + rest)
  {
    var ticked := Handle(n, driver, TICK);
    m := Handle(ticked, driver, DROP);
    RunFirst(ticked, driver, DROP, rest, [DROP] + rest);
    RunFirst(n, driver, TICK, [DROP] + rest, [TICK, DROP] + rest);
  }

  const FOUR_FAST: seq<Event> := [TICK, DROP] + ([TICK, DROP] + ([TICK, DROP] + [TICK]))

  lemma FourFast(n: Net, driver: Driver)
    requires n.armed && !n.rescan && n.disconnects == 0 && 0 < n.profileCount
    ensures PossibleRun(n, driver, FOUR_FAST)
    ensures var r := Run(n, driver, FOUR_FAST);
      r.world.fast == n.world.fast + FAST_RETRY_COUNT + 1 && r.world.attempts == n.world.attempts
  {
    var first := TickThenDrop(n, driver, [TICK, DROP] + ([TICK, DROP] + [TICK]));
    var second := TickThenDrop(first, driver, [TICK, DROP] + [TICK]);
    var third := TickThenDrop(second, driver, [TICK]);
    RunFirst(third, driver, TICK, [], [TICK]);
  }

  /** The run that shows it after a got-IP event: the stale timer fires, and three drops
      follow. */
  lemma StaleTimerAddsOne(n: Net, driver: Driver)
    requires n.armed && 0 < n.profileCount
    ensures PossibleRun(OnGotIp(n), driver, FOUR_FAST)
    ensures Run(OnGotIp(n), driver, FOUR_FAST).world.fast == FAST_RETRY_COUNT + 1
    ensures Run(OnGotIp(n), driver, FOUR_FAST).world.attempts == n.world.attempts
  {
    FourFast(OnGotIp(n), driver);
  }

  /** The same after a scan that arms the timer with no drop counted. */
  lemma ScanAddsOne(n: Net, driver: Driver, startOk: bool)
    requires !n.connected && n.disconnects == 0 && 0 < n.profileCount
    ensures PossibleRun(UserScan(n, startOk), driver, FOUR_FAST)
    ensures Run(UserScan(n, startOk), driver, FOUR_FAST).world.fast == n.world.fast + FAST_RETRY_COUNT + 1
    ensures Run(UserScan(n, startOk), driver, FOUR_FAST).world.attempts == n.world.attempts
  {
    FourFast(UserScan(n, startOk), driver);
  }

  /** While a user scan has the retries paused, neither the timer nor a success can come from
      what went on before it, and nothing is taken for a loss of the manager's own making but
      the report of the connect it cancelled. */
  lemma ScanPauses(n: Net, startOk: bool)
    requires !n.connected && 0 < n.profileCount
    ensures var m := OnScanBegins(n, startOk);
      && m.paused == n.paused + 1 && m.ignoreOwn
      && (forall ok :: !Possible(m, TimerFires(ok))) && !Possible(m, GotIp)
      && (forall reason :: !Possible(m, Disconnected(reason, true)))
      && m.world.cancelled == n.world.cancelled + (if n.world.owed || n.world.linkUp then 1 else 0)
      && m.world.attempts == n.world.attempts && m.disconnects == n.disconnects
  {
  }

  /** Its end asks for a fast retry, and connecting again is what that does. */
  lemma ScanResumes(n: Net, driver: Driver)
    requires n.paused > 0 && 0 < n.profileCount
    ensures var m := OnScanEnds(n);
      && m.paused == n.paused - 1 && Possible(m, TICK)
      && Handle(m, driver, TICK).world.owed && Handle(m, driver, TICK).world.attempts == n.world.attempts
  {
  }
}

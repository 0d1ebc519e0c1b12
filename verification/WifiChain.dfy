/** When the chain of retries of the Wi-Fi manager begins and ends. */
module WifiChain {
  import opened WifiRetry
  import opened WifiFastRetries
  import opened WifiOverlap

  /** Something will still happen by itself: the timer is armed or a user scan will arm it,
      the driver owes a report, or the link is really up, so that its loss will be
      reported. */
  predicate Alive(n: Net) {
    n.armed || n.paused > 0 || n.world.starting || n.world.owed || n.world.linkUp
  }

  /** This is what can happen without a user, a late report of a cancelled connect aside. */
  lemma AliveExactly(n: Net)
    ensures Alive(n) || n.world.cancelled > 0 <==> exists e :: Possible(n, e) && !e.ScanBegins?
  {
    if Alive(n) || n.world.cancelled > 0 {
      var e := if n.armed then TICK else if n.paused > 0 then ScanEnds else if n.world.starting then StaStart(true)
        else Disconnected(Own, n.world.linkUp || n.world.owed);
      assert Possible(n, e) && !e.ScanBegins?;
    }
  }

  lemma {:induction false} AdvanceOwes(n: Net, driver: Driver)
    ensures var (next, ok) := Advance(n, driver); ok ==> next.world.owed || next.world.starting
    decreases |n.candidates| - n.pos
  {
    if n.pos < |n.candidates| {
      var (next, ok) := AttemptNext(n, driver);
      if !ok {
        AdvanceOwes(next, driver);
      }
    }
  }

  lemma TimerEnds(n: Net, driver: Driver, connectOk: bool)
    requires Ready(n) && n.armed
    ensures !Alive(OnTimer(n, driver, connectOk)) <==>
      !connectOk && !n.rescan && n.paused == 0 && !n.world.starting && !n.world.owed && !n.world.linkUp
  {
    AdvanceOwes(Wrapped(n), driver);
  }

  lemma DisconnectEnds(n: Net, driver: Driver, reason: Reason, ends: bool)
    requires Ready(n)
    ensures !Alive(OnDisconnected(n, driver, reason, ends)) <==>
      && reason.Own? && n.ignoreOwn && !n.armed && n.paused == 0 && !n.world.starting
      && (ends || (!n.world.owed && !n.world.linkUp))
  {
    AdvanceOwes(Down(n, ends), driver);
  }

  /** A living chain of retries ends at exactly three kinds of step: a fast reconnect or a
      connect at driver start whose error is ignored, and a disconnect event swallowed as
      deliberate, each with nothing else under way. Every other step keeps it going. */
  lemma ChainEndsExactly(n: Net, driver: Driver, e: Event)
    requires Ready(n) && Alive(n)
    ensures !Alive(Handle(n, driver, e)) <==>
      && n.paused == 0
      && match e
         case TimerFires(ok) => !ok && n.armed && !n.rescan && !n.world.starting && !n.world.owed && !n.world.linkUp
         case StaStart(ok) => !(ok && 0 <= n.current < n.profileCount) && !n.armed && !n.world.owed && !n.world.linkUp
         case Disconnected(reason, ends) =>
           reason.Own? && n.ignoreOwn && !n.armed && !n.world.starting && (ends || (!n.world.owed && !n.world.linkUp))
         case GotIp => false
         case ScanBegins(_) => false
         case ScanEnds => false
  {
    match e
    case Disconnected(reason, ends) => DisconnectEnds(n, driver, reason, ends);
    case TimerFires(ok) =>
      if n.armed {
        TimerEnds(n, driver, ok);
      }
    case StaStart(_) =>
    case GotIp =>
    case ScanBegins(_) =>
    case ScanEnds =>
  }

  predicate Starts(driver: Driver, j: nat) {
    driver(j).Started?
  }

  /** One of the candidates from here to the end of the list starts. */
  ghost predicate SomeStarts(n: Net, driver: Driver) {
    exists j :: |n.world.attempts| <= j < |n.world.attempts| + |n.candidates| - n.pos && Starts(driver, j)
  }

  lemma {:induction false} AdvanceStartsExactly(n: Net, driver: Driver)
    requires Ready(n)
    ensures Advance(n, driver).1 <==> SomeStarts(n, driver)
    decreases |n.candidates| - n.pos
  {
    if n.pos < |n.candidates| {
      var (next, ok) := AttemptNext(n, driver);
      StartAttempts(n, driver);
      AttemptFollows(n, next);
      StartsNow(n, driver);
      if !ok {
        AdvanceStartsExactly(next, driver);
        SomeStartsLater(n, next, driver);
      }
    }
  }

  lemma StartsNow(n: Net, driver: Driver)
    requires Ready(n) && n.pos < |n.candidates|
    ensures AttemptNext(n, driver).1 <==> Starts(driver, |n.world.attempts|)
  {
    assert n.candidates[n.pos] < n.profileCount;
  }

  lemma SomeStartsLater(n: Net, next: Net, driver: Driver)
    requires Attempted(n, next) && !Starts(driver, |n.world.attempts|)
    ensures SomeStarts(n, driver) <==> SomeStarts(next, driver)
  {
  }

  lemma {:induction false} AdvanceFailsQuietly(n: Net, driver: Driver)
    requires !n.armed && !n.world.owed && !n.world.linkUp
    ensures var (next, ok) := Advance(n, driver);
      && (!ok ==> !next.armed && !next.world.owed && !next.world.linkUp && next.world.starting == n.world.starting)
      && (n.world.starting ==> next.world.starting) && next.paused == n.paused
    decreases |n.candidates| - n.pos
  {
    if n.pos < |n.candidates| {
      var (next, ok) := AttemptNext(n, driver);
      if !ok {
        AdvanceFailsQuietly(next, driver);
      }
    }
  }

  /** With nothing under way, net_manager_start begins a chain exactly when some candidate
      starts, or the start of the driver is not reported yet, whose report then begins it. */
  lemma ChainBeginsExactly(n: Net, driver: Driver)
    requires Ready(n) && !n.armed && n.paused == 0 && !n.world.owed && !n.world.linkUp
    ensures Alive(Begin(n, driver)) <==> SomeStarts(n, driver) || n.world.starting
  {
    AdvanceOwes(n, driver);
    AdvanceStartsExactly(n, driver);
    AdvanceFailsQuietly(n, driver);
  }

  /** Once the chain has ended, a user scan begins another exactly when the manager knows
      that it is off line or the scan starts the driver. */
  lemma ScanRevivesExactly(n: Net, startOk: bool)
    requires 0 < n.profileCount && !Alive(n)
    ensures n.world.cancelled == 0 ==> forall e :: Possible(n, e) ==> e.ScanBegins?
    ensures Alive(OnScanBegins(n, startOk)) <==> !n.connected || (!n.driverStarted && startOk)
  {
  }

  /** A manager that believes in a link that is gone stays so, whatever can still happen. */
  lemma {:induction false} StuckForever(n: Net, driver: Driver, events: seq<Event>)
    requires Coherent(n) && !Alive(n) && n.connected && n.driverStarted && PossibleRun(n, driver, events)
    ensures Run(n, driver, events) == n
    decreases |events|
  {
    if events != [] {
      var k := |events| - 1;
      PossiblePrefix(n, driver, events, k);
      StuckForever(n, driver, events[..k]);
      assert Possible(Run(n, driver, events[..k]), events[k]);
    }
  }

  /** Such a state: a connect is under way with the ignore flag still set, because the
      deliberate disconnect before it found the station idle and reported nothing; the
      connect succeeds; then the access point sends the station away with a leave reason.
      The event is swallowed and the manager goes on believing in the link. */
  lemma SwallowedLeaveStrands(n: Net, driver: Driver, later: seq<Event>)
    requires n.world.owed && n.ignoreOwn && !n.armed && n.paused == 0 && n.driverStarted && !n.world.starting
    ensures var events := [GotIp, Disconnected(Own, true)];
      var m := Run(n, driver, events);
      && PossibleRun(n, driver, events) && m.connected && !m.world.linkUp
      && (PossibleRun(m, driver, later) ==> Run(m, driver, later) == m)
  {
    var up, leave := Handle(n, driver, GotIp), Disconnected(Own, true);
    RunTwo(n, driver, GotIp, leave);
    var m := Handle(up, driver, leave);
    if PossibleRun(m, driver, later) {
      StuckForever(m, driver, later);
    }
  }

  /** Any ordinary boot can end there, with one network stored: its first attempt succeeds,
      and a leave reason from the access point is taken for the manager's own. */
  lemma StrandingHappens(profileCount: nat, candidates: seq<nat>, driver: Driver, later: seq<Event>)
    requires Ready(PoweredUp(profileCount, candidates)) && driver(0) == Started
    ensures var events := [GotIp, Disconnected(Own, true)];
      var n := Booted(profileCount, candidates, driver);
      var m := Run(n, driver, events);
      && PossibleRun(n, driver, events) && m.connected && !m.world.linkUp
      && (PossibleRun(m, driver, later) ==> Run(m, driver, later) == m)
  {
    FirstAttempt(profileCount, candidates, driver);
    SwallowedLeaveStrands(Booted(profileCount, candidates, driver), driver, later);
  }

  /** Where the scan of the boot cannot start the driver, the second attempt is the first
      to leave the flag set: the first network refuses, the second accepts and then sends
      the station away. */
  lemma StrandingAfterLateStart(profileCount: nat, candidates: seq<nat>, driver: Driver, later: seq<Event>)
    requires Ready(PoweredUp(profileCount, candidates)) && 2 <= profileCount
    requires driver(0) == Started && driver(1) == Started
    ensures var events := [StaStart(true), Disconnected(AuthFailure, true)];
      var n := BootedLate(profileCount, candidates, driver);
      var r := Run(n, driver, events);
      var leave := [GotIp, Disconnected(Own, true)];
      var m := Run(r, driver, leave);
      && PossibleRun(n, driver, events) && PossibleRun(r, driver, leave) && m.connected && !m.world.linkUp
      && (PossibleRun(m, driver, later) ==> Run(m, driver, later) == m)
  {
    var n := BootedLate(profileCount, candidates, driver);
    LateStart(profileCount, candidates, driver);
    var started, fail := OnStaStart(n, true), Disconnected(AuthFailure, true);
    SamePlace(n, started);
    FailureMovesOn(started, driver, true);
    RunTwo(n, driver, StaStart(true), fail);
    SwallowedLeaveStrands(Handle(started, driver, fail), driver, later);
  }
}

/** When the retry timer runs over a connect under way, over every possible run from a
    boot. */
module WifiOverlap {
  import opened WifiRetry
  import opened WifiFastRetries

  /** In a possible run, a manager that believes in a link waits for no report of a
      cancelled connect, and believes in the link that is up. */
  predicate Coherent(n: Net) {
    && (n.connected ==> n.world.cancelled == 0)
    && (n.world.linkUp ==> n.connected && !n.rescan)
  }

  lemma {:induction false} AdvanceCoherent(n: Net, driver: Driver)
    requires Coherent(n) && !n.world.linkUp
    ensures var next := Advance(n, driver).0; Coherent(next) && !next.world.linkUp && next.paused == n.paused
    decreases |n.candidates| - n.pos
  {
    if n.pos < |n.candidates| {
      var (next, ok) := AttemptNext(n, driver);
      if !ok {
        AdvanceCoherent(next, driver);
      }
    }
  }

  lemma DisconnectCoherent(n: Net, driver: Driver, reason: Reason, ends: bool)
    requires Coherent(n) && Possible(n, Disconnected(reason, ends))
    ensures Coherent(OnDisconnected(n, driver, reason, ends))
  {
    var down := Down(n, ends);
    AdvanceCoherent(down, driver);
    RetryCoherent(down, driver, reason);
  }

  lemma RetryCoherent(down: Net, driver: Driver, reason: Reason)
    requires Coherent(down) && !down.world.linkUp
    requires var next := Advance(down, driver).0; Coherent(next) && !next.world.linkUp
    ensures Coherent(Retried(down, driver, reason)) && !Retried(down, driver, reason).world.linkUp
  {
  }

  lemma TimerCoherent(n: Net, driver: Driver, connectOk: bool)
    requires Coherent(n)
    ensures Coherent(OnTimer(n, driver, connectOk))
  {
    if n.rescan {
      AdvanceCoherent(Wrapped(n), driver);
    }
  }

  lemma StepCoherent(n: Net, driver: Driver, e: Event)
    requires Coherent(n) && Possible(n, e)
    ensures Coherent(Handle(n, driver, e))
  {
    match e
    case Disconnected(reason, ends) => DisconnectCoherent(n, driver, reason, ends);
    case TimerFires(ok) => TimerCoherent(n, driver, ok);
    case StaStart(_) =>
    case GotIp =>
    case ScanBegins(_) =>
    case ScanEnds =>
  }

  lemma {:induction false} RunCoherent(n: Net, driver: Driver, events: seq<Event>)
    requires Coherent(n) && PossibleRun(n, driver, events)
    ensures Coherent(Run(n, driver, events))
    decreases |events|
  {
    if events != [] {
      var k := |events| - 1;
      PossiblePrefix(n, driver, events, k);
      RunCoherent(n, driver, events[..k]);
      StepCoherent(Run(n, driver, events[..k]), driver, events[k]);
    }
  }

  /** The driver has been started and has reported it. */
  predicate Running(n: Net) {
    n.driverStarted && !n.world.starting
  }

  /** The driver runs, and the timer is not armed over a connect under way or a link. */
  predicate Calm(n: Net) {
    Running(n) && Coherent(n) && (n.armed ==> !n.world.owed && !n.world.linkUp)
  }

  predicate Misses(driver: Driver, j: nat) {
    driver(j).ConfigFails?
  }

  /** No candidate from here to the end of the list gets as far as the driver. */
  ghost predicate AllMiss(n: Net, driver: Driver) {
    forall j :: |n.world.attempts| <= j < |n.world.attempts| + |n.candidates| - n.pos ==> Misses(driver, j)
  }

  lemma AllMissLater(n: Net, next: Net, driver: Driver)
    requires Attempted(n, next)
    ensures AllMiss(n, driver) <==> Misses(driver, |n.world.attempts|) && AllMiss(next, driver)
  {
  }

  lemma AttemptOwes(n: Net, driver: Driver)
    requires Ready(n) && n.pos < |n.candidates| && Running(n)
    ensures var (next, ok) := AttemptNext(n, driver);
      && Running(next)
      && (if ok then !Misses(driver, |n.world.attempts|)
          else next.world.owed <==> n.world.owed && Misses(driver, |n.world.attempts|))
  {
    assert n.candidates[n.pos] < n.profileCount;
  }

  /** With the driver running, a failing advance leaves a connect under way exactly if no
      candidate gets as far as the driver. */
  lemma {:induction false} AdvanceOwesExactly(n: Net, driver: Driver)
    requires Ready(n) && Running(n)
    ensures var (next, ok) := Advance(n, driver);
      && Running(next) && (ok ==> !next.armed) && (!n.armed ==> !next.armed)
      && (if ok then !AllMiss(n, driver) else next.world.owed <==> n.world.owed && AllMiss(n, driver))
    decreases |n.candidates| - n.pos
  {
    if n.pos < |n.candidates| {
      var (next, ok) := AttemptNext(n, driver);
      StartAttempts(n, driver);
      AttemptFollows(n, next);
      AttemptOwes(n, driver);
      if !ok {
        AdvanceOwesExactly(next, driver);
        AllMissLater(n, next, driver);
      }
    }
  }

  /** The step arms the timer over a connect under way or a link: a user scan ends while a
      connect is under way or the link is up, or a cancelled connect is reported as lost
      while a later one is under way. */
  ghost predicate Overlaps(n: Net, driver: Driver, e: Event) {
    match e
    case ScanEnds => n.world.owed || n.world.linkUp
    case Disconnected(reason, ends) =>
      && !ends && n.world.owed && !(n.ignoreOwn && reason.Own?)
      && (reason.AuthFailure? ==> AllMiss(n, driver))
    case _ => false
  }

  /** After a loss the manager takes notice of, with the report already taken in. */
  lemma CalmRetry(down: Net, driver: Driver, reason: Reason)
    requires Ready(down) && Coherent(down) && !down.world.linkUp && Running(down)
    requires !down.world.owed || !down.armed
    ensures Calm(Retried(down, driver, reason)) <==>
      !(down.world.owed && (reason.AuthFailure? ==> AllMiss(down, driver)))
  {
    AdvanceCoherent(down, driver);
    RetryCoherent(down, driver, reason);
    AdvanceOwesExactly(down, driver);
  }

  lemma CalmDisconnect(n: Net, driver: Driver, reason: Reason, ends: bool)
    requires Ready(n) && Calm(n) && Possible(n, Disconnected(reason, ends))
    ensures Calm(OnDisconnected(n, driver, reason, ends)) <==> !Overlaps(n, driver, Disconnected(reason, ends))
  {
    var down := Down(n, ends);
    SamePlace(n, down);
    CalmRetry(down, driver, reason);
    assert AllMiss(down, driver) == AllMiss(n, driver);
  }

  lemma CalmTimer(n: Net, driver: Driver, connectOk: bool)
    requires Ready(n) && Calm(n) && n.armed
    ensures Calm(OnTimer(n, driver, connectOk))
  {
    TimerCoherent(n, driver, connectOk);
    if n.rescan {
      SamePlace(n, Wrapped(n));
      AdvanceCoherent(Wrapped(n), driver);
      AdvanceOwesExactly(Wrapped(n), driver);
    }
  }

  /** With the driver running, these are the only steps that arm the timer over a connect
      under way or a link. */
  lemma TimerOverlapsExactly(n: Net, driver: Driver, e: Event)
    requires Ready(n) && Calm(n) && Possible(n, e)
    ensures Calm(Handle(n, driver, e)) <==> !Overlaps(n, driver, e)
  {
    match e
    case Disconnected(reason, ends) => CalmDisconnect(n, driver, reason, ends);
    case TimerFires(ok) => CalmTimer(n, driver, ok);
    case StaStart(_) =>
    case GotIp =>
    case ScanBegins(_) =>
    case ScanEnds =>
  }

  lemma LossKeepsRunning(n: Net, driver: Driver, reason: Reason, ends: bool)
    requires Ready(n) && Running(n)
    ensures Running(OnDisconnected(n, driver, reason, ends))
  {
    var down := Down(n, ends);
    SamePlace(n, down);
    AdvanceOwesExactly(down, driver);
  }

  lemma TimerKeepsRunning(n: Net, driver: Driver, connectOk: bool)
    requires Ready(n) && Running(n)
    ensures Running(OnTimer(n, driver, connectOk))
  {
    SamePlace(n, Wrapped(n));
    AdvanceOwesExactly(Wrapped(n), driver);
  }

  lemma StepKeepsRunning(n: Net, driver: Driver, e: Event)
    requires Ready(n) && Running(n)
    ensures Running(Handle(n, driver, e))
  {
    match e
    case Disconnected(reason, ends) => LossKeepsRunning(n, driver, reason, ends);
    case TimerFires(ok) => TimerKeepsRunning(n, driver, ok);
    case StaStart(_) =>
    case GotIp =>
    case ScanBegins(_) =>
    case ScanEnds =>
  }

  /** A got-IP event that can happen now is followed by at most three fast reconnects. */
  ghost predicate ThreeAfterGotIp(n: Net) {
    Possible(n, GotIp) ==> AtMost(OnGotIp(n), FAST_RETRY_COUNT)
  }

  lemma CalmMeansThree(n: Net)
    requires Ready(n) && Running(n) && Coherent(n)
    ensures Calm(n) <==> ThreeAfterGotIp(n)
  {
    ThreeFastExactlyWhenTimerIdle(n);
  }

  lemma OverlapMeansFour(n: Net, driver: Driver, e: Event)
    requires Ready(n) && Calm(n) && Possible(n, e)
    ensures Overlaps(n, driver, e) <==> !ThreeAfterGotIp(Handle(n, driver, e))
  {
    TimerOverlapsExactly(n, driver, e);
    EventFollows(n, driver, e);
    StepCoherent(n, driver, e);
    StepKeepsRunning(n, driver, e);
    CalmMeansThree(Handle(n, driver, e));
  }

  /** A user scan with nothing in between is no such step. */
  lemma UninterruptedScanIsCalm(n: Net, startOk: bool)
    requires Calm(n)
    ensures Calm(UserScan(n, startOk))
  {
  }

  ghost predicate NoOverlap(n: Net, driver: Driver, events: seq<Event>) {
    forall k :: 0 <= k < |events| ==> !Overlaps(Run(n, driver, events[..k]), driver, events[k])
  }

  /** At every moment of the run, a got-IP event would be followed by at most three. */
  ghost predicate ThreeThroughout(n: Net, driver: Driver, events: seq<Event>) {
    forall k :: 0 <= k <= |events| ==> ThreeAfterGotIp(Run(n, driver, events[..k]))
  }

  lemma NoOverlapSnoc(n: Net, driver: Driver, events: seq<Event>, k: nat)
    requires |events| == k + 1
    ensures NoOverlap(n, driver, events) <==>
      NoOverlap(n, driver, events[..k]) && !Overlaps(Run(n, driver, events[..k]), driver, events[k])
  {
    assert forall j :: 0 <= j < k ==> events[..k][..j] == events[..j] && events[..k][j] == events[j];
    if NoOverlap(n, driver, events[..k]) && !Overlaps(Run(n, driver, events[..k]), driver, events[k]) {
      forall j | 0 <= j < |events|
        ensures !Overlaps(Run(n, driver, events[..j]), driver, events[j])
      {
        assert j < k ==> !Overlaps(Run(n, driver, events[..k][..j]), driver, events[..k][j]);
      }
    }
  }

  lemma ThreeThroughoutSnoc(n: Net, driver: Driver, events: seq<Event>, k: nat)
    requires |events| == k + 1
    ensures ThreeThroughout(n, driver, events) <==>
      ThreeThroughout(n, driver, events[..k]) && ThreeAfterGotIp(Run(n, driver, events))
  {
    assert forall j :: 0 <= j <= k ==> events[..k][..j] == events[..j];
    assert events[..k + 1] == events;
  }

  lemma {:induction false} CalmRun(n: Net, driver: Driver, events: seq<Event>)
    requires Ready(n) && Calm(n) && PossibleRun(n, driver, events)
    ensures NoOverlap(n, driver, events) <==> ThreeThroughout(n, driver, events)
    ensures NoOverlap(n, driver, events) ==> Calm(Run(n, driver, events))
    decreases |events|
  {
    if events == [] {
      CalmMeansThree(n);
      assert events[..0] == events;
    } else {
      var k := |events| - 1;
      PossiblePrefix(n, driver, events, k);
      CalmRun(n, driver, events[..k]);
      NoOverlapSnoc(n, driver, events, k);
      ThreeThroughoutSnoc(n, driver, events, k);
      if NoOverlap(n, driver, events[..k]) {
        var before := Run(n, driver, events[..k]);
        AttemptsAreCyclic(n, driver, events[..k]);
        TimerOverlapsExactly(before, driver, events[k]);
        OverlapMeansFour(before, driver, events[k]);
      }
    }
  }

  lemma BootIsCalm(profileCount: nat, candidates: seq<nat>, driver: Driver)
    requires Ready(PoweredUp(profileCount, candidates))
    ensures var n := Booted(profileCount, candidates, driver); Calm(n) && Ready(n)
  {
    var n := OnStaStart(ScanStarts(PoweredUp(profileCount, candidates), true), true);
    AdvanceFollows(n, driver);
    AdvanceCoherent(n, driver);
    AdvanceOwesExactly(n, driver);
  }

  /** From an ordinary boot on, over every possible run: three fast reconnects bound what
      follows a got-IP event throughout exactly when no step of the run arms the timer over
      a connect under way or a link. */
  lemma ThreeFastFromBootExactly(profileCount: nat, candidates: seq<nat>, driver: Driver, events: seq<Event>)
    requires Ready(PoweredUp(profileCount, candidates))
    requires PossibleRun(Booted(profileCount, candidates, driver), driver, events)
    ensures var n := Booted(profileCount, candidates, driver);
      ThreeThroughout(n, driver, events) <==> NoOverlap(n, driver, events)
  {
    BootIsCalm(profileCount, candidates, driver);
    CalmRun(Booted(profileCount, candidates, driver), driver, events);
  }

  /** What an ordinary boot leaves when its first attempt starts. */
  lemma FirstAttempt(profileCount: nat, candidates: seq<nat>, driver: Driver)
    requires Ready(PoweredUp(profileCount, candidates)) && driver(0) == Started
    ensures var n := Booted(profileCount, candidates, driver);
      && Ready(n) && Calm(n) && n.world.owed && n.ignoreOwn && !n.armed && !n.connected && !n.world.linkUp
      && n.disconnects == 0 && n.paused == 0 && n.world.cancelled == 0 && n.pos == 1 && |n.world.attempts| == 1
  {
    var start := OnStaStart(ScanStarts(PoweredUp(profileCount, candidates), true), true);
    BootIsCalm(profileCount, candidates, driver);
    AdvanceStep(start, driver);
    StartAttempts(start, driver);
  }

  /** A user scan during the first attempt of an ordinary boot, with nothing in between:
      four fast reconnects can follow. */
  lemma ScanExceptionHappens(profileCount: nat, candidates: seq<nat>, driver: Driver)
    requires Ready(PoweredUp(profileCount, candidates)) && driver(0) == Started
    ensures var n := Booted(profileCount, candidates, driver);
      && PossibleRun(n, driver, [ScanBegins(true), ScanEnds])
      && !AtMost(Run(n, driver, [ScanBegins(true), ScanEnds]), FAST_RETRY_COUNT)
  {
    var n := Booted(profileCount, candidates, driver);
    FirstAttempt(profileCount, candidates, driver);
    var scanning := OnScanBegins(n, true);
    RunTwo(n, driver, ScanBegins(true), ScanEnds);
    SamePlace(n, scanning);
    ThreeFastExactlyAfterScanEnds(scanning);
  }

  /** An authentication failure moves on while candidates are left. */
  lemma FailureMovesOn(n: Net, driver: Driver, ends: bool)
    requires Ready(n) && n.driverStarted && n.pos < |n.candidates| && driver(|n.world.attempts|) == Started
    ensures var m := OnDisconnected(n, driver, AuthFailure, ends);
      && Ready(m) && m.ignoreOwn && m.world.owed && !m.armed && m.driverStarted
      && m.world.starting == n.world.starting && m.paused == n.paused
  {
    assert n.candidates[n.pos] < n.profileCount;
    var down := Down(n, ends);
    AdvanceStep(down, driver);
    StartAttempts(down, driver);
    AttemptFollows(down, AttemptNext(down, driver).0);
  }

  /** The failure of the first attempt is handled during a user scan. The second attempt
      begins, the end of the scan arms the timer over it, and the got-IP event finds it
      running. */
  lemma GotIpExceptionHappens(profileCount: nat, candidates: seq<nat>, driver: Driver)
    requires Ready(PoweredUp(profileCount, candidates)) && 2 <= profileCount
    requires driver(0) == Started && driver(1) == Started
    ensures var n := Booted(profileCount, candidates, driver);
      var events := [ScanBegins(true), Disconnected(AuthFailure, false), ScanEnds, GotIp];
      && PossibleRun(n, driver, events)
      && !AtMost(Run(n, driver, events), FAST_RETRY_COUNT)
  {
    var n := Booted(profileCount, candidates, driver);
    FirstAttempt(profileCount, candidates, driver);
    var scanning := OnScanBegins(n, true);
    SamePlace(n, scanning);
    FailureMovesOn(scanning, driver, false);
    var fail := Disconnected(AuthFailure, false);
    var second := Handle(scanning, driver, fail);
    var ended := Handle(second, driver, ScanEnds);
    SamePlace(second, ended);
    RunFour(n, driver, ScanBegins(true), fail, ScanEnds, GotIp);
    ThreeFastExactlyWhenTimerIdle(ended);
  }

  /** Where the scan of the boot cannot start the driver, a user scan during the first
      attempt is enough: the start is reported after it, with the timer armed. */
  lemma GotIpExceptionAfterLateStart(profileCount: nat, candidates: seq<nat>, driver: Driver)
    requires Ready(PoweredUp(profileCount, candidates)) && driver(0) == Started
    ensures var n := BootedLate(profileCount, candidates, driver);
      var events := [ScanBegins(true), ScanEnds, StaStart(true), GotIp];
      && PossibleRun(n, driver, events)
      && !AtMost(Run(n, driver, events), FAST_RETRY_COUNT)
  {
    var n := BootedLate(profileCount, candidates, driver);
    LateStart(profileCount, candidates, driver);
    var scanning := OnScanBegins(n, true);
    var ended := OnScanEnds(scanning);
    var started := OnStaStart(ended, true);
    SamePlace(n, started);
    RunFour(n, driver, ScanBegins(true), ScanEnds, StaStart(true), GotIp);
    ThreeFastExactlyWhenTimerIdle(started);
  }

  lemma LateStart(profileCount: nat, candidates: seq<nat>, driver: Driver)
    requires Ready(PoweredUp(profileCount, candidates)) && driver(0) == Started
    ensures var n := BootedLate(profileCount, candidates, driver);
      && Ready(n) && n.world.starting && n.driverStarted && 0 <= n.current < n.profileCount
      && !n.world.owed && !n.armed && !n.connected && !n.world.linkUp && n.paused == 0 && n.world.cancelled == 0
      && n.pos == 1 && |n.world.attempts| == 1
  {
    var up := PoweredUp(profileCount, candidates);
    assert up.candidates[0] < up.profileCount;
    AdvanceStep(up, driver);
    StartAttempts(up, driver);
    AttemptFollows(up, BootedLate(profileCount, candidates, driver));
  }
}

/** The Wi-Fi retry machine (net_manager.c): what disconnect events, the retry timer,
    got-IP events and user scans do to the connection attempts. The stored profiles and
    the candidate list stay as they are here. */
module WifiRetry {
  import WifiCandidates

  const FAST_RETRY_COUNT: nat := 3

  /** Own: the reasons a deliberate disconnect reports (ASSOC_LEAVE, STA_LEAVING). An
      access point that sends the station away can report them too. */
  datatype Reason = Own | AuthFailure | OtherReason

  /** How far start_connection_to_profile gets. */
  datatype StartResult = ConfigFails | DriverFails | Started

  /** What reaches the manager, with what the driver answers to the call it leads to.
      `ends` says whether a disconnect event reports the link or the connect under way; if
      not, it reports a connect that was cancelled before. A user scan is two events, with
      anything else in between. */
  datatype Event =
    | StaStart(connectOk: bool)
    | Disconnected(reason: Reason, ends: bool)
    | GotIp
    | TimerFires(connectOk: bool)
    | ScanBegins(startOk: bool)
    | ScanEnds

  /** The driver: how the k-th connection attempt starts. */
  type Driver = nat -> StartResult

  /** What is true outside the manager. `attempts` lists the profiles attempted, in order.
      `linkUp`: the station is connected, whatever the manager believes. `starting`: the
      driver was asked to start and has not reported it. `owed`: the driver was asked to
      connect and has not reported how that went. `cancelled`: the connects that a
      deliberate disconnect cancelled and that may still be reported. `fast` counts the
      reconnects without a change of profile since the last attempt or got-IP event. */
  datatype World = World(attempts: seq<nat>, linkUp: bool, starting: bool, owed: bool, cancelled: nat, fast: nat)

  /** The manager's static variables, and the world. `paused`: the user scans under way that
      resume the retries at their end. */
  datatype Net = Net(
    profileCount: nat, candidates: seq<nat>, pos: nat, current: int,
    disconnects: nat, rescan: bool, armed: bool, ignoreOwn: bool, connected: bool, driverStarted: bool,
    paused: nat, world: World)

  /** The candidate list is one rebuild_candidate_list built: every profile once. */
  ghost predicate Ready(n: Net) {
    && 0 < n.profileCount == |n.candidates| && n.pos <= |n.candidates|
    && (forall k :: 0 <= k < |n.candidates| ==> n.candidates[k] < n.profileCount)
    && (forall p :: 0 <= p < n.profileCount ==> p in n.candidates)
  }

  function Tried(n: Net, profile: nat): Net {
    n.(current := profile, disconnects := 0, rescan := false, connected := false, armed := false,
       world := n.world.(attempts := n.world.attempts + [profile], fast := 0))
  }

  /** esp_wifi_disconnect: it takes the link down or cancels the connect under way, and
      only then will it be reported. */
  function Cancelled(w: World): World {
    w.(linkUp := false, owed := false, cancelled := w.cancelled + (if w.linkUp || w.owed then 1 else 0))
  }

  /** esp_wifi_start and esp_wifi_connect. */
  function Asked(w: World, start: bool, connect: bool): World {
    w.(starting := w.starting || start, owed := w.owed || connect)
  }

  function StartConnection(n: Net, driver: Driver, profile: nat): (Net, bool) {
    if profile >= n.profileCount then (n, false)
    else
      var result, tried := driver(|n.world.attempts|), Tried(n, profile);
      var ok := result.Started?;
      if result.ConfigFails? then (tried, false)
      else if !n.driverStarted
      then (tried.(driverStarted := true, world := Asked(tried.world, ok, false)), ok)
      else (tried.(ignoreOwn := true, world := Asked(Cancelled(tried.world), false, ok)), ok)
  }

  /** One pass of the loop over the candidates. */
  function AttemptNext(n: Net, driver: Driver): (Net, bool)
    requires n.pos < |n.candidates|
  {
    StartConnection(n.(pos := n.pos + 1), driver, n.candidates[n.pos])
  }

  function Advance(n: Net, driver: Driver): (r: (Net, bool))
    decreases |n.candidates| - n.pos
  {
    if n.pos >= |n.candidates| then (n, false)
    else
      var (next, ok) := AttemptNext(n, driver);
      if ok then (next, true) else Advance(next, driver)
  }

  lemma AdvanceStep(n: Net, driver: Driver)
    requires n.pos < |n.candidates|
    ensures Advance(n, driver) ==
      var (next, ok) := AttemptNext(n, driver);
      if ok then (next, true) else Advance(next, driver)
  {
  }

  function ScheduleRetry(n: Net, rescan: bool): Net {
    n.(rescan := rescan, armed := true)
  }

  /** The timer's state when it moves on: wrapped to the first candidate after the last. */
  function Wrapped(n: Net): Net {
    n.(armed := false, rescan := false, pos := if n.pos >= |n.candidates| then 0 else n.pos)
  }

  function MovedOn(n: Net, driver: Driver): Net {
    var (next, ok) := Advance(Wrapped(n), driver);
    if ok then next else ScheduleRetry(next, true)
  }

  function OnTimer(n: Net, driver: Driver, connectOk: bool): Net {
    if n.profileCount == 0 then n.(armed := false)
    else if n.rescan then MovedOn(n, driver)
    else n.(armed := false, world := Asked(n.world, false, connectOk).(fast := n.world.fast + 1))
  }

  /** What a disconnect event tells. Events arrive in order: after one about the link or
      the connect under way, no cancelled connect is reported any more. */
  function Reported(w: World, ends: bool): World {
    if ends then w.(linkUp := false, owed := false, cancelled := 0)
    else w.(cancelled := if w.cancelled > 0 then w.cancelled - 1 else 0)
  }

  /** The event as the manager takes it in, and as it goes on if it takes notice of it. */
  function Seen(n: Net, ends: bool): Net {
    n.(ignoreOwn := false, world := Reported(n.world, ends))
  }

  function Down(n: Net, ends: bool): Net {
    n.(ignoreOwn := false, connected := false, world := Reported(n.world, ends))
  }

  /** How the manager goes on after a loss it takes notice of. */
  function Retried(n: Net, driver: Driver, reason: Reason): Net {
    if n.profileCount == 0 then n
    else if reason.AuthFailure? then
      var (next, ok) := Advance(n, driver);
      if ok then next else ScheduleRetry(next.(disconnects := FAST_RETRY_COUNT), true)
    else if n.disconnects < FAST_RETRY_COUNT then ScheduleRetry(n.(disconnects := n.disconnects + 1), false)
    else ScheduleRetry(n, true)
  }

  function OnDisconnected(n: Net, driver: Driver, reason: Reason, ends: bool): Net {
    if n.ignoreOwn && reason.Own? then Seen(n, ends) else Retried(Down(n, ends), driver, reason)
  }

  function OnGotIp(n: Net): Net {
    n.(disconnects := 0, rescan := false, connected := true,
       world := n.world.(linkUp := true, owed := false, cancelled := 0, fast := 0))
  }

  function OnStaStart(n: Net, connectOk: bool): Net {
    n.(world := Asked(n.world.(starting := false), false, 0 <= n.current < n.profileCount && connectOk))
  }

  /** A scan starts the driver if it is not running. */
  function ScanStarts(n: Net, startOk: bool): Net {
    if n.driverStarted then n else n.(driverStarted := startOk, world := Asked(n.world, startOk, false))
  }

  /** Off line, a user scan pauses the retries. */
  predicate Pauses(n: Net) {
    !n.connected && n.profileCount > 0
  }

  /** net_manager_scan_access_points: off line, it stops the timer and cancels the connect
      under way before it scans, and asks for a fast retry afterwards. */
  function OnScanBegins(n: Net, startOk: bool): Net {
    ScanStarts(
      if Pauses(n) then n.(armed := false, ignoreOwn := true, paused := n.paused + 1, world := Cancelled(n.world))
      else n, startOk)
  }

  function OnScanEnds(n: Net): Net
    requires n.paused > 0
  {
    ScheduleRetry(n.(paused := n.paused - 1), false)
  }

  /** A user scan with nothing in between. */
  function UserScan(n: Net, startOk: bool): Net {
    if Pauses(n) then OnScanEnds(OnScanBegins(n, startOk)) else OnScanBegins(n, startOk)
  }

  function Handle(n: Net, driver: Driver, e: Event): Net {
    match e
    case StaStart(ok) => OnStaStart(n, ok)
    case Disconnected(reason, ends) => OnDisconnected(n, driver, reason, ends)
    case GotIp => OnGotIp(n)
    case TimerFires(ok) => if n.armed then OnTimer(n, driver, ok) else n
    case ScanBegins(ok) => OnScanBegins(n, ok)
    case ScanEnds => if n.paused > 0 then OnScanEnds(n) else n
  }

  function Run(n: Net, driver: Driver, events: seq<Event>): Net {
    if events == [] then n else Handle(Run(n, driver, events[..|events| - 1]), driver, events[|events| - 1])
  }

  // -------------------------------------------------------- the code, in its own form

  /** The manager's static variables, and `paused`, the calls under way whose local
      pause_retries is set. The driver answers from an oracle; `made` is its place in it. */
  class RetryMachine {
    const profileCount: nat
    const candidates: seq<nat>
    var candidatePos: nat
    var currentProfile: int
    var disconnectCount: nat
    var requiresRescan: bool
    var timerArmed: bool
    var ignoreDisconnect: bool
    var wifiConnected: bool
    var driverStarted: bool
    var paused: nat
    var made: nat
    ghost var world: World

    /** The state after net_manager_init, with the list net_manager_start builds. */
    constructor (profileCount: nat, candidates: seq<nat>)
      ensures State() == PoweredUp(profileCount, candidates) && Valid()
    {
      this.profileCount, this.candidates := profileCount, candidates;
      candidatePos, currentProfile, disconnectCount, paused, made := 0, -1, 0, 0, 0;
      requiresRescan, timerArmed, ignoreDisconnect, wifiConnected, driverStarted := false, false, false, false, false;
      world := World([], false, false, false, 0, 0);
    }

    ghost predicate Valid()
      reads this
    {
      made == |world.attempts|
    }

    ghost function State(): Net
      reads this
    {
      Net(profileCount, candidates, candidatePos, currentProfile, disconnectCount, requiresRescan, timerArmed,
          ignoreDisconnect, wifiConnected, driverStarted, paused, world)
    }

    /** The part of an attempt under the lock. */
    method SelectProfile(profile: nat)
      modifies `currentProfile, `disconnectCount, `requiresRescan, `wifiConnected
      ensures currentProfile == profile && disconnectCount == 0 && !requiresRescan && !wifiConnected
    {
      currentProfile := profile;
      disconnectCount := 0;
      requiresRescan := false;
      wifiConnected := false;
    }

    /** The part of an attempt that cannot fail. */
    method TryProfile(profile: nat)
      requires Valid()
      modifies this
      ensures Valid() && State() == Tried(old(State()), profile)
    {
      SelectProfile(profile);
      timerArmed := false;
      made := made + 1;
      world := world.(attempts := world.attempts + [profile], fast := 0);
    }

    method StartConnectionToProfile(driver: Driver, profile: nat) returns (ok: bool)
      requires Valid()
      modifies this
      ensures Valid() && (State(), ok) == StartConnection(old(State()), driver, profile)
    {
      if profile >= profileCount {
        return false;
      }
      var result := driver(made);
      TryProfile(profile);
      if result.ConfigFails? {
        return false;
      }
      ok := result.Started?;
      if !driverStarted {
        driverStarted := true;
        world := Asked(world, ok, false);
      } else {
        ignoreDisconnect := true;
        world := Asked(Cancelled(world), false, ok);
      }
    }

    method TryNext(driver: Driver) returns (ok: bool)
      requires Valid() && candidatePos < |candidates|
      modifies this
      ensures Valid() && candidatePos > old(candidatePos) && (State(), ok) == AttemptNext(old(State()), driver)
    {
      var next := candidates[candidatePos];
      candidatePos := candidatePos + 1;
      ok := StartConnectionToProfile(driver, next);
    }

    /** The loop: candidates are consumed until one starts or none is left. */
    method AdvanceToNextCandidate(driver: Driver) returns (ok: bool)
      requires Valid()
      modifies this
      ensures Valid() && (State(), ok) == Advance(old(State()), driver)
    {
      while candidatePos < |candidates|
        invariant Valid() && Advance(State(), driver) == Advance(old(State()), driver)
        decreases |candidates| - candidatePos
      {
        AdvanceStep(State(), driver);
        ok := TryNext(driver);
        if ok {
          return true;
        }
      }
      return false;
    }

    method ScheduleRetryTimer(rescan: bool)
      modifies `requiresRescan, `timerArmed
      ensures State() == ScheduleRetry(old(State()), rescan)
    {
      requiresRescan := rescan;
      timerArmed := true;
    }

    /** retry_timer_cb: a one-shot timer. */
    method RetryTimer(driver: Driver, connectOk: bool)
      requires Valid()
      modifies this
      ensures Valid() && State() == OnTimer(old(State()), driver, connectOk)
    {
      timerArmed := false;
      if profileCount == 0 {
        return;
      }
      if requiresRescan {
        MoveOn(driver);
        return;
      }
      world := Asked(world, false, connectOk).(fast := world.fast + 1);
    }

    /** The slow branch of the callback: the next candidate, or the first after the last. */
    method MoveOn(driver: Driver)
      requires Valid() && !timerArmed
      modifies this
      ensures Valid() && State() == MovedOn(old(State()), driver)
    {
      requiresRescan := false;
      if candidatePos >= |candidates| {
        candidatePos := 0;
      }
      var ok := AdvanceToNextCandidate(driver);
      if !ok {
        ScheduleRetryTimer(true);
      }
    }

    /** The test for a disconnect the manager asked for itself. */
    method TakeReport(reason: Reason, ghost ends: bool) returns (deliberate: bool)
      requires Valid()
      modifies `ignoreDisconnect, `world
      ensures Valid() && State() == Seen(old(State()), ends)
      ensures deliberate == (old(ignoreDisconnect) && reason.Own?)
    {
      world := Reported(world, ends);
      deliberate := ignoreDisconnect && reason.Own?;
      ignoreDisconnect := false;
    }

    /** The disconnect branch of wifi_event_handler. */
    method StaDisconnected(driver: Driver, reason: Reason, ghost ends: bool)
      requires Valid()
      modifies this
      ensures Valid() && State() == OnDisconnected(old(State()), driver, reason, ends)
    {
      var deliberate := TakeReport(reason, ends);
      if deliberate {
        return;
      }
      wifiConnected := false;
      RetryAfter(driver, reason);
    }

    method RetryAfter(driver: Driver, reason: Reason)
      requires Valid()
      modifies this
      ensures Valid() && State() == Retried(old(State()), driver, reason)
    {
      if profileCount == 0 {
        return;
      }
      if reason.AuthFailure? {
        var ok := AdvanceToNextCandidate(driver);
        if !ok {
          disconnectCount := FAST_RETRY_COUNT;
          ScheduleRetryTimer(true);
        }
        return;
      }
      if disconnectCount < FAST_RETRY_COUNT {
        disconnectCount := disconnectCount + 1;
        ScheduleRetryTimer(false);
      } else {
        ScheduleRetryTimer(true);
      }
    }

    /** net_manager_scan_access_points up to the scan. */
    method BeginScan(startOk: bool) returns (pauseRetries: bool)
      requires Valid()
      modifies this
      ensures Valid() && State() == OnScanBegins(old(State()), startOk)
      ensures pauseRetries == Pauses(old(State())) && (pauseRetries ==> paused > 0)
    {
      pauseRetries := !wifiConnected && profileCount > 0;
      if pauseRetries {
        paused := paused + 1;
        timerArmed := false;
        ignoreDisconnect := true;
        world := Cancelled(world);
      }
      if !driverStarted {
        driverStarted := startOk;
        world := Asked(world, startOk, false);
      }
    }

    /** What follows the scan, where pause_retries is set. */
    method EndScan()
      requires Valid() && paused > 0
      modifies this
      ensures Valid() && State() == OnScanEnds(old(State()))
    {
      paused := paused - 1;
      ScheduleRetryTimer(false);
    }

    /** The whole call, with nothing in between. */
    method ScanAccessPoints(startOk: bool)
      requires Valid()
      modifies this
      ensures Valid() && State() == UserScan(old(State()), startOk)
    {
      var pauseRetries := BeginScan(startOk);
      if pauseRetries {
        EndScan();
      }
    }

    method StaStarted(connectOk: bool)
      modifies this
      ensures State() == OnStaStart(old(State()), connectOk) && made == old(made)
    {
      world := Asked(world.(starting := false), false, 0 <= currentProfile < profileCount && connectOk);
    }

    method GotIpAddress()
      modifies this
      ensures State() == OnGotIp(old(State())) && made == old(made)
    {
      disconnectCount := 0;
      requiresRescan := false;
      wifiConnected := true;
      world := world.(linkUp := true, owed := false, cancelled := 0, fast := 0);
    }

    /** Every event the manager reacts to. */
    method HandleEvent(driver: Driver, e: Event)
      requires Valid()
      modifies this
      ensures Valid() && State() == Handle(old(State()), driver, e)
    {
      match e
      case StaStart(ok) => StaStarted(ok);
      case Disconnected(reason, ends) => StaDisconnected(driver, reason, ends);
      case GotIp => GotIpAddress();
      case TimerFires(ok) =>
        if timerArmed {
          RetryTimer(driver, ok);
        }
      case ScanBegins(ok) => var _ := BeginScan(ok);
      case ScanEnds =>
        if paused > 0 {
          EndScan();
        }
    }
  }

  /** After net_manager_init: nothing attempted, the driver at rest. The candidate list is
      the one net_manager_start builds; nothing reads it before. */
  function PoweredUp(profileCount: nat, candidates: seq<nat>): Net {
    Net(profileCount, candidates, 0, -1, 0, false, false, false, false, false, 0, World([], false, false, false, 0, 0))
  }

  /** net_manager_start once the list is built. */
  function Begin(n: Net, driver: Driver): Net {
    Advance(n, driver).0
  }

  /** The ordinary boot: the scan for the list starts the driver, which reports it during
      the scan, with no profile selected yet; then the first attempts are made. */
  function Booted(profileCount: nat, candidates: seq<nat>, driver: Driver): Net {
    Begin(OnStaStart(ScanStarts(PoweredUp(profileCount, candidates), true), true), driver)
  }

  /** A boot where that start fails: the first attempt starts the driver. */
  function BootedLate(profileCount: nat, candidates: seq<nat>, driver: Driver): Net {
    Begin(ScanStarts(PoweredUp(profileCount, candidates), false), driver)
  }

  // --------------------------------------------------------------------- fairness

  /** i modulo c. */
  function Wrap(i: nat, c: nat): (r: nat)
    requires 0 < c
    ensures r < c
    ensures i < c ==> r == i
  {
    if i < c then i else Wrap(i - c, c)
  }

  lemma {:induction false} WrapShift(a: nat, k: nat, c: nat)
    requires 0 < c
    ensures Wrap(Wrap(a, c) + k, c) == Wrap(a + k, c)
    decreases a
  {
    if a >= c {
      WrapShift(a - c, k, c);
    }
  }

  /** From n to m the list stayed, and every attempt in between took the next candidate,
      wrapping at the end. */
  ghost predicate Followed(n: Net, m: Net) {
    var c, made := |n.candidates|, |m.world.attempts| - |n.world.attempts|;
    && 0 < c && m.candidates == n.candidates && m.profileCount == n.profileCount
    && n.world.attempts <= m.world.attempts
    && Wrap(m.pos, c) == Wrap(n.pos + made, c)
    && forall k :: |n.world.attempts| <= k < |m.world.attempts| ==>
         m.world.attempts[k] == n.candidates[Wrap(n.pos + (k - |n.world.attempts|), c)]
  }

  /** If place b is m steps after place a, it is the same place j steps later. */
  lemma SameCycle(a: nat, m: nat, b: nat, j: nat, c: nat)
    requires 0 < c && Wrap(b, c) == Wrap(a + m, c)
    ensures Wrap(b + j, c) == Wrap(a + (m + j), c)
  {
    WrapShift(b, j, c);
    WrapShift(a + m, j, c);
  }

  lemma FollowedTransitive(a: Net, b: Net, c: Net)
    requires Followed(a, b) && Followed(b, c)
    ensures Followed(a, c)
  {
    var len, made := |a.candidates|, |b.world.attempts| - |a.world.attempts|;
    forall k | |a.world.attempts| <= k < |c.world.attempts|
      ensures c.world.attempts[k] == a.candidates[Wrap(a.pos + (k - |a.world.attempts|), len)]
    {
      if k < |b.world.attempts| {
        assert c.world.attempts[k] == b.world.attempts[k];
      } else {
        SameCycle(a.pos, made, b.pos, k - |b.world.attempts|, len);
      }
    }
    SameCycle(a.pos, made, b.pos, |c.world.attempts| - |b.world.attempts|, len);
  }

  predicate SameList(n: Net, m: Net) {
    m.candidates == n.candidates && m.profileCount == n.profileCount && m.world.attempts == n.world.attempts
  }

  /** A state with the same list and attempts, at the same place in the cycle. */
  lemma SamePlace(n: Net, m: Net)
    requires Ready(n) && SameList(n, m)
    requires m.pos == n.pos || (m.pos == 0 && n.pos == |n.candidates|)
    ensures Followed(n, m) && Ready(m)
  {
  }

  /** The candidate at the place has been attempted, whatever came of it. */
  predicate Attempted(n: Net, next: Net) {
    && n.pos < |n.candidates| && next.pos == n.pos + 1
    && next.candidates == n.candidates && next.profileCount == n.profileCount
    && next.world.attempts == n.world.attempts + [n.candidates[n.pos]]
    && next.disconnects == 0 && next.world.fast == 0 && !next.armed
  }

  lemma StartAttempts(n: Net, driver: Driver)
    requires Ready(n) && n.pos < |n.candidates|
    ensures Attempted(n, AttemptNext(n, driver).0)
  {
    assert n.candidates[n.pos] < n.profileCount;
  }

  lemma AttemptFollows(n: Net, next: Net)
    requires Ready(n) && Attempted(n, next)
    ensures Followed(n, next) && Ready(next)
  {
  }

  lemma {:induction false} AdvanceFollows(n: Net, driver: Driver)
    requires Ready(n)
    ensures Followed(n, Advance(n, driver).0) && Ready(Advance(n, driver).0)
    decreases |n.candidates| - n.pos
  {
    if n.pos < |n.candidates| {
      var (next, ok) := AttemptNext(n, driver);
      StartAttempts(n, driver);
      AttemptFollows(n, next);
      if !ok {
        AdvanceFollows(next, driver);
        FollowedTransitive(n, next, Advance(next, driver).0);
      }
    }
  }

  lemma AdvanceFrom(n: Net, m: Net, driver: Driver)
    requires Ready(n) && SameList(n, m)
    requires m.pos == n.pos || (m.pos == 0 && n.pos == |n.candidates|)
    ensures Followed(n, Advance(m, driver).0) && Ready(Advance(m, driver).0)
  {
    SamePlace(n, m);
    AdvanceFollows(m, driver);
    FollowedTransitive(n, m, Advance(m, driver).0);
  }

  lemma SettledFollows(n: Net, mid: Net, m: Net)
    requires Followed(n, mid) && Ready(mid)
    requires SameList(mid, m) && m.pos == mid.pos
    ensures Followed(n, m) && Ready(m)
  {
  }

  lemma EventFollows(n: Net, driver: Driver, e: Event)
    requires Ready(n)
    ensures Followed(n, Handle(n, driver, e)) && Ready(Handle(n, driver, e))
  {
    match e
    case Disconnected(reason, ends) => DisconnectFollows(n, driver, reason, ends);
    case TimerFires(ok) => TimerFollows(n, driver, ok);
    case StaStart(_) => SamePlace(n, Handle(n, driver, e));
    case GotIp => SamePlace(n, Handle(n, driver, e));
    case ScanBegins(_) => SamePlace(n, Handle(n, driver, e));
    case ScanEnds => SamePlace(n, Handle(n, driver, e));
  }

  lemma RefusalFollows(n: Net, driver: Driver, ends: bool)
    requires Ready(n)
    ensures var m := OnDisconnected(n, driver, AuthFailure, ends); Followed(n, m) && Ready(m)
  {
    var down := Down(n, ends);
    AdvanceFrom(n, down, driver);
    SettledFollows(n, Advance(down, driver).0, OnDisconnected(n, driver, AuthFailure, ends));
  }

  lemma DisconnectFollows(n: Net, driver: Driver, reason: Reason, ends: bool)
    requires Ready(n)
    ensures var m := OnDisconnected(n, driver, reason, ends); Followed(n, m) && Ready(m)
  {
    if reason.AuthFailure? {
      RefusalFollows(n, driver, ends);
    } else {
      SamePlace(n, OnDisconnected(n, driver, reason, ends));
    }
  }

  lemma TimerFollows(n: Net, driver: Driver, connectOk: bool)
    requires Ready(n)
    ensures Followed(n, OnTimer(n, driver, connectOk)) && Ready(OnTimer(n, driver, connectOk))
  {
    var m := OnTimer(n, driver, connectOk);
    if n.rescan {
      AdvanceFrom(n, Wrapped(n), driver);
      SettledFollows(n, Advance(Wrapped(n), driver).0, m);
    } else {
      SamePlace(n, m);
    }
  }

  /** Over every run of events, whatever the driver answers, the attempts follow the
      candidate list in cyclic order. */
  lemma {:induction false} AttemptsAreCyclic(n: Net, driver: Driver, events: seq<Event>)
    requires Ready(n)
    ensures Followed(n, Run(n, driver, events)) && Ready(Run(n, driver, events))
    decreases |events|
  {
    if events == [] {
      SamePlace(n, n);
    } else {
      var before := Run(n, driver, events[..|events| - 1]);
      AttemptsAreCyclic(n, driver, events[..|events| - 1]);
      EventFollows(before, driver, events[|events| - 1]);
      FollowedTransitive(n, before, Run(n, driver, events));
    }
  }

  /** A window that begins d places before candidate j contains it at place d. */
  lemma PlaceInWindow(start: nat, j: nat, c: nat) returns (d: nat)
    requires j < c
    ensures d < c && Wrap(start + d, c) == j
  {
    var at := Wrap(start, c);
    d := if j >= at then j - at else j - at + c;
    WrapShift(start, d, c);
  }

  /** The profile the manager takes for the current one is the one attempted last. */
  predicate CurrentIsLast(n: Net) {
    n.world.attempts != [] ==> n.current == n.world.attempts[|n.world.attempts| - 1]
  }

  lemma {:induction false} AdvanceKeepsCurrent(n: Net, driver: Driver)
    requires CurrentIsLast(n)
    ensures CurrentIsLast(Advance(n, driver).0)
    decreases |n.candidates| - n.pos
  {
    if n.pos < |n.candidates| {
      var (next, ok) := AttemptNext(n, driver);
      if !ok {
        AdvanceKeepsCurrent(next, driver);
      }
    }
  }

  lemma LossKeepsCurrent(n: Net, driver: Driver, reason: Reason, ends: bool)
    requires CurrentIsLast(n)
    ensures CurrentIsLast(OnDisconnected(n, driver, reason, ends))
  {
    AdvanceKeepsCurrent(Down(n, ends), driver);
  }

  lemma TimerKeepsCurrent(n: Net, driver: Driver, connectOk: bool)
    requires CurrentIsLast(n)
    ensures CurrentIsLast(OnTimer(n, driver, connectOk))
  {
    AdvanceKeepsCurrent(Wrapped(n), driver);
  }

  lemma StepKeepsCurrent(n: Net, driver: Driver, e: Event)
    requires CurrentIsLast(n)
    ensures CurrentIsLast(Handle(n, driver, e))
  {
    match e
    case Disconnected(reason, ends) => LossKeepsCurrent(n, driver, reason, ends);
    case TimerFires(ok) => TimerKeepsCurrent(n, driver, ok);
    case StaStart(_) =>
    case GotIp =>
    case ScanBegins(_) =>
    case ScanEnds =>
  }

  /** So it is over every run from the start: this is the network that the driver is asked
      to connect to when it has started. */
  lemma {:induction false} CurrentIsLastAttempted(profileCount: nat, candidates: seq<nat>, driver: Driver,
                                                  events: seq<Event>)
    ensures CurrentIsLast(Run(Begin(PoweredUp(profileCount, candidates), driver), driver, events))
    ensures CurrentIsLast(Run(Booted(profileCount, candidates, driver), driver, events))
    decreases |events|
  {
    if events == [] {
      AdvanceKeepsCurrent(PoweredUp(profileCount, candidates), driver);
      AdvanceKeepsCurrent(OnStaStart(ScanStarts(PoweredUp(profileCount, candidates), true), true), driver);
    } else {
      var k := |events| - 1;
      CurrentIsLastAttempted(profileCount, candidates, driver, events[..k]);
      StepKeepsCurrent(Run(Begin(PoweredUp(profileCount, candidates), driver), driver, events[..k]), driver, events[k]);
      StepKeepsCurrent(Run(Booted(profileCount, candidates, driver), driver, events[..k]), driver, events[k]);
    }
  }

  /** No stored profile is starved: every window of candidate-count attempts made in a run
      contains every profile. */
  lemma EveryProfileIsTried(n: Net, driver: Driver, events: seq<Event>, i: nat, p: nat) returns (k: nat)
    requires Ready(n) && p < n.profileCount
    requires |n.world.attempts| <= i && i + |n.candidates| <= |Run(n, driver, events).world.attempts|
    ensures i <= k < i + |n.candidates| && Run(n, driver, events).world.attempts[k] == p
  {
    AttemptsAreCyclic(n, driver, events);
    k := TriedInWindow(n, Run(n, driver, events), i, p);
  }

  lemma TriedInWindow(n: Net, m: Net, i: nat, p: nat) returns (k: nat)
    requires Ready(n) && Followed(n, m) && p < n.profileCount
    requires |n.world.attempts| <= i && i + |n.candidates| <= |m.world.attempts|
    ensures i <= k < i + |n.candidates| && m.world.attempts[k] == p
  {
    assert p in n.candidates;
    var j :| 0 <= j < |n.candidates| && n.candidates[j] == p;
    var d := PlaceInWindow(n.pos + (i - |n.world.attempts|), j, |n.candidates|);
    k := i + d;
    assert n.pos + (k - |n.world.attempts|) == n.pos + (i - |n.world.attempts|) + d;
  }

  // ---------------------------------------------------------------- possible runs

  lemma RunSnoc(n: Net, driver: Driver, events: seq<Event>, e: Event)
    ensures Run(n, driver, events + [e]) == Handle(Run(n, driver, events), driver, e)
  {
    assert (events + [e])[..|events|] == events;
  }

  /** The driver, the timer or the user can produce the event in this state. */
  predicate Possible(n: Net, e: Event) {
    match e
    case StaStart(_) => n.world.starting
    case Disconnected(_, ends) => if ends then n.world.linkUp || n.world.owed else n.world.cancelled > 0
    case GotIp => n.world.owed || n.world.linkUp
    case TimerFires(_) => n.armed
    case ScanBegins(_) => true
    case ScanEnds => n.paused > 0
  }

  ghost predicate PossibleRun(n: Net, driver: Driver, events: seq<Event>) {
    forall k :: 0 <= k < |events| ==> Possible(Run(n, driver, events[..k]), events[k])
  }

  lemma PossiblePrefix(n: Net, driver: Driver, events: seq<Event>, k: nat)
    requires PossibleRun(n, driver, events) && k <= |events|
    ensures PossibleRun(n, driver, events[..k])
  {
    forall j | 0 <= j < k
      ensures Possible(Run(n, driver, events[..k][..j]), events[..k][j])
    {
      assert events[..k][..j] == events[..j];
    }
  }

  lemma {:induction false} RunCons(n: Net, driver: Driver, e: Event, rest: seq<Event>)
    ensures Run(n, driver, [e] + rest) == Run(Handle(n, driver, e), driver, rest)
    decreases |rest|
  {
    if rest == [] {
      assert [e] + rest == [] + [e];
      RunSnoc(n, driver, [], e);
    } else {
      var init, last := rest[..|rest| - 1], rest[|rest| - 1];
      RunCons(n, driver, e, init);
      assert rest == init + [last] && [e] + rest == ([e] + init) + [last];
      RunSnoc(n, driver, [e] + init, last);
      RunSnoc(Handle(n, driver, e), driver, init, last);
    }
  }

  lemma PossibleCons(n: Net, driver: Driver, e: Event, rest: seq<Event>)
    requires Possible(n, e) && PossibleRun(Handle(n, driver, e), driver, rest)
    ensures PossibleRun(n, driver, [e] + rest)
  {
    var all := [e] + rest;
    forall k | 0 <= k < |all|
      ensures Possible(Run(n, driver, all[..k]), all[k])
    {
      if k == 0 {
        assert all[..k] == [];
      } else {
        assert all[..k] == [e] + rest[..k - 1];
        RunCons(n, driver, e, rest[..k - 1]);
      }
    }
  }

  /** The first step of a possible run. */
  lemma RunFirst(n: Net, driver: Driver, e: Event, rest: seq<Event>, events: seq<Event>)
    requires events == [e] + rest && Possible(n, e)
    ensures Run(n, driver, events) == Run(Handle(n, driver, e), driver, rest)
    ensures PossibleRun(Handle(n, driver, e), driver, rest) ==> PossibleRun(n, driver, events)
  {
    RunCons(n, driver, e, rest);
    if PossibleRun(Handle(n, driver, e), driver, rest) {
      PossibleCons(n, driver, e, rest);
    }
  }

  lemma RunTwo(n: Net, driver: Driver, a: Event, b: Event)
    requires Possible(n, a) && Possible(Handle(n, driver, a), b)
    ensures PossibleRun(n, driver, [a, b])
    ensures Run(n, driver, [a, b]) == Handle(Handle(n, driver, a), driver, b)
  {
    RunFirst(Handle(n, driver, a), driver, b, [], [b]);
    RunFirst(n, driver, a, [b], [a, b]);
  }

  lemma RunFour(n: Net, driver: Driver, a: Event, b: Event, c: Event, d: Event)
    requires Possible(n, a) && Possible(Handle(n, driver, a), b)
    requires var m := Handle(Handle(n, driver, a), driver, b); Possible(m, c) && Possible(Handle(m, driver, c), d)
    ensures PossibleRun(n, driver, [a, b, c, d])
    ensures Run(n, driver, [a, b, c, d]) ==
      Handle(Handle(Handle(Handle(n, driver, a), driver, b), driver, c), driver, d)
  {
    var first := Handle(n, driver, a);
    RunTwo(Handle(first, driver, b), driver, c, d);
    RunFirst(first, driver, b, [c, d], [b, c, d]);
    RunFirst(n, driver, a, [b, c, d], [a, b, c, d]);
  }

  /** Before the start nothing is pending and nothing is believed: only a user can make
      something happen, and a loss would not be taken for a deliberate one. */
  lemma PoweredUpIsQuiet(profileCount: nat, candidates: seq<nat>, e: Event)
    ensures var n := PoweredUp(profileCount, candidates);
      && (Possible(n, e) ==> e.ScanBegins?)
      && !n.connected && !n.ignoreOwn && !n.rescan && !n.driverStarted && n.disconnects == 0
      && n.current == -1 && n.world.attempts == [] && n.world.fast == 0
  {
  }

  /** The machine can start from any list rebuild_candidate_list returns. */
  lemma RebuiltListIsReady(profiles: seq<WifiCandidates.Profile>, scan: seq<WifiCandidates.AccessPoint>,
                           list: seq<WifiCandidates.Candidate>, n: Net)
    requires WifiCandidates.RightOrder(profiles, scan, list) && 0 < |profiles|
    requires n.profileCount == |profiles| && n.pos == 0
    requires n.candidates == seq(|list|, k requires 0 <= k < |list| => list[k].profile)
    ensures Ready(n)
  {
    forall k | 0 <= k < |n.candidates|
      ensures n.candidates[k] < n.profileCount
    {
      assert WifiCandidates.Labelled(profiles, scan, list[k]);
    }
    forall p | 0 <= p < n.profileCount
      ensures p in n.candidates
    {
      assert WifiCandidates.Listed(list, p);
      var k :| 0 <= k < |list| && list[k].profile == p;
      assert n.candidates[k] == p;
    }
  }
}

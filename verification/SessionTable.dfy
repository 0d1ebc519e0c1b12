/** The agent's table of Claude sessions (agent.rs): how events enter it, how sessions
    that died or aged leave it, and which session the display shows. */
module SessionTable {
  import opened Options
  import opened Ranking
  import opened SnapshotStream
  import LineProtocol
  import PendingQueue

  const MAX_TRACKED_SESSIONS: nat := 16
  const PIDLESS_ACTIVE_TIMEOUT: nat := 900
  const IDLE_RETENTION: nat := 1800
  const ENDED_RETENTION: nat := 300

  datatype RunStatus = WaitingForInput | Processing | RunningTool | Compacting | Ended | Unknown

  datatype Session = Session(key: string, snapshot: Snapshot, cwd: string, lastActivity: nat, pid: Option<nat>)
  type Sessions = map<string, Session>

  datatype Event = Event(hook: PendingQueue.HookEvent, cwd: string, recvTs: nat, pid: Option<nat>)

  /** The texts, status and flags an event gives a session's snapshot; any such function. */
  type Normalizer = (Event, Snapshot) -> Snapshot

  function Parse(status: string): RunStatus {
    if status == "waiting_for_input" then WaitingForInput
    else if status == "processing" then Processing
    else if status == "running_tool" then RunningTool
    else if status == "compacting" then Compacting
    else if status == "ended" then Ended
    else Unknown
  }

  function StatusOf(s: Session): RunStatus { Parse(s.snapshot.status) }

  predicate IsActive(status: RunStatus) { !status.Ended? && !status.Unknown? }

  function DisplayPriority(status: RunStatus): nat {
    match status
    case WaitingForInput => 5
    case RunningTool => 4
    case Processing => 3
    case Compacting => 2
    case Unknown => 1
    case Ended => 0
  }

  // -------------------------------------------------------------------- session keys

  function Trim(s: string): string {
    if s == [] then s
    else if LineProtocol.IsSpace(s[0]) then Trim(s[1..])
    else if LineProtocol.IsSpace(s[|s| - 1]) then Trim(s[..|s| - 1])
    else s
  }

  function Decimal(n: nat): string {
    (if n < 10 then "" else Decimal(n / 10)) + [(n % 10 + 48) as char]
  }

  function SessionKey(e: Event): (key: string)
    ensures key != ""
  {
    if Trim(e.hook.session) != "" then Trim(e.hook.session)
    else if Trim(e.cwd) != "" then "cwd:" + Trim(e.cwd)
    else if e.pid.Some? then "pid:" + Decimal(e.pid.value)
    else "__global__"
  }

  // --------------------------------------------------------------------- the table

  predicate KeysMatch(m: Sessions) {
    forall k :: k in m ==> m[k].key == k
  }

  predicate PidsUnique(m: Sessions) {
    forall j, k :: j in m && k in m && j != k && m[j].pid.Some? ==> m[j].pid != m[k].pid
  }

  predicate Sound(m: Sessions) {
    KeysMatch(m) && PidsUnique(m)
  }

  // ------------------------------------------------------------------ display choice

  function KeyRanks(m: Sessions): Ranks {
    map k | k in m :: Rank(0, 0, 0)
  }

  function DisplayRanks(m: Sessions): Ranks {
    map k | k in m ::
      Rank(DisplayPriority(StatusOf(m[k])), if m[k].snapshot.unread then 1 else 0, m[k].lastActivity)
  }

  function PruningRanks(m: Sessions): Ranks {
    map k | k in m :: Rank(DisplayPriority(StatusOf(m[k])), m[k].lastActivity, 0)
  }

  /** select_display_snapshot: the best rank; of equal ranks the greatest key. */
  ghost function Selected(m: Sessions, fallbackTs: nat): Snapshot {
    if DisplayRanks(m) == map[] then EmptySnapshot(fallbackTs)
    else m[First(Down, DisplayRanks(m))].snapshot
  }

  /** max_by_key over the values in key order: of equal ranks the last one wins. */
  method FindBest(ranks: Ranks, keys: seq<string>) returns (best: string)
    requires |keys| > 0 && forall k :: k in keys <==> k in ranks
    requires forall i, j :: 0 <= i < j < |keys| ==> StrLess(keys[i], keys[j])
    ensures IsFirst(Down, ranks, best)
  {
    best := keys[0];
    for i := 1 to |keys|
      invariant best in keys[..i]
      invariant forall j :: j in keys[..i] && j != best ==> j in ranks && best in ranks && Before(Down, ranks, best, j)
    {
      var k := keys[i];
      assert keys[..i + 1] == keys[..i] + [k];
      var b :| 0 <= b < i && keys[b] == best;
      assert k in keys && best in keys && StrLess(keys[b], keys[i]);
      if !RankLess(ranks[k], ranks[best]) {
        forall j | j in keys[..i] && j != best
          ensures Before(Down, ranks, k, j)
        {
          BeforeTransitive(Down, ranks, k, best, j);
        }
        best := k;
      } else {
        assert Before(Down, ranks, best, k);
      }
    }
    assert keys[..|keys|] == keys;
  }

  method SelectDisplay(m: Sessions, fallbackTs: nat) returns (shown: Snapshot)
    ensures shown == Selected(m, fallbackTs)
  {
    var keys := SortedKeys(KeyRanks(m));
    assert forall i, j :: 0 <= i < j < |keys| ==> Before(Up, KeyRanks(m), keys[i], keys[j]);
    assert forall k :: k in keys <==> k in DisplayRanks(m);
    if keys == [] {
      return EmptySnapshot(fallbackTs);
    }
    assert keys[0] in keys;
    var best := FindBest(DisplayRanks(m), keys);
    FirstUnique(Down, DisplayRanks(m), best, First(Down, DisplayRanks(m)));
    shown := m[best].snapshot;
  }

  /** No session is more urgent than the one shown: priority, then unread, then recency. */
  lemma SelectedIsMostUrgent(m: Sessions, ts: nat, k: string)
    requires k in m
    ensures exists f :: f in m && Selected(m, ts) == m[f].snapshot && !RankLess(DisplayRanks(m)[f], DisplayRanks(m)[k])
  {
    assert k in DisplayRanks(m);
    var f := First(Down, DisplayRanks(m));
    assert f in m && (f == k || Before(Down, DisplayRanks(m), f, k));
  }

  /** What the ranking means to the user: a session that waits for input is never hidden
      behind one that does not, and an ended one is shown only when all have ended. */
  lemma WaitingIsShown(m: Sessions, ts: nat, k: string)
    requires k in m
    ensures m[k].snapshot.status == "waiting_for_input" ==> Selected(m, ts).status == "waiting_for_input"
    ensures Selected(m, ts).status == "ended" ==> m[k].snapshot.status == "ended"
    ensures m[k].snapshot.unread && Selected(m, ts).status == m[k].snapshot.status ==> Selected(m, ts).unread
  {
    SelectedIsMostUrgent(m, ts, k);
    var f :| f in m && Selected(m, ts) == m[f].snapshot && !RankLess(DisplayRanks(m)[f], DisplayRanks(m)[k]);
    assert DisplayRanks(m)[f].first >= DisplayRanks(m)[k].first;
    ParseExact(m[f].snapshot.status);
    ParseExact(m[k].snapshot.status);
  }

  lemma ParseExact(status: string)
    ensures Parse(status) == WaitingForInput <==> status == "waiting_for_input"
    ensures Parse(status) == Ended <==> status == "ended"
  {
  }

  // ------------------------------------------------------------------ excess pruning

  ghost function KeepTop(m: Sessions, ranks: Ranks, cap: nat): Sessions
    requires ranks.Keys == m.Keys
  {
    map k | k in Top(ranks, cap) :: m[k]
  }

  ghost function Prune(m: Sessions, cap: nat): Sessions {
    KeepTop(m, PruningRanks(m), cap)
  }

  predicate Shrinks(r: Sessions, m: Sessions) {
    forall k :: k in r ==> k in m && r[k] == m[k]
  }

  lemma KeepTopFacts(m: Sessions, ranks: Ranks, cap: nat)
    requires ranks.Keys == m.Keys
    ensures var r := KeepTop(m, ranks, cap);
      Shrinks(r, m) && |r| == (if |m| <= cap then |m| else cap) && (|m| <= cap ==> r == m)
  {
    assert |ranks| == |ranks.Keys| == |m.Keys| == |m|;
    var r := KeepTop(m, ranks, cap);
    assert r.Keys == Top(ranks, cap);
    assert |r| == |r.Keys|;
    if |m| <= cap {
      TopUnique(ranks, m.Keys, Top(ranks, cap), cap);
    }
  }

  lemma PruneFacts(m: Sessions, cap: nat)
    ensures var r := Prune(m, cap);
      Shrinks(r, m) && |r| == (if |m| <= cap then |m| else cap) && (|m| <= cap ==> r == m)
  {
    KeepTopFacts(m, PruningRanks(m), cap);
  }

  /** A dropped session was no more urgent, and at equal urgency no more recent, than any
      kept one. */
  lemma PruneIsFair(m: Sessions, cap: nat, dropped: string, kept: string)
    requires dropped in m && dropped !in Prune(m, cap) && kept in Prune(m, cap)
    ensures |m| > cap == |Prune(m, cap)| && kept in m
    ensures var d, k := DisplayPriority(StatusOf(m[dropped])), DisplayPriority(StatusOf(m[kept]));
      d < k || (d == k && m[dropped].lastActivity <= m[kept].lastActivity)
  {
    PruneFacts(m, cap);
    var ranks := PruningRanks(m);
    assert dropped in ranks && dropped !in Top(ranks, cap) && kept in Top(ranks, cap);
    assert Before(Up, ranks, dropped, kept);
  }

  /** prune_excess_sessions: sort the ranked keys, then remove from the low end. */
  method PruneExcess(m: Sessions, cap: nat) returns (r: Sessions, changed: bool)
    ensures r == Prune(m, cap)
    ensures changed <==> r != m
  {
    PruneFacts(m, cap);
    r, changed := m, |m| > cap;
    if changed {
      r := RemoveLowest(m, PruningRanks(m), cap);
    }
  }

  method RemoveLowest(m: Sessions, ranks: Ranks, cap: nat) returns (r: Sessions)
    requires ranks.Keys == m.Keys && cap < |m|
    ensures r == KeepTop(m, ranks, cap)
  {
    assert |ranks| == |ranks.Keys| == |m.Keys| == |m|;
    var candidates := SortedKeys(ranks);
    r := RemoveFirst(m, ranks, candidates, |m| - cap);
    RemainingIsTop(m, ranks, r, candidates, |m| - cap);
  }

  method RemoveFirst(m: Sessions, ghost ranks: Ranks, candidates: seq<string>, n: nat) returns (r: Sessions)
    requires |candidates| == |m| && n <= |m| && HasKeys(m, candidates) && Ascending(ranks, candidates)
    ensures |r| == |m| - n && Shrinks(r, m) && HasKeys(r, candidates[n..])
  {
    r := m;
    assert candidates[0..] == candidates;
    for i := 0 to n
      invariant |r| == |m| - i && Shrinks(r, m) && HasKeys(r, candidates[i..])
    {
      SplitAt(candidates, i);
      AscendingLater(ranks, candidates, i);
      RemoveHead(r, candidates[i], candidates[i + 1..]);
      r := r - {candidates[i]};
    }
  }

  ghost predicate HasKeys(r: Sessions, keys: seq<string>) {
    forall k :: k in keys <==> k in r
  }

  lemma SplitAt(c: seq<string>, i: nat)
    requires i < |c|
    ensures c[i..] == [c[i]] + c[i + 1..]
  {
  }

  lemma RemoveHead(r: Sessions, x: string, later: seq<string>)
    requires HasKeys(r, [x] + later) && x !in later
    ensures HasKeys(r - {x}, later) && |r - {x}| == |r| - 1
  {
    assert x in [x] + later;
    RemoveKey(r, x);
    forall k
      ensures k in later <==> k in r - {x}
    {
      assert k in [x] + later <==> k == x || k in later;
    }
  }

  lemma RemainingIsTop(m: Sessions, ranks: Ranks, r: Sessions, c: seq<string>, n: nat)
    requires ranks.Keys == m.Keys && |c| == |m| && Ascending(ranks, c) && forall k :: k in c <==> k in ranks
    requires n <= |c| && |r| == |m| - n && Shrinks(r, m) && HasKeys(r, c[n..])
    ensures r == KeepTop(m, ranks, |m| - n)
  {
    assert |ranks| == |ranks.Keys| == |m.Keys| == |m|;
    assert |r.Keys| == |r|;
    SortedTop(ranks, c, r.Keys, n);
    TopUnique(ranks, r.Keys, Top(ranks, |m| - n), |m| - n);
    assert r.Keys == Top(ranks, |m| - n);
  }

  lemma RemoveKey(r: Sessions, x: string)
    requires x in r
    ensures |r - {x}| == |r| - 1
  {
    assert r.Keys == (r - {x}).Keys + {x};
  }

  // ------------------------------------------------------------------- applying events

  /** The other sessions of the event's process: it runs one session at a time. */
  function Superseded(m: Sessions, e: Event): set<string> {
    set k | k in m && e.pid.Some? && k != SessionKey(e) && m[k].pid == e.pid
  }

  function Fresh(e: Event): Session {
    Session(SessionKey(e), EmptySnapshot(e.recvTs), e.cwd, e.recvTs, e.pid)
  }

  function WorkingSince(e: Event, next: Snapshot, current: Snapshot): Option<nat> {
    if !IsActive(Parse(next.status)) then None
    else if e.hook.name == "UserPromptSubmit" || current.workingSince.None? then Some(e.recvTs)
    else current.workingSince
  }

  function NextSnapshot(e: Event, current: Snapshot, normalize: Normalizer): Snapshot {
    var n := normalize(e, current);
    var named := if n.sessionId == "" then n.(sessionId := SessionKey(e)) else n;
    var toned := if e.hook.name == "SessionEnd" then named.(emotion := "neutral") else named;
    toned.(workingSince := WorkingSince(e, toned, current))
  }

  function Updated(s: Session, e: Event, normalize: Normalizer): Session {
    Session(s.key, NextSnapshot(e, s.snapshot, normalize), if Trim(e.cwd) == "" then s.cwd else e.cwd, e.recvTs,
            if e.hook.name == "SessionEnd" then None else if e.pid.Some? then e.pid else s.pid)
  }

  /** apply_event_to_sessions. */
  function Applied(m: Sessions, e: Event, normalize: Normalizer): Sessions {
    var rest, key := m - Superseded(m, e), SessionKey(e);
    rest[key := Updated(if key in rest then rest[key] else Fresh(e), e, normalize)]
  }

  lemma AppliedIsSound(m: Sessions, e: Event, normalize: Normalizer)
    requires Sound(m)
    ensures Sound(Applied(m, e, normalize))
  {
    var r, key := Applied(m, e, normalize), SessionKey(e);
    assert forall k :: k in r && k != key ==> k in m && r[k] == m[k] && k !in Superseded(m, e);
    assert forall k :: k in r && k != key && e.pid.Some? ==> r[k].pid != e.pid;
  }

  /** An event changes its own session, retires the other sessions of its process, and
      touches nothing else. */
  lemma AppliedIsLocal(m: Sessions, e: Event, normalize: Normalizer, k: string)
    requires Sound(m) && k != SessionKey(e)
    ensures var r := Applied(m, e, normalize);
      && SessionKey(e) in r && r[SessionKey(e)].snapshot.sessionId != ""
      && (k in r <==> k in m && !(e.pid.Some? && m[k].pid == e.pid))
      && (k in r ==> r[k] == m[k])
      && |r| <= |m| + 1
  {
    var rest := m - Superseded(m, e);
    assert k in m ==> (k in rest <==> k !in Superseded(m, e));
    assert m.Keys == rest.Keys + (Superseded(m, e));
    assert Applied(m, e, normalize).Keys == rest.Keys + {SessionKey(e)};
  }

  // ---------------------------------------------------------------------- reconciling

  /** An active session whose process is gone, or that has long been silent if no process
      is known for it. */
  predicate LivenessLost(s: Session, now: nat, alive: set<nat>) {
    IsActive(StatusOf(s)) &&
      if s.pid.Some? then s.pid.value !in alive
      else now > s.lastActivity && now - s.lastActivity >= PIDLESS_ACTIVE_TIMEOUT
  }

  function MarkedIdle(s: Session, now: nat): Session {
    s.(lastActivity := now, pid := None,
      snapshot := s.snapshot.(
        event := "SessionLivenessLost", status := "unknown", title := "Idle", emotion := "neutral",
        detail := if s.pid.Some? then "Claude session exited before sending a terminal hook"
                  else "Claude activity timed out without a terminal hook",
        attention := Medium, unread := false, ts := now))
  }

  /** Elapsed time saturates at zero. */
  function Age(s: Session, now: nat): nat {
    if now > s.lastActivity then now - s.lastActivity else 0
  }

  predicate ShouldPrune(s: Session, now: nat) {
    match StatusOf(s)
    case Ended => Age(s, now) >= ENDED_RETENTION
    case Unknown => Age(s, now) >= IDLE_RETENTION
    case _ => false
  }

  function Reviewed(s: Session, now: nat, alive: set<nat>): Session {
    if LivenessLost(s, now, alive) then MarkedIdle(s, now) else s
  }

  function Marked(m: Sessions, now: nat, alive: set<nat>): Sessions {
    map k | k in m :: Reviewed(m[k], now, alive)
  }

  function Retained(m: Sessions, now: nat): Sessions {
    map k | k in m && !ShouldPrune(m[k], now) :: m[k]
  }

  /** reconcile_session_map. */
  ghost function Reconciled(m: Sessions, now: nat, alive: set<nat>): Sessions {
    Prune(Retained(Marked(m, now, alive), now), MAX_TRACKED_SESSIONS)
  }

  lemma ShrinksIsSound(r: Sessions, m: Sessions)
    requires Sound(m) && Shrinks(r, m)
    ensures Sound(r)
  {
  }

  lemma MarkedIsSound(m: Sessions, now: nat, alive: set<nat>)
    requires Sound(m)
    ensures Sound(Marked(m, now, alive))
  {
    var r := Marked(m, now, alive);
    assert forall k :: k in r && r[k].pid.Some? ==> r[k].pid == m[k].pid;
  }

  lemma ReconciledIsSound(m: Sessions, now: nat, alive: set<nat>)
    requires Sound(m)
    ensures Sound(Reconciled(m, now, alive)) && |Reconciled(m, now, alive)| <= MAX_TRACKED_SESSIONS
  {
    var marked := Marked(m, now, alive);
    MarkedIsSound(m, now, alive);
    ShrinksIsSound(Retained(marked, now), marked);
    PruneFacts(Retained(marked, now), MAX_TRACKED_SESSIONS);
    ShrinksIsSound(Reconciled(m, now, alive), Retained(marked, now));
  }

  lemma MarkedIdleStays(s: Session, now: nat, later: nat, alive: set<nat>)
    requires later == now
    ensures var t := MarkedIdle(s, now);
      StatusOf(t) == Unknown && !LivenessLost(t, later, alive) && !ShouldPrune(t, later)
  {
  }

  /** After a reconcile every session that still counts as active is one whose process is
      alive or that was heard from lately, and its entry is untouched; a session leaves
      the table only for its age or because the table is full. */
  lemma ReconcileMeaning(m: Sessions, now: nat, alive: set<nat>, k: string)
    requires k in m
    ensures var r := Reconciled(m, now, alive);
      && (k in r ==> r[k] == if LivenessLost(m[k], now, alive) then MarkedIdle(m[k], now) else m[k])
      && (k in r ==> !LivenessLost(r[k], now, alive) && !ShouldPrune(r[k], now))
      && (k !in r ==> (!LivenessLost(m[k], now, alive) && ShouldPrune(m[k], now)) || |r| == MAX_TRACKED_SESSIONS)
  {
    var marked := Marked(m, now, alive);
    PruneFacts(Retained(marked, now), MAX_TRACKED_SESSIONS);
    MarkedIdleStays(m[k], now, now, alive);
    assert k in marked;
  }

  lemma NothingToDo(r: Sessions, now: nat, alive: set<nat>)
    requires forall k :: k in r ==> !LivenessLost(r[k], now, alive) && !ShouldPrune(r[k], now)
    requires |r| <= MAX_TRACKED_SESSIONS
    ensures Reconciled(r, now, alive) == r
  {
    assert Marked(r, now, alive) == r;
    assert Retained(r, now) == r;
    PruneFacts(r, MAX_TRACKED_SESSIONS);
  }

  /** A second reconcile at the same moment finds nothing left to do. */
  lemma ReconcileIdempotent(m: Sessions, now: nat, alive: set<nat>)
    ensures Reconciled(Reconciled(m, now, alive), now, alive) == Reconciled(m, now, alive)
  {
    var r, kept := Reconciled(m, now, alive), Retained(Marked(m, now, alive), now);
    PruneFacts(kept, MAX_TRACKED_SESSIONS);
    forall k | k in r
      ensures !LivenessLost(r[k], now, alive) && !ShouldPrune(r[k], now)
    {
      assert k in kept && k in m;
      ReconcileMeaning(m, now, alive, k);
    }
    NothingToDo(r, now, alive);
  }

  // ------------------------------------------------------------------ saving and loading

  function Neutral(s: Snapshot): Snapshot { s.(emotion := "neutral") }

  function NeutralTable(m: Sessions): Sessions {
    map k | k in m :: m[k].(snapshot := Neutral(m[k].snapshot))
  }

  /** Later entries replace earlier ones with the same key. */
  function Collected(saved: seq<Session>): Sessions {
    if saved == [] then map[]
    else var s := saved[|saved| - 1]; Collected(saved[..|saved| - 1])[s.key := s.(snapshot := Neutral(s.snapshot))]
  }

  /** build_app_state with restored_sessions: moods are reset, and an old state file
      without sessions yields one made from the last snapshot. */
  function Restored(saved: seq<Session>, last: Snapshot): Sessions {
    var m := Collected(saved);
    var initial := Neutral(last).(pending := None);
    var key := if Trim(initial.sessionId) == "" then "__restored__" else initial.sessionId;
    if m == map[] && initial.seqNo > 0 then map[key := Session(key, initial, "", initial.ts, None)] else m
  }

  /** The table's values, each once, as they are written to the state file. */
  ghost predicate Saves(saved: seq<Session>, m: Sessions) {
    && (forall i :: 0 <= i < |saved| ==> saved[i].key in m && m[saved[i].key] == saved[i])
    && (forall k :: k in m ==> m[k] in saved)
  }

  lemma {:induction false} CollectedOf(saved: seq<Session>, m: Sessions)
    requires forall i :: 0 <= i < |saved| ==> saved[i].key in m && m[saved[i].key] == saved[i]
    ensures var c := Collected(saved);
      && (forall k :: k in c ==> k in m && c[k] == m[k].(snapshot := Neutral(m[k].snapshot)))
      && (forall i :: 0 <= i < |saved| ==> saved[i].key in c)
  {
    if saved != [] {
      CollectedOf(saved[..|saved| - 1], m);
    }
  }

  /** A restart restores the saved table, moods apart, exactly when it was not empty or
      nothing has ever been published; otherwise it brings one session back. */
  lemma RestartRestores(saved: seq<Session>, m: Sessions, last: Snapshot)
    requires Sound(m) && Saves(saved, m)
    ensures Restored(saved, last) == NeutralTable(m) <==> m != map[] || last.seqNo == 0
    ensures Sound(Restored(saved, last))
  {
    CollectedOf(saved, m);
    var c := Collected(saved);
    forall k | k in m
      ensures k in c
    {
      var i :| 0 <= i < |saved| && saved[i] == m[k];
    }
    assert c == NeutralTable(m);
    if m == map[] {
      assert NeutralTable(m) == map[];
      var initial := Neutral(last).(pending := None);
      var key := if Trim(initial.sessionId) == "" then "__restored__" else initial.sessionId;
      assert last.seqNo > 0 ==> key in Restored(saved, last);
    } else {
      var k :| k in m;
      assert k in c;
    }
  }
}

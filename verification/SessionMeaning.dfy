/** What the rules of the session table mean, told on the fields and texts of sessions. */
module SessionMeaning {
  import opened Options
  import opened Ranking
  import opened SnapshotStream
  import opened SessionTable
  import LineProtocol

  const ACTIVE: set<string> := {"waiting_for_input", "running_tool", "processing", "compacting"}

  predicate Active(s: Session) { s.snapshot.status in ACTIVE }

  lemma StatusTexts(s: Session)
    ensures IsActive(StatusOf(s)) <==> Active(s)
    ensures StatusOf(s).Ended? <==> s.snapshot.status == "ended"
    ensures StatusOf(s).Unknown? <==> !Active(s) && s.snapshot.status != "ended"
  {
  }

  // ---------------------------------------------------------------------- reconciling

  /** The session's process is alive; or it has none and was heard from in the last quarter
      of an hour. */
  predicate Living(s: Session, now: nat, alive: set<nat>) {
    match s.pid
    case Some(p) => p in alive
    case None => now < s.lastActivity + 900
  }

  lemma LostMeans(s: Session, now: nat, alive: set<nat>)
    ensures LivenessLost(s, now, alive) <==> Active(s) && !Living(s, now, alive)
  {
    StatusTexts(s);
  }

  /** Seconds a session without an active status is kept. */
  function Kept(s: Session): nat {
    if s.snapshot.status == "ended" then 300 else 1800
  }

  lemma PruneMeans(s: Session, now: nat)
    ensures ShouldPrune(s, now) <==> !Active(s) && now >= s.lastActivity + Kept(s)
  {
    StatusTexts(s);
  }

  /** A session that is still shown as active after a reconcile is untouched and living. */
  lemma ActiveMeansLiving(m: Sessions, now: nat, alive: set<nat>, k: string)
    requires k in Reconciled(m, now, alive) && Active(Reconciled(m, now, alive)[k])
    ensures k in m && Reconciled(m, now, alive)[k] == m[k]
    ensures m[k].pid.Some? ==> m[k].pid.value in alive
    ensures m[k].pid.None? ==> now < m[k].lastActivity + 900
  {
    KeptWasThere(m, now, alive, k);
    ReconcileMeaning(m, now, alive, k);
    LostMeans(m[k], now, alive);
  }

  lemma KeptWasThere(m: Sessions, now: nat, alive: set<nat>, k: string)
    requires k in Reconciled(m, now, alive)
    ensures k in m
  {
    PruneFacts(Retained(Marked(m, now, alive), now), MAX_TRACKED_SESSIONS);
  }

  /** A living session is neither rewritten nor dropped, unless the table is full. */
  lemma LivingStays(m: Sessions, now: nat, alive: set<nat>, k: string)
    requires k in m && Active(m[k])
    requires if m[k].pid.Some? then m[k].pid.value in alive else now < m[k].lastActivity + 900
    ensures var r := Reconciled(m, now, alive);
      if k in r then r[k] == m[k] else |r| == 16
  {
    ReconcileMeaning(m, now, alive, k);
    LostMeans(m[k], now, alive);
    PruneMeans(m[k], now);
  }

  /** A session whose process died, or that was silent too long, is shown as idle from now
      on, with no process and nothing unread. */
  lemma DeadIsIdle(m: Sessions, now: nat, alive: set<nat>, k: string)
    requires k in m && Active(m[k])
    requires if m[k].pid.Some? then m[k].pid.value !in alive else now >= m[k].lastActivity + 900
    ensures var r := Reconciled(m, now, alive);
      if k !in r then |r| == 16
      else
        && r[k].pid == None && r[k].lastActivity == now && r[k].key == m[k].key && r[k].cwd == m[k].cwd
        && r[k].snapshot.status == "unknown" && r[k].snapshot.title == "Idle" && r[k].snapshot.emotion == "neutral"
        && r[k].snapshot.event == "SessionLivenessLost" && r[k].snapshot.ts == now
        && !r[k].snapshot.unread && r[k].snapshot.attention == Medium
        && r[k].snapshot.sessionId == m[k].snapshot.sessionId && r[k].snapshot.workspace == m[k].snapshot.workspace
        && r[k].snapshot.detail == if m[k].pid.Some? then "Claude session exited before sending a terminal hook"
                                   else "Claude activity timed out without a terminal hook"
  {
    ReconcileMeaning(m, now, alive, k);
    LostMeans(m[k], now, alive);
  }

  /** A session without an active status is never rewritten. An ended one goes after five
      minutes, an idle one after half an hour, and no sooner unless the table is full. */
  lemma InactiveAges(m: Sessions, now: nat, alive: set<nat>, k: string)
    requires k in m && !Active(m[k])
    ensures var r := Reconciled(m, now, alive);
      && (k in r ==> r[k] == m[k])
      && (m[k].snapshot.status == "ended" ==> if k in r then now < m[k].lastActivity + 300
            else now >= m[k].lastActivity + 300 || |r| == 16)
      && (m[k].snapshot.status != "ended" ==> if k in r then now < m[k].lastActivity + 1800
            else now >= m[k].lastActivity + 1800 || |r| == 16)
  {
    ReconcileMeaning(m, now, alive, k);
    LostMeans(m[k], now, alive);
    PruneMeans(m[k], now);
  }

  /** At most sixteen sessions are tracked after a reconcile. */
  lemma AtMostSixteen(m: Sessions, now: nat, alive: set<nat>)
    ensures |Reconciled(m, now, alive)| <= 16
  {
    PruneFacts(Retained(Marked(m, now, alive), now), MAX_TRACKED_SESSIONS);
  }

  // ------------------------------------------------------------------ display choice

  /** The status texts, least urgent first; any text not listed stands where "" does. */
  const URGENCY: seq<string> := ["ended", "", "compacting", "processing", "running_tool", "waiting_for_input"]

  predicate HasUrgency(text: string, i: nat) {
    i < |URGENCY| && if i == 1 then text != "ended" && text !in ACTIVE else text == URGENCY[i]
  }

  lemma UrgencyIsPriority(s: Session, i: nat)
    ensures HasUrgency(s.snapshot.status, i) <==> i == DisplayPriority(StatusOf(s))
  {
    StatusTexts(s);
    if HasUrgency(s.snapshot.status, i) && i != 1 {
      assert i == 0 || i == 2 || i == 3 || i == 4 || i == 5;
    }
  }

  /** The status shown is at least as urgent as every session's. */
  lemma MostUrgentStatusIsShown(m: Sessions, ts: nat, k: string, i: nat) returns (j: nat)
    requires k in m && HasUrgency(m[k].snapshot.status, i)
    ensures i <= j && HasUrgency(Selected(m, ts).status, j)
  {
    SelectedIsMostUrgent(m, ts, k);
    var f :| f in m && Selected(m, ts) == m[f].snapshot && !RankLess(DisplayRanks(m)[f], DisplayRanks(m)[k]);
    j := DisplayPriority(StatusOf(m[f]));
    UrgencyIsPriority(m[k], i);
    UrgencyIsPriority(m[f], j);
    assert DisplayRanks(m)[f].first >= DisplayRanks(m)[k].first;
  }

  /** Among sessions of one status an unread one comes first, then the one heard from last,
      then the one with the greatest key. */
  lemma FreshestOfStatusIsShown(m: Sessions, ts: nat) returns (f: string)
    requires m != map[]
    ensures f in m && Selected(m, ts) == m[f].snapshot
    ensures forall k :: k in m && k != f && m[k].snapshot.status == m[f].snapshot.status ==>
      || (m[f].snapshot.unread && !m[k].snapshot.unread)
      || (m[f].snapshot.unread == m[k].snapshot.unread &&
          (m[f].lastActivity > m[k].lastActivity || (m[f].lastActivity == m[k].lastActivity && StrLess(k, f))))
  {
    var x :| x in m;
    assert x in DisplayRanks(m);
    f := First(Down, DisplayRanks(m));
    forall k | k in m && k != f && m[k].snapshot.status == m[f].snapshot.status
      ensures || (m[f].snapshot.unread && !m[k].snapshot.unread)
        || (m[f].snapshot.unread == m[k].snapshot.unread &&
            (m[f].lastActivity > m[k].lastActivity || (m[f].lastActivity == m[k].lastActivity && StrLess(k, f))))
    {
      assert k in DisplayRanks(m) && Before(Down, DisplayRanks(m), f, k);
    }
  }

  /** With no session at all the display says so. */
  lemma NothingIsShown(ts: nat)
    ensures var s := Selected(map[], ts);
      s.status == "unknown" && s.title == "No data yet" && s.ts == ts && !s.unread && s.sessionId == ""
  {
    var none: Sessions := map[];
    assert DisplayRanks(none) == map[];
  }

  /** A full table drops the least urgent first, and of one status the one silent longest. */
  lemma DroppedIsLeastUrgent(m: Sessions, cap: nat, dropped: string, kept: string, i: nat, j: nat)
    requires dropped in m && dropped !in Prune(m, cap) && kept in Prune(m, cap) && kept in m
    requires HasUrgency(m[dropped].snapshot.status, i) && HasUrgency(m[kept].snapshot.status, j)
    ensures i < j || (i == j && m[dropped].lastActivity <= m[kept].lastActivity)
  {
    PruneIsFair(m, cap, dropped, kept);
    UrgencyIsPriority(m[dropped], i);
    UrgencyIsPriority(m[kept], j);
  }

  /** The first difference is at i: there b is greater, or a has ended. */
  predicate FirstDifference(a: string, b: string, i: nat) {
    i <= |a| && i < |b| && a[..i] == b[..i] && (i == |a| || a[i] < b[i])
  }

  lemma FirstCharacter(a: string, b: string, i: nat)
    requires FirstDifference(a, b, i) && 0 < i
    ensures a[0] == b[0]
  {
    assert a[..i][0] == a[0] && b[..i][0] == b[0];
  }

  /** StrLess is the dictionary order. */
  lemma {:induction false} DictionaryOrder(a: string, b: string)
    ensures StrLess(a, b) <==> exists i :: FirstDifference(a, b, i)
    decreases |a|
  {
    if a != [] && b != [] && a[0] == b[0] {
      DictionaryOrder(a[1..], b[1..]);
      if i: nat :| FirstDifference(a[1..], b[1..], i) {
        assert a[..i + 1] == [a[0]] + a[1..][..i] && b[..i + 1] == [b[0]] + b[1..][..i];
        assert FirstDifference(a, b, i + 1);
      }
      if i: nat :| FirstDifference(a, b, i) {
        assert 0 < i;
        assert a[..i][1..] == a[1..][..i - 1] && b[..i][1..] == b[1..][..i - 1];
        assert FirstDifference(a[1..], b[1..], i - 1);
      }
    } else {
      if i: nat :| FirstDifference(a, b, i) && 0 < i {
        FirstCharacter(a, b, i);
      }
      if StrLess(a, b) {
        assert FirstDifference(a, b, 0);
      }
    }
  }

  // -------------------------------------------------------------------- session keys

  /** Trim takes white space off both ends and nothing else. */
  lemma {:induction false} TrimCuts(s: string) returns (before: string, after: string)
    ensures s == before + Trim(s) + after
    ensures forall c :: c in before + after ==> LineProtocol.IsSpace(c)
    ensures Trim(s) != "" ==> !LineProtocol.IsSpace(Trim(s)[0]) && !LineProtocol.IsSpace(Trim(s)[|Trim(s)| - 1])
    decreases |s|
  {
    before, after := "", "";
    if s != [] {
      if LineProtocol.IsSpace(s[0]) {
        before, after := TrimCuts(s[1..]);
        before := [s[0]] + before;
        assert s == [s[0]] + s[1..];
      } else if LineProtocol.IsSpace(s[|s| - 1]) {
        before, after := TrimCuts(s[..|s| - 1]);
        after := after + [s[|s| - 1]];
        assert s == s[..|s| - 1] + [s[|s| - 1]];
      }
    }
  }

  /** Which identity of an event names its session: the session id, else the working
      directory, else the process, else a name shared by all the rest. */
  lemma KeyPrecedence(e: Event)
    ensures Trim(e.hook.session) != "" ==> SessionKey(e) == Trim(e.hook.session)
    ensures Trim(e.hook.session) == "" && Trim(e.cwd) != "" ==> SessionKey(e) == "cwd:" + Trim(e.cwd)
    ensures Trim(e.hook.session) == "" && Trim(e.cwd) == "" ==>
      if e.pid.Some? then SessionKey(e)[..4] == "pid:" else SessionKey(e) == "__global__"
  {
    if e.pid.Some? {
      assert ("pid:" + Decimal(e.pid.value))[..4] == "pid:";
    }
  }

  /** What names the session. */
  datatype Identity = ById(id: string) | ByDirectory(path: string) | ByProcess(pid: nat) | Shared

  function IdentityOf(e: Event): Identity {
    if Trim(e.hook.session) != "" then ById(Trim(e.hook.session))
    else if Trim(e.cwd) != "" then ByDirectory(Trim(e.cwd))
    else if e.pid.Some? then ByProcess(e.pid.value)
    else Shared
  }

  function DecimalValue(s: string): int {
    if s == [] then 0 else DecimalValue(s[..|s| - 1]) * 10 + (s[|s| - 1] as int - 48)
  }

  lemma {:induction false} DecimalReadsBack(n: nat)
    ensures DecimalValue(Decimal(n)) == n
  {
    var digits: string := if n < 10 then "" else Decimal(n / 10);
    assert Decimal(n) == digits + [(n % 10 + 48) as char];
    assert Decimal(n)[..|Decimal(n)| - 1] == digits;
    if n >= 10 {
      DecimalReadsBack(n / 10);
    }
  }

  lemma SamePrefix(prefix: string, a: string, b: string)
    ensures prefix + a == prefix + b <==> a == b
  {
    assert (prefix + a)[|prefix|..] == a && (prefix + b)[|prefix|..] == b;
  }

  /** Events that name their sessions in the same way have the same key exactly when they
      name the same session. */
  lemma SameKeyExactly(e: Event, f: Event)
    requires IdentityOf(e).ById? == IdentityOf(f).ById? && IdentityOf(e).ByDirectory? == IdentityOf(f).ByDirectory?
    requires IdentityOf(e).ByProcess? == IdentityOf(f).ByProcess?
    ensures SessionKey(e) == SessionKey(f) <==> IdentityOf(e) == IdentityOf(f)
  {
    match IdentityOf(e)
    case ById(_) =>
    case ByDirectory(_) => SamePrefix("cwd:", Trim(e.cwd), Trim(f.cwd));
    case ByProcess(p) =>
      SamePrefix("pid:", Decimal(p), Decimal(f.pid.value));
      DecimalReadsBack(p);
      DecimalReadsBack(f.pid.value);
    case Shared =>
  }

  /** Ways of naming do not mix either, as long as no session id looks like another way. */
  lemma KindsDoNotMix(e: Event, f: Event)
    requires IdentityOf(e).ByDirectory? && IdentityOf(f).ByProcess?
    ensures SessionKey(e) != SessionKey(f)
  {
    assert SessionKey(e)[0] == 'c' && SessionKey(f)[0] == 'p';
  }

  // ----------------------------------------------------------------- what an event leaves

  /** The entry an event leaves for its session. */
  lemma EventLeaves(m: Sessions, e: Event, normalize: Normalizer)
    ensures var key := SessionKey(e); var r := Applied(m, e, normalize);
      && key in r && r[key].lastActivity == e.recvTs
      && r[key].key == (if key in m then m[key].key else key)
      && (e.hook.name == "SessionEnd" ==> r[key].pid == None && r[key].snapshot.emotion == "neutral")
      && (e.hook.name != "SessionEnd" && e.pid.Some? ==> r[key].pid == e.pid)
      && (e.hook.name != "SessionEnd" && e.pid.None? ==> r[key].pid == if key in m then m[key].pid else None)
      && (key in m && Trim(e.cwd) == "" ==> r[key].cwd == m[key].cwd)
      && (Trim(e.cwd) != "" ==> r[key].cwd == e.cwd)
  {
  }

  /** Only one session has the process of an event that names it. */
  lemma OneSessionPerProcess(m: Sessions, e: Event, normalize: Normalizer, k: string)
    requires e.pid.Some? && k in Applied(m, e, normalize) && Applied(m, e, normalize)[k].pid == e.pid
    ensures k == SessionKey(e)
  {
  }

  /** The texts an event gives a session are the normalizer's, but for a missing session id
      and for the emotion at the end of a session. The turn clock stops with the activity,
      starts anew at a prompt, and otherwise keeps running. */
  lemma EventTexts(m: Sessions, e: Event, normalize: Normalizer)
    ensures var key := SessionKey(e); var current := if key in m then m[key].snapshot else EmptySnapshot(e.recvTs);
      var n, s := normalize(e, current), Applied(m, e, normalize)[key].snapshot;
      && s.(sessionId := "", emotion := "", workingSince := None) ==
           n.(sessionId := "", emotion := "", workingSince := None)
      && s.sessionId == (if n.sessionId == "" then key else n.sessionId)
      && (e.hook.name != "SessionEnd" ==> s.emotion == n.emotion)
      && (s.status !in ACTIVE ==> s.workingSince == None)
      && (s.status in ACTIVE && e.hook.name == "UserPromptSubmit" ==> s.workingSince == Some(e.recvTs))
      && (s.status in ACTIVE && e.hook.name != "UserPromptSubmit" ==>
           s.workingSince == if current.workingSince.Some? then current.workingSince else Some(e.recvTs))
  {
    var rest, key := m - Superseded(m, e), SessionKey(e);
    assert key in rest <==> key in m;
    var s := Applied(m, e, normalize)[key];
    StatusTexts(s);
  }

  // ------------------------------------------------------------------ saving and loading

  /** A restart resets every mood and changes nothing else in the sessions it restores. */
  lemma RestartResetsMoods(saved: seq<Session>, m: Sessions, last: Snapshot, k: string)
    requires Sound(m) && Saves(saved, m) && m != map[]
    ensures k in Restored(saved, last) <==> k in m
    ensures k in m ==> var r := Restored(saved, last)[k];
      && r.snapshot.emotion == "neutral" && r.snapshot.(emotion := m[k].snapshot.emotion) == m[k].snapshot
      && r.key == m[k].key && r.cwd == m[k].cwd && r.lastActivity == m[k].lastActivity && r.pid == m[k].pid
  {
    RestartRestores(saved, m, last);
  }
}

/** The agent's shared state (agent.rs). Every section of code that runs while holding the
    state's lock is one step, so any interleaving of requests and timers is a run. */
module AgentState {
  import opened Options
  import opened Ranking
  import opened SessionTable
  import opened SnapshotStream
  import Pending = PendingQueue

  datatype Config = Config(timeouts: Pending.Timeouts, normalize: Normalizer)

  datatype State = State(sessions: Sessions, entries: seq<Pending.Entry>, stream: Stream)

  datatype Section =
    | ClearPending(hook: Pending.HookEvent)
    | Submit(item: Pending.Item)
    | Refresh(ts: nat)
    | Apply(event: Event)
    | Reconcile(now: nat, alive: set<nat>)
    | Moods(emotions: map<string, string>, ts: nat)

  /** A section and the monotonic clock when it runs. */
  datatype Timed = Timed(section: Section, clock: nat)

  // ----------------------------------------------------------------- what is displayed

  function CoarseType(item: Pending.Item): string {
    match item.interaction
    case Approval(tool) =>
      if tool == "Bash" then "Bash command"
      else if tool in {"Edit", "Write", "MultiEdit", "NotebookEdit"} then "File edit"
      else if tool in {"Read", "NotebookRead"} then "File read"
      else if tool in {"Glob", "Grep", "LS"} then "File search"
      else if tool in {"WebFetch", "WebSearch"} then "Web request"
      else if tool == "Task" then "Subagent task"
      else "Tool request"
    case Prompt(prompt) => if prompt.kind.Elicitation? then "Input request" else "Question"
  }

  function DisplayOf(item: Option<Pending.Item>): Option<PendingDisplay> {
    match item
    case None => None
    case Some(i) => Some(PendingDisplay(if Pending.IsApproval(i) then "approval" else "prompt", CoarseType(i)))
  }

  const LABELS: set<string> := {
    "Bash command", "File edit", "File read", "File search", "Web request", "Subagent task", "Tool request",
    "Input request", "Question"
  }

  /** The device learns the kind and one of nine labels, whatever the item's id, session,
      tool call, question and option texts; an unknown tool's name does not show either. */
  lemma DisplayHidesContent(a: Pending.Item, b: Pending.Item)
    ensures DisplayOf(Some(a)).value.coarseType in LABELS
    ensures a.interaction.Prompt? && b.interaction.Prompt? && a.interaction.prompt.kind == b.interaction.prompt.kind ==>
      DisplayOf(Some(a)) == DisplayOf(Some(b))
    ensures a.interaction.Approval? && b.interaction.Approval? && CoarseType(a) == CoarseType(b) == "Tool request" ==>
      DisplayOf(Some(a)) == DisplayOf(Some(b))
    ensures a.interaction == b.interaction ==> DisplayOf(Some(a)) == DisplayOf(Some(b))
  {
  }

  /** A fresh selection over all sessions, with the queue's current item. */
  ghost function Shown(t: Pending.Timeouts, s: State, ts: nat, clock: nat): Snapshot {
    Selected(s.sessions, ts).(pending := DisplayOf(Pending.Answer(t, s.entries, clock)))
  }

  /** finalize_guard_state. */
  ghost function Finalized(t: Pending.Timeouts, s: State, ts: nat, clock: nat): State {
    State(s.sessions, Pending.DropExpired(t, s.entries, clock), Publish(s.stream, Shown(t, s, ts, clock)))
  }

  // ----------------------------------------------------------------------- the steps

  function SessionIds(m: Sessions, keys: set<string>): set<string> {
    set k | k in keys && k in m :: m[k].snapshot.sessionId
  }

  function LostIds(m: Sessions, now: nat, alive: set<nat>): set<string> {
    SessionIds(m, set k | k in m && LivenessLost(m[k], now, alive))
  }

  function AgedIds(m: Sessions, now: nat): set<string> {
    SessionIds(m, set k | k in m && ShouldPrune(m[k], now))
  }

  function Toned(s: Session, emotion: string): Session {
    s.(snapshot := s.snapshot.(emotion := emotion))
  }

  function InMood(m: Sessions, emotions: map<string, string>): Sessions {
    map k | k in m :: if k in emotions then Toned(m[k], emotions[k]) else m[k]
  }

  /** The sessions whose interactions a step forgets. */
  function Gone(s: State, x: Section): set<string> {
    match x
    case Apply(e) => SessionIds(s.sessions, Superseded(s.sessions, e))
    case Reconcile(now, alive) => LostIds(s.sessions, now, alive) + AgedIds(Marked(s.sessions, now, alive), now)
    case _ => {}
  }

  ghost function NextSessions(c: Config, s: State, x: Section): Sessions {
    match x
    case Apply(e) => Applied(s.sessions, e, c.normalize)
    case Reconcile(now, alive) => Reconciled(s.sessions, now, alive)
    case Moods(emotions, _) => InMood(s.sessions, emotions)
    case _ => s.sessions
  }

  ghost function NextEntries(s: State, x: Section, clock: nat): seq<Pending.Entry> {
    match x
    case ClearPending(hook) => Pending.DropKilled(s.entries, Pending.ClearForEvent(hook))
    case Submit(item) => Pending.DropKilled(s.entries, Pending.Submit(item)) + [Pending.Entry(clock, item)]
    case Apply(_) => Pending.Filter(s.entries, Pending.Apart(Gone(s, x)))
    case Reconcile(_, _) => Pending.Filter(s.entries, Pending.Apart(Gone(s, x)))
    case _ => s.entries
  }

  /** Whether, and for which time stamp, a section ends by choosing what to show. */
  function FinalizesAt(s: State, x: Section): Option<nat> {
    match x
    case Refresh(ts) => Some(ts)
    case Apply(e) => Some(e.recvTs)
    case Reconcile(now, _) => Some(now)
    case Moods(emotions, ts) => if InMood(s.sessions, emotions) == s.sessions then None else Some(ts)
    case _ => None
  }

  ghost function Changed(c: Config, s: State, x: Timed): State {
    State(NextSessions(c, s, x.section), NextEntries(s, x.section, x.clock), s.stream)
  }

  ghost function Step(c: Config, s: State, x: Timed): State {
    match FinalizesAt(s, x.section)
    case None => Changed(c, s, x)
    case Some(ts) => Finalized(c.timeouts, Changed(c, s, x), ts, x.clock)
  }

  ghost function Run(c: Config, sessions: Sessions, last: Snapshot, h: seq<Timed>): State {
    if h == [] then State(sessions, [], Start(last))
    else Step(c, Run(c, sessions, last, h[..|h| - 1]), h[|h| - 1])
  }

  // ------------------------------------------------------------- the agent in its own form

  class Agent {
    var sessions: Sessions
    const queue: Pending.Queue
    const publisher: Publisher
    const normalize: Normalizer

    constructor (sessions: Sessions, last: Snapshot, timeouts: Pending.Timeouts, normalize: Normalizer)
      ensures fresh(queue) && fresh(publisher) && queue.timeouts == timeouts && this.normalize == normalize
      ensures Abstract() == State(sessions, [], Start(last)) && |publisher.history| <= RING_BUFFER_CAPACITY
    {
      this.sessions := sessions;
      this.normalize := normalize;
      queue := new Pending.Queue(timeouts);
      publisher := new Publisher(last);
    }

    ghost function Abstract(): State
      reads this, queue, publisher
    {
      State(sessions, queue.entries, publisher.Abstract())
    }

    ghost function Settings(): Config {
      Config(queue.timeouts, normalize)
    }

    method Finalize(ts: nat, clock: nat) returns (toSend: Option<Snapshot>)
      requires |publisher.history| <= RING_BUFFER_CAPACITY
      modifies queue, publisher
      ensures Abstract() == Finalized(queue.timeouts, old(Abstract()), ts, clock)
      ensures |publisher.history| <= RING_BUFFER_CAPACITY
      ensures toSend.Some? <==> |publisher.published| == |old(publisher.published)| + 1
      ensures toSend.Some? ==> publisher.published == old(publisher.published) + [toSend.value]
    {
      var next := SelectDisplay(sessions, ts);
      var item := queue.CurrentItem(clock);
      toSend := publisher.Finalize(next.(pending := DisplayOf(item)));
    }

    /** The keys of the sessions that satisfy f, in key order. */
    static method KeysWhere(m: Sessions, f: Session -> bool) returns (c: seq<string>)
      ensures forall k :: k in c <==> k in m && f(m[k])
      ensures forall i, j :: 0 <= i < j < |c| ==> c[i] != c[j]
    {
      var keys := SortedKeys(KeyRanks(m));
      AscendingApart(KeyRanks(m), keys);
      c := [];
      for i := 0 to |keys|
        invariant forall k :: k in c <==> k in keys[..i] && k in m && f(m[k])
        invariant forall j, k :: 0 <= j < k < |c| ==> c[j] != c[k]
      {
        var k := keys[i];
        assert keys[..i + 1] == keys[..i] + [k];
        assert k !in keys[..i];
        assert k in keys;
        if f(m[k]) {
          c := c + [k];
        }
      }
      assert keys[..|keys|] == keys;
    }

    /** Removes sessions and what waits for their users. */
    method RemoveAll(keys: seq<string>)
      requires forall i, j :: 0 <= i < j < |keys| ==> keys[i] != keys[j]
      requires forall k :: k in keys ==> k in sessions
      modifies this, queue
      ensures sessions == old(sessions) - Elements(keys)
      ensures queue.entries ==
        Pending.Filter(old(queue.entries), Pending.Apart(SessionIds(old(sessions), Elements(keys))))
    {
      Pending.FilterAll(queue.entries, Pending.Apart({}));
      assert SessionIds(sessions, Elements([])) == {};
      for i := 0 to |keys|
        invariant sessions == old(sessions) - Elements(keys[..i])
        invariant queue.entries ==
          Pending.Filter(old(queue.entries), Pending.Apart(SessionIds(old(sessions), Elements(keys[..i]))))
      {
        var k := keys[i];
        assert k in keys && k !in keys[..i];
        var id := sessions[k].snapshot.sessionId;
        ElementsSnoc(keys, i);
        assert SessionIds(old(sessions), Elements(keys[..i + 1])) ==
          SessionIds(old(sessions), Elements(keys[..i])) + {id};
        Pending.ClearIsApart(queue.entries, id);
        Pending.ApartTwice(old(queue.entries), SessionIds(old(sessions), Elements(keys[..i])), {id});
        sessions := sessions - {k};
        queue.ClearSession(id);
      }
      assert keys[..|keys|] == keys;
    }

    /** Retires the other sessions of the event's process. */
    method Supersede(event: Event)
      requires KeysMatch(sessions)
      modifies this, queue
      ensures sessions == old(sessions) - Superseded(old(sessions), event)
      ensures queue.entries ==
        Pending.Filter(old(queue.entries),
                       Pending.Apart(SessionIds(old(sessions), Superseded(old(sessions), event))))
    {
      var key := SessionKey(event);
      if event.pid.Some? {
        var superseded := KeysWhere(sessions, (s: Session) => s.key != key && s.pid == event.pid);
        assert Elements(superseded) == Superseded(sessions, event);
        RemoveAll(superseded);
      } else {
        assert Superseded(sessions, event) == {};
        assert SessionIds(sessions, {}) == {};
        Pending.FilterAll(queue.entries, Pending.Apart({}));
      }
    }

    /** apply_event_to_sessions. */
    method EnterEvent(event: Event)
      requires KeysMatch(sessions)
      modifies this, queue
      ensures sessions == Applied(old(sessions), event, normalize)
      ensures queue.entries == NextEntries(old(Abstract()), Apply(event), 0)
    {
      Supersede(event);
      var key := SessionKey(event);
      var entry := if key in sessions then sessions[key] else Fresh(event);
      sessions := sessions[key := Updated(entry, event, normalize)];
    }

    /** The locked part of process_event. */
    method ApplyEvent(event: Event, clock: nat) returns (toSend: Option<Snapshot>)
      requires KeysMatch(sessions) && |publisher.history| <= RING_BUFFER_CAPACITY
      modifies this, queue, publisher
      ensures Abstract() == Step(Settings(), old(Abstract()), Timed(Apply(event), clock))
      ensures |publisher.history| <= RING_BUFFER_CAPACITY
      ensures toSend.Some? ==> publisher.published == old(publisher.published) + [toSend.value]
    {
      EnterEvent(event);
      toSend := Finalize(event.recvTs, clock);
    }

    /** Rewrites in place the sessions that satisfy `dead`; returns their ids. */
    method RewriteWhere(dead: Session -> bool, mark: Session -> Session) returns (ids: seq<string>)
      requires forall s :: dead(s) ==> mark(s) != s
      modifies this
      ensures sessions == RewrittenWhere(old(sessions), dead, mark)
      ensures Elements(ids) == SessionIds(old(sessions), Where(old(sessions), dead))
      ensures ids != [] <==> sessions != old(sessions)
    {
      var keys := SortedKeys(KeyRanks(sessions));
      AscendingApart(KeyRanks(sessions), keys);
      ghost var target, found := RewrittenWhere(sessions, dead, mark), Where(sessions, dead);
      ids := RewriteListed(keys, dead, mark, target, found);
      ProgressDone(old(sessions), target, found, sessions, ids, keys);
    }

    method RewriteListed(keys: seq<string>, dead: Session -> bool, mark: Session -> Session, ghost target: Sessions,
                         ghost found: set<string>)
      returns (ids: seq<string>)
      requires target.Keys == sessions.Keys && (forall k :: k in keys ==> k in sessions)
      requires forall i, j :: 0 <= i < j < |keys| ==> keys[i] != keys[j]
      requires forall k :: k in sessions ==>
        && (k in found <==> dead(sessions[k])) && (k in found <==> target[k] != sessions[k])
        && (k in found ==> target[k] == mark(sessions[k]))
      modifies this
      ensures Progress(old(sessions), target, found, sessions, ids, Elements(keys[..|keys|]))
    {
      ids := [];
      for i := 0 to |keys|
        invariant Progress(old(sessions), target, found, sessions, ids, Elements(keys[..i]))
      {
        var k := keys[i];
        assert k in keys && k !in keys[..i];
        ElementsSnoc(keys, i);
        ProgressNext(old(sessions), target, found, sessions, ids, Elements(keys[..i]), k);
        if dead(sessions[k]) {
          ids := ids + [sessions[k].snapshot.sessionId];
          sessions := sessions[k := mark(sessions[k])];
        }
      }
    }

    /** Marks the sessions found dead and returns their ids. */
    method MarkLost(now: nat, alive: set<nat>) returns (lost: seq<string>)
      modifies this
      ensures sessions == Marked(old(sessions), now, alive)
      ensures Elements(lost) == LostIds(old(sessions), now, alive)
      ensures lost != [] <==> sessions != old(sessions)
    {
      var dead := (s: Session) => LivenessLost(s, now, alive);
      var mark := (s: Session) => MarkedIdle(s, now);
      forall s | dead(s)
        ensures mark(s) != s
      {
        ReviewedDiffers(s, now, alive);
      }
      assert Where(sessions, dead) == set k | k in sessions && LivenessLost(sessions[k], now, alive);
      lost := RewriteWhere(dead, mark);
      assert sessions == Marked(old(sessions), now, alive);
    }

    method ForgetPending(ids: seq<string>)
      modifies queue
      ensures queue.entries == Pending.Filter(old(queue.entries), Pending.Apart(Elements(ids)))
    {
      assert Elements([]) == {};
      Pending.FilterAll(queue.entries, Pending.Apart({}));
      for i := 0 to |ids|
        invariant queue.entries == Pending.Filter(old(queue.entries), Pending.Apart(Elements(ids[..i])))
      {
        ElementsSnoc(ids, i);
        Pending.ClearIsApart(queue.entries, ids[i]);
        Pending.ApartTwice(old(queue.entries), Elements(ids[..i]), {ids[i]});
        queue.ClearSession(ids[i]);
      }
      assert ids[..|ids|] == ids;
    }

    /** should_prune_session and what follows it in reconcile_session_map. */
    method RemoveAged(now: nat)
      modifies this, queue
      ensures sessions == Retained(old(sessions), now)
      ensures queue.entries ==
        Pending.Filter(old(queue.entries), Pending.Apart(AgedIds(old(sessions), now)))
    {
      var aged := KeysWhere(sessions, (s: Session) => ShouldPrune(s, now));
      assert Elements(aged) == set k | k in sessions && ShouldPrune(sessions[k], now);
      RemoveAll(aged);
      assert sessions == Retained(old(sessions), now);
    }

    method MarkAndForget(now: nat, alive: set<nat>) returns (changed: bool)
      modifies this, queue
      ensures sessions == Marked(old(sessions), now, alive)
      ensures queue.entries ==
        Pending.Filter(old(queue.entries), Pending.Apart(LostIds(old(sessions), now, alive)))
      ensures changed <==> sessions != old(sessions)
    {
      var lost := MarkLost(now, alive);
      ForgetPending(lost);
      changed := lost != [];
    }

    /** reconcile_session_map; reports whether the table changed. */
    method ReconcileTable(now: nat, alive: set<nat>) returns (changed: bool)
      modifies this, queue
      ensures sessions == Reconciled(old(sessions), now, alive)
      ensures queue.entries == NextEntries(old(Abstract()), Reconcile(now, alive), 0)
      ensures changed <==> sessions != old(sessions)
    {
      TableChanges(sessions, now, alive);
      ghost var before := Abstract();
      ForgottenInTwo(before, now, alive);
      var lost := MarkAndForget(now, alive);
      var marked := |sessions|;
      RemoveAged(now);
      var kept := |sessions|;
      var excess: bool;
      sessions, excess := PruneExcess(sessions, MAX_TRACKED_SESSIONS);
      changed := lost || kept != marked || excess;
      assert queue.entries == NextEntries(before, Reconcile(now, alive), 0);
    }

    /** The locked part of reconcile_sessions. */
    method ReconcileSessions(now: nat, alive: set<nat>, clock: nat) returns (toSend: Option<Snapshot>)
      requires |publisher.history| <= RING_BUFFER_CAPACITY
      modifies this, queue, publisher
      ensures Abstract() == Step(Settings(), old(Abstract()), Timed(Reconcile(now, alive), clock))
      ensures |publisher.history| <= RING_BUFFER_CAPACITY
      ensures toSend.Some? ==> publisher.published == old(publisher.published) + [toSend.value]
    {
      var changed := ReconcileTable(now, alive);
      toSend := Finalize(now, clock);
    }

    /** apply_emotion_analysis and decay_emotions: the sessions whose mood differs get the
        new one, and only then is the display chosen anew. */
    method SetMoods(emotions: map<string, string>, ts: nat, clock: nat) returns (toSend: Option<Snapshot>)
      requires KeysMatch(sessions) && |publisher.history| <= RING_BUFFER_CAPACITY
      modifies this, queue, publisher
      ensures Abstract() == Step(Settings(), old(Abstract()), Timed(Moods(emotions, ts), clock))
      ensures |publisher.history| <= RING_BUFFER_CAPACITY
    {
      toSend := None;
      var differs := (s: Session) => s.key in emotions && s.snapshot.emotion != emotions[s.key];
      var tone := (s: Session) => if s.key in emotions then Toned(s, emotions[s.key]) else s;
      assert RewrittenWhere(sessions, differs, tone) == InMood(sessions, emotions);
      var changed := RewriteWhere(differs, tone);
      if changed != [] {
        toSend := Finalize(ts, clock);
      }
    }

    method SubmitItem(item: Pending.Item, clock: nat)
      modifies queue
      ensures Abstract() == Step(Settings(), old(Abstract()), Timed(Submit(item), clock))
    {
      queue.SubmitItem(item, clock);
    }

    /** clear_pending_for_event: the queue alone; a refresh follows if ids were cleared. */
    method ClearForEvent(hook: Pending.HookEvent, clock: nat) returns (refresh: bool)
      modifies queue
      ensures Abstract() == Step(Settings(), old(Abstract()), Timed(ClearPending(hook), clock))
      ensures refresh <==> Pending.Filter(old(queue.entries), Pending.Cleared(hook)) != []
    {
      var ids := queue.ClearEvent(hook);
      refresh := ids != [];
    }
  }

  lemma ForgottenInTwo(s: State, now: nat, alive: set<nat>)
    ensures NextEntries(s, Reconcile(now, alive), 0) ==
      Pending.Filter(Pending.Filter(s.entries, Pending.Apart(LostIds(s.sessions, now, alive))),
                     Pending.Apart(AgedIds(Marked(s.sessions, now, alive), now)))
  {
    Pending.ApartTwice(s.entries, LostIds(s.sessions, now, alive), AgedIds(Marked(s.sessions, now, alive), now));
  }

  function Elements(s: seq<string>): set<string> {
    set k | k in s
  }

  lemma ElementsSnoc(keys: seq<string>, i: nat)
    requires i < |keys|
    ensures Elements(keys[..i + 1]) == Elements(keys[..i]) + {keys[i]}
  {
    assert keys[..i + 1] == keys[..i] + [keys[i]];
  }

  function Where(m: Sessions, f: Session -> bool): set<string> {
    set k | k in m && f(m[k])
  }

  function RewrittenWhere(m: Sessions, f: Session -> bool, mark: Session -> Session): Sessions {
    map k | k in m :: if f(m[k]) then mark(m[k]) else m[k]
  }

  lemma ReviewedDiffers(s: Session, now: nat, alive: set<nat>)
    requires LivenessLost(s, now, alive)
    ensures MarkedIdle(s, now) != s
  {
    MarkedIdleStays(s, now, now, alive);
  }

  /** The sessions named by `done` are as in `after`, the others as in `before`, and `ids`
      holds the session ids of those `found` so far. */
  ghost predicate Progress(before: Sessions, after: Sessions, found: set<string>, m: Sessions, ids: seq<string>,
                           done: set<string>) {
    && m.Keys == before.Keys == after.Keys
    && (forall k :: k in before ==> (k in found <==> after[k] != before[k]))
    && (forall k :: k in m ==> m[k] == if k in done then after[k] else before[k])
    && Elements(ids) == SessionIds(before, found * done)
    && (ids != [] <==> found * done != {})
  }

  lemma ProgressNext(before: Sessions, after: Sessions, found: set<string>, m: Sessions, ids: seq<string>,
                     done: set<string>, k: string)
    requires Progress(before, after, found, m, ids, done) && k in before && k !in done
    ensures m[k] == before[k]
    ensures
      if k in found
      then Progress(before, after, found, m[k := after[k]], ids + [m[k].snapshot.sessionId], done + {k})
      else Progress(before, after, found, m, ids, done + {k})
  {
    if k in found {
      assert found * (done + {k}) == found * done + {k};
      assert Elements(ids + [m[k].snapshot.sessionId]) == Elements(ids) + {m[k].snapshot.sessionId};
    } else {
      assert found * (done + {k}) == found * done;
    }
  }

  lemma ProgressDone(before: Sessions, after: Sessions, found: set<string>, m: Sessions, ids: seq<string>,
                     keys: seq<string>)
    requires Progress(before, after, found, m, ids, Elements(keys[..|keys|])) && forall k :: k in keys <==> k in before
    requires found <= before.Keys
    ensures m == after && Elements(ids) == SessionIds(before, found) && (ids != [] <==> m != before)
  {
    assert keys[..|keys|] == keys;
    assert found * Elements(keys) == found;
    if k :| k in found {
      assert m[k] != before[k];
    }
  }

  lemma AscendingApart(r: Ranks, c: seq<string>)
    requires Ascending(r, c)
    ensures forall i, j :: 0 <= i < j < |c| ==> c[i] != c[j]
  {
    forall i, j | 0 <= i < j < |c|
      ensures c[i] != c[j]
    {
      AscendingDistinct(r, c, i, j);
    }
  }

  /** The three reports of a change together say whether the table changed. */
  lemma TableChanges(m: Sessions, now: nat, alive: set<nat>)
    ensures var marked := Marked(m, now, alive); var kept := Retained(marked, now);
      (marked != m || |kept| != |marked| || Prune(kept, MAX_TRACKED_SESSIONS) != kept) <==>
        Reconciled(m, now, alive) != m
  {
    var marked := Marked(m, now, alive);
    var kept := Retained(marked, now);
    PruneFacts(kept, MAX_TRACKED_SESSIONS);
    ChangesAddUp(m, marked, kept, Prune(kept, MAX_TRACKED_SESSIONS));
  }

  lemma ChangesAddUp(m: Sessions, marked: Sessions, kept: Sessions, r: Sessions)
    requires marked.Keys == m.Keys && Shrinks(kept, marked) && Shrinks(r, kept)
    ensures (marked != m || |kept| != |marked| || r != kept) <==> r != m
  {
    if r == m {
      forall k | k in m
        ensures marked[k] == m[k] && k in kept
      {
        assert k in r;
      }
    }
    if kept != marked {
      ShrinksStrictly(kept, marked);
    }
  }

  lemma ShrinksStrictly(r: Sessions, m: Sessions)
    requires Shrinks(r, m) && r != m
    ensures |r| < |m|
  {
    SubsetSize(r.Keys, m.Keys);
  }

  lemma SubsetSize(a: set<string>, b: set<string>)
    requires a <= b
    ensures |a| <= |b| && (a != b ==> |a| < |b|)
  {
    assert b == a + (b - a);
    if a != b {
      var x :| x in b - a;
    }
  }

  // ------------------------------------------------------------------- over whole runs

  lemma InMoodIsSound(m: Sessions, emotions: map<string, string>)
    requires Sound(m)
    ensures Sound(InMood(m, emotions))
  {
    assert forall k :: k in m ==> InMood(m, emotions)[k].pid == m[k].pid;
  }

  /** Over every run: each entry is stored under its own key, no process belongs to two
      sessions, and after each reconcile at most 16 sessions remain. */
  lemma {:induction false} TableStaysSound(c: Config, sessions: Sessions, last: Snapshot, h: seq<Timed>)
    requires Sound(sessions)
    ensures Sound(Run(c, sessions, last, h).sessions)
    ensures h != [] && h[|h| - 1].section.Reconcile? ==> |Run(c, sessions, last, h).sessions| <= MAX_TRACKED_SESSIONS
    decreases |h|
  {
    if h != [] {
      TableStaysSound(c, sessions, last, h[..|h| - 1]);
      StepSessions(c, Run(c, sessions, last, h[..|h| - 1]), h[|h| - 1]);
      StepIsSound(c, Run(c, sessions, last, h[..|h| - 1]), h[|h| - 1].section);
    }
  }

  lemma StepSessions(c: Config, s: State, x: Timed)
    ensures Step(c, s, x).sessions == NextSessions(c, s, x.section)
  {
  }

  lemma StepIsSound(c: Config, s: State, x: Section)
    requires Sound(s.sessions)
    ensures Sound(NextSessions(c, s, x))
    ensures x.Reconcile? ==> |NextSessions(c, s, x)| <= MAX_TRACKED_SESSIONS
  {
    match x
    case Apply(e) => AppliedIsSound(s.sessions, e, c.normalize);
    case Reconcile(now, alive) => ReconciledIsSound(s.sessions, now, alive);
    case Moods(emotions, _) => InMoodIsSound(s.sessions, emotions);
    case _ =>
  }

  /** Whatever a step did: if it ends by choosing what to show, the held snapshot then looks
      exactly like a fresh selection from the state it leaves behind. */
  lemma HeldIsFresh(c: Config, s: State, x: Timed)
    requires FinalizesAt(s, x.section).Some?
    ensures var r := Step(c, s, x);
      MateriallyEqual(r.stream.held, Shown(c.timeouts, r, FinalizesAt(s, x.section).value, x.clock))
  {
    Pending.ExpireTwice(c.timeouts, Changed(c, s, x).entries, x.clock, x.clock);
  }

  /** The snapshots a run chose to show. */
  ghost function Choices(c: Config, sessions: Sessions, last: Snapshot, h: seq<Timed>): seq<Snapshot> {
    if h == [] then []
    else
      var s, x := Run(c, sessions, last, h[..|h| - 1]), h[|h| - 1];
      Choices(c, sessions, last, h[..|h| - 1]) +
      match FinalizesAt(s, x.section)
      case None => []
      case Some(ts) => [Shown(c.timeouts, Changed(c, s, x), ts, x.clock)]
  }

  lemma {:induction false} StreamIsRun(c: Config, sessions: Sessions, last: Snapshot, h: seq<Timed>)
    ensures Run(c, sessions, last, h).stream == SnapshotStream.Run(last, Choices(c, sessions, last, h))
    decreases |h|
  {
    if h != [] {
      var g, x := h[..|h| - 1], h[|h| - 1];
      StreamIsRun(c, sessions, last, g);
      var s, before := Run(c, sessions, last, g), Choices(c, sessions, last, g);
      match FinalizesAt(s, x.section) {
        case None => assert Choices(c, sessions, last, h) == before;
        case Some(ts) =>
          var next := Shown(c.timeouts, Changed(c, s, x), ts, x.clock);
          assert (before + [next])[..|before|] == before;
      }
    }
  }

  /** Over every run, whatever the sessions and the queue do: published snapshots carry
      consecutive numbers, neighbours never look the same, and the history is the last 64. */
  lemma PublishedStreamIsSafe(c: Config, sessions: Sessions, last: Snapshot, h: seq<Timed>)
    ensures var s := Run(c, sessions, last, h).stream;
      && (forall i :: 0 <= i < |s.published| ==> s.published[i].seqNo == last.seqNo + 1 + i)
      && NoRepeats(last, s.published)
      && s.history == LastOf(s.published, RING_BUFFER_CAPACITY)
  {
    StreamIsRun(c, sessions, last, h);
    StreamSafety(last, Choices(c, sessions, last, h));
  }

  // ------------------------------------------------ the queue inside the agent is the queue

  ghost function Listed(ids: set<string>): (r: seq<string>)
    ensures Elements(r) == ids
    decreases |ids|
  {
    if ids == {} then []
    else
      var x := PickOne(ids);
      ElementsOfSnoc(Listed(ids - {x}), x);
      Listed(ids - {x}) + [x]
  }

  ghost function PickOne<T>(s: set<T>): (x: T)
    requires s != {}
    ensures x in s
  {
    var x :| x in s; x
  }

  lemma ElementsOfSnoc(s: seq<string>, x: string)
    ensures Elements(s + [x]) == Elements(s) + {x}
  {
  }

  function Clears(ids: seq<string>, clock: nat): seq<Pending.Timed> {
    if ids == [] then []
    else Clears(ids[..|ids| - 1], clock) + [Pending.Timed(Pending.ClearForSession(ids[|ids| - 1]), clock)]
  }

  /** The queue operations of a step up to the choice of what to show, and that choice's. */
  ghost function FirstOps(s: State, x: Section, clock: nat): seq<Pending.Timed> {
    match x
    case ClearPending(hook) => [Pending.Timed(Pending.ClearForEvent(hook), clock)]
    case Submit(item) => [Pending.Timed(Pending.Submit(item), clock)]
    case Apply(_) => Clears(Listed(Gone(s, x)), clock)
    case Reconcile(_, _) => Clears(Listed(Gone(s, x)), clock)
    case _ => []
  }

  function LastOps(s: State, x: Section, clock: nat): seq<Pending.Timed> {
    if FinalizesAt(s, x).Some? then [Pending.Timed(Pending.Current, clock)] else []
  }

  ghost function QueueRun(c: Config, sessions: Sessions, last: Snapshot, h: seq<Timed>): seq<Pending.Timed> {
    if h == [] then []
    else
      var s, x := Run(c, sessions, last, h[..|h| - 1]), h[|h| - 1];
      QueueRun(c, sessions, last, h[..|h| - 1]) + FirstOps(s, x.section, x.clock) + LastOps(s, x.section, x.clock)
  }

  lemma RunSnoc(t: Pending.Timeouts, ops: seq<Pending.Timed>, x: Pending.Timed)
    ensures Pending.Run(t, ops + [x]) == Pending.Step(t, Pending.Run(t, ops), x.op, x.now)
  {
    assert (ops + [x])[..|ops|] == ops;
  }

  lemma ApartFrom(entries: seq<Pending.Entry>, rest: seq<string>, id: string)
    ensures Pending.DropKilled(Pending.Filter(entries, Pending.Apart(Elements(rest))), Pending.ClearForSession(id)) ==
      Pending.Filter(entries, Pending.Apart(Elements(rest + [id])))
  {
    Pending.ClearIsApart(Pending.Filter(entries, Pending.Apart(Elements(rest))), id);
    Pending.ApartTwice(entries, Elements(rest), {id});
    ElementsOfSnoc(rest, id);
  }

  lemma ClearsLast(ids: seq<string>, clock: nat)
    requires ids != []
    ensures Clears(ids, clock) ==
      Clears(ids[..|ids| - 1], clock) + [Pending.Timed(Pending.ClearForSession(ids[|ids| - 1]), clock)]
  {
  }

  lemma RunClearsStep(t: Pending.Timeouts, ops: seq<Pending.Timed>, ids: seq<string>, clock: nat)
    requires ids != []
    ensures Pending.Run(t, ops + Clears(ids, clock)) ==
      Pending.DropKilled(Pending.Run(t, ops + Clears(ids[..|ids| - 1], clock)),
                         Pending.ClearForSession(ids[|ids| - 1]))
  {
    var clears, step := Clears(ids[..|ids| - 1], clock), Pending.Timed(Pending.ClearForSession(ids[|ids| - 1]), clock);
    ClearsLast(ids, clock);
    assert ops + (clears + [step]) == (ops + clears) + [step];
    RunSnoc(t, ops + clears, step);
  }

  lemma RunNoClears(t: Pending.Timeouts, ops: seq<Pending.Timed>, ids: seq<string>, clock: nat)
    requires ids == []
    ensures Pending.Run(t, ops + Clears(ids, clock)) ==
      Pending.Filter(Pending.Run(t, ops), Pending.Apart(Elements(ids)))
  {
    assert ops + Clears(ids, clock) == ops && Elements(ids) == {};
    Pending.FilterAll(Pending.Run(t, ops), Pending.Apart({}));
  }

  lemma {:induction false} RunClears(t: Pending.Timeouts, ops: seq<Pending.Timed>, ids: seq<string>, clock: nat)
    ensures Pending.Run(t, ops + Clears(ids, clock)) ==
      Pending.Filter(Pending.Run(t, ops), Pending.Apart(Elements(ids)))
    decreases |ids|
  {
    if ids == [] {
      RunNoClears(t, ops, ids, clock);
    } else {
      var rest, id := ids[..|ids| - 1], ids[|ids| - 1];
      RunClears(t, ops, rest, clock);
      RunClearsStep(t, ops, ids, clock);
      ApartFrom(Pending.Run(t, ops), rest, id);
      assert rest + [id] == ids;
    }
  }

  lemma FirstOpsRun(t: Pending.Timeouts, s: State, x: Section, clock: nat, ops: seq<Pending.Timed>)
    requires s.entries == Pending.Run(t, ops)
    ensures NextEntries(s, x, clock) == Pending.Run(t, ops + FirstOps(s, x, clock))
  {
    match x
    case ClearPending(hook) => RunSnoc(t, ops, Pending.Timed(Pending.ClearForEvent(hook), clock));
    case Submit(item) => RunSnoc(t, ops, Pending.Timed(Pending.Submit(item), clock));
    case Apply(_) => RunClears(t, ops, Listed(Gone(s, x)), clock);
    case Reconcile(_, _) => RunClears(t, ops, Listed(Gone(s, x)), clock);
    case _ => assert ops + [] == ops;
  }

  lemma StepEntries(c: Config, s: State, x: Timed, ops: seq<Pending.Timed>)
    requires NextEntries(s, x.section, x.clock) == Pending.Run(c.timeouts, ops)
    ensures Step(c, s, x).entries == Pending.Run(c.timeouts, ops + LastOps(s, x.section, x.clock))
  {
    if FinalizesAt(s, x.section).Some? {
      RunSnoc(c.timeouts, ops, Pending.Timed(Pending.Current, x.clock));
    } else {
      assert ops + [] == ops;
    }
  }

  /** The queue inside the agent behaves as a queue on its own, fed the run's operations. */
  lemma {:induction false} QueueIsRun(c: Config, sessions: Sessions, last: Snapshot, h: seq<Timed>)
    ensures Run(c, sessions, last, h).entries == Pending.Run(c.timeouts, QueueRun(c, sessions, last, h))
    decreases |h|
  {
    if h != [] {
      var g, x := h[..|h| - 1], h[|h| - 1];
      QueueIsRun(c, sessions, last, g);
      var s, ops := Run(c, sessions, last, g), QueueRun(c, sessions, last, g);
      FirstOpsRun(c.timeouts, s, x.section, x.clock, ops);
      StepEntries(c, s, x, ops + FirstOps(s, x.section, x.clock));
    }
  }

  predicate ClockForward(h: seq<Timed>) {
    forall i, j :: 0 <= i < j < |h| ==> h[i].clock <= h[j].clock
  }

  predicate AllAt(ops: seq<Pending.Timed>, clock: nat) {
    forall i :: 0 <= i < |ops| ==> ops[i].now == clock
  }

  lemma {:induction false} ClearsAt(ids: seq<string>, clock: nat)
    ensures AllAt(Clears(ids, clock), clock)
    decreases |ids|
  {
    if ids != [] {
      ClearsAt(ids[..|ids| - 1], clock);
    }
  }

  lemma FirstOpsAt(s: State, x: Section, clock: nat)
    ensures AllAt(FirstOps(s, x, clock), clock)
  {
    ClearsAt(Listed(Gone(s, x)), clock);
  }

  lemma ExtendClock(ops: seq<Pending.Timed>, more: seq<Pending.Timed>, clock: nat, now: nat)
    requires Pending.Monotone(ops) && Pending.After(ops, clock) && AllAt(more, clock) && clock <= now
    ensures Pending.Monotone(ops + more) && Pending.After(ops + more, now) && Pending.After(ops + more, clock)
  {
  }

  lemma {:induction false} QueueClock(c: Config, sessions: Sessions, last: Snapshot, h: seq<Timed>, now: nat)
    requires ClockForward(h) && (h != [] ==> h[|h| - 1].clock <= now)
    ensures Pending.Monotone(QueueRun(c, sessions, last, h)) && Pending.After(QueueRun(c, sessions, last, h), now)
    decreases |h|
  {
    if h != [] {
      var g, x := h[..|h| - 1], h[|h| - 1];
      QueueClock(c, sessions, last, g, x.clock);
      var s, ops := Run(c, sessions, last, g), QueueRun(c, sessions, last, g);
      FirstOpsAt(s, x.section, x.clock);
      ExtendClock(ops, FirstOps(s, x.section, x.clock), x.clock, now);
      ExtendClock(ops + FirstOps(s, x.section, x.clock), LastOps(s, x.section, x.clock), x.clock, now);
    }
  }

  /** After every step that chooses what to show, under a clock that never runs backwards,
      the held snapshot names the latest-submitted live approval of the whole run, else the
      latest-submitted live prompt, else nothing. */
  lemma HeldNamesTheFreshest(c: Config, sessions: Sessions, last: Snapshot, h: seq<Timed>, x: Timed)
    requires ClockForward(h + [x]) && FinalizesAt(Run(c, sessions, last, h), x.section).Some?
    ensures var ops, t := QueueRun(c, sessions, last, h + [x]), c.timeouts;
      var a, b := Pending.LatestLive(t, ops, |ops|, x.clock, true), Pending.LatestLive(t, ops, |ops|, x.clock, false);
      Run(c, sessions, last, h + [x]).stream.held.pending ==
        DisplayOf(if a.Some? then Some(ops[a.value].op.item) else if b.Some? then Some(ops[b.value].op.item) else None)
  {
    var all := h + [x];
    assert all[..|h|] == h && all[|all| - 1] == x;
    HeldIsFresh(c, Run(c, sessions, last, h), x);
    QueueIsRun(c, sessions, last, all);
    QueueClock(c, sessions, last, all, x.clock);
    Pending.AnswerIsFreshest(c.timeouts, QueueRun(c, sessions, last, all), x.clock);
  }

  // ------------------------------------------------------------ the sections, told plainly

  /** The session is found dead or aged, and its snapshot carries this session id. */
  predicate Forgets(m: Sessions, now: nat, alive: set<nat>, k: string, id: string) {
    k in m && m[k].snapshot.sessionId == id && (DiedOrSilent(m[k], now, alive) || Aged(m[k], now))
  }

  /** Which interactions a reconcile forgets: those of a session found dead or aged; all
      others stay queued. */
  lemma ReconcileForgets(s: State, now: nat, alive: set<nat>, clock: nat, x: Pending.Entry)
    requires x in s.entries
    ensures x !in NextEntries(s, Reconcile(now, alive), clock) <==>
      exists k :: Forgets(s.sessions, now, alive, k, x.item.session)
  {
    GoneExactly(s, now, alive, x.item.session);
  }

  /** Shown as active, but its process is gone, or it has none and was silent too long. */
  predicate DiedOrSilent(s: Session, now: nat, alive: set<nat>) {
    && s.snapshot.status in {"waiting_for_input", "running_tool", "processing", "compacting"}
    && if s.pid.Some? then s.pid.value !in alive else now >= s.lastActivity + 900
  }

  /** Ended five minutes ago, or idle for half an hour. */
  predicate Aged(s: Session, now: nat) {
    && s.snapshot.status !in {"waiting_for_input", "running_tool", "processing", "compacting"}
    && now >= s.lastActivity + (if s.snapshot.status == "ended" then 300 else 1800)
  }

  lemma AgedMeans(s: Session, now: nat, alive: set<nat>)
    ensures LivenessLost(s, now, alive) <==> DiedOrSilent(s, now, alive)
    ensures ShouldPrune(Reviewed(s, now, alive), now) <==> Aged(s, now)
    ensures Reviewed(s, now, alive).snapshot.sessionId == s.snapshot.sessionId
  {
  }

  lemma GoneExactly(s: State, now: nat, alive: set<nat>, id: string)
    ensures id in Gone(s, Reconcile(now, alive)) <==> exists k :: Forgets(s.sessions, now, alive, k, id)
  {
    var m, marked := s.sessions, Marked(s.sessions, now, alive);
    forall k | k in m
      ensures k in marked && (LivenessLost(m[k], now, alive) <==> DiedOrSilent(m[k], now, alive))
      ensures ShouldPrune(marked[k], now) <==> Aged(m[k], now)
      ensures marked[k].snapshot.sessionId == m[k].snapshot.sessionId
    {
      AgedMeans(m[k], now, alive);
    }
    if k :| Forgets(m, now, alive, k, id) {
      assert k in m && k in marked && (LivenessLost(m[k], now, alive) || ShouldPrune(marked[k], now));
    }
    if id in Gone(s, Reconcile(now, alive)) {
      var k :| k in m && m[k].snapshot.sessionId == id &&
        (LivenessLost(m[k], now, alive) || ShouldPrune(marked[k], now));
      assert Forgets(m, now, alive, k, id);
    }
  }

  /** Which interactions an event forgets: those of the other sessions of its process. */
  lemma EventForgets(s: State, e: Event, clock: nat, x: Pending.Entry)
    requires x in s.entries
    ensures x !in NextEntries(s, Apply(e), clock) <==>
      exists k :: k in s.sessions && s.sessions[k].snapshot.sessionId == x.item.session &&
        k != SessionKey(e) && e.pid.Some? && s.sessions[k].pid == e.pid
  {
  }

  /** Moods change the emotion of the sessions they name and nothing else. */
  lemma MoodsChangeOnlyEmotions(m: Sessions, emotions: map<string, string>, k: string)
    ensures k in InMood(m, emotions) <==> k in m
    ensures k in m ==> var r := InMood(m, emotions)[k];
      && r.snapshot.emotion == (if k in emotions then emotions[k] else m[k].snapshot.emotion)
      && r.(snapshot := m[k].snapshot) == m[k]
      && r.snapshot.(emotion := m[k].snapshot.emotion) == m[k].snapshot
  {
  }

  /** After an event, a reconcile and a refresh, and after moods that change something, what
      the agent holds is the session selected then, with the queue's answer, as far as the
      device shows it; a cleared or submitted interaction alone changes nothing held. */
  lemma HeldAfterEach(c: Config, s: State, x: Timed)
    ensures var r := Step(c, s, x); var held := Unstamped(r.stream.held);
      match x.section
      case Apply(e) => held == Unstamped(Shown(c.timeouts, r, e.recvTs, x.clock))
      case Reconcile(now, _) => held == Unstamped(Shown(c.timeouts, r, now, x.clock))
      case Refresh(ts) => held == Unstamped(Shown(c.timeouts, r, ts, x.clock))
      case Moods(emotions, ts) =>
        if forall k :: k in s.sessions && k in emotions ==> s.sessions[k].snapshot.emotion == emotions[k]
        then r.stream == s.stream && r.sessions == s.sessions
        else held == Unstamped(Shown(c.timeouts, r, ts, x.clock))
      case ClearPending(_) => r.stream == s.stream && r.sessions == s.sessions
      case Submit(_) => r.stream == s.stream && r.sessions == s.sessions
  {
    if x.section.Moods? {
      MoodsNothing(s.sessions, x.section.emotions);
    }
    if FinalizesAt(s, x.section).Some? {
      HeldIsFresh(c, s, x);
      MateriallyEqualMeans(Step(c, s, x).stream.held,
                           Shown(c.timeouts, Step(c, s, x), FinalizesAt(s, x.section).value, x.clock));
    }
  }

  lemma MoodsNothing(m: Sessions, emotions: map<string, string>)
    ensures InMood(m, emotions) == m <==>
      forall k :: k in m && k in emotions ==> m[k].snapshot.emotion == emotions[k]
  {
    var r := InMood(m, emotions);
    if r == m {
      forall k | k in m && k in emotions
        ensures m[k].snapshot.emotion == emotions[k]
      {
        assert r[k].snapshot.emotion == emotions[k];
      }
    } else {
      var k :| k in m && r[k] != m[k];
      assert m[k].snapshot.emotion != emotions[k];
    }
  }

  /** What the device is told of an interaction: whether it is an approval or a prompt, and
      of what sort; the label of a tool not listed says no more than that it is a tool. */
  lemma LabelsOfTools(item: Pending.Item, tool: string)
    ensures DisplayOf(None) == None
    ensures item.interaction == Pending.Approval(tool) ==>
      DisplayOf(Some(item)) == Some(PendingDisplay("approval",
        if tool == "Bash" then "Bash command" else CoarseType(item)))
      && (tool in {"Edit", "Write", "MultiEdit", "NotebookEdit"} <==> CoarseType(item) == "File edit")
      && (tool in {"Read", "NotebookRead"} <==> CoarseType(item) == "File read")
      && (tool in {"Glob", "Grep", "LS"} <==> CoarseType(item) == "File search")
      && (tool in {"WebFetch", "WebSearch"} <==> CoarseType(item) == "Web request")
      && (tool == "Task" <==> CoarseType(item) == "Subagent task")
      && (tool == "Bash" <==> CoarseType(item) == "Bash command")
    ensures item.interaction.Prompt? ==> DisplayOf(Some(item)) == Some(PendingDisplay("prompt",
      if item.interaction.prompt.kind == Pending.Elicitation then "Input request" else "Question"))
  {
  }
}

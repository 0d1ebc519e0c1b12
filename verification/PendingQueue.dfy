/** The queue of interactions that wait for the user (pending.rs): which of them the
    device's single slot shows. */
module PendingQueue {
  import opened Options

  datatype PromptKind = Elicitation | AskUserQuestion
  datatype WaitingPrompt = WaitingPrompt(kind: PromptKind, title: string, question: string, options: seq<string>)
  datatype Interaction = Approval(toolName: string) | Prompt(prompt: WaitingPrompt)
  datatype Item = Item(id: string, session: string, toolUseId: Option<string>, interaction: Interaction)

  /** The part of a hook event the queue looks at. */
  datatype HookEvent = HookEvent(session: string, name: string, toolName: Option<string>, toolUseId: Option<string>,
                                 prompt: Option<WaitingPrompt>)

  datatype Timeouts = Timeouts(approval: nat, elicitation: nat, question: nat)
  datatype Entry = Entry(created: nat, item: Item)

  predicate IsApproval(item: Item) { item.interaction.Approval? }

  function Timeout(t: Timeouts, item: Item): nat {
    match item.interaction
    case Approval(_) => t.approval
    case Prompt(p) => if p.kind.Elicitation? then t.elicitation else t.question
  }

  /** Elapsed time saturates at zero. */
  predicate Expired(t: Timeouts, e: Entry, now: nat) {
    now > e.created && now - e.created > Timeout(t, e.item)
  }

  /** event_clears. */
  predicate EventClears(item: Item, e: HookEvent) {
    if item.session == "" || item.session != e.session || e.name == "Notification" then false
    else
      match item.interaction
      case Approval(_) =>
        e.name != "PermissionRequest" &&
        (item.toolUseId.Some? && e.toolUseId.Some? ==> item.toolUseId == e.toolUseId)
      case Prompt(p) =>
        if p.kind.AskUserQuestion? && e.name == "PreToolUse" && e.toolName == Some("AskUserQuestion") &&
          item.toolUseId == e.toolUseId
        then e.prompt != Some(p)
        else if p.kind.Elicitation? && e.name == "Elicitation" then e.prompt != Some(p)
        else true
  }

  datatype Op = Submit(item: Item) | ClearForEvent(event: HookEvent) | ClearForSession(session: string) | Current

  /** An operation and the clock when it runs. */
  datatype Timed = Timed(op: Op, now: nat)

  /** Whether an operation takes a queued item away (expiry aside). */
  predicate Kills(op: Op, item: Item) {
    match op
    case Submit(other) => other.id == item.id
    case ClearForEvent(e) => EventClears(item, e)
    case ClearForSession(s) => item.session == s
    case Current => false
  }

  // --------------------------------------------------------------- the queue's steps

  /** What a sweep over the entries keeps. */
  datatype Rule = Fresh(t: Timeouts, now: nat) | Spared(op: Op) | Cleared(event: HookEvent) | Apart(gone: set<string>)
    | Both(p: Rule, q: Rule)

  predicate Keeps(rule: Rule, e: Entry) {
    match rule
    case Fresh(t, now) => !Expired(t, e, now)
    case Spared(op) => !Kills(op, e.item)
    case Cleared(event) => EventClears(e.item, event)
    case Apart(gone) => e.item.session !in gone
    case Both(p, q) => Keeps(p, e) && Keeps(q, e)
  }

  function Filter(entries: seq<Entry>, keep: Rule): (r: seq<Entry>)
    ensures forall e :: e in r <==> e in entries && Keeps(keep, e)
  {
    if entries == [] then []
    else
      var rest, last := entries[..|entries| - 1], entries[|entries| - 1];
      assert entries == rest + [last];
      Filter(rest, keep) + (if Keeps(keep, last) then [last] else [])
  }

  function DropExpired(t: Timeouts, entries: seq<Entry>, now: nat): seq<Entry> {
    Filter(entries, Fresh(t, now))
  }

  function DropKilled(entries: seq<Entry>, op: Op): seq<Entry> {
    Filter(entries, Spared(op))
  }

  /** The code: only `current` looks at the clock. */
  function Step(t: Timeouts, entries: seq<Entry>, op: Op, now: nat): seq<Entry> {
    match op
    case Submit(item) => DropKilled(entries, op) + [Entry(now, item)]
    case Current => DropExpired(t, entries, now)
    case _ => DropKilled(entries, op)
  }

  function Run(t: Timeouts, h: seq<Timed>): seq<Entry> {
    if h == [] then [] else Step(t, Run(t, h[..|h| - 1]), h[|h| - 1].op, h[|h| - 1].now)
  }

  /** The queue a clock-driven implementation would keep: expired entries go at every step. */
  function EagerRun(t: Timeouts, h: seq<Timed>): seq<Entry> {
    if h == [] then []
    else Step(t, DropExpired(t, EagerRun(t, h[..|h| - 1]), h[|h| - 1].now), h[|h| - 1].op, h[|h| - 1].now)
  }

  function LastApproval(entries: seq<Entry>): Option<Item> {
    if entries == [] then None
    else if IsApproval(entries[|entries| - 1].item) then Some(entries[|entries| - 1].item)
    else LastApproval(entries[..|entries| - 1])
  }

  /** The freshest approval, else the freshest prompt. */
  function Pick(entries: seq<Entry>): Option<Item> {
    if LastApproval(entries).Some? then LastApproval(entries)
    else if entries == [] then None else Some(entries[|entries| - 1].item)
  }

  function Answer(t: Timeouts, entries: seq<Entry>, now: nat): Option<Item> {
    Pick(DropExpired(t, entries, now))
  }

  // ------------------------------------------------------- the queue in its own form

  class Queue {
    const timeouts: Timeouts
    /** Oldest first. */
    var entries: seq<Entry>

    constructor (timeouts: Timeouts)
      ensures this.timeouts == timeouts && entries == []
    {
      this.timeouts := timeouts;
      entries := [];
    }

    /** Vec::retain. */
    method Retain(keep: Rule)
      modifies this
      ensures entries == Filter(old(entries), keep)
    {
      var kept := [];
      for i := 0 to |entries|
        invariant entries == old(entries)
        invariant kept == Filter(entries[..i], keep)
      {
        FilterSnoc(entries[..i], entries[i], keep);
        assert entries[..i + 1] == entries[..i] + [entries[i]];
        if Keeps(keep, entries[i]) {
          kept := kept + [entries[i]];
        }
      }
      assert entries[..|entries|] == entries;
      entries := kept;
    }

    method SubmitItem(item: Item, now: nat)
      modifies this
      ensures entries == Step(timeouts, old(entries), Submit(item), now)
    {
      Retain(Spared(Submit(item)));
      entries := entries + [Entry(now, item)];
    }

    /** Returns the ids of what the event resolved, oldest first. */
    method ClearEvent(event: HookEvent) returns (cleared: seq<string>)
      modifies this
      ensures entries == DropKilled(old(entries), ClearForEvent(event))
      ensures cleared == Ids(Filter(old(entries), Cleared(event)))
    {
      cleared := [];
      for i := 0 to |entries|
        invariant entries == old(entries)
        invariant cleared == Ids(Filter(entries[..i], Cleared(event)))
      {
        FilterSnoc(entries[..i], entries[i], Cleared(event));
        assert entries[..i + 1] == entries[..i] + [entries[i]];
        if EventClears(entries[i].item, event) {
          IdsSnoc(Filter(entries[..i], Cleared(event)), entries[i]);
          cleared := cleared + [entries[i].item.id];
        }
      }
      assert entries[..|entries|] == entries;
      Retain(Spared(ClearForEvent(event)));
    }

    method ClearSession(session: string)
      modifies this
      ensures entries == DropKilled(old(entries), ClearForSession(session))
    {
      Retain(Spared(ClearForSession(session)));
    }

    /** Drops what has expired, then searches from the freshest entry. */
    method CurrentItem(now: nat) returns (item: Option<Item>)
      modifies this
      ensures entries == Step(timeouts, old(entries), Current, now)
      ensures item == Answer(timeouts, old(entries), now)
    {
      Retain(Fresh(timeouts, now));
      var i := |entries|;
      assert entries[..i] == entries;
      while i > 0
        invariant 0 <= i <= |entries| && entries == DropExpired(timeouts, old(entries), now)
        invariant LastApproval(entries) == LastApproval(entries[..i])
      {
        i := i - 1;
        assert entries[..i + 1][..i] == entries[..i];
        if IsApproval(entries[i].item) {
          return Some(entries[i].item);
        }
      }
      item := if entries == [] then None else Some(entries[|entries| - 1].item);
    }
  }

  function Ids(entries: seq<Entry>): (ids: seq<string>)
    ensures |ids| == |entries|
  {
    seq(|entries|, i requires 0 <= i < |entries| => entries[i].item.id)
  }

  lemma IdsSnoc(entries: seq<Entry>, e: Entry)
    ensures Ids(entries + [e]) == Ids(entries) + [e.item.id]
  {
  }

  // ------------------------------------------------------------------ filter facts

  lemma FilterSnoc(entries: seq<Entry>, x: Entry, keep: Rule)
    ensures Filter(entries + [x], keep) == Filter(entries, keep) + (if Keeps(keep, x) then [x] else [])
  {
    assert (entries + [x])[..|entries|] == entries;
  }

  lemma {:induction false} FilterSame(entries: seq<Entry>, p: Rule, q: Rule)
    requires forall e :: e in entries ==> Keeps(p, e) == Keeps(q, e)
    ensures Filter(entries, p) == Filter(entries, q)
    decreases |entries|
  {
    if entries != [] {
      FilterSame(entries[..|entries| - 1], p, q);
    }
  }

  lemma FilterLast(entries: seq<Entry>, p: Rule)
    requires entries != []
    ensures var u, x := entries[..|entries| - 1], entries[|entries| - 1];
      Filter(entries, p) == if Keeps(p, x) then Filter(u, p) + [x] else Filter(u, p)
  {
  }

  lemma {:induction false} FilterTwice(entries: seq<Entry>, p: Rule, q: Rule)
    ensures Filter(Filter(entries, p), q) == Filter(entries, Both(p, q))
    decreases |entries|
  {
    if entries != [] {
      var u, x := entries[..|entries| - 1], entries[|entries| - 1];
      FilterTwice(u, p, q);
      FilterLast(entries, p);
      FilterLast(entries, Both(p, q));
      if Keeps(p, x) {
        FilterSnoc(Filter(u, p), x, q);
      }
    }
  }

  lemma FilterCommutes(entries: seq<Entry>, p: Rule, q: Rule)
    ensures Filter(Filter(entries, p), q) == Filter(Filter(entries, q), p)
  {
    FilterTwice(entries, p, q);
    FilterTwice(entries, q, p);
    FilterSame(entries, Both(p, q), Both(q, p));
  }

  /** Dropping the entries of some sessions and then of others. */
  lemma ApartTwice(entries: seq<Entry>, a: set<string>, b: set<string>)
    ensures Filter(Filter(entries, Apart(a)), Apart(b)) == Filter(entries, Apart(a + b))
  {
    FilterTwice(entries, Apart(a), Apart(b));
    forall e
      ensures Keeps(Both(Apart(a), Apart(b)), e) == Keeps(Apart(a + b), e)
    {
      KeepsApart(e, a, b);
    }
    FilterSame(entries, Both(Apart(a), Apart(b)), Apart(a + b));
  }

  lemma KeepsApart(e: Entry, a: set<string>, b: set<string>)
    ensures Keeps(Both(Apart(a), Apart(b)), e) == Keeps(Apart(a + b), e)
  {
  }

  lemma ClearIsApart(entries: seq<Entry>, session: string)
    ensures DropKilled(entries, ClearForSession(session)) == Filter(entries, Apart({session}))
  {
    FilterSame(entries, Spared(ClearForSession(session)), Apart({session}));
  }

  /** Once expired, always expired: an earlier sweep makes no difference to a later one. */
  lemma ExpireTwice(t: Timeouts, entries: seq<Entry>, early: nat, late: nat)
    requires early <= late
    ensures DropExpired(t, DropExpired(t, entries, early), late) == DropExpired(t, entries, late)
  {
    var p, q := Fresh(t, early), Fresh(t, late);
    FilterTwice(entries, p, q);
    FilterSame(entries, Both(p, q), q);
  }

  // -------------------------------------------------------------- lazy equals eager

  /** The clock never runs backwards. */
  predicate Monotone(h: seq<Timed>) {
    forall i, j :: 0 <= i < j < |h| ==> h[i].now <= h[j].now
  }

  predicate After(h: seq<Timed>, now: nat) {
    forall i :: 0 <= i < |h| ==> h[i].now <= now
  }

  lemma StepSwept(t: Timeouts, a: seq<Entry>, b: seq<Entry>, op: Op, at: nat, now: nat)
    requires at <= now && DropExpired(t, a, now) == DropExpired(t, b, now)
    ensures DropExpired(t, Step(t, a, op, at), now) == DropExpired(t, Step(t, b, op, at), now)
  {
    var live, safe := Fresh(t, now), Spared(op);
    FilterCommutes(a, safe, live);
    FilterCommutes(b, safe, live);
    match op
    case Submit(item) =>
      FilterSnoc(Filter(a, safe), Entry(at, item), live);
      FilterSnoc(Filter(b, safe), Entry(at, item), live);
    case Current =>
      ExpireTwice(t, a, at, now);
      ExpireTwice(t, b, at, now);
    case ClearForEvent(_) =>
    case ClearForSession(_) =>
  }

  /** Dropping expired entries only inside `current` gives the same answers, at any time
      after any run, as dropping them at every step. */
  lemma {:induction false} LazyEqualsEager(t: Timeouts, h: seq<Timed>, now: nat)
    requires Monotone(h) && After(h, now)
    ensures DropExpired(t, Run(t, h), now) == DropExpired(t, EagerRun(t, h), now)
    ensures Answer(t, Run(t, h), now) == Answer(t, EagerRun(t, h), now)
    decreases |h|
  {
    if h != [] {
      var g, x := h[..|h| - 1], h[|h| - 1];
      LazyEqualsEager(t, g, now);
      ExpireTwice(t, EagerRun(t, g), x.now, now);
      StepSwept(t, Run(t, g), DropExpired(t, EagerRun(t, g), x.now), x.op, x.now, now);
    }
  }

  // ------------------------------------------------------- what the answer means

  /** The i-th operation submitted an interaction that is still waiting at `now`: nothing
      later took it away and it has not timed out. */
  ghost predicate Live(t: Timeouts, h: seq<Timed>, i: nat, now: nat)
    requires i < |h|
  {
    && h[i].op.Submit?
    && (forall j :: i < j < |h| ==> !Kills(h[j].op, h[i].op.item))
    && !Expired(t, Entry(h[i].now, h[i].op.item), now)
  }

  /** The live submissions among the first n operations of h, in order. */
  ghost function LiveEntries(t: Timeouts, h: seq<Timed>, n: nat, now: nat): seq<Entry>
    requires n <= |h|
  {
    if n == 0 then []
    else
      var last := h[n - 1];
      LiveEntries(t, h, n - 1, now) + (if Live(t, h, n - 1, now) then [Entry(last.now, last.op.item)] else [])
  }

  lemma LiveSnoc(t: Timeouts, g: seq<Timed>, x: Timed, i: nat, now: nat)
    requires i < |g|
    ensures Live(t, g + [x], i, now) <==> Live(t, g, i, now) && !Kills(x.op, g[i].op.item)
  {
    var h := g + [x];
    assert h[|g|] == x;
    assert forall j :: 0 <= j < |g| ==> h[j] == g[j];
  }

  lemma LiveEntriesSame(t: Timeouts, h: seq<Timed>, n: nat, now: nat)
    requires 0 < n <= |h| && !Live(t, h, n - 1, now)
    ensures LiveEntries(t, h, n, now) == LiveEntries(t, h, n - 1, now)
  {
  }

  lemma LiveEntriesMore(t: Timeouts, h: seq<Timed>, n: nat, now: nat)
    requires 0 < n <= |h| && Live(t, h, n - 1, now)
    ensures LiveEntries(t, h, n, now) == LiveEntries(t, h, n - 1, now) + [Entry(h[n - 1].now, h[n - 1].op.item)]
  {
  }

  lemma {:induction false} LiveEntriesSnoc(t: Timeouts, g: seq<Timed>, x: Timed, n: nat, now: nat)
    requires n <= |g|
    ensures LiveEntries(t, g + [x], n, now) == DropKilled(LiveEntries(t, g, n, now), x.op)
  {
    if n > 0 {
      LiveEntriesSnoc(t, g, x, n - 1, now);
      LiveSnoc(t, g, x, n - 1, now);
      assert (g + [x])[n - 1] == g[n - 1];
      if Live(t, g, n - 1, now) {
        FilterSnoc(LiveEntries(t, g, n - 1, now), Entry(g[n - 1].now, g[n - 1].op.item), Spared(x.op));
        LiveEntriesMore(t, g, n, now);
      } else {
        LiveEntriesSame(t, g, n, now);
        LiveEntriesSame(t, g + [x], n, now);
      }
    }
  }

  lemma StepIsLive(t: Timeouts, g: seq<Timed>, x: Timed, entries: seq<Entry>, now: nat)
    requires x.now <= now && DropExpired(t, entries, now) == LiveEntries(t, g, |g|, now)
    ensures DropExpired(t, Step(t, entries, x.op, x.now), now) == LiveEntries(t, g + [x], |g| + 1, now)
  {
    var live, safe := Fresh(t, now), Spared(x.op);
    LiveEntriesSnoc(t, g, x, |g|, now);
    FilterCommutes(entries, safe, live);
    assert (g + [x])[|g|] == x;
    if x.op.Submit? {
      FilterSnoc(Filter(entries, safe), Entry(x.now, x.op.item), live);
    } else {
      assert LiveEntries(t, g + [x], |g| + 1, now) == LiveEntries(t, g + [x], |g|, now);
      if x.op.Current? {
        ExpireTwice(t, entries, x.now, now);
        FilterAll(LiveEntries(t, g, |g|, now), safe);
      }
    }
  }

  /** After any run, the unexpired queue is exactly the live submissions, in order. */
  lemma {:induction false} QueueIsLive(t: Timeouts, h: seq<Timed>, now: nat)
    requires Monotone(h) && After(h, now)
    ensures DropExpired(t, Run(t, h), now) == LiveEntries(t, h, |h|, now)
    decreases |h|
  {
    if h != [] {
      var g, x := h[..|h| - 1], h[|h| - 1];
      assert h == g + [x];
      QueueIsLive(t, g, now);
      StepIsLive(t, g, x, Run(t, g), now);
    }
  }

  lemma {:induction false} FilterAll(entries: seq<Entry>, keep: Rule)
    requires forall e :: e in entries ==> Keeps(keep, e)
    ensures Filter(entries, keep) == entries
    decreases |entries|
  {
    if entries != [] {
      var u, x := entries[..|entries| - 1], entries[|entries| - 1];
      assert entries == u + [x];
      assert x in entries && forall e :: e in u ==> e in entries;
      FilterAll(u, keep);
      FilterSnoc(u, x, keep);
    }
  }

  /** The latest live submission among the first n, of approvals only or of any kind. */
  ghost function LatestLive(t: Timeouts, h: seq<Timed>, n: nat, now: nat, approvalsOnly: bool): (r: Option<nat>)
    requires n <= |h|
    ensures r.Some? ==> r.value < n && Live(t, h, r.value, now) && (approvalsOnly ==> IsApproval(h[r.value].op.item))
    ensures forall j :: (if r.Some? then r.value else -1) < j < n && Live(t, h, j, now) ==>
      approvalsOnly && !IsApproval(h[j].op.item)
  {
    if n == 0 then None
    else if Live(t, h, n - 1, now) && (approvalsOnly ==> IsApproval(h[n - 1].op.item)) then Some(n - 1)
    else LatestLive(t, h, n - 1, now, approvalsOnly)
  }

  function ItemAt(h: seq<Timed>, i: Option<nat>): Option<Item> {
    if i.Some? && i.value < |h| && h[i.value].op.Submit? then Some(h[i.value].op.item) else None
  }

  /** Among these entries, submission a is the freshest approval and b the freshest entry. */
  ghost predicate Freshest(h: seq<Timed>, entries: seq<Entry>, a: Option<nat>, b: Option<nat>) {
    && LastApproval(entries) == ItemAt(h, a)
    && (if entries == [] then None else Some(entries[|entries| - 1].item)) == ItemAt(h, b)
  }

  lemma FreshestSnoc(h: seq<Timed>, entries: seq<Entry>, a: Option<nat>, b: Option<nat>, i: nat)
    requires Freshest(h, entries, a, b) && i < |h| && h[i].op.Submit?
    ensures var item := h[i].op.item;
      Freshest(h, entries + [Entry(h[i].now, item)], if IsApproval(item) then Some(i) else a, Some(i))
  {
    LastApprovalSnoc(entries, Entry(h[i].now, h[i].op.item));
  }

  lemma {:induction false} PickIsLatest(t: Timeouts, h: seq<Timed>, n: nat, now: nat)
    requires n <= |h|
    ensures Freshest(h, LiveEntries(t, h, n, now), LatestLive(t, h, n, now, true), LatestLive(t, h, n, now, false))
  {
    if n > 0 {
      PickIsLatest(t, h, n - 1, now);
      if Live(t, h, n - 1, now) {
        FreshestSnoc(h, LiveEntries(t, h, n - 1, now), LatestLive(t, h, n - 1, now, true),
                     LatestLive(t, h, n - 1, now, false), n - 1);
      } else {
        LiveEntriesSame(t, h, n, now);
      }
    }
  }

  lemma LastApprovalSnoc(entries: seq<Entry>, e: Entry)
    ensures LastApproval(entries + [e]) == if IsApproval(e.item) then Some(e.item) else LastApproval(entries)
  {
    assert (entries + [e])[..|entries|] == entries;
  }

  /** The answer over every run: the latest-submitted live approval, else the
      latest-submitted live prompt, else nothing. */
  lemma AnswerIsFreshest(t: Timeouts, h: seq<Timed>, now: nat)
    requires Monotone(h) && After(h, now)
    ensures var a, b := LatestLive(t, h, |h|, now, true), LatestLive(t, h, |h|, now, false);
      Answer(t, Run(t, h), now) ==
        if a.Some? then Some(h[a.value].op.item) else if b.Some? then Some(h[b.value].op.item) else None
  {
    QueueIsLive(t, h, now);
    PickIsLatest(t, h, |h|, now);
  }

  // ----------------------------------------------------------------- further safety

  predicate UniqueIds(entries: seq<Entry>) {
    forall i, j :: 0 <= i < j < |entries| ==> entries[i].item.id != entries[j].item.id
  }

  lemma {:induction false} FilterUnique(entries: seq<Entry>, keep: Rule)
    requires UniqueIds(entries)
    ensures UniqueIds(Filter(entries, keep))
    decreases |entries|
  {
    if entries != [] {
      var u, x := entries[..|entries| - 1], entries[|entries| - 1];
      FilterUnique(u, keep);
      forall e | e in Filter(u, keep)
        ensures e.item.id != x.item.id
      {
        assert e in u;
        var i :| 0 <= i < |u| && u[i] == e;
        assert entries[i] == e;
      }
    }
  }

  /** No id is ever queued twice. */
  lemma {:induction false} IdsStayUnique(t: Timeouts, h: seq<Timed>)
    ensures UniqueIds(Run(t, h))
    decreases |h|
  {
    if h != [] {
      var g, x := h[..|h| - 1], h[|h| - 1];
      IdsStayUnique(t, g);
      FilterUnique(Run(t, g), Spared(x.op));
      FilterUnique(Run(t, g), Fresh(t, x.now));
      if x.op.Submit? {
        var kept := DropKilled(Run(t, g), x.op);
        forall i | 0 <= i < |kept|
          ensures kept[i].item.id != x.op.item.id
        {
          assert kept[i] in kept;
        }
      }
    }
  }

  /** An event only ever takes entries of its own, named session, and neither a
      notification nor the very wait event that queued a prompt takes anything. */
  lemma EventClearsOwnSessionOnly(t: Timeouts, entries: seq<Entry>, event: HookEvent, now: nat, e: Entry)
    requires e in entries
    requires e.item.session != event.session || e.item.session == "" || event.name == "Notification" ||
      (e.item.interaction.Prompt? && event.prompt == Some(e.item.interaction.prompt) &&
        e.item.toolUseId == event.toolUseId &&
        (if e.item.interaction.prompt.kind.Elicitation? then event.name == "Elicitation"
         else event.name == "PreToolUse" && event.toolName == Some("AskUserQuestion")))
    ensures e in Step(t, entries, ClearForEvent(event), now)
  {
  }

  // -------------------------------------------------------- what is taken, told plainly

  /** Which approvals outlive an event: those of other sessions, of none, and all of them if
      the event is a notification or asks for a permission itself; and those for another
      tool call than the one the event names. */
  lemma ApprovalOutlives(entries: seq<Entry>, e: HookEvent, x: Entry)
    requires x in entries && x.item.interaction.Approval?
    ensures x in DropKilled(entries, ClearForEvent(e)) <==>
      || x.item.session == "" || x.item.session != e.session
      || e.name in {"Notification", "PermissionRequest"}
      || (x.item.toolUseId.Some? && e.toolUseId.Some? && x.item.toolUseId.value != e.toolUseId.value)
  {
  }

  /** Which prompts outlive an event: those of other sessions, of none, all of them if the
      event is a notification, and the one that the event asks again. */
  lemma PromptOutlives(entries: seq<Entry>, e: HookEvent, x: Entry)
    requires x in entries && x.item.interaction.Prompt?
    ensures x in DropKilled(entries, ClearForEvent(e)) <==>
      || x.item.session == "" || x.item.session != e.session || e.name == "Notification"
      || (e.prompt == Some(x.item.interaction.prompt) &&
          match x.item.interaction.prompt.kind
          case Elicitation => e.name == "Elicitation"
          case AskUserQuestion =>
            e.name == "PreToolUse" && e.toolName == Some("AskUserQuestion") && e.toolUseId == x.item.toolUseId)
  {
  }

  /** An entry is answered for as long as its own kind allows, the last second included. */
  lemma OutlivesClock(t: Timeouts, entries: seq<Entry>, now: nat, x: Entry)
    requires x in entries
    ensures x in DropExpired(t, entries, now) <==>
      match x.item.interaction
      case Approval(_) => now <= x.created + t.approval
      case Prompt(p) => now <= x.created + (if p.kind == Elicitation then t.elicitation else t.question)
  {
  }

  /** A submission replaces what has its id and nothing else; clearing a session takes what
      belongs to it and nothing else. */
  lemma OutlivesSubmitAndClear(entries: seq<Entry>, x: Entry, item: Item, session: string)
    requires x in entries
    ensures x in DropKilled(entries, Submit(item)) <==> x.item.id != item.id
    ensures x in DropKilled(entries, ClearForSession(session)) <==> x.item.session != session
  {
  }
}

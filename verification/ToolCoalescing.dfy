/** Holding back PreToolUse events (agent.rs, ingest): an event waits until its flush
    timer, the next event, or the matching PostToolUse that makes it superfluous. */
module ToolCoalescing {
  import opened Options

  datatype Event = Event(name: string, toolUseId: Option<string>, body: string)

  predicate IsPre(e: Event) { e.name == "PreToolUse" }
  predicate IsPost(e: Event) { e.name == "PostToolUse" || e.name == "PostToolUseFailure" }

  /** The event finishes the tool call that `pre` started. */
  predicate Finishes(e: Event, pre: Event) {
    IsPost(e) && e.toolUseId.Some? && e.toolUseId == pre.toolUseId
  }

  datatype Held = Held(generation: nat, event: Event)

  /** `processed` lists what reached process_event, in order. */
  datatype State = State(pending: Option<Held>, generation: nat, processed: seq<Event>)

  /** Ingest calls and timer firings are atomic; any timer may fire at any time. */
  datatype Action = Ingest(event: Event) | Fire(generation: nat)

  const START: State := State(None, 0, [])

  function HeldEvents(s: State): seq<Event> {
    if s.pending.Some? then [s.pending.value.event] else []
  }

  function Flush(s: State): State {
    s.(pending := None, processed := s.processed + HeldEvents(s))
  }

  function Process(s: State, e: Event): State {
    s.(processed := s.processed + [e])
  }

  function Step(s: State, a: Action): State {
    match a
    case Fire(g) => if s.pending.Some? && s.pending.value.generation == g then Flush(s) else s
    case Ingest(e) =>
      if IsPre(e) then
        var f := Flush(s);
        f.(generation := s.generation + 1, pending := Some(Held(s.generation + 1, e)))
      else if IsPost(e) && s.pending.Some? && Finishes(e, s.pending.value.event) then Process(s.(pending := None), e)
      else Process(Flush(s), e)
  }

  function Run(acts: seq<Action>): State {
    if acts == [] then START else Step(Run(acts[..|acts| - 1]), acts[|acts| - 1])
  }

  // -------------------------------------------------------- the code, in its own form

  class Agent {
    var pending: Option<Held>
    var generation: nat
    var processed: seq<Event>

    constructor ()
      ensures Abstract() == START
    {
      pending, generation, processed := None, 0, [];
    }

    ghost function Abstract(): State
      reads this
    {
      State(pending, generation, processed)
    }

    method ProcessEvent(e: Event)
      modifies this
      ensures Abstract() == Process(old(Abstract()), e)
    {
      processed := processed + [e];
    }

    method FlushPendingTool()
      modifies this
      ensures Abstract() == Flush(old(Abstract()))
    {
      var taken := pending;
      pending := None;
      if taken.Some? {
        ProcessEvent(taken.value.event);
      }
    }

    /** The flush timer of one generation: it takes the held event and puts it back when
        the generation is another. */
    method FlushGeneration(g: nat)
      modifies this
      ensures Abstract() == Step(old(Abstract()), Fire(g))
    {
      var taken := pending;
      pending := None;
      if taken.Some? {
        if taken.value.generation == g {
          ProcessEvent(taken.value.event);
        } else {
          pending := taken;
        }
      }
    }

    method IngestEvent(e: Event)
      modifies this
      ensures Abstract() == Step(old(Abstract()), Ingest(e))
    {
      if IsPre(e) {
        FlushPendingTool();
        generation := generation + 1;
        pending := Some(Held(generation, e));
      } else if IsPost(e) {
        var matched := false;
        if pending.Some? && pending.value.event.toolUseId == e.toolUseId && e.toolUseId.Some? {
          pending := None;
          matched := true;
        }
        if !matched {
          FlushPendingTool();
        }
        ProcessEvent(e);
      } else {
        FlushPendingTool();
        ProcessEvent(e);
      }
    }
  }

  // ----------------------------------------------------------- what must be processed

  /** How many PreToolUse events were ingested: the generation of the latest. */
  function PreCount(acts: seq<Action>): nat {
    if acts == [] then 0
    else
      var last := acts[|acts| - 1];
      PreCount(acts[..|acts| - 1]) + (if last.Ingest? && IsPre(last.event) then 1 else 0)
  }

  /** The timer of the PreToolUse event ingested at p fires somewhere in acts[p + 1..a]. */
  ghost predicate TimerFired(acts: seq<Action>, p: nat, a: nat)
    requires p < a <= |acts|
  {
    exists f :: p < f < a && acts[f] == Fire(PreCount(acts[..p + 1]))
  }

  /** The ingest at a is the next one after the ingest at p. */
  ghost predicate NextIngest(acts: seq<Action>, p: nat, a: nat)
    requires p < a < |acts|
  {
    acts[p].Ingest? && acts[a].Ingest? && forall f :: p < f < a ==> acts[f].Fire?
  }

  /** The event ingested at p is superfluous: a PreToolUse whose very next ingested event
      finishes the same tool call, before the timer fired. */
  ghost predicate SuperfluousAt(acts: seq<Action>, p: nat, a: nat)
    requires p < a < |acts|
  {
    NextIngest(acts, p, a) && IsPre(acts[p].event) && Finishes(acts[a].event, acts[p].event) && !TimerFired(acts, p, a)
  }

  ghost predicate Superfluous(acts: seq<Action>, p: nat)
    requires p < |acts|
  {
    exists a :: p < a < |acts| && SuperfluousAt(acts, p, a)
  }

  /** The events ingested among the first n actions, in order, less the superfluous ones. */
  ghost function Due(acts: seq<Action>, n: nat): seq<Event>
    requires n <= |acts|
  {
    if n == 0 then []
    else Due(acts, n - 1) + (if acts[n - 1].Ingest? && !Superfluous(acts, n - 1) then [acts[n - 1].event] else [])
  }

  // -------------------------------------------------------------------------- proofs

  /** Position of the latest ingest, or -1. */
  ghost function LastIngest(acts: seq<Action>): (p: int)
    ensures -1 <= p < |acts|
    ensures p >= 0 ==> acts[p].Ingest?
    ensures forall f :: p < f < |acts| ==> acts[f].Fire?
  {
    if acts == [] then -1
    else if acts[|acts| - 1].Ingest? then |acts| - 1 else LastIngest(acts[..|acts| - 1])
  }

  /** The latest ingested event is a PreToolUse still waiting for its timer. */
  ghost predicate Waiting(acts: seq<Action>) {
    var p := LastIngest(acts);
    p >= 0 && IsPre(acts[p].event) && !TimerFired(acts, p, |acts|)
  }

  lemma {:induction false} FiresCountNothing(acts: seq<Action>, p: nat)
    requires p <= |acts| && forall f :: p <= f < |acts| ==> acts[f].Fire?
    ensures PreCount(acts) == PreCount(acts[..p])
    decreases |acts|
  {
    if p == |acts| {
      assert acts[..p] == acts;
    } else {
      var g := acts[..|acts| - 1];
      FiresCountNothing(g, p);
      assert g[..p] == acts[..p];
    }
  }

  lemma FireSnoc(g: seq<Action>, k: nat)
    ensures LastIngest(g + [Fire(k)]) == LastIngest(g)
    ensures Waiting(g + [Fire(k)]) <==> Waiting(g) && k != PreCount(g)
  {
    var acts, p := g + [Fire(k)], LastIngest(g);
    assert acts[..|g|] == g;
    if p >= 0 {
      FiresCountNothing(g, p + 1);
      assert acts[..p + 1] == g[..p + 1];
      assert acts[|g|] == Fire(k);
      if TimerFired(g, p, |g|) {
        var f :| p < f < |g| && g[f] == Fire(PreCount(g[..p + 1]));
        assert acts[f] == g[f];
      }
      if TimerFired(acts, p, |acts|) {
        var f :| p < f < |acts| && acts[f] == Fire(PreCount(acts[..p + 1]));
        assert f < |g| ==> g[f] == acts[f];
      }
    }
  }

  /** What the code holds back is exactly the event that is waiting, under its own
      generation; so a timer flushes the event it was started for or nothing. */
  lemma {:induction false} HeldIsWaiting(acts: seq<Action>)
    ensures Run(acts).generation == PreCount(acts)
    ensures Run(acts).pending.Some? <==> Waiting(acts)
    ensures Run(acts).pending.Some? ==> Run(acts).pending.value == Held(PreCount(acts), acts[LastIngest(acts)].event)
    decreases |acts|
  {
    if acts != [] {
      var g, x := acts[..|acts| - 1], acts[|acts| - 1];
      assert acts == g + [x];
      HeldIsWaiting(g);
      if x.Fire? {
        FireSnoc(g, x.generation);
      }
    }
  }

  lemma SuperfluousSnoc(g: seq<Action>, x: Action, p: nat)
    requires p < |g| && g[p].Ingest?
    ensures Superfluous(g + [x], p) <==> Superfluous(g, p) || SuperfluousAt(g + [x], p, |g|)
  {
    var acts := g + [x];
    assert acts[..p + 1] == g[..p + 1];
    assert forall f :: 0 <= f < |g| ==> acts[f] == g[f];
    forall a | p < a < |g|
      ensures SuperfluousAt(acts, p, a) <==> SuperfluousAt(g, p, a)
    {
      assert NextIngest(acts, p, a) <==> NextIngest(g, p, a);
      assert TimerFired(acts, p, a) <==> TimerFired(g, p, a);
    }
    if Superfluous(g, p) {
      var a :| p < a < |g| && SuperfluousAt(g, p, a);
      assert SuperfluousAt(acts, p, a);
    }
    if Superfluous(acts, p) {
      var a :| p < a < |acts| && SuperfluousAt(acts, p, a);
      assert a < |g| ==> SuperfluousAt(g, p, a);
    }
  }

  /** Only the waiting event can become superfluous now, and only by being finished. */
  lemma NewlySuperfluous(g: seq<Action>, x: Action, p: nat)
    requires p < |g| && g[p].Ingest?
    ensures SuperfluousAt(g + [x], p, |g|) <==>
      x.Ingest? && p == LastIngest(g) && Waiting(g) && Finishes(x.event, g[p].event)
  {
    var acts := g + [x];
    assert acts[..p + 1] == g[..p + 1];
    assert forall f :: 0 <= f < |g| ==> acts[f] == g[f];
    assert TimerFired(acts, p, |g|) <==> TimerFired(g, p, |g|);
    assert acts[|g|] == x;
    if p < LastIngest(g) {
      assert !acts[LastIngest(g)].Fire?;
    }
  }

  /** Up to position n nothing new became superfluous. */
  lemma {:induction false} DueUnchanged(g: seq<Action>, x: Action, n: nat)
    requires n <= |g|
    requires forall p :: 0 <= p < n && g[p].Ingest? ==> !SuperfluousAt(g + [x], p, |g|)
    ensures Due(g + [x], n) == Due(g, n)
  {
    if n > 0 {
      DueUnchanged(g, x, n - 1);
      assert (g + [x])[n - 1] == g[n - 1];
      if g[n - 1].Ingest? {
        SuperfluousSnoc(g, x, n - 1);
      }
    }
  }

  /** After the latest ingest nothing more is due. */
  lemma {:induction false} DueAfterLast(acts: seq<Action>, n: nat)
    requires LastIngest(acts) < n <= |acts|
    ensures Due(acts, |acts|) == Due(acts, n)
    decreases |acts| - n
  {
    if n < |acts| {
      DueAfterLast(acts, n + 1);
      assert acts[n].Fire?;
      assert Due(acts, n + 1) == Due(acts, n);
    }
  }

  lemma {:induction false} DueQuiet(acts: seq<Action>, lo: nat, hi: nat)
    requires lo <= hi <= |acts|
    requires forall f :: lo <= f < hi ==> acts[f].Fire? || Superfluous(acts, f)
    ensures Due(acts, hi) == Due(acts, lo)
    decreases hi
  {
    if lo < hi {
      DueQuiet(acts, lo, hi - 1);
      assert Due(acts, hi) == Due(acts, hi - 1);
    }
  }

  lemma WaitingNotSuperfluous(g: seq<Action>)
    requires Waiting(g)
    ensures !Superfluous(g, LastIngest(g))
  {
    var p := LastIngest(g);
    forall a | p < a < |g|
      ensures !SuperfluousAt(g, p, a)
    {
      assert g[a].Fire?;
    }
  }

  lemma OnlyWaitingIsFinished(g: seq<Action>, x: Action)
    ensures forall q :: 0 <= q < |g| && g[q].Ingest? ==>
      (SuperfluousAt(g + [x], q, |g|) <==>
        x.Ingest? && q == LastIngest(g) && Waiting(g) && Finishes(x.event, g[q].event))
  {
    forall q | 0 <= q < |g| && g[q].Ingest?
      ensures SuperfluousAt(g + [x], q, |g|) <==>
        x.Ingest? && q == LastIngest(g) && Waiting(g) && Finishes(x.event, g[q].event)
    {
      NewlySuperfluous(g, x, q);
    }
  }

  /** The latest action itself is due if it is an ingest. */
  lemma DueLast(g: seq<Action>, x: Action)
    ensures Due(g + [x], |g| + 1) == Due(g + [x], |g|) + (if x.Ingest? then [x.event] else [])
  {
    assert (g + [x])[|g|] == x && !Superfluous(g + [x], |g|);
  }

  /** The waiting event is the last one due. */
  lemma DueWaiting(g: seq<Action>)
    requires Waiting(g)
    ensures Due(g, |g|) == Due(g, LastIngest(g)) + [g[LastIngest(g)].event]
  {
    WaitingNotSuperfluous(g);
    DueAfterLast(g, LastIngest(g) + 1);
  }

  /** What one more action makes due, when it finishes nothing. */
  lemma DueMore(g: seq<Action>, x: Action)
    requires !(x.Ingest? && Waiting(g) && Finishes(x.event, g[LastIngest(g)].event))
    ensures Due(g + [x], |g| + 1) == Due(g, |g|) + (if x.Ingest? then [x.event] else [])
  {
    OnlyWaitingIsFinished(g, x);
    DueUnchanged(g, x, |g|);
    DueLast(g, x);
  }

  /** What is due when the new event finishes the waiting one. */
  lemma DueFinished(g: seq<Action>, x: Action)
    requires x.Ingest? && Waiting(g) && Finishes(x.event, g[LastIngest(g)].event)
    ensures Due(g + [x], |g| + 1) == Due(g, LastIngest(g)) + [x.event]
  {
    var acts, p := g + [x], LastIngest(g);
    OnlyWaitingIsFinished(g, x);
    DueUnchanged(g, x, p);
    SuperfluousSnoc(g, x, p);
    assert forall f :: p < f < |g| ==> acts[f] == g[f];
    DueQuiet(acts, p, |g|);
    DueLast(g, x);
  }

  /** Over every interleaving of ingests and timers: what was processed, plus the event
      still held, is exactly what was ingested, in order and once each, less the
      PreToolUse events whose next ingested event finished the same tool call before
      their timer fired. */
  lemma {:induction false} ProcessedIsDue(acts: seq<Action>)
    ensures Run(acts).processed + HeldEvents(Run(acts)) == Due(acts, |acts|)
    decreases |acts|
  {
    if acts != [] {
      var g, x := acts[..|acts| - 1], acts[|acts| - 1];
      var s := Run(g);
      assert acts == g + [x];
      ProcessedIsDue(g);
      HeldIsWaiting(g);
      if x.Ingest? && Waiting(g) && Finishes(x.event, g[LastIngest(g)].event) {
        DueWaiting(g);
        DueFinished(g, x);
        var d, e := Due(g, LastIngest(g)), g[LastIngest(g)].event;
        assert s.processed + [e] == d + [e];
        assert (s.processed + [e])[..|s.processed|] == s.processed && (d + [e])[..|d|] == d;
      } else {
        DueMore(g, x);
      }
    }
  }

  /** A stale timer does nothing; a timer flushes only the event it was started for. */
  lemma StaleTimerHarmless(acts: seq<Action>, g: nat)
    ensures Run(acts + [Fire(g)]).processed ==
      if Waiting(acts) && g == PreCount(acts)
      then Run(acts).processed + [acts[LastIngest(acts)].event] else Run(acts).processed
    ensures !(Waiting(acts) && g == PreCount(acts)) ==> Run(acts + [Fire(g)]) == Run(acts)
  {
    HeldIsWaiting(acts);
    assert (acts + [Fire(g)])[..|acts|] == acts;
  }

  lemma RunTwo(acts: seq<Action>, a: Action, b: Action)
    ensures Run(acts + [a] + [b]) == Step(Step(Run(acts), a), b)
  {
    assert (acts + [a])[..|acts|] == acts;
    assert (acts + [a] + [b])[..|acts| + 1] == acts + [a];
  }

  /** What becomes of a PreToolUse event when the next one follows before its timer: it is
      passed over exactly if that one reports the end of the same tool call, successful or
      not; then only the report is processed. */
  lemma PairCoalesces(acts: seq<Action>, pre: Event, post: Event)
    requires pre.name == "PreToolUse" && post.name != "PreToolUse"
    ensures var same := post.name in {"PostToolUse", "PostToolUseFailure"}
                        && pre.toolUseId.Some? && post.toolUseId.Some?
                        && pre.toolUseId.value == post.toolUseId.value;
      var s, r := Run(acts), Run(acts + [Ingest(pre)] + [Ingest(post)]);
      && r.pending == None
      && r.processed == s.processed + HeldEvents(s) + (if same then [post] else [pre, post])
  {
    RunTwo(acts, Ingest(pre), Ingest(post));
    var s := Run(acts);
    assert (s.processed + HeldEvents(s)) + [pre] + [post] == s.processed + HeldEvents(s) + [pre, post];
  }

  /** A PreToolUse event that is alone until its timer fires is processed then. */
  lemma TimerReleases(acts: seq<Action>, pre: Event)
    requires pre.name == "PreToolUse"
    ensures var s := Run(acts); var r := Run(acts + [Ingest(pre)] + [Fire(s.generation + 1)]);
      r.pending == None && r.processed == s.processed + HeldEvents(s) + [pre]
  {
    RunTwo(acts, Ingest(pre), Fire(Run(acts).generation + 1));
  }
}

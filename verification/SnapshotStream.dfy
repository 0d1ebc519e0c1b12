/** The snapshots the agent publishes (agent.rs, finalize_guard_state; normalizer.rs,
    materially_equal): numbered, without visible repetitions, the last 64 remembered. */
module SnapshotStream {
  import opened Options

  const RING_BUFFER_CAPACITY: nat := 64

  datatype Attention = Low | Medium | High
  datatype PendingDisplay = PendingDisplay(kind: string, coarseType: string)

  datatype Snapshot = Snapshot(
    seqNo: nat, sessionId: string, event: string, status: string, emotion: string, title: string, workspace: string,
    detail: string, permissionMode: string, ts: nat, unread: bool, attention: Attention,
    pending: Option<PendingDisplay>, workingSince: Option<nat>)

  function EmptySnapshot(ts: nat): Snapshot {
    Snapshot(0, "", "none", "unknown", "neutral", "No data yet", "", "", "default", ts, false, Low, None, None)
  }

  /** materially_equal: everything the device shows. */
  predicate MateriallyEqual(a: Snapshot, b: Snapshot) {
    && a.status == b.status && a.emotion == b.emotion && a.title == b.title && a.detail == b.detail
    && a.workspace == b.workspace && a.sessionId == b.sessionId && a.unread == b.unread
    && a.attention == b.attention && a.permissionMode == b.permissionMode && a.pending == b.pending
  }

  /** The agent's side of the stream; `published` lists what was published under the lock. */
  datatype Stream = Stream(counter: nat, held: Snapshot, history: seq<Snapshot>, published: seq<Snapshot>)

  function Start(initial: Snapshot): Stream {
    Stream(initial.seqNo, initial, [], [])
  }

  function LastOf(s: seq<Snapshot>, n: nat): seq<Snapshot> {
    if |s| <= n then s else s[|s| - n..]
  }

  /** One finalize with the snapshot to show next. */
  function Publish(s: Stream, next: Snapshot): Stream {
    if MateriallyEqual(next, s.held) then s.(held := s.held.(ts := next.ts))
    else
      var sent := next.(seqNo := s.counter + 1);
      Stream(s.counter + 1, sent, LastOf(s.history + [sent], RING_BUFFER_CAPACITY), s.published + [sent])
  }

  function Run(initial: Snapshot, nexts: seq<Snapshot>): Stream {
    if nexts == [] then Start(initial) else Publish(Run(initial, nexts[..|nexts| - 1]), nexts[|nexts| - 1])
  }

  /** The part of the agent's state that finalize_guard_state updates. */
  class Publisher {
    var counter: nat
    var held: Snapshot
    var history: seq<Snapshot>
    ghost var published: seq<Snapshot>

    constructor (initial: Snapshot)
      ensures Abstract() == Start(initial)
    {
      counter, held, history := initial.seqNo, initial, [];
      published := [];
    }

    ghost function Abstract(): Stream
      reads this
    {
      Stream(counter, held, history, published)
    }

    /** Returns the snapshot to send, if any; the ring buffer is a queue cut from the front. */
    method Finalize(next: Snapshot) returns (toSend: Option<Snapshot>)
      requires |history| <= RING_BUFFER_CAPACITY
      modifies this
      ensures Abstract() == Publish(old(Abstract()), next)
      ensures toSend.Some? <==> !MateriallyEqual(next, old(held))
      ensures toSend.Some? ==> published == old(published) + [toSend.value] && toSend.value == held
      ensures |history| <= RING_BUFFER_CAPACITY
    {
      if MateriallyEqual(next, held) {
        held := held.(ts := next.ts);
        return None;
      }
      counter := counter + 1;
      var sent := next.(seqNo := counter);
      held := sent;
      ghost var all := history + [sent];
      history := history + [sent];
      while |history| > RING_BUFFER_CAPACITY
        invariant counter == old(counter) + 1 && held == sent && published == old(published)
        invariant |history| <= |all| && history == all[|all| - |history|..]
        invariant |history| >= RING_BUFFER_CAPACITY || history == all
      {
        history := history[1..];
      }
      published := published + [sent];
      assert history == LastOf(all, RING_BUFFER_CAPACITY);
      return Some(sent);
    }
  }

  // -------------------------------------------------------------- over whole runs

  /** The snapshots that differ visibly from the one before them. */
  function Changes(initial: Snapshot, nexts: seq<Snapshot>): seq<Snapshot> {
    if nexts == [] then []
    else
      var n := |nexts| - 1;
      var before := if n == 0 then initial else nexts[n - 1];
      Changes(initial, nexts[..n]) + (if MateriallyEqual(nexts[n], before) then [] else [nexts[n]])
  }

  /** Consecutive numbers from `first` on. */
  function Numbered(s: seq<Snapshot>, first: nat): (r: seq<Snapshot>)
    ensures |r| == |s|
  {
    seq(|s|, i requires 0 <= i < |s| => s[i].(seqNo := first + i))
  }

  /** What has been published is exactly the visible changes, each once, in order, under
      consecutive numbers; the held snapshot shows what was asked for last. */
  lemma {:induction false} PublishedAreTheChanges(initial: Snapshot, nexts: seq<Snapshot>)
    ensures var s := Run(initial, nexts);
      && s.published == Numbered(Changes(initial, nexts), initial.seqNo + 1)
      && s.counter == initial.seqNo + |s.published| && s.held.seqNo == s.counter
      && s.history == LastOf(s.published, RING_BUFFER_CAPACITY)
      && MateriallyEqual(s.held, if nexts == [] then initial else nexts[|nexts| - 1])
    decreases |nexts|
  {
    if nexts != [] {
      var n := |nexts| - 1;
      PublishedAreTheChanges(initial, nexts[..n]);
      var s := Run(initial, nexts[..n]);
      if !MateriallyEqual(nexts[n], s.held) {
        var sent := nexts[n].(seqNo := s.counter + 1);
        assert Changes(initial, nexts) == Changes(initial, nexts[..n]) + [nexts[n]];
        assert Numbered(Changes(initial, nexts), initial.seqNo + 1) == s.published + [sent];
        HistoryGrows(s.published, sent);
      } else {
        assert Changes(initial, nexts) == Changes(initial, nexts[..n]);
      }
    }
  }

  lemma HistoryGrows(all: seq<Snapshot>, x: Snapshot)
    ensures LastOf(LastOf(all, RING_BUFFER_CAPACITY) + [x], RING_BUFFER_CAPACITY) ==
      LastOf(all + [x], RING_BUFFER_CAPACITY)
  {
  }

  lemma {:induction false} LastPublishedIsHeld(initial: Snapshot, nexts: seq<Snapshot>)
    ensures var s := Run(initial, nexts);
      MateriallyEqual(s.held, if s.published == [] then initial else s.published[|s.published| - 1])
    decreases |nexts|
  {
    if nexts != [] {
      LastPublishedIsHeld(initial, nexts[..|nexts| - 1]);
    }
  }

  predicate NoRepeats(initial: Snapshot, p: seq<Snapshot>) {
    (p != [] ==> !MateriallyEqual(initial, p[0])) && forall i :: 0 < i < |p| ==> !MateriallyEqual(p[i - 1], p[i])
  }

  lemma {:induction false} NeighboursDiffer(initial: Snapshot, nexts: seq<Snapshot>)
    ensures NoRepeats(initial, Run(initial, nexts).published)
    decreases |nexts|
  {
    if nexts != [] {
      var n := |nexts| - 1;
      NeighboursDiffer(initial, nexts[..n]);
      LastPublishedIsHeld(initial, nexts[..n]);
      var s := Run(initial, nexts[..n]);
      if !MateriallyEqual(nexts[n], s.held) {
        NoRepeatsSnoc(initial, s.published, s.held, nexts[n].(seqNo := s.counter + 1));
      }
    }
  }

  lemma NoRepeatsSnoc(initial: Snapshot, p: seq<Snapshot>, held: Snapshot, sent: Snapshot)
    requires NoRepeats(initial, p) && MateriallyEqual(held, if p == [] then initial else p[|p| - 1])
    requires !MateriallyEqual(sent, held)
    ensures NoRepeats(initial, p + [sent])
  {
  }

  /** Over every run: consecutive sequence numbers, no two adjacent snapshots look the
      same (the first one included), the history is the last 64 published. */
  lemma StreamSafety(initial: Snapshot, nexts: seq<Snapshot>)
    ensures var p := Run(initial, nexts).published;
      && (forall i :: 0 <= i < |p| ==> p[i].seqNo == initial.seqNo + 1 + i)
      && NoRepeats(initial, p)
      && Run(initial, nexts).history == LastOf(p, RING_BUFFER_CAPACITY)
  {
    PublishedAreTheChanges(initial, nexts);
    NeighboursDiffer(initial, nexts);
  }

  // -------------------------------------------------------- what counts as a change

  /** The snapshot without its stamps: number, event name, time and start of work. */
  function Unstamped(s: Snapshot): Snapshot {
    s.(seqNo := 0, event := "", ts := 0, workingSince := None)
  }

  lemma MateriallyEqualMeans(a: Snapshot, b: Snapshot)
    ensures MateriallyEqual(a, b) <==> Unstamped(a) == Unstamped(b)
  {
  }

  /** One finalize publishes exactly if the next snapshot differs from the held one in more
      than the four stamps. It then goes out as it is, under the next number; otherwise
      only the held time stamp moves. */
  lemma PublishesExactly(s: Stream, next: Snapshot)
    ensures var r := Publish(s, next);
      && (Unstamped(next) == Unstamped(s.held) <==> r.published == s.published)
      && r.published ==
           (if Unstamped(next) == Unstamped(s.held) then s.published
            else s.published + [next.(seqNo := s.counter + 1)])
      && r.held == (if r.published == s.published then s.held.(ts := next.ts) else r.published[|s.published|])
      && r.counter == s.counter + |r.published| - |s.published|
  {
    MateriallyEqualMeans(next, s.held);
  }

  /** Over every run: the held snapshot and the one chosen last agree field by field, the
      stamps aside; so do the held one and the last one published; and neighbours in the
      stream do not. At most the last 64 are remembered, all while there are no more. */
  lemma StreamFields(initial: Snapshot, nexts: seq<Snapshot>)
    ensures var s := Run(initial, nexts); var p := s.published;
      && Unstamped(s.held) == Unstamped(if nexts == [] then initial else nexts[|nexts| - 1])
      && Unstamped(s.held) == Unstamped(if p == [] then initial else p[|p| - 1])
      && (p != [] ==> Unstamped(p[0]) != Unstamped(initial))
      && (forall i :: 0 < i < |p| ==> Unstamped(p[i]) != Unstamped(p[i - 1]))
      && |s.history| == (if |p| < 64 then |p| else 64) && s.history == p[|p| - |s.history|..]
  {
    var s := Run(initial, nexts);
    var p := s.published;
    PublishedAreTheChanges(initial, nexts);
    NeighboursDiffer(initial, nexts);
    LastPublishedIsHeld(initial, nexts);
    MateriallyEqualMeans(s.held, if nexts == [] then initial else nexts[|nexts| - 1]);
    MateriallyEqualMeans(s.held, if p == [] then initial else p[|p| - 1]);
    forall i | 0 <= i < |p|
      ensures Unstamped(if i == 0 then initial else p[i - 1]) != Unstamped(p[i])
    {
      MateriallyEqualMeans(if i == 0 then initial else p[i - 1], p[i]);
    }
  }
}

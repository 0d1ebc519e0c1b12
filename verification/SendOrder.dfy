/** Sending what was published (agent.rs): a task publishes under the state's lock and
    sends after releasing it, so two tasks can reach the device's channel in either order. */
module SendOrder {
  import opened Sequences
  import SnapshotStream

  type Snapshot = SnapshotStream.Snapshot

  /** A task publishes; or one of those that still have a snapshot to send sends it, where
      `which` counts them from the oldest snapshot. */
  datatype Action = Finalize(next: Snapshot) | Send(which: nat)

  datatype Outbox = Outbox(stream: SnapshotStream.Stream, waiting: seq<Snapshot>, sent: seq<Snapshot>)

  function Act(o: Outbox, a: Action): Outbox {
    match a
    case Finalize(next) =>
      var s := SnapshotStream.Publish(o.stream, next);
      var added := if SnapshotStream.MateriallyEqual(next, o.stream.held) then [] else [s.held];
      Outbox(s, o.waiting + added, o.sent)
    case Send(which) =>
      if which >= |o.waiting| then o
      else Outbox(o.stream, o.waiting[..which] + o.waiting[which + 1..], o.sent + [o.waiting[which]])
  }

  function Run(initial: Snapshot, acts: seq<Action>): Outbox {
    if acts == [] then Outbox(SnapshotStream.Start(initial), [], [])
    else Act(Run(initial, acts[..|acts| - 1]), acts[|acts| - 1])
  }

  /** No task sends while an older snapshot still waits. */
  predicate TakesOldest(o: Outbox, a: Action) {
    a.Send? && a.which < |o.waiting| ==> a.which == 0
  }

  predicate InTurn(initial: Snapshot, acts: seq<Action>) {
    forall k :: 0 <= k < |acts| ==> TakesOldest(Run(initial, acts[..k]), acts[k])
  }

  lemma InTurnSnoc(initial: Snapshot, acts: seq<Action>)
    requires acts != []
    ensures var n := |acts| - 1;
      InTurn(initial, acts) <==> InTurn(initial, acts[..n]) && TakesOldest(Run(initial, acts[..n]), acts[n])
  {
    var n := |acts| - 1;
    assert forall k :: 0 <= k < n ==> acts[..n][..k] == acts[..k] && acts[..n][k] == acts[k];
  }

  /** Numbers without gaps, and what waits is among the published, oldest first. */
  ghost predicate Tidy(initial: Snapshot, o: Outbox) {
    && o.stream.counter == initial.seqNo + |o.stream.published|
    && (forall i :: 0 <= i < |o.stream.published| ==> o.stream.published[i].seqNo == initial.seqNo + 1 + i)
    && (forall i, j :: 0 <= i < j < |o.waiting| ==> o.waiting[i].seqNo < o.waiting[j].seqNo)
    && (forall i :: 0 <= i < |o.waiting| ==> o.waiting[i].seqNo <= o.stream.counter)
  }

  lemma PublishIsTidy(initial: Snapshot, o: Outbox, next: Snapshot)
    requires Tidy(initial, o)
    ensures Tidy(initial, Act(o, Finalize(next)))
  {
  }

  lemma SendIsTidy(initial: Snapshot, o: Outbox, which: nat)
    requires Tidy(initial, o)
    ensures Tidy(initial, Act(o, Send(which)))
  {
  }

  lemma {:induction false} RunIsTidy(initial: Snapshot, acts: seq<Action>)
    ensures Tidy(initial, Run(initial, acts))
    decreases |acts|
  {
    if acts != [] {
      var n := |acts| - 1;
      RunIsTidy(initial, acts[..n]);
      match acts[n]
      case Finalize(next) => PublishIsTidy(initial, Run(initial, acts[..n]), next);
      case Send(which) => SendIsTidy(initial, Run(initial, acts[..n]), which);
    }
  }

  /** While everyone sends in turn, what was sent and what waits are what was published. */
  lemma {:induction false} InTurnSplits(initial: Snapshot, acts: seq<Action>)
    requires InTurn(initial, acts)
    ensures Splits(Run(initial, acts))
    decreases |acts|
  {
    if acts != [] {
      var n := |acts| - 1;
      InTurnSnoc(initial, acts);
      InTurnSplits(initial, acts[..n]);
      ActSplits(Run(initial, acts[..n]), acts[n]);
    }
  }

  ghost predicate Splits(o: Outbox) {
    o.sent + o.waiting == o.stream.published
  }

  lemma ActSplits(o: Outbox, a: Action)
    requires Splits(o) && TakesOldest(o, a)
    ensures Splits(Act(o, a))
  {
    match a
    case Finalize(next) =>
      var r := Act(o, a);
      Associate(o.sent, o.waiting, r.waiting[|o.waiting|..]);
      assert r.waiting == o.waiting + r.waiting[|o.waiting|..];
    case Send(which) =>
      if which < |o.waiting| {
        Associate(o.sent, [o.waiting[0]], o.waiting[1..]);
        assert [o.waiting[0]] + o.waiting[1..] == o.waiting && o.waiting[..0] + o.waiting[1..] == o.waiting[1..];
      }
  }

  /** A snapshot went out in the place of another. */
  ghost predicate Swapped(o: Outbox) {
    exists i :: 0 <= i < |o.sent| && i < |o.stream.published| && o.sent[i] != o.stream.published[i]
  }

  lemma SwapStays(o: Outbox, a: Action)
    requires Swapped(o)
    ensures Swapped(Act(o, a))
  {
    var i :| 0 <= i < |o.sent| && i < |o.stream.published| && o.sent[i] != o.stream.published[i];
    var r := Act(o, a);
    assert r.sent[i] == o.sent[i] && r.stream.published[i] == o.stream.published[i];
  }

  lemma OutOfTurnSwaps(initial: Snapshot, acts: seq<Action>, which: nat)
    requires InTurn(initial, acts) && 0 < which < |Run(initial, acts).waiting|
    ensures Swapped(Act(Run(initial, acts), Send(which)))
  {
    var o := Run(initial, acts);
    InTurnSplits(initial, acts);
    RunIsTidy(initial, acts);
    var r, i := Act(o, Send(which)), |o.sent|;
    assert (o.sent + o.waiting)[i] == o.waiting[0];
    assert r.sent[i] == o.waiting[which] && o.waiting[0].seqNo < o.waiting[which].seqNo;
    assert r.stream.published[i] == o.waiting[0];
  }

  lemma {:induction false} OnceSwapped(initial: Snapshot, acts: seq<Action>)
    requires !InTurn(initial, acts)
    ensures Swapped(Run(initial, acts))
    decreases |acts|
  {
    if acts != [] {
      var n := |acts| - 1;
      InTurnSnoc(initial, acts);
      if InTurn(initial, acts[..n]) {
        OutOfTurnSwaps(initial, acts[..n], acts[n].which);
      } else {
        OnceSwapped(initial, acts[..n]);
        SwapStays(Run(initial, acts[..n]), acts[n]);
      }
    }
  }

  /** Over every interleaving of publishing and sending: what reaches the channel is what
      was published, in the order of the numbers, exactly when no task sends while an
      older snapshot still waits for its task. */
  lemma SentInOrderExactly(initial: Snapshot, acts: seq<Action>)
    ensures Run(initial, acts).sent <= Run(initial, acts).stream.published <==> InTurn(initial, acts)
  {
    var o := Run(initial, acts);
    if InTurn(initial, acts) {
      InTurnSplits(initial, acts);
    } else {
      OnceSwapped(initial, acts);
    }
  }

  /** The snapshot held is the last one published, to the eye. */
  ghost predicate HoldsLast(initial: Snapshot, o: Outbox) {
    var s := o.stream;
    SnapshotStream.MateriallyEqual(s.held, if s.published == [] then initial else s.published[|s.published| - 1])
  }

  lemma {:induction false} StreamHolds(initial: Snapshot, acts: seq<Action>)
    ensures HoldsLast(initial, Run(initial, acts))
    decreases |acts|
  {
    if acts != [] {
      StreamHolds(initial, acts[..|acts| - 1]);
    }
  }

  lemma SentIsHeld(initial: Snapshot, o: Outbox)
    requires Splits(o) && HoldsLast(initial, o) && o.waiting == [] && o.sent != []
    ensures SnapshotStream.MateriallyEqual(o.stream.held, o.sent[|o.sent| - 1])
  {
    assert o.sent == o.stream.published;
  }

  /** In turn, and with nothing left to send, the device was last sent what the agent holds. */
  lemma InTurnShowsHeld(initial: Snapshot, acts: seq<Action>)
    requires InTurn(initial, acts) && Run(initial, acts).waiting == [] && Run(initial, acts).sent != []
    ensures var o := Run(initial, acts); var last := o.sent[|o.sent| - 1];
      && SnapshotStream.MateriallyEqual(o.stream.held, last)
      && SnapshotStream.Unstamped(o.stream.held) == SnapshotStream.Unstamped(last)
  {
    InTurnSplits(initial, acts);
    StreamHolds(initial, acts);
    var o := Run(initial, acts);
    SentIsHeld(initial, o);
    SnapshotStream.MateriallyEqualMeans(o.stream.held, o.sent[|o.sent| - 1]);
  }

  lemma RunSnoc(initial: Snapshot, acts: seq<Action>, a: Action)
    ensures Run(initial, acts + [a]) == Act(Run(initial, acts), a)
  {
    assert (acts + [a])[..|acts|] == acts;
  }

  /** Out of turn it need not: two changes, sent in the other order, leave the device on the
      older one with nothing left to send. */
  lemma LateSendShowsOld(initial: Snapshot, a: Snapshot, b: Snapshot)
    requires !SnapshotStream.MateriallyEqual(a, initial) && !SnapshotStream.MateriallyEqual(b, a)
    ensures var o := Run(initial, [Finalize(a), Finalize(b)] + [Send(1)] + [Send(0)]);
      && o.waiting == [] && |o.sent| == 2 && o.stream.held.seqNo == initial.seqNo + 2
      && o.sent[1].seqNo == initial.seqNo + 1 && !SnapshotStream.MateriallyEqual(o.stream.held, o.sent[1])
  {
    var one, two := [Finalize(a)], [Finalize(a), Finalize(b)];
    RunSnoc(initial, [], Finalize(a));
    assert [] + one == one;
    RunSnoc(initial, one, Finalize(b));
    assert one + [Finalize(b)] == two;
    RunSnoc(initial, two, Send(1));
    RunSnoc(initial, two + [Send(1)], Send(0));
  }
}

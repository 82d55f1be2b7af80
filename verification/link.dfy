/** An established connection: two ends, each reading what the other writes. Any number of calls at either end, in both
    directions, with failures and terminal events, in every interleaving. */
module Link {
  import opened Types
  import opened Transfer
  import Endpoint
  import S = Sending
  import R = Receiving

  datatype State = State(a: Endpoint.End, b: Endpoint.End)

  /** What happens at one of the ends; what one end writes is there for the other to read. */
  datatype Event = AtA(e: Endpoint.Event) | AtB(e: Endpoint.Event)

  function Start(maxA: int, maxTSDUA: nat, maxB: int, maxTSDUB: nat): State {
    State(Endpoint.Start(maxA, maxTSDUA), Endpoint.Start(maxB, maxTSDUB))
  }

  /** Nothing arrives but what the other end writes. */
  function Step(x: State, event: Event): State {
    if event.e.Arrive? then x
    else
      match event
      case AtA(e) =>
        var a := Endpoint.Step(x.a, e);
        State(a, x.b.(inbound := a.sender.wire))
      case AtB(e) =>
        var b := Endpoint.Step(x.b, e);
        State(x.a.(inbound := b.sender.wire), b)
  }

  function Run(x: State, events: seq<Event>): State
    decreases |events|
  {
    if events == [] then x else Run(Step(x, events[0]), events[1..])
  }

  ghost predicate Reached(x: State) {
    exists events ::
      x == Run(Start(x.a.sender.maxTPDU, x.a.sender.maxTSDU, x.b.sender.maxTPDU, x.b.sender.maxTSDU), events)
  }

  /** Seen from one end, the other is a peer like any other. */
  ghost predicate Joined(x: State) {
    && Endpoint.Reached(x.a) && Endpoint.Reached(x.b)
    && x.a.inbound == x.b.sender.wire && x.b.inbound == x.a.sender.wire
  }

  /** One event puts at most one item into the stream. */
  lemma OneItem(x: Endpoint.End, e: Endpoint.Event)
    ensures var y := Endpoint.Step(x, e);
            y.sender.wire == x.sender.wire
            || (|y.sender.wire| > 0 && y.sender.wire == x.sender.wire + [y.sender.wire[|y.sender.wire| - 1]])
    ensures !e.Arrive? ==> Endpoint.Step(x, e).inbound == x.inbound
  {
    hide Packets, Absorb, IoCause, S.NextPacket;
  }

  /** What the far end hears of an event: the item it put into the stream, if any. */
  lemma Hears(x: Endpoint.End, wire: seq<S.Item>)
    requires Endpoint.Reached(x)
    requires wire == x.inbound || (|wire| > 0 && wire == x.inbound + [wire[|wire| - 1]])
    ensures Endpoint.Reached(x.(inbound := wire))
  {
    hide Endpoint.Reached;
    if wire != x.inbound {
      Endpoint.StepReaches(x, Endpoint.Arrive(wire[|wire| - 1]));
    }
  }

  lemma StepJoins(x: State, event: Event)
    requires Joined(x)
    ensures Joined(Step(x, event))
  {
    hide Endpoint.Reached, Endpoint.Step;
    if event.AtA? && !event.e.Arrive? {
      Endpoint.StepReaches(x.a, event.e);
      OneItem(x.a, event.e);
      Hears(x.b, Endpoint.Step(x.a, event.e).sender.wire);
    }
    if event.AtB? && !event.e.Arrive? {
      Endpoint.StepReaches(x.b, event.e);
      OneItem(x.b, event.e);
      Hears(x.a, Endpoint.Step(x.b, event.e).sender.wire);
    }
  }

  lemma {:induction false} RunJoins(x: State, events: seq<Event>)
    requires Joined(x)
    ensures Joined(Run(x, events))
    decreases |events|
  {
    hide Joined, Step;
    if events != [] {
      StepJoins(x, events[0]);
      RunJoins(Step(x, events[0]), events[1..]);
    }
  }

  /** In every run each end is where an end against an arbitrary peer could be, so all that Endpoint proves of one end
      holds of both; and each end's inbound stream is what the other has written. */
  lemma ReachedIsJoined(x: State)
    requires Reached(x)
    ensures Joined(x)
  {
    hide Endpoint.Start;
    var start := Start(x.a.sender.maxTPDU, x.a.sender.maxTSDU, x.b.sender.maxTPDU, x.b.sender.maxTSDU);
    var events :| x == Run(start, events);
    Endpoint.StartIsValid(x.a.sender.maxTPDU, x.a.sender.maxTSDU);
    Endpoint.StartIsValid(x.b.sender.maxTPDU, x.b.sender.maxTSDU);
    StartIsJoined(x.a.sender.maxTPDU, x.a.sender.maxTSDU, x.b.sender.maxTPDU, x.b.sender.maxTSDU);
    RunJoins(start, events);
  }

  lemma StartIsJoined(maxA: int, maxTSDUA: nat, maxB: int, maxTSDUB: nat)
    ensures Joined(Start(maxA, maxTSDUA, maxB, maxTSDUB))
  {
    hide Endpoint.Reached;
    Endpoint.StartIsValid(maxA, maxTSDUA);
    Endpoint.StartIsValid(maxB, maxTSDUB);
  }

  lemma StepKeepsBounds(x: State, event: Event)
    requires Joined(x)
    ensures var y := Step(x, event);
            && y.a.sender.maxTPDU == x.a.sender.maxTPDU && y.a.sender.maxTSDU == x.a.sender.maxTSDU
            && y.b.sender.maxTPDU == x.b.sender.maxTPDU && y.b.sender.maxTSDU == x.b.sender.maxTSDU
  {
    hide Endpoint.Reached, Endpoint.Valid, Endpoint.Step;
    Endpoint.ReachedIsValid(x.a);
    Endpoint.ReachedIsValid(x.b);
    Endpoint.StepKeeps(x.a, event.e);
    Endpoint.StepKeeps(x.b, event.e);
  }

  /** A run keeps the bounds it started with. */
  lemma {:induction false} RunKeepsBounds(x: State, events: seq<Event>)
    requires Joined(x)
    ensures var y := Run(x, events);
            && y.a.sender.maxTPDU == x.a.sender.maxTPDU && y.a.sender.maxTSDU == x.a.sender.maxTSDU
            && y.b.sender.maxTPDU == x.b.sender.maxTPDU && y.b.sender.maxTSDU == x.b.sender.maxTSDU
    decreases |events|
  {
    hide Joined, Step;
    if events != [] {
      StepJoins(x, events[0]);
      StepKeepsBounds(x, events[0]);
      RunKeepsBounds(Step(x, events[0]), events[1..]);
    }
  }

  // ---------------------------------------------------------------- delivery

  /** One end reads what another writes. */
  ghost predicate Hearing(from: Endpoint.End, to: Endpoint.End) {
    Endpoint.Reached(from) && Endpoint.Reached(to) && to.inbound == from.sender.wire
  }

  lemma HearingIsPlaced(from: Endpoint.End, to: Endpoint.End)
    requires Hearing(from, to)
    ensures S.LogValid(from.sender)
    ensures R.Placed(from.sender, to.receiver.accepted, Progress(to.receiver.delivered, to.receiver.held))
  {
    hide Endpoint.Reached, S.LogValid, S.At, R.At, R.Placed, R.Owned;
    Endpoint.ReachedIsValid(from);
    Endpoint.ReachedIsValid(to);
    R.HonestReads(from.sender, to.receiver.accepted, to.receiver.maxTPDU, TsduBound(to.receiver.maxTSDU));
  }

  /** What one end has delivered is a prefix, octet for octet and in write-lock order, of the TSDUs that moved octets at
      the other, each of them wholly sent. */
  ghost predicate InOrder(from: Endpoint.End, to: Endpoint.End) {
    && to.receiver.delivered <= Endpoint.Moved(from.sender)
    && (forall i | 0 <= i < |to.receiver.delivered| :: S.Complete(from.sender.log[i], from.sender.maxTPDU))
  }

  /** Delivery, in every interleaving of writers, readers, failures and terminal events at both ends, both ways. */
  lemma DeliveryIsPrefix(x: State)
    requires Reached(x)
    ensures InOrder(x.a, x.b) && InOrder(x.b, x.a)
  {
    hide Reached, Endpoint.Reached, S.LogValid, Chunks, S.Flat;
    ReachedIsJoined(x);
    HearingIsPlaced(x.a, x.b);
    HearingIsPlaced(x.b, x.a);
  }

  /** Nothing is withheld: once every item that moved has been accepted, exactly the TSDUs wholly sent are delivered. */
  ghost predicate Exhaustive(from: Endpoint.End, to: Endpoint.End) {
    to.receiver.accepted == |from.sender.wire| ==>
      forall i | 0 <= i < |from.sender.log| ::
        S.Complete(from.sender.log[i], from.sender.maxTPDU) <==> i < |to.receiver.delivered|
  }

  /** Where a TSDU wholly sent is not delivered yet, there is more to accept. */
  lemma MoreToAccept(s: S.Sender, n: nat, x: Progress)
    requires S.LogValid(s) && R.Placed(s, n, x)
    requires |x.delivered| < |s.log| && S.Complete(s.log[|x.delivered|], s.maxTPDU)
    ensures n < |s.wire|
  {
    hide Chunks, S.Flat, Packets;
    PacketsExist(s.log[|x.delivered|].tsdu, s.maxTPDU);
    R.FlatAt(s.log, s.maxTPDU, |x.delivered|, |x.held|);
  }

  lemma NothingIsWithheld(from: Endpoint.End, to: Endpoint.End)
    requires Hearing(from, to)
    ensures Exhaustive(from, to)
  {
    hide Endpoint.Reached, Chunks, S.Flat, Packets, S.Complete;
    HearingIsPlaced(from, to);
    var log, k := from.sender.log, |to.receiver.delivered|;
    if k < |log| && S.Complete(log[k], from.sender.maxTPDU) {
      MoreToAccept(from.sender, to.receiver.accepted, Progress(to.receiver.delivered, to.receiver.held));
    }
  }

  /** Every TSDU wholly sent is delivered once all that moved is accepted, both ways. */
  lemma DeliveryIsExhaustive(x: State)
    requires Reached(x)
    ensures Exhaustive(x.a, x.b) && Exhaustive(x.b, x.a)
  {
    hide Reached, Exhaustive, Endpoint.Reached;
    ReachedIsJoined(x);
    NothingIsWithheld(x.a, x.b);
    NothingIsWithheld(x.b, x.a);
  }

  /** Between two ends that agree on the TPDU size, a reader that takes TSDUs as long as the writer sends refuses no
      packet. */
  lemma AgreedPacketsAreAccepted(from: Endpoint.End, to: Endpoint.End, c: R.Call, stray: bytes)
    requires Hearing(from, to) && from.sender.maxTPDU == to.sender.maxTPDU
    requires TsduBound(from.sender.maxTSDU) <= TsduBound(to.sender.maxTSDU)
    requires R.Enabled(to.receiver, to.inbound, R.Read(c, stray))
    ensures var p := R.Step(to.receiver, to.inbound, to.term, R.Read(c, stray)).0.at[c];
            p.Looping? || (p.Leaving? && p.result.Got?)
  {
    hide Endpoint.Reached, S.At, R.Consumed, R.Owned, S.Flat, Absorb;
    Endpoint.ReachedIsValid(from);
    Endpoint.ReachedIsValid(to);
    Endpoint.NothingIsReadBeyond(to, c, stray);
    assert R.At(to.receiver, to.term, c, to.receiver.at[c]);
    Standing(to);
    HearingIsPlaced(from, to);
    var x := Progress(to.receiver.delivered, to.receiver.held);
    R.NextIsExpected(from.sender, to.receiver.accepted, x);
    var tsdu := from.sender.log[|x.delivered|].tsdu;
    R.ExpectedPacket(x.held, tsdu, from.sender.maxTPDU, to.receiver.maxTPDU, TsduBound(to.receiver.maxTSDU));
  }

  lemma Standing(x: Endpoint.End)
    requires Endpoint.Valid(x) && !x.receiver.broken
    ensures x.receiver.accepted == x.receiver.taken
  {
  }
}

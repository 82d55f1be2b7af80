/** One end of an established connection: any number of WriteTSDU and ReadTSDU calls, Close and aborts, in every
    interleaving, against a peer that may send any packets at all. The two directions share the terminal cause. */
module Endpoint {
  import opened Types
  import opened Transfer
  import S = Sending
  import R = Receiving

  /** Ending takes two steps: `term` is the cause once it is stored, `shown` says that the state no longer is open. */
  datatype End = End(
    sender: S.Sender, receiver: R.Receiver, term: Option<Error>, shown: bool, inbound: seq<S.Item>)

  /** An abort within a call stores its cause by a step of that call; Close and aborts from elsewhere by Terminate. An
      arriving item is a whole packet with any content, or a stretch that is none. */
  datatype Event =
    | Write(w: S.Event)
    | Read(r: R.Event)
    | Terminate(cause: Error)
    | Show
    | Arrive(item: S.Item)

  function Start(maxTPDU: int, maxTSDU: nat): End {
    End(S.Fresh(maxTPDU, maxTSDU), R.Fresh(maxTPDU, maxTSDU), None, false, [])
  }

  /** The second look of requireOpen sees the state as it is. */
  predicate Enabled(x: End, e: Event) {
    match e
    case Write(w) => S.Enabled(x.sender, w) && (w.Check? ==> w.shut == x.shown)
    case Read(r) => R.Enabled(x.receiver, x.inbound, r) && (r.Check? ==> r.shut == x.shown)
    case Show => x.term.Some?
    case _ => true
  }

  /** An event that is not possible leaves the end as it is, so every event sequence is a run. */
  function Step(x: End, e: Event): End {
    if !Enabled(x, e) then x else
      match e
      case Write(w) =>
        var (s, term) := S.Step(x.sender, x.term, w);
        x.(sender := s, term := term)
      case Read(r) =>
        var (t, term) := R.Step(x.receiver, x.inbound, x.term, r);
        x.(receiver := t, term := term)
      case Terminate(cause) => x.(term := S.First(x.term, cause))
      case Show => x.(shown := true)
      case Arrive(item) => x.(inbound := x.inbound + [item])
  }

  function Run(x: End, events: seq<Event>): End
    decreases |events|
  {
    if events == [] then x else Run(Step(x, events[0]), events[1..])
  }

  /** x is where some interleaving leads from an idle connection. */
  ghost predicate Reached(x: End) {
    exists events :: x == Run(Start(x.sender.maxTPDU, x.sender.maxTSDU), events)
  }

  // ---------------------------------------------------------------- invariant

  ghost predicate Valid(x: End) {
    && S.Valid(x.sender, x.term)
    && R.Valid(x.receiver, x.term, x.inbound)
    && (x.shown ==> x.term.Some?)
    && x.receiver.maxTPDU == x.sender.maxTPDU && x.receiver.maxTSDU == x.sender.maxTSDU
  }

  /** The log only grows: entries stay, whole ones unchanged. */
  ghost predicate Grows(s: S.Sender, s': S.Sender) {
    && s'.maxTPDU == s.maxTPDU && s'.maxTSDU == s.maxTSDU && |s.log| <= |s'.log|
    && (forall i | 0 <= i < |s.log| :: s'.log[i].tsdu == s.log[i].tsdu && s.log[i].sent <= s'.log[i].sent)
    && (forall i | 0 <= i < |s.log| :: S.Complete(s.log[i], s.maxTPDU) ==> s'.log[i] == s.log[i])
  }

  /** What every step keeps: the invariant, a terminal cause, the bounds, and what was sent, received and delivered. */
  ghost predicate Keeps(x: End, y: End) {
    && Valid(y)
    && (x.term.Some? ==> y.term == x.term) && (x.shown ==> y.shown)
    && Grows(x.sender, y.sender) && x.inbound <= y.inbound
    && x.receiver.delivered <= y.receiver.delivered && x.receiver.owners <= y.receiver.owners
  }

  lemma WriteGrows(x: End, w: S.Event)
    requires S.Valid(x.sender, x.term) && S.Enabled(x.sender, w)
    ensures Grows(x.sender, S.Step(x.sender, x.term, w).0)
  {
    hide Packets, S.Flat, S.NextPacket;
    if w.Send? || w.Fail? {
      assert S.At(x.sender, x.term, w.call, x.sender.at[w.call]);
    }
  }

  lemma ReadGrows(r: R.Receiver, wire: seq<S.Item>, term: Option<Error>, e: R.Event)
    requires R.Enabled(r, wire, e)
    ensures var r' := R.Step(r, wire, term, e).0;
            && r.delivered <= r'.delivered && r.owners <= r'.owners
            && r'.maxTPDU == r.maxTPDU && r'.maxTSDU == r.maxTSDU
  {
    hide Absorb, IoCause;
  }

  lemma StepKeeps(x: End, e: Event)
    requires Valid(x)
    ensures Keeps(x, Step(x, e))
  {
    hide S.Valid, R.Valid, S.Step, R.Step, S.Enabled, R.Enabled;
    var y := Step(x, e);
    if Enabled(x, e) {
      match e
      case Write(w) =>
        S.StepKeeps(x.sender, x.term, w);
        WriteGrows(x, w);
        R.TermKeeps(x.receiver, x.term, x.inbound, y.term);
      case Read(r) =>
        R.StepKeeps(x.receiver, x.term, x.inbound, r);
        ReadGrows(x.receiver, x.inbound, x.term, r);
        S.TermKeeps(x.sender, x.term, y.term);
      case Terminate(cause) =>
        S.TermKeeps(x.sender, x.term, y.term);
        R.TermKeeps(x.receiver, x.term, x.inbound, y.term);
      case Arrive(_) =>
        R.ArrivalKeeps(x.receiver, x.term, x.inbound, y.inbound);
      case Show =>
    }
  }

  /** Over any run from a valid state: the invariant holds at its end, a terminal cause stays what it was, the bounds do
      not change, and what was sent, received and delivered has only grown. */
  lemma {:induction false} RunKeeps(x: End, events: seq<Event>)
    requires Valid(x)
    ensures Keeps(x, Run(x, events))
    decreases |events|
  {
    hide Valid, Step;
    if events != [] {
      StepKeeps(x, events[0]);
      RunKeeps(Step(x, events[0]), events[1..]);
    }
  }

  lemma StartIsValid(maxTPDU: int, maxTSDU: nat)
    ensures Valid(Start(maxTPDU, maxTSDU)) && Reached(Start(maxTPDU, maxTSDU))
  {
    S.FreshIsValid(maxTPDU, maxTSDU);
    R.FreshIsValid(maxTPDU, maxTSDU, []);
    assert Run(Start(maxTPDU, maxTSDU), []) == Start(maxTPDU, maxTSDU);
  }

  lemma ReachedIsValid(x: End)
    requires Reached(x)
    ensures Valid(x)
  {
    hide Valid, Start;
    var start := Start(x.sender.maxTPDU, x.sender.maxTSDU);
    var events :| x == Run(start, events);
    StartIsValid(x.sender.maxTPDU, x.sender.maxTSDU);
    RunKeeps(start, events);
  }

  lemma {:induction false} RunMore(x: End, events: seq<Event>, e: Event)
    ensures Run(x, events + [e]) == Step(Run(x, events), e)
    decreases |events|
  {
    hide Step;
    if events == [] {
      assert [] + [e] == [e] && [e][1..] == [];
    } else {
      assert (events + [e])[1..] == events[1..] + [e];
      RunMore(Step(x, events[0]), events[1..], e);
    }
  }

  /** A step from a reached state leads to a reached state. */
  lemma StepReaches(x: End, e: Event)
    requires Reached(x)
    ensures Reached(Step(x, e))
  {
    hide Step, Valid, Start;
    var events :| x == Run(Start(x.sender.maxTPDU, x.sender.maxTSDU), events);
    ReachedIsValid(x);
    StepKeeps(x, e);
    RunMore(Start(x.sender.maxTPDU, x.sender.maxTSDU), events, e);
  }

  // ---------------------------------------------------------------- writing

  /** The TSDUs that moved octets, in the order their calls held the write lock. */
  function Moved(s: S.Sender): seq<bytes> { seq(|s.log|, i requires 0 <= i < |s.log| => s.log[i].tsdu) }

  /** Which TSDUs a write takes: on an open end an admitted call with a live context goes on exactly with 1 octet to the
      configured bound, 4 MiB if none is, and a TPDU size of 4 at least; otherwise it leaves with the reason. */
  lemma WriteIsTakenIff(x: End, c: S.Call, shut: bool, ctx: Ctx)
    requires Reached(x) && x.term == None && ctx.err == None && Enabled(x, Write(S.Check(c, shut, ctx)))
    ensures var y, s, n := Step(x, Write(S.Check(c, shut, ctx))), x.sender, |x.sender.at[c].tsdu|;
            var bound := if s.maxTSDU == 0 then 4194304 else s.maxTSDU;
            && c in y.sender.at
            && (y.sender.at[c] == S.Checked(s.at[c].tsdu) <==> s.maxTPDU >= 4 && 1 <= n <= bound)
            && (n == 0 ==> y.sender.at[c] == S.Leaving(s.at[c].tsdu, 0, S.Rejected({EmptyTSDU})))
            && (n > bound ==> y.sender.at[c] == S.Leaving(s.at[c].tsdu, 0, S.Rejected({TSDUTooLarge})))
            && (1 <= n <= bound && s.maxTPDU < 4 ==>
                  y.sender.at[c] == S.Leaving(s.at[c].tsdu, 0, S.Rejected({InvalidConfig})))
            && y.sender.wire == s.wire && y.term == None
  {
    hide Reached;
  }

  /** A read on an open end with a live context goes on exactly under a TPDU size of 4 at least. */
  lemma ReadIsTakenIff(x: End, c: R.Call, shut: bool, ctx: Ctx)
    requires Reached(x) && x.term == None && ctx.err == None && Enabled(x, Read(R.Check(c, shut, ctx)))
    ensures var y := Step(x, Read(R.Check(c, shut, ctx)));
            && c in y.receiver.at && y.term == None
            && y.receiver.at[c] == if x.receiver.maxTPDU >= 4 then R.Checked
                                   else R.Leaving(0, R.Rejected({InvalidConfig}))
  {
    hide Reached;
  }

  /** The cause a failed write comes to abort with, mark by mark. */
  lemma WriteFailureIs(x: End, c: S.Call, ctx: Ctx, m: Mark)
    requires Reached(x) && x.term == None && Enabled(x, Write(S.Classify(c, ctx)))
    ensures var p, y := x.sender.at[c], Step(x, Write(S.Classify(c, ctx)));
            && c in y.sender.at && y.sender.at[c].Aborting? && y.sender.at[c].gen == p.gen
            && (m in y.sender.at[c].cause <==> Marked(m, ctx, p.err, false))
  {
    hide Reached;
    CauseIs(ctx, x.sender.at[c].err, false, m);
    hide IoCause;
  }

  /** The cause a failed read comes to abort with: within a TSDU exactly where segments are held. */
  lemma ReadFailureIs(x: End, c: R.Call, ctx: Ctx, m: Mark)
    requires Reached(x) && x.term == None && Enabled(x, Read(R.Classify(c, ctx)))
    ensures var p, y := x.receiver.at[c], Step(x, Read(R.Classify(c, ctx)));
            && c in y.receiver.at && y.receiver.at[c].Aborting? && y.receiver.at[c].gen == p.gen
            && (m in y.receiver.at[c].cause <==> Marked(m, ctx, p.err, x.receiver.held != []))
  {
    hide Reached, S.Valid, R.Consumed, R.Owned;
    ReachedIsValid(x);
    assert R.At(x.receiver, x.term, c, x.receiver.at[c]);
    CauseIs(ctx, x.receiver.at[c].err, x.receiver.held != [], m);
    hide IoCause;
  }

  /** The stream is the packets of the transfers one after the other, all but the last transfer whole, so segments of
      different TSDUs never mix; each transfer carries the TSDU its own call was given, and no call has two. */
  lemma SegmentsNeverMix(x: End)
    requires Reached(x)
    ensures var s := x.sender;
            && S.AllPartial(s.log, s.maxTPDU)
            && s.wire == S.Flat(s.log, s.maxTPDU) + (if s.tear > 0 then [S.Torn(s.tear)] else [])
            && (forall i | 0 <= i < |s.log| - 1 :: S.Complete(s.log[i], s.maxTPDU))
            && (forall i | 0 <= i < |s.log| :: s.log[i].who in s.at && s.at[s.log[i].who].tsdu == s.log[i].tsdu)
            && (forall i, j | 0 <= i < j < |s.log| :: s.log[i].who != s.log[j].who)
  {
    hide R.Valid, Reached, S.At;
    ReachedIsValid(x);
  }

  /** Octets in a stretch of the stream: a whole packet has its own and the four of its TPKT header. */
  function Octets(wire: seq<S.Item>): nat {
    if wire == [] then 0
    else
      Octets(wire[..|wire| - 1])
      + match wire[|wire| - 1] case Whole(packet) => 4 + |packet| case Torn(octets) => octets
  }

  lemma OctetsMore(wire: seq<S.Item>, item: S.Item)
    ensures Octets(wire + [item])
            == Octets(wire) + match item case Whole(packet) => 4 + |packet| case Torn(octets) => octets
  {
    assert (wire + [item])[..|wire|] == wire;
  }

  lemma StepCounts(x: End, e: Event)
    requires x.sender.moved == Octets(x.sender.wire)
    ensures Step(x, e).sender.moved == Octets(Step(x, e).sender.wire)
  {
    hide Packets, R.Step, R.Enabled, IoCause, S.NextPacket, Octets;
    if Enabled(x, e) && e.Write? && (e.w.Send? || e.w.Fail?) {
      OctetsMore(x.sender.wire, S.Whole(S.NextPacket(x.sender, x.sender.at[e.w.call])));
      if e.w.Fail? { OctetsMore(x.sender.wire, S.Torn(e.w.octets)); }
    }
  }

  lemma {:induction false} RunCounts(x: End, events: seq<Event>)
    requires x.sender.moved == Octets(x.sender.wire)
    ensures Run(x, events).sender.moved == Octets(Run(x, events).sender.wire)
    decreases |events|
  {
    hide Step, Octets;
    if events != [] {
      StepCounts(x, events[0]);
      RunCounts(Step(x, events[0]), events[1..]);
    }
  }

  /** The counter by which a failed write tells whether anything moved counts exactly the octets in the stream. */
  lemma OctetsAreCounted(x: End)
    requires Reached(x)
    ensures x.sender.moved == Octets(x.sender.wire)
  {
    hide Step;
    var start := Start(x.sender.maxTPDU, x.sender.maxTSDU);
    var events :| x == Run(start, events);
    RunCounts(start, events);
  }

  /** Whenever the write lock is free and the connection open, only whole TSDUs are in the stream. */
  lemma WholeBetweenWrites(x: End)
    requires Reached(x) && x.sender.lock == None && x.term == None
    ensures x.sender.tear == 0
    ensures forall i | 0 <= i < |x.sender.log| :: S.Complete(x.sender.log[i], x.sender.maxTPDU)
  {
    hide R.Valid, S.At, Reached, S.Flat, S.Complete;
    ReachedIsValid(x);
  }

  /** What a finished WriteTSDU promises: success, that its whole TSDU is in the stream; a bare context error or a local
      rejection, that none of its octets is; any other ending, that the connection has that terminal cause. */
  lemma WritersKeepPromises(x: End, c: S.Call)
    requires Reached(x) && c in x.sender.at && x.sender.at[c].Done?
    ensures match x.sender.at[c].result
            case Success => S.Finished(x.sender, c, x.sender.at[c].tsdu)
            case Terminal(e) => x.term == Some(e)
            case _ => S.Untouched(x.sender, c)
  {
    hide R.Valid, Reached, S.LogValid;
    ReachedIsValid(x);
    assert S.At(x.sender, x.term, c, x.sender.at[c]);
  }

  /** A transfer that stopped inside its TSDU has ended the connection by the time its call gives up the lock, and
      its call returns that terminal cause. */
  lemma BrokenTransferIsTerminal(x: End, i: nat)
    requires Reached(x) && i < |x.sender.log| && !S.Complete(x.sender.log[i], x.sender.maxTPDU)
    ensures x.sender.log[i].who in x.sender.at
    ensures var p := x.sender.at[x.sender.log[i].who];
            && (p.Done? || x.sender.lock == None ==> x.term.Some?)
            && (p.Done? ==> p.result == S.Terminal(x.term.value))
  {
    hide R.Valid, Reached;
    ReachedIsValid(x);
    var c := x.sender.log[i].who;
    assert S.At(x.sender, x.term, c, x.sender.at[c]);
    assert !S.Finished(x.sender, c, x.sender.at[c].tsdu);
  }

  // ---------------------------------------------------------------- reading

  /** Whatever the peer sends, the TSDUs delivered are those that reads one after the other make of the packets
      accepted; and whenever the read lock is free and the connection open, exactly their packets are consumed. */
  lemma DeliveryIsReassembly(x: End)
    requires Reached(x)
    ensures var r := x.receiver;
            && R.AllWhole(x.inbound, r.accepted) && r.accepted <= r.taken
            && Reads([], R.Front(x.inbound, r.accepted), r.maxTPDU, TsduBound(r.maxTSDU))
               == Some(Progress(r.delivered, r.held))
            && (r.lock == None && x.term == None ==> !r.broken && r.accepted == r.taken && r.held == [])
  {
    hide S.Valid, Reached, R.At;
    ReachedIsValid(x);
  }

  /** No packet is read once one was read in part or refused: lost packet boundaries are never read across. */
  lemma NothingIsReadBeyond(x: End, c: R.Call, stray: bytes)
    requires Reached(x) && R.Enabled(x.receiver, x.inbound, R.Read(c, stray))
    ensures !x.receiver.broken && R.NextPacket(x.receiver, x.inbound, stray) == x.inbound[x.receiver.taken].packet
  {
    hide S.Valid, Reached, R.Consumed, R.Owned;
    ReachedIsValid(x);
    assert R.At(x.receiver, x.term, c, x.receiver.at[c]);
  }

  /** The verdict on the next packet, whatever the peer sent: it is refused exactly when it is no segment or does not
      fit behind what is held, with the cause due to it; else it extends or completes the TSDU. */
  lemma PacketsAreJudged(x: End, c: R.Call, stray: bytes)
    requires Reached(x) && R.Enabled(x.receiver, x.inbound, R.Read(c, stray))
    ensures var r, p := x.receiver, R.NextPacket(x.receiver, x.inbound, stray);
            var after := R.Step(r, x.inbound, x.term, R.Read(c, stray)).0;
            var bound := if r.maxTSDU == 0 then 4194304 else r.maxTSDU;
            var fits := IsSegment(p, r.maxTPDU) && |Flatten(r.held)| + |Payload(p)| <= bound;
            && (!fits ==> after.at[c] == R.Aborting(r.at[c].gen, RefusalCause(r.held != [], p, r.maxTPDU)))
            && (fits && Ends(p) ==>
                  && after.at[c] == R.Leaving(r.at[c].gen, R.Got(Flatten(r.held) + Payload(p)))
                  && after.delivered == r.delivered + [Flatten(r.held) + Payload(p)])
            && (fits && !Ends(p) ==> after.at[c].Looping? && after.held == r.held + [Payload(p)])
  {
    hide S.Valid, Reached, R.Owned, RefusalCause, IsSegment, Ends, Payload, Absorb;
    ReachedIsValid(x);
    assert R.At(x.receiver, x.term, c, x.receiver.at[c]);
    var r, p := x.receiver, R.NextPacket(x.receiver, x.inbound, stray);
    HeldAreNonEmpty([], R.Front(x.inbound, r.accepted), r.maxTPDU, TsduBound(r.maxTSDU));
    AbsorbMeaning(r.held, p, r.maxTPDU, TsduBound(r.maxTSDU));
  }

  /** What a finished ReadTSDU promises, whatever the peer sends: a TSDU it returns is one that was delivered to it and
      to no other call; a bare context error or a local rejection means it consumed no octet; any other ending, that the
      connection has that terminal cause. */
  lemma ReadersKeepPromises(x: End, c: R.Call)
    requires Reached(x) && c in x.receiver.at && x.receiver.at[c].Done?
    ensures match x.receiver.at[c].result
            case Got(tsdu) => DeliveredTo(x.receiver, c, tsdu)
            case Terminal(e) => x.term == Some(e) && c !in x.receiver.owners
            case _ => R.By(x.receiver, c) == 0 && c !in x.receiver.owners
  {
    hide S.Valid, Reached, R.Consumed;
    ReachedIsValid(x);
    assert R.At(x.receiver, x.term, c, x.receiver.at[c]);
  }

  ghost predicate DeliveredTo(r: R.Receiver, c: R.Call, tsdu: bytes) {
    && |r.owners| == |r.delivered|
    && exists i :: 0 <= i < |r.owners| && r.owners[i] == c && r.delivered[i] == tsdu
  }

  /** Delivered TSDUs and the calls that return them match one to one. */
  lemma DeliveriesMatchCalls(x: End)
    requires Reached(x)
    ensures var r := x.receiver;
            && |r.owners| == |r.delivered|
            && (forall i | 0 <= i < |r.owners| ::
                  r.owners[i] in r.at && R.EndsWith(r.at[r.owners[i]], R.Got(r.delivered[i])))
            && (forall i, j | 0 <= i < j < |r.owners| :: r.owners[i] != r.owners[j])
            && (forall c | c in r.at && r.at[c].Done? && r.at[c].result.Got? :: c in r.owners)
  {
    hide S.Valid, Reached, R.Consumed;
    ReachedIsValid(x);
    forall c | c in x.receiver.at && x.receiver.at[c].Done? && x.receiver.at[c].result.Got?
      ensures c in x.receiver.owners
    {
      assert R.At(x.receiver, x.term, c, x.receiver.at[c]);
    }
  }

  // ---------------------------------------------------------------- the terminal cause

  /** The cause a failed write or a refused packet stores is what every call of this end that ends with a cause returns,
      in either direction. */
  lemma OneCausePerEnd(x: End, w: S.Call, r: R.Call)
    requires Reached(x)
    ensures w in x.sender.at && x.sender.at[w].Done? && x.sender.at[w].result.Terminal? ==>
              x.term == Some(x.sender.at[w].result.error)
    ensures r in x.receiver.at && x.receiver.at[r].Done? && x.receiver.at[r].result.Terminal? ==>
              x.term == Some(x.receiver.at[r].result.error)
  {
    hide Reached;
    if w in x.sender.at && x.sender.at[w].Done? { WritersKeepPromises(x, w); }
    if r in x.receiver.at && x.receiver.at[r].Done? { ReadersKeepPromises(x, r); }
  }

  /** A WriteTSDU or ReadTSDU that starts after the end: if it ever returns, it returns the stored cause, or the error
      of its context while it waited for the lock. */
  lemma {:induction false} LateCallsLearnTheCause(x: End, events: seq<Event>, w: S.Call, r: R.Call)
    requires x.term.Some?
    ensures Run(x, events).term == x.term
    ensures S.Late(x.sender, w, x.term.value) ==> S.Late(Run(x, events).sender, w, x.term.value)
    ensures R.Late(x.receiver, r, x.term.value) ==> R.Late(Run(x, events).receiver, r, x.term.value)
    decreases |events|
  {
    if events != [] {
      hide S.Late, R.Late, S.Step, R.Step, S.Enabled, R.Enabled;
      LateStep(x, events[0], w, r);
      LateCallsLearnTheCause(Step(x, events[0]), events[1..], w, r);
    }
  }

  lemma LateStep(x: End, e: Event, w: S.Call, r: R.Call)
    requires x.term.Some?
    ensures var y := Step(x, e);
            && y.term == x.term
            && (S.Late(x.sender, w, x.term.value) ==> S.Late(y.sender, w, x.term.value))
            && (R.Late(x.receiver, r, x.term.value) ==> R.Late(y.receiver, r, x.term.value))
  {
    hide S.Late, R.Late, S.Step, R.Step, S.Enabled, R.Enabled;
    if e.Write? && S.Enabled(x.sender, e.w) {
      S.EndedStays(x.sender, x.term.value, e.w);
      if S.Late(x.sender, w, x.term.value) { S.LateStays(x.sender, x.term.value, e.w, w); }
    }
    if e.Read? && R.Enabled(x.receiver, x.inbound, e.r) {
      R.EndedStays(x.receiver, x.inbound, x.term.value, e.r);
      if R.Late(x.receiver, r, x.term.value) { R.LateStays(x.receiver, x.inbound, x.term.value, e.r, r); }
    }
  }

  /** The second look of a write in this run comes when the state already shows the end. */
  predicate WriteSeesEnd(x: End, events: seq<Event>, c: S.Call)
    decreases |events|
  {
    && events != []
    && var e := events[0];
       if Enabled(x, e) && e.Write? && e.w.Check? && e.w.call == c then x.shown
       else WriteSeesEnd(Step(x, e), events[1..], c)
  }

  predicate ReadSeesEnd(x: End, events: seq<Event>, c: R.Call)
    decreases |events|
  {
    && events != []
    && var e := events[0];
       if Enabled(x, e) && e.Read? && e.r.Check? && e.r.call == c then x.shown
       else ReadSeesEnd(Step(x, e), events[1..], c)
  }

  /** One step after the end, seen from one call. */
  lemma FateStep(x: End, e: Event, w: S.Call, r: R.Call)
    requires x.term.Some? && w in x.sender.at && r in x.receiver.at
    ensures var y := Step(x, e);
            && y.term == x.term && w in y.sender.at && r in y.receiver.at
            && S.FateOf(y.sender.at[w])
               == (if Enabled(x, e) && e.Write? && e.w.Check? && e.w.call == w
                   then (if x.shown then S.Shuts else S.Spared) else S.FateOf(x.sender.at[w]))
            && R.FateOf(y.receiver.at[r])
               == (if Enabled(x, e) && e.Read? && e.r.Check? && e.r.call == r
                   then (if x.shown then S.Shuts else S.Spared) else R.FateOf(x.receiver.at[r]))
  {
    hide S.Step, R.Step, S.FateOf, R.FateOf, S.Enabled, R.Enabled;
    if Enabled(x, e) && e.Write? {
      S.EndedStays(x.sender, x.term.value, e.w);
      S.FateMoves(x.sender, x.term.value, e.w, w);
    }
    if Enabled(x, e) && e.Read? {
      R.EndedStays(x.receiver, x.inbound, x.term.value, e.r);
      R.FateMoves(x.receiver, x.inbound, x.term.value, e.r, r);
    }
  }

  lemma {:induction false} FateDecides(x: End, events: seq<Event>, w: S.Call, r: R.Call)
    requires x.term.Some? && w in x.sender.at && r in x.receiver.at
    ensures var z := Run(x, events);
            && w in z.sender.at && r in z.receiver.at
            && (z.sender.at[w].Done? ==>
                  (S.FateOf(z.sender.at[w]).Shuts? <==>
                     S.FateOf(x.sender.at[w]).Shuts?
                     || (S.FateOf(x.sender.at[w]).Undecided? && WriteSeesEnd(x, events, w))))
            && (z.receiver.at[r].Done? ==>
                  (R.FateOf(z.receiver.at[r]).Shuts? <==>
                     R.FateOf(x.receiver.at[r]).Shuts?
                     || (R.FateOf(x.receiver.at[r]).Undecided? && ReadSeesEnd(x, events, r))))
    decreases |events|
  {
    if events != [] {
      hide Step, Enabled, S.FateOf, R.FateOf;
      FateStep(x, events[0], w, r);
      FateDecides(Step(x, events[0]), events[1..], w, r);
      FateStays(Step(x, events[0]), events[1..], w, r);
    }
  }

  /** A decided fate stays decided. */
  lemma {:induction false} FateStays(x: End, events: seq<Event>, w: S.Call, r: R.Call)
    requires x.term.Some? && w in x.sender.at && r in x.receiver.at
    ensures var z := Run(x, events);
            && w in z.sender.at && r in z.receiver.at
            && (S.FateOf(z.sender.at[w]).Undecided? ==> S.FateOf(x.sender.at[w]).Undecided?)
            && (R.FateOf(z.receiver.at[r]).Undecided? ==> R.FateOf(x.receiver.at[r]).Undecided?)
    decreases |events|
  {
    if events != [] {
      hide Step, Enabled, S.FateOf, R.FateOf;
      FateStep(x, events[0], w, r);
      FateStays(Step(x, events[0]), events[1..], w, r);
    }
  }

  /** The end comes at event e: the calls under way are where they were, but for one that stores the cause itself. */
  lemma EndComes(x: End, e: Event, w: S.Call, r: R.Call)
    requires Valid(x) && x.term == None && Step(x, e).term.Some? && w in x.sender.at && r in x.receiver.at
    ensures var y := Step(x, e);
            && w in y.sender.at && r in y.receiver.at
            && S.FateOf(y.sender.at[w]) == S.FateOf(x.sender.at[w]) != S.Shuts
            && R.FateOf(y.receiver.at[r]) == R.FateOf(x.receiver.at[r]) != S.Shuts
  {
    hide S.LogValid, R.Consumed, R.Owned, S.Step, R.Step;
    if e.Write? { S.OnlyAbortEnds(x.sender, e.w, w); }
    if e.Read? { R.OnlyAbortEnds(x.receiver, x.inbound, e.r, r); }
    assert S.At(x.sender, x.term, w, x.sender.at[w]) && R.At(x.receiver, x.term, r, x.receiver.at[r]);
  }

  /** Exactly when a call under way at the end returns the bare closed error instead of the stored cause: it had passed
      its first look when the cause was stored, and its second look comes after the state was. */
  lemma ClosedErrorIff(x: End, e: Event, events: seq<Event>, w: S.Call, r: R.Call)
    requires Reached(x) && x.term == None && Step(x, e).term.Some? && w in x.sender.at && r in x.receiver.at
    ensures var y, z := Step(x, e), Run(Step(x, e), events);
            && w in z.sender.at && r in z.receiver.at
            && (z.sender.at[w].Done? ==>
                  (z.sender.at[w].result == S.Rejected({Closed}) <==>
                     x.sender.at[w].Admitted? && WriteSeesEnd(y, events, w)))
            && (z.receiver.at[r].Done? ==>
                  (z.receiver.at[r].result == R.Rejected({Closed}) <==>
                     x.receiver.at[r].Admitted? && ReadSeesEnd(y, events, r)))
  {
    hide Step, Valid, Reached, WriteSeesEnd, ReadSeesEnd, Run;
    ReachedIsValid(x);
    EndComes(x, e, w, r);
    FateDecides(Step(x, e), events, w, r);
  }

  const PATIENT := Ctx(None, false, false)

  /** The first write of an open end comes to stand between its two looks. */
  lemma WriteLooks(x: End, tsdu: bytes) returns (y: End)
    requires Reached(x) && x.term == None && x.sender.at == map[] && x.sender.lock == None
    ensures Reached(y) && y == x.(sender := y.sender) && 0 in y.sender.at && y.sender.at[0] == S.Admitted(tsdu)
  {
    hide Reached, Packets, IoCause;
    y := Follow(x, Write(S.Begin(0, tsdu)));
    y := Follow(y, Write(S.Lock(0)));
    y := Follow(y, Write(S.Look(0)));
  }

  lemma ReadLooks(x: End) returns (y: End)
    requires Reached(x) && x.term == None && x.receiver.at == map[] && x.receiver.lock == None
    ensures Reached(y) && y == x.(receiver := y.receiver) && 0 in y.receiver.at && y.receiver.at[0] == R.Admitted
  {
    hide Reached, IoCause, Absorb;
    y := Follow(x, Read(R.Begin(0)));
    y := Follow(y, Read(R.Lock(0)));
    y := Follow(y, Read(R.Look(0)));
  }

  /** A write that looks again after the end returns the bare closed error. */
  lemma WriteShuts(x: End, tsdu: bytes) returns (y: End)
    requires Reached(x) && x.term.Some? && x.shown && 0 in x.sender.at && x.sender.at[0] == S.Admitted(tsdu)
    ensures Reached(y) && y == x.(sender := y.sender)
    ensures 0 in y.sender.at && y.sender.at[0] == S.Done(tsdu, S.Rejected({Closed}))
  {
    hide Reached, Packets, IoCause;
    y := Follow(x, Write(S.Check(0, true, PATIENT)));
    y := Follow(y, Write(S.Unlock(0)));
  }

  lemma ReadShuts(x: End) returns (y: End)
    requires Reached(x) && x.term.Some? && x.shown && 0 in x.receiver.at && x.receiver.at[0] == R.Admitted
    ensures Reached(y) && y == x.(receiver := y.receiver)
    ensures 0 in y.receiver.at && y.receiver.at[0] == R.Done(R.Rejected({Closed}))
  {
    hide Reached, IoCause, Absorb;
    y := Follow(x, Read(R.Check(0, true, PATIENT)));
    y := Follow(y, Read(R.Unlock(0)));
  }

  /** Such calls exist, whatever the cause: here the end comes between the two looks of a write and of a read. */
  lemma ClosedInsteadOfCause(maxTPDU: int, maxTSDU: nat, tsdu: bytes, cause: Error) returns (x: End)
    ensures Reached(x) && x.term == Some(cause)
    ensures 0 in x.sender.at && x.sender.at[0] == S.Done(tsdu, S.Rejected({Closed}))
    ensures 0 in x.receiver.at && x.receiver.at[0] == R.Done(R.Rejected({Closed}))
  {
    hide Reached, S.Step, R.Step, S.Enabled, R.Enabled;
    StartIsValid(maxTPDU, maxTSDU);
    x := WriteLooks(Start(maxTPDU, maxTSDU), tsdu);
    x := ReadLooks(x);
    x := Follow(x, Terminate(cause));
    x := Follow(x, Show);
    x := WriteShuts(x, tsdu);
    x := ReadShuts(x);
  }

  lemma Follow(x: End, e: Event) returns (y: End)
    requires Reached(x)
    ensures y == Step(x, e) && Reached(y)
  {
    y := Step(x, e);
    StepReaches(x, e);
  }

  /** Deadlines are armed on an idle direction only: the locks give the holders the turns they rely on. */
  lemma ArmsAreSerialised(x: End, e: Event)
    requires Reached(x) && Enabled(x, e)
    ensures e.Write? && e.w.ArmDeadline? ==> x.sender.deadline.active == 0
    ensures e.Read? && e.r.ArmDeadline? ==> x.receiver.deadline.active == 0
    ensures x.sender.lock == None ==> x.sender.deadline.active == 0
    ensures x.receiver.lock == None ==> x.receiver.deadline.active == 0
  {
    hide Reached, S.LogValid, R.Consumed, R.Owned;
    ReachedIsValid(x);
    if e.Write? && e.w.ArmDeadline? {
      assert S.At(x.sender, x.term, e.w.call, x.sender.at[e.w.call]);
    }
    if e.Read? && e.r.ArmDeadline? {
      assert R.At(x.receiver, x.term, e.r.call, x.receiver.at[e.r.call]);
    }
  }
}

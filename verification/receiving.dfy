/** ReadTSDU as steps of any number of concurrent calls on one connection (tsdu.go:95-176), reading a stream that any
    peer fills with any packets. What an honest sender adds to that comes last. Once a packet was read in part or
    refused, later packet boundaries are lost: `Read` would then take whatever octets come. */
module Receiving {
  import opened Types
  import opened Transfer
  import Deadline
  import S = Sending

  type Call = nat

  datatype Ending = Got(tsdu: bytes) | Bare(error: Error) | Rejected(error: Error) | Terminal(error: Error)

  datatype Position =
    | Queued
    | Holding
    | Admitted
    | Checked
    | Looping(gen: nat, start: nat, segments: seq<bytes>)
    | Failed(gen: nat, start: nat, mid: bool, err: IoError)
    | Classifying(gen: nat, mid: bool, err: IoError)
    | Aborting(gen: nat, cause: Error)
    | Leaving(gen: nat, result: Ending)
    | Done(result: Ending)

  predicate InSection(p: Position) { !p.Queued? && !p.Done? }

  predicate EndsWith(p: Position, x: Ending) { (p.Leaving? || p.Done?) && p.result == x }

  /** `taken` counts the stream items consumed, `accepted` those that were accepted; `broken` says that one was read in
      part or refused. `delivered` are the TSDUs returned, in order, `owners` the calls that returned them, and `held`
      the segments of the one being reassembled. `tally` attributes octets to calls. */
  datatype Receiver = Receiver(
    maxTPDU: int, maxTSDU: nat,
    lock: Option<Call>, at: map<Call, Position>, deadline: Deadline.Direction,
    moved: nat, taken: nat, accepted: nat, broken: bool,
    delivered: seq<bytes>, owners: seq<Call>, held: seq<bytes>, tally: map<Call, nat>)

  function Fresh(maxTPDU: int, maxTSDU: nat): Receiver {
    Receiver(maxTPDU, maxTSDU, None, map[], Deadline.IDLE, 0, 0, 0, false, [], [], [], map[])
  }

  datatype Event =
    | Begin(call: Call)
    | GiveUp(call: Call, err: Error)
    | Lock(call: Call)
    | Look(call: Call)
    | Check(call: Call, shut: bool, ctx: Ctx)
    | ArmDeadline(call: Call, ctx: Ctx)
    | Read(call: Call, stray: bytes)
    | Fail(call: Call, octets: nat, failure: IoError)
    | Inspect(call: Call, ctx: Ctx)
    | Classify(call: Call, ctx: Ctx)
    | Abort(call: Call)
    | DisarmDeadline(call: Call)
    | Unlock(call: Call)

  /** Enough octets are there for ReadPacket to return a packet. */
  predicate Available(r: Receiver, wire: seq<S.Item>) {
    r.broken || (r.taken < |wire| && wire[r.taken].Whole?)
  }

  /** The packet ReadPacket returns: the next one, unless packet boundaries are lost. */
  function NextPacket(r: Receiver, wire: seq<S.Item>, stray: bytes): bytes
    requires Available(r, wire)
  {
    if r.broken then stray else wire[r.taken].packet
  }

  predicate Enabled(r: Receiver, wire: seq<S.Item>, e: Event) {
    if e.Begin? then e.call !in r.at
    else
      && e.call in r.at
      && var p := r.at[e.call];
      match e
      case GiveUp(_, _) => p.Queued?
      case Lock(_) => p.Queued? && r.lock == None
      case Look(_) => p.Holding?
      case Check(_, _, _) => p.Admitted?
      case ArmDeadline(_, _) => p.Checked?
      case Read(_, _) => p.Looping? && Available(r, wire)
      case Fail(_, _, _) => p.Looping?
      case Inspect(_, _) => p.Failed?
      case Classify(_, _) => p.Classifying?
      case Abort(_) => p.Aborting?
      case DisarmDeadline(_) => p.Leaving? && p.gen > 0
      case Unlock(_) => p.Leaving? && p.gen == 0
  }

  function By(r: Receiver, c: Call): nat { if c in r.tally then r.tally[c] else 0 }

  /** Call c moves octets of the stream. */
  function Moving(r: Receiver, c: Call, octets: nat): Receiver {
    r.(moved := r.moved + octets, tally := r.tally[c := By(r, c) + octets])
  }

  function Move(r: Receiver, c: Call, p: Position): Receiver { r.(at := r.at[c := p]) }

  /** requireOpen's second look, the context and the negotiated size. */
  function CheckResult(r: Receiver, term: Option<Error>, shut: bool, ctx: Ctx): Option<Ending> {
    if term.Some? && shut then Some(Rejected({Closed}))
    else if ctx.err.Some? then Some(Bare(ctx.err.value))
    else if r.maxTPDU < MIN_NEGOTIATED_TPDU then Some(Rejected({InvalidConfig}))
    else None
  }

  /** One packet read and judged. */
  function Absorbed(r: Receiver, c: Call, p: Position, packet: bytes): Receiver
    requires p.Looping?
  {
    var after := Moving(r, c, S.FrameLength(packet)).(taken := r.taken + 1);
    match Absorb(p.segments, packet, r.maxTPDU, TsduBound(r.maxTSDU))
    case Refuse(cause) => Move(after, c, Aborting(p.gen, cause)).(broken := true)
    case More(segments) => Move(after, c, p.(segments := segments)).(held := segments, accepted := r.accepted + 1)
    case Complete(tsdu) =>
      Move(after, c, Leaving(p.gen, Got(tsdu)))
        .(held := [], delivered := r.delivered + [tsdu], owners := r.owners + [c], accepted := r.accepted + 1)
  }

  /** The progress check and idleTimeout. */
  function Inspected(r: Receiver, term: Option<Error>, p: Position, ctx: Ctx): Position
    requires p.Failed?
  {
    if r.moved == p.start && term == None && p.err.timeout && CtxDone(ctx).Some? then
      Leaving(p.gen, Bare(CtxDone(ctx).value))
    else Classifying(p.gen, p.mid, p.err)
  }

  /** classifyIOPhase up to the abort; it looks at the stored cause and at the context anew. */
  function Classified(term: Option<Error>, p: Position, ctx: Ctx): Position
    requires p.Classifying?
  {
    if term.Some? then Leaving(p.gen, Terminal(term.value)) else Aborting(p.gen, IoCause(ctx, p.err, p.mid))
  }

  function Step(r: Receiver, wire: seq<S.Item>, term: Option<Error>, e: Event): (Receiver, Option<Error>)
    requires Enabled(r, wire, e)
  {
    var c := e.call;
    if e.Begin? then (Move(r, c, Queued), term)
    else
      var p := r.at[c];
      match e
      case GiveUp(_, err) => (Move(r, c, Done(Bare(err))), term)
      case Lock(_) => (Move(r, c, Holding).(lock := Some(c)), term)
      case Look(_) => (Move(r, c, if term.Some? then Leaving(0, Terminal(term.value)) else Admitted), term)
      case Check(_, shut, ctx) =>
        var bad := CheckResult(r, term, shut, ctx);
        (Move(r, c, if bad.Some? then Leaving(0, bad.value) else Checked), term)
      case ArmDeadline(_, ctx) =>
        if ctx.err.Some? then (Move(r, c, Leaving(0, Bare(ctx.err.value))), term)
        else
          var d := Deadline.ArmDirection(r.deadline);
          (Move(r, c, Looping(d.active, r.moved, [])).(deadline := d), term)
      case Read(_, stray) => (Absorbed(r, c, p, NextPacket(r, wire, stray)), term)
      case Fail(_, octets, failure) =>
        (Move(Moving(r, c, octets), c, Failed(p.gen, p.start, p.segments != [], failure))
           .(broken := r.broken || octets > 0), term)
      case Inspect(_, ctx) => (Move(r, c, Inspected(r, term, p, ctx)), term)
      case Classify(_, ctx) => (Move(r, c, Classified(term, p, ctx)), term)
      case Abort(_) =>
        var cause := S.First(term, p.cause);
        (Move(r, c, Leaving(p.gen, Terminal(cause.value))), cause)
      case DisarmDeadline(_) =>
        (Move(r, c, p.(gen := 0)).(deadline := Deadline.DisarmDirection(r.deadline, p.gen)), term)
      case Unlock(_) => (Move(r, c, Done(p.result)).(lock := None), term)
  }

  // ---------------------------------------------------------------- invariant, for any stream

  predicate AllWhole(wire: seq<S.Item>, n: nat) { n <= |wire| && forall i | 0 <= i < n :: wire[i].Whole? }

  /** The first n packets of a stream. */
  function Front(wire: seq<S.Item>, n: nat): seq<bytes>
    requires AllWhole(wire, n)
  {
    seq(n, i requires 0 <= i < n => wire[i].packet)
  }

  /** Reads one after the other over the packets accepted give exactly what was delivered and what is held. */
  predicate Consumed(r: Receiver, wire: seq<S.Item>) {
    && AllWhole(wire, r.accepted) && r.accepted <= r.taken <= |wire| && (!r.broken ==> r.accepted == r.taken)
    && Reads([], Front(wire, r.accepted), r.maxTPDU, TsduBound(r.maxTSDU)) == Some(Progress(r.delivered, r.held))
  }

  /** Every TSDU delivered is the result of one call, and of no other. */
  predicate Owned(r: Receiver) {
    && |r.owners| == |r.delivered|
    && (forall i | 0 <= i < |r.owners| :: r.owners[i] in r.at && EndsWith(r.at[r.owners[i]], Got(r.delivered[i])))
    && (forall i, j | 0 <= i < j < |r.owners| :: r.owners[i] != r.owners[j])
  }

  /** Between TSDUs, packet boundaries intact. */
  predicate Clean(r: Receiver) { !r.broken && r.held == [] }

  predicate Untouched(r: Receiver, c: Call) { By(r, c) == 0 && c !in r.owners }

  predicate At(r: Receiver, term: Option<Error>, c: Call, p: Position) {
    match p
    case Queued => Untouched(r, c)
    case Holding => Untouched(r, c) && (term.Some? || Clean(r)) && r.deadline.active == 0
    case Admitted => Untouched(r, c) && Clean(r) && r.deadline.active == 0
    case Checked => Untouched(r, c) && Clean(r) && r.deadline.active == 0
    case Looping(gen, start, segments) =>
      && r.deadline.active == gen > 0 && !r.broken && segments == r.held && c !in r.owners
      && r.moved == start + By(r, c) && (start == r.moved ==> r.held == [])
    case Failed(gen, start, mid, _) =>
      && r.deadline.active == gen > 0 && c !in r.owners && (mid <==> r.held != [])
      && r.moved == start + By(r, c) && (start == r.moved ==> Clean(r))
    case Classifying(gen, mid, _) => r.deadline.active == gen > 0 && c !in r.owners && (mid <==> r.held != [])
    case Aborting(gen, _) => r.deadline.active == gen > 0 && c !in r.owners
    case Leaving(gen, x) => r.deadline.active == gen && (term.Some? || Clean(r)) && Keeps(r, term, c, x)
    case Done(x) => Keeps(r, term, c, x)
  }

  predicate Keeps(r: Receiver, term: Option<Error>, c: Call, x: Ending) {
    match x
    case Got(_) => c in r.owners
    case Bare(_) => Untouched(r, c)
    case Rejected(e) => Untouched(r, c) && (e == {Closed} ==> term.Some?)
    case Terminal(e) => term == Some(e) && c !in r.owners
  }

  ghost predicate Valid(r: Receiver, term: Option<Error>, wire: seq<S.Item>) {
    && Consumed(r, wire) && Owned(r)
    && (forall c | c in r.at :: InSection(r.at[c]) <==> r.lock == Some(c))
    && (r.lock.Some? ==> r.lock.value in r.at)
    && (r.lock == None ==> (term.Some? || Clean(r)) && r.deadline.active == 0)
    && r.tally.Keys <= r.at.Keys
    && (forall c | c in r.at :: At(r, term, c, r.at[c]))
  }

  lemma FreshIsValid(maxTPDU: int, maxTSDU: nat, wire: seq<S.Item>)
    ensures Valid(Fresh(maxTPDU, maxTSDU), None, wire)
  {
    assert Front(wire, 0) == [];
    ReadsNothing(maxTPDU, TsduBound(maxTSDU));
  }

  // ---------------------------------------------------------------- preservation

  /** Another call does not notice a step of call c. */
  lemma OtherStands(r: Receiver, term: Option<Error>, r': Receiver, term': Option<Error>, c: Call, o: Call)
    requires o != c && o in r.at && At(r, term, o, r.at[o]) && (term.Some? ==> term' == term)
    requires r'.owners == r.owners || r'.owners == r.owners + [c]
    requires r'.tally == r.tally || (c in r'.tally && r'.tally == r.tally[c := r'.tally[c]])
    requires InSection(r.at[o]) ==> r' == r.(at := r'.at)
    ensures At(r', term', o, r.at[o])
  {
  }

  /** Whatever a step does to its own call, the invariant holds once the call's own part of it does. */
  lemma Reassembled(r: Receiver, term: Option<Error>, r': Receiver, term': Option<Error>, wire: seq<S.Item>, c: Call)
    requires Valid(r, term, wire) && (term.Some? ==> term' == term)
    requires c in r'.at && r'.at == r.at[c := r'.at[c]] && Consumed(r', wire) && Owned(r')
    requires r'.owners == r.owners || r'.owners == r.owners + [c]
    requires r'.tally == r.tally || (c in r'.tally && r'.tally == r.tally[c := r'.tally[c]])
    requires r.lock == Some(c) || r.lock == None || (r'.lock == r.lock && r' == r.(at := r'.at))
    requires if InSection(r'.at[c]) then r'.lock == Some(c)
             else r'.lock == None || (r'.lock == r.lock && r.lock != Some(c))
    requires r'.lock == None ==> (term'.Some? || Clean(r')) && r'.deadline.active == 0
    requires At(r', term', c, r'.at[c])
    ensures Valid(r', term', wire)
  {
    hide Consumed, Owned, At, Clean;
    forall o | o in r'.at && o != c
      ensures At(r', term', o, r'.at[o])
    {
      OtherStands(r, term, r', term', c, o);
    }
  }

  /** A step of c that accepts no packet keeps its result once it has one, and changes no other call's. */
  ghost predicate SameView(r: Receiver, r': Receiver, c: Call) {
    && r'.maxTPDU == r.maxTPDU && r'.maxTSDU == r.maxTSDU
    && r'.delivered == r.delivered && r'.owners == r.owners && r'.held == r.held
    && r'.accepted == r.accepted && r'.taken == r.taken && (r.broken ==> r'.broken)
    && c in r'.at && r'.at == r.at[c := r'.at[c]]
    && (c in r.owners ==> c in r.at && r.at[c].Leaving? && EndsWith(r'.at[c], r.at[c].result))
  }

  lemma ViewStays(r: Receiver, wire: seq<S.Item>, r': Receiver, c: Call)
    requires Consumed(r, wire) && Owned(r) && SameView(r, r', c)
    ensures Consumed(r', wire) && Owned(r')
  {
    hide Reads;
  }

  lemma OwnersAreCalls(r: Receiver, c: Call)
    requires Owned(r) && c !in r.at
    ensures c !in r.owners
  {
  }

  /** The steps that read no packet. */
  lemma QueueKeeps(r: Receiver, term: Option<Error>, wire: seq<S.Item>, e: Event)
    requires Valid(r, term, wire) && Enabled(r, wire, e) && (e.Begin? || e.GiveUp? || e.Lock?)
    ensures Valid(Step(r, wire, term, e).0, term, wire)
  {
    hide Consumed, Owned;
    var r' := Step(r, wire, term, e).0;
    if e.Begin? {
      OwnersAreCalls(r, e.call);
    } else {
      assert At(r, term, e.call, r.at[e.call]);
    }
    ViewStays(r, wire, r', e.call);
    Reassembled(r, term, r', term, wire, e.call);
  }

  /** The steps of a call that holds the lock and accepts no packet. */
  predicate Steady(e: Event) { !e.Begin? && !e.GiveUp? && !e.Lock? && !e.Read? }

  lemma SteadyKeeps(r: Receiver, term: Option<Error>, wire: seq<S.Item>, e: Event)
    requires Valid(r, term, wire) && Enabled(r, wire, e) && Steady(e)
    ensures var (r', term') := Step(r, wire, term, e); Valid(r', term', wire)
  {
    hide Consumed, Owned, IoCause;
    var (r', term') := Step(r, wire, term, e);
    var c := e.call;
    assert At(r, term, c, r.at[c]);
    SteadyStands(r, term, wire, e);
    ViewStays(r, wire, r', c);
    Reassembled(r, term, r', term', wire, c);
  }

  /** What such a step does to its own call, and that it does nothing else. */
  ghost predicate Stands(r: Receiver, term: Option<Error>, r': Receiver, term': Option<Error>, c: Call) {
    && SameView(r, r', c) && At(r', term', c, r'.at[c]) && (term.Some? ==> term' == term)
    && (r'.tally == r.tally || (c in r'.tally && r'.tally == r.tally[c := r'.tally[c]]))
    && (if InSection(r'.at[c]) then r'.lock == Some(c) else r'.lock == None)
    && (r'.lock == None ==> (term'.Some? || Clean(r')) && r'.deadline.active == 0)
  }

  lemma SteadyStands(r: Receiver, term: Option<Error>, wire: seq<S.Item>, e: Event)
    requires Enabled(r, wire, e) && Steady(e) && At(r, term, e.call, r.at[e.call]) && r.lock == Some(e.call)
    ensures var (r', term') := Step(r, wire, term, e); Stands(r, term, r', term', e.call)
  {
    hide Stands, At, Step;
    if e.Look? || e.Check? || e.ArmDeadline? {
      EntryStands(r, term, wire, e);
    } else if e.DisarmDeadline? || e.Unlock? {
      ExitStands(r, term, wire, e);
    } else {
      FailureStands(r, term, wire, e);
    }
  }

  lemma EntryStands(r: Receiver, term: Option<Error>, wire: seq<S.Item>, e: Event)
    requires Enabled(r, wire, e) && (e.Look? || e.Check? || e.ArmDeadline?)
    requires At(r, term, e.call, r.at[e.call]) && r.lock == Some(e.call)
    ensures var (r', term') := Step(r, wire, term, e); Stands(r, term, r', term', e.call)
  {
  }

  lemma FailureStands(r: Receiver, term: Option<Error>, wire: seq<S.Item>, e: Event)
    requires Enabled(r, wire, e) && (e.Fail? || e.Inspect? || e.Classify? || e.Abort?)
    requires At(r, term, e.call, r.at[e.call]) && r.lock == Some(e.call)
    ensures var (r', term') := Step(r, wire, term, e); Stands(r, term, r', term', e.call)
  {
    hide IoCause;
  }

  lemma ExitStands(r: Receiver, term: Option<Error>, wire: seq<S.Item>, e: Event)
    requires Enabled(r, wire, e) && (e.DisarmDeadline? || e.Unlock?)
    requires At(r, term, e.call, r.at[e.call]) && r.lock == Some(e.call)
    ensures var (r', term') := Step(r, wire, term, e); Stands(r, term, r', term', e.call)
  {
  }

  /** The next packet extends what reads one after the other make of the stream. */
  lemma AbsorbedIsConsumed(r: Receiver, wire: seq<S.Item>, c: Call, p: Position)
    requires Consumed(r, wire) && !r.broken && Available(r, wire) && p.Looping? && p.segments == r.held
    ensures Consumed(Absorbed(r, c, p, wire[r.taken].packet), wire)
  {
    hide Absorb, Reads;
    var packet := wire[r.taken].packet;
    var r' := Absorbed(r, c, p, packet);
    ReadsAdvance([], Front(wire, r.accepted), packet, r.maxTPDU, TsduBound(r.maxTSDU));
    if !r'.broken {
      assert Front(wire, r.accepted + 1) == Front(wire, r.accepted) + [packet];
    }
  }

  lemma AbsorbedIsOwned(r: Receiver, c: Call, p: Position, packet: bytes)
    requires Owned(r) && p.Looping? && c !in r.owners
    ensures Owned(Absorbed(r, c, p, packet))
  {
    hide Absorb;
    var r' := Absorbed(r, c, p, packet);
    forall i | 0 <= i < |r'.owners|
      ensures r'.owners[i] in r'.at && EndsWith(r'.at[r'.owners[i]], Got(r'.delivered[i]))
    {
      if i < |r.owners| { assert r.owners[i] in r.owners && r.owners[i] != c; }
    }
    forall i, j | 0 <= i < j < |r'.owners| ensures r'.owners[i] != r'.owners[j] {
      assert r.owners[i] in r.owners;
    }
  }

  lemma AbsorbedStands(r: Receiver, term: Option<Error>, c: Call, p: Position, packet: bytes)
    requires p.Looping? && c in r.at && At(r, term, c, p) && r.lock == Some(c)
    ensures var r' := Absorbed(r, c, p, packet);
            && c in r'.tally && r'.tally == r.tally[c := r'.tally[c]]
            && c in r'.at && r'.at == r.at[c := r'.at[c]] && InSection(r'.at[c]) && r'.lock == r.lock
            && At(r', term, c, r'.at[c])
            && (r'.owners == r.owners || r'.owners == r.owners + [c])
  {
    hide Absorb;
  }

  lemma ReadKeeps(r: Receiver, term: Option<Error>, wire: seq<S.Item>, c: Call, stray: bytes)
    requires Valid(r, term, wire) && Enabled(r, wire, Read(c, stray))
    ensures Valid(Step(r, wire, term, Read(c, stray)).0, term, wire)
  {
    hide Consumed, Owned, Absorbed;
    var p := r.at[c];
    assert At(r, term, c, p);
    var packet := wire[r.taken].packet;
    AbsorbedIsConsumed(r, wire, c, p);
    AbsorbedIsOwned(r, c, p, packet);
    AbsorbedStands(r, term, c, p, packet);
    Reassembled(r, term, Absorbed(r, c, p, packet), term, wire, c);
  }

  /** Every step of every call keeps the invariant, whatever the stream holds. */
  lemma StepKeeps(r: Receiver, term: Option<Error>, wire: seq<S.Item>, e: Event)
    requires Valid(r, term, wire) && Enabled(r, wire, e)
    ensures var (r', term') := Step(r, wire, term, e); Valid(r', term', wire) && (term.Some? ==> term' == term)
  {
    hide Valid, Absorbed;
    match e
    case Read(c, stray) => ReadKeeps(r, term, wire, c, stray);
    case Begin(_) => QueueKeeps(r, term, wire, e);
    case GiveUp(_, _) => QueueKeeps(r, term, wire, e);
    case Lock(_) => QueueKeeps(r, term, wire, e);
    case _ => SteadyKeeps(r, term, wire, e);
  }

  /** A terminal cause from elsewhere: Close, or an abort by the write direction. */
  lemma TermKeeps(r: Receiver, term: Option<Error>, wire: seq<S.Item>, term': Option<Error>)
    requires Valid(r, term, wire) && (term.Some? ==> term' == term)
    ensures Valid(r, term', wire)
  {
    hide Consumed, Owned;
    forall c | c in r.at ensures At(r, term', c, r.at[c]) {
      assert At(r, term, c, r.at[c]);
    }
  }

  /** More of the stream arrives. */
  lemma ArrivalKeeps(r: Receiver, term: Option<Error>, wire: seq<S.Item>, wire': seq<S.Item>)
    requires Valid(r, term, wire) && wire <= wire'
    ensures Valid(r, term, wire')
  {
    hide Owned, Reads;
    assert Front(wire', r.accepted) == Front(wire, r.accepted);
  }

  /** Where a call can be that has not looked before the connection ended with this cause. */
  predicate Late(r: Receiver, c: Call, cause: Error) {
    c in r.at ==>
      var p := r.at[c];
      || p.Queued? || p.Holding?
      || (p.Leaving? && p.result == Terminal(cause))
      || (p.Done? && (p.result.Bare? || p.result == Terminal(cause)))
  }

  lemma LateStays(r: Receiver, wire: seq<S.Item>, cause: Error, e: Event, c: Call)
    requires Enabled(r, wire, e) && Late(r, c, cause)
    ensures Late(Step(r, wire, Some(cause), e).0, c, cause)
  {
    hide Absorb, IoCause;
  }

  lemma EndedStays(r: Receiver, wire: seq<S.Item>, cause: Error, e: Event)
    requires Enabled(r, wire, e)
    ensures Step(r, wire, Some(cause), e).1 == Some(cause)
  {
    hide Absorb, IoCause;
  }

  /** Whether a call will return the bare closed error once the connection has ended. */
  function FateOf(p: Position): S.Fate {
    if p.Admitted? then S.Undecided
    else if EndsWith(p, Rejected({Closed})) then S.Shuts
    else S.Spared
  }

  /** The end stored by a read: its own call aborts. */
  lemma OnlyAbortEnds(r: Receiver, wire: seq<S.Item>, e: Event, c: Call)
    requires Enabled(r, wire, e) && Step(r, wire, None, e).1.Some? && c in r.at
    ensures var r' := Step(r, wire, None, e).0; c in r'.at && FateOf(r'.at[c]) == FateOf(r.at[c])
  {
    hide Absorb, IoCause, Absorbed;
  }

  lemma AbsorbedIsSpared(r: Receiver, c: Call, p: Position, packet: bytes)
    requires p.Looping?
    ensures var r' := Absorbed(r, c, p, packet);
            && c in r'.at && r'.at == r.at[c := r'.at[c]] && FateOf(r'.at[c]) == S.Spared
  {
    hide Absorb;
  }

  lemma FateMoves(r: Receiver, wire: seq<S.Item>, cause: Error, e: Event, c: Call)
    requires Enabled(r, wire, e) && c in r.at
    ensures var r' := Step(r, wire, Some(cause), e).0;
            && c in r'.at
            && FateOf(r'.at[c])
               == if e.Check? && e.call == c then (if e.shut then S.Shuts else S.Spared) else FateOf(r.at[c])
  {
    hide Absorb, IoCause, Absorbed;
    if e.Read? { AbsorbedIsSpared(r, e.call, r.at[e.call], NextPacket(r, wire, e.stray)); }
  }

  /** A call that has failed with nothing moved, or is on its way out with its context's bare error. */
  predicate Excused(r: Receiver, c: Call) {
    && c in r.at
    && var p := r.at[c];
    (p.Failed? && p.err.timeout && r.moved == p.start) || ((p.Leaving? || p.Done?) && p.result.Bare?)
  }

  /** Other calls leave it that, and so does every step of its own but a look at its context that finds nothing. */
  lemma ExcusedStays(r: Receiver, wire: seq<S.Item>, term: Option<Error>, e: Event, c: Call)
    requires Valid(r, term, wire) && Enabled(r, wire, e) && Excused(r, c)
    requires e.Inspect? && e.call == c ==> term == None && CtxDone(e.ctx).Some?
    ensures Excused(Step(r, wire, term, e).0, c) && (e.call == c ==> Step(r, wire, term, e).1 == term)
  {
    hide Consumed, Owned, Absorb, IoCause, Absorbed, At;
    if e.call != c && InSection(r.at[c]) {
      assert r.lock == Some(c) && !(e.call in r.at && InSection(r.at[e.call]));
    }
    if e.Read? && e.call != c { AbsorbedSpares(r, e.call, r.at[e.call], NextPacket(r, wire, e.stray), c); }
  }

  lemma AbsorbedSpares(r: Receiver, c: Call, p: Position, packet: bytes, o: Call)
    requires p.Looping? && o != c && o in r.at
    ensures o in Absorbed(r, c, p, packet).at && Absorbed(r, c, p, packet).at[o] == r.at[o]
  {
    hide Absorb;
  }

  /** A call comes to have failed by its own Fail only, under the generation it armed. */
  lemma OnlyFailFails(r: Receiver, wire: seq<S.Item>, term: Option<Error>, e: Event, c: Call)
    requires Enabled(r, wire, e) && c in Step(r, wire, term, e).0.at && Step(r, wire, term, e).0.at[c].Failed?
    ensures c in r.at
    ensures var p := Step(r, wire, term, e).0.at[c];
            if e.Fail? && e.call == c then r.at[c].Looping? && p.gen == r.at[c].gen && p.err == e.failure
            else p == r.at[c]
  {
    hide Absorb, IoCause;
  }

  // ---------------------------------------------------------------- what an honest sender adds

  /** The TSDUs read are the first of the sender's log, whole; the segments held are the first of the next one; and
      the packets accepted are exactly theirs. */
  ghost predicate Placed(s: S.Sender, n: nat, x: Progress)
    requires S.AllPartial(s.log, s.maxTPDU)
  {
    var k := |x.delivered|;
    && k <= |s.log|
    && (forall i | 0 <= i < k :: S.Complete(s.log[i], s.maxTPDU) && x.delivered[i] == s.log[i].tsdu)
    && n == |S.Flat(s.log[..k], s.maxTPDU)| + |x.held|
    && (x.held != [] ==>
          && k < |s.log|
          && |x.held| <= s.log[k].sent
          && |x.held| < |Packets(s.log[k].tsdu, s.maxTPDU)|
          && x.held == Chunks(s.log[k].tsdu, MaxSegmentPayload(s.maxTPDU))[..|x.held|])
  }

  /** Where the log's packets lie in the stream. */
  lemma {:induction false} FlatAt(log: seq<S.Entry>, maxTPDU: int, n: nat, j: nat)
    requires S.AllPartial(log, maxTPDU) && n < |log| && j < log[n].sent
    ensures |S.Flat(log[..n], maxTPDU)| + j < |S.Flat(log, maxTPDU)|
    ensures S.Flat(log, maxTPDU)[|S.Flat(log[..n], maxTPDU)| + j] == S.Whole(Packets(log[n].tsdu, maxTPDU)[j])
  {
    hide Packets;
    var last := |log| - 1;
    if n < last {
      FlatAt(log[..last], maxTPDU, n, j);
      assert log[..last][..n] == log[..n];
    }
  }

  /** The next packet of an honest stream is the next one of the TSDU being reassembled. */
  lemma NextIsExpected(s: S.Sender, n: nat, x: Progress)
    requires S.LogValid(s) && Placed(s, n, x) && n < |s.wire| && s.wire[n].Whole?
    ensures var k, j := |x.delivered|, |x.held|;
            && k < |s.log| && j < s.log[k].sent
            && s.wire[n] == S.Whole(Packets(s.log[k].tsdu, s.maxTPDU)[j])
  {
    hide Packets, Chunks, S.Flat;
    var k, j := |x.delivered|, |x.held|;
    var flat := S.Flat(s.log, s.maxTPDU);
    assert n < |flat|;
    assert s.log[..|s.log|] == s.log;
    if k < |s.log| {
      PacketsExist(s.log[k].tsdu, s.maxTPDU);
      S.FlatAppend(s.log[..k], s.log[k], s.maxTPDU);
      assert s.log[..k] + [s.log[k]] == s.log[..k + 1];
      FlatAt(s.log, s.maxTPDU, k, j);
    }
  }

  /** The first j + 1 chunks of a TSDU. */
  lemma ChunkPrefix(tsdu: bytes, m: nat, j: nat)
    requires tsdu != [] && m > 0 && j < |Chunks(tsdu, m)|
    ensures var cs := Chunks(tsdu, m);
            && 1 <= |cs[j]| <= m && NonEmpty(cs[..j]) && cs[..j] + [cs[j]] == cs[..j + 1]
            && Flatten(cs[..j]) + cs[j] == Flatten(cs[..j + 1])
            && |Flatten(cs[..j + 1])| <= |tsdu|
            && (j == |cs| - 1 ==> Flatten(cs[..j + 1]) == tsdu)
  {
    hide Chunks;
    var cs := Chunks(tsdu, m);
    ChunksMeaning(tsdu, m);
    forall i | 0 <= i <= j ensures 1 <= |cs[i]| <= m { assert cs[i] in cs; }
    FlattenMore(cs[..j], cs[j]);
    assert cs[..j] + [cs[j]] == cs[..j + 1];
    FlattenPrefix(cs, j + 1);
    assert cs[..|cs|] == cs;
  }

  lemma {:induction false} FlattenPrefix(cs: seq<bytes>, n: nat)
    requires n <= |cs|
    ensures |Flatten(cs[..n])| <= |Flatten(cs)|
  {
    if n > 0 {
      FlattenPrefix(cs[1..], n - 1);
      assert cs[..n][1..] == cs[1..][..n - 1];
    }
  }

  /** What the reassembly makes of the expected packet: refusal, one more segment, or the TSDU itself. */
  lemma ExpectedPacket(held: seq<bytes>, tsdu: bytes, senderMax: int, maxTPDU: int, maxTSDU: int)
    requires tsdu != [] && senderMax >= MIN_NEGOTIATED_TPDU && |held| < |Packets(tsdu, senderMax)|
    requires held == Chunks(tsdu, MaxSegmentPayload(senderMax))[..|held|]
    ensures var cs, j := Chunks(tsdu, MaxSegmentPayload(senderMax)), |held|;
            var v := Absorb(held, Packets(tsdu, senderMax)[j], maxTPDU, maxTSDU);
            && (v.More? ==> j < |cs| - 1 && v.segments == cs[..j + 1])
            && (v.Complete? ==> j == |cs| - 1 && v.tsdu == tsdu)
            && (v.Refuse? ==> senderMax > maxTPDU || |tsdu| > maxTSDU)
  {
    var cs, j := Chunks(tsdu, MaxSegmentPayload(senderMax)), |held|;
    ChunkPrefix(tsdu, MaxSegmentPayload(senderMax), j);
    PacketIsSegment(j == |cs| - 1, cs[j], senderMax);
    AbsorbMeaning(held, Packets(tsdu, senderMax)[j], maxTPDU, maxTSDU);
  }

  /** A whole TSDU of the log was read: the reader stands behind the next entry. */
  lemma DeliveryIsPlaced(s: S.Sender, n: nat, x: Progress, y: Progress)
    requires S.AllPartial(s.log, s.maxTPDU) && Placed(s, n, x)
    requires |x.delivered| < |s.log| && |x.held| + 1 == s.log[|x.delivered|].sent
    requires S.Complete(s.log[|x.delivered|], s.maxTPDU)
    requires y == Progress(x.delivered + [s.log[|x.delivered|].tsdu], [])
    ensures Placed(s, n + 1, y)
  {
    hide Packets, Chunks, S.Flat;
    var k := |x.delivered|;
    S.FlatAppend(s.log[..k], s.log[k], s.maxTPDU);
    assert s.log[..k] + [s.log[k]] == s.log[..k + 1];
  }

  lemma AdvanceIsPlaced(s: S.Sender, n: nat, x: Progress, maxTPDU: int, maxTSDU: int)
    requires S.LogValid(s) && Placed(s, n, x) && n < |s.wire| && s.wire[n].Whole?
    ensures var y := Advanced(x, s.wire[n].packet, maxTPDU, maxTSDU); y.Some? ==> Placed(s, n + 1, y.value)
  {
    hide Absorb, S.Flat;
    NextIsExpected(s, n, x);
    var k := |x.delivered|;
    ExpectedPacket(x.held, s.log[k].tsdu, s.maxTPDU, maxTPDU, maxTSDU);
    var y := Advanced(x, s.wire[n].packet, maxTPDU, maxTSDU);
    if y.Some? && y.value.delivered != x.delivered {
      DeliveryIsPlaced(s, n, x, y.value);
    }
  }

  /** What reads one after the other make of the packets of an honest sender. */
  lemma {:induction false} HonestReads(s: S.Sender, n: nat, maxTPDU: int, maxTSDU: int)
    requires S.LogValid(s) && AllWhole(s.wire, n)
    ensures var x := Reads([], Front(s.wire, n), maxTPDU, maxTSDU); x.Some? ==> Placed(s, n, x.value)
  {
    hide S.LogValid, Placed, Reads;
    if n == 0 {
      assert Front(s.wire, 0) == [];
      ReadsNothing(maxTPDU, maxTSDU);
      NothingIsPlaced(s);
    } else {
      HonestReads(s, n - 1, maxTPDU, maxTSDU);
      assert Front(s.wire, n) == Front(s.wire, n - 1) + [s.wire[n - 1].packet];
      ReadsAdvance([], Front(s.wire, n - 1), s.wire[n - 1].packet, maxTPDU, maxTSDU);
      var x := Reads([], Front(s.wire, n - 1), maxTPDU, maxTSDU);
      if x.Some? { AdvanceIsPlaced(s, n - 1, x.value, maxTPDU, maxTSDU); }
    }
  }

  lemma NothingIsPlaced(s: S.Sender)
    requires S.LogValid(s)
    ensures Placed(s, 0, Progress([], []))
  {
  }
}

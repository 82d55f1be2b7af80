/** WriteTSDU as steps of any number of concurrent calls on one connection (tsdu.go:31-84, conn.go:199-235).
    A step is one access to shared state; calls interleave between steps in any order. */
module Sending {
  import opened Types
  import opened Transfer
  import Deadline

  /** One call of WriteTSDU. */
  type Call = nat

  /** What the peer can find in the stream: a whole TPKT packet, or the first octets of one. */
  datatype Item = Whole(packet: bytes) | Torn(octets: nat)

  datatype Ending = Success | Bare(error: Error) | Rejected(error: Error) | Terminal(error: Error)

  /** Where a call is. `gen` is its deadline generation, 0 when none is armed; `start` the octet count it began at. */
  datatype Position =
    | Queued(tsdu: bytes)
    | Holding(tsdu: bytes)
    | Admitted(tsdu: bytes)
    | Checked(tsdu: bytes)
    | Looping(tsdu: bytes, gen: nat, start: nat, next: nat)
    | Failed(tsdu: bytes, gen: nat, start: nat, err: IoError)
    | Classifying(tsdu: bytes, gen: nat, err: IoError)
    | Aborting(tsdu: bytes, gen: nat, cause: Error)
    | Leaving(tsdu: bytes, gen: nat, result: Ending)
    | Done(tsdu: bytes, result: Ending)

  predicate InSection(p: Position) { !p.Queued? && !p.Done? }

  /** A TSDU that moved octets, by which call, and how many of its packets have moved whole. */
  datatype Entry = Entry(who: Call, tsdu: bytes, sent: nat)

  datatype Sender = Sender(
    maxTPDU: int, maxTSDU: nat,
    lock: Option<Call>, at: map<Call, Position>, deadline: Deadline.Direction,
    moved: nat, wire: seq<Item>, tear: nat, log: seq<Entry>)

  function Fresh(maxTPDU: int, maxTSDU: nat): Sender {
    Sender(maxTPDU, maxTSDU, None, map[], Deadline.IDLE, 0, [], 0, [])
  }

  /** The first terminal cause stays (finish runs once). */
  function First(term: Option<Error>, cause: Error): Option<Error> { if term.Some? then term else Some(cause) }

  /** Octets of a packet on the stream: the TPKT header is four octets long. */
  function FrameLength(packet: bytes): nat { 4 + |packet| }

  datatype Event =
    | Begin(call: Call, tsdu: bytes)
    | GiveUp(call: Call, err: Error)
    | Lock(call: Call)
    | Look(call: Call)
    | Check(call: Call, shut: bool, ctx: Ctx)
    | ArmDeadline(call: Call, ctx: Ctx)
    | Send(call: Call)
    | Fail(call: Call, octets: nat, failure: IoError)
    | Inspect(call: Call, ctx: Ctx)
    | Classify(call: Call, ctx: Ctx)
    | Abort(call: Call)
    | Finish(call: Call)
    | DisarmDeadline(call: Call)
    | Unlock(call: Call)

  predicate CanSend(s: Sender, p: Position) {
    && p.Looping? && p.tsdu != [] && s.maxTPDU >= MIN_NEGOTIATED_TPDU
    && p.next < |Packets(p.tsdu, s.maxTPDU)|
  }

  function NextPacket(s: Sender, p: Position): bytes
    requires CanSend(s, p)
  {
    Packets(p.tsdu, s.maxTPDU)[p.next]
  }

  predicate Enabled(s: Sender, e: Event) {
    if e.Begin? then e.call !in s.at
    else
      && e.call in s.at
      && var p := s.at[e.call];
      match e
      case GiveUp(_, _) => p.Queued?
      case Lock(_) => p.Queued? && s.lock == None
      case Look(_) => p.Holding?
      case Check(_, _, _) => p.Admitted?
      case ArmDeadline(_, _) => p.Checked?
      case Send(_) => CanSend(s, p)
      case Fail(_, octets, _) => CanSend(s, p) && octets <= FrameLength(NextPacket(s, p))
      case Inspect(_, _) => p.Failed?
      case Classify(_, _) => p.Classifying?
      case Abort(_) => p.Aborting?
      case Finish(_) => p.Looping? && !CanSend(s, p)
      case DisarmDeadline(_) => p.Leaving? && p.gen > 0
      case Unlock(_) => p.Leaving? && p.gen == 0
  }

  function Move(s: Sender, c: Call, p: Position): Sender { s.(at := s.at[c := p]) }

  /** requireOpen's second look, the context, the length and the negotiated size, in the source's order. A connection
      that ended after the first look may show it in its state (`shut`); then the error is the bare closed one. */
  function CheckResult(s: Sender, term: Option<Error>, shut: bool, tsdu: bytes, ctx: Ctx): Option<Ending> {
    if term.Some? && shut then Some(Rejected({Closed}))
    else if ctx.err.Some? then Some(Bare(ctx.err.value))
    else if WriteLengthError(|tsdu|, s.maxTSDU).Some? then Some(Rejected(WriteLengthError(|tsdu|, s.maxTSDU).value))
    else if MaxSegmentPayload(s.maxTPDU) < 1 then Some(Rejected({InvalidConfig}))
    else None
  }

  /** The next packet moves whole. */
  function Sent(s: Sender, c: Call, p: Position): Sender
    requires CanSend(s, p)
  {
    var packet := NextPacket(s, p);
    var entry := Entry(c, p.tsdu, p.next + 1);
    s.(moved := s.moved + FrameLength(packet), wire := s.wire + [Whole(packet)],
       log := if p.next == 0 || s.log == [] then s.log + [entry] else s.log[|s.log| - 1 := entry])
  }

  /** Only the first octets of the next packet move. */
  function Tear(s: Sender, c: Call, p: Position, octets: nat): Sender {
    s.(moved := s.moved + octets, wire := s.wire + [Torn(octets)], tear := octets,
       log := if p.Looping? && p.next == 0 then s.log + [Entry(c, p.tsdu, 0)] else s.log)
  }

  /** The progress check and idleTimeout. */
  function Inspected(s: Sender, term: Option<Error>, p: Position, ctx: Ctx): Position
    requires p.Failed?
  {
    if s.moved == p.start && term == None && p.err.timeout && CtxDone(ctx).Some? then
      Leaving(p.tsdu, p.gen, Bare(CtxDone(ctx).value))
    else Classifying(p.tsdu, p.gen, p.err)
  }

  /** classifyIOPhase up to the abort; it looks at the stored cause and at the context anew. */
  function Classified(term: Option<Error>, p: Position, ctx: Ctx): Position
    requires p.Classifying?
  {
    if term.Some? then Leaving(p.tsdu, p.gen, Terminal(term.value))
    else Aborting(p.tsdu, p.gen, IoCause(ctx, p.err, false))
  }

  function Step(s: Sender, term: Option<Error>, e: Event): (Sender, Option<Error>)
    requires Enabled(s, e)
  {
    var c := e.call;
    if e.Begin? then (Move(s, c, Queued(e.tsdu)), term)
    else
      var p := s.at[c];
      match e
      case GiveUp(_, err) => (Move(s, c, Done(p.tsdu, Bare(err))), term)
      case Lock(_) => (Move(s, c, Holding(p.tsdu)).(lock := Some(c)), term)
      case Look(_) =>
        (Move(s, c, if term.Some? then Leaving(p.tsdu, 0, Terminal(term.value)) else Admitted(p.tsdu)), term)
      case Check(_, shut, ctx) =>
        var bad := CheckResult(s, term, shut, p.tsdu, ctx);
        (Move(s, c, if bad.Some? then Leaving(p.tsdu, 0, bad.value) else Checked(p.tsdu)), term)
      case ArmDeadline(_, ctx) =>
        if ctx.err.Some? then (Move(s, c, Leaving(p.tsdu, 0, Bare(ctx.err.value))), term)
        else
          var d := Deadline.ArmDirection(s.deadline);
          (Move(s, c, Looping(p.tsdu, d.active, s.moved, 0)).(deadline := d), term)
      case Send(_) => (Move(Sent(s, c, p), c, p.(next := p.next + 1)), term)
      case Fail(_, octets, err) =>
        var after := if octets == 0 then s
                     else if octets == FrameLength(NextPacket(s, p)) then Sent(s, c, p)
                     else Tear(s, c, p, octets);
        (Move(after, c, Failed(p.tsdu, p.gen, p.start, err)), term)
      case Inspect(_, ctx) => (Move(s, c, Inspected(s, term, p, ctx)), term)
      case Classify(_, ctx) => (Move(s, c, Classified(term, p, ctx)), term)
      case Abort(_) =>
        var cause := First(term, p.cause);
        (Move(s, c, Leaving(p.tsdu, p.gen, Terminal(cause.value))), cause)
      case Finish(_) => (Move(s, c, Leaving(p.tsdu, p.gen, Success)), term)
      case DisarmDeadline(_) =>
        (Move(s, c, p.(gen := 0)).(deadline := Deadline.DisarmDirection(s.deadline, p.gen)), term)
      case Unlock(_) => (Move(s, c, Done(p.tsdu, p.result)).(lock := None), term)
  }

  // ---------------------------------------------------------------- invariant

  predicate Complete(e: Entry, maxTPDU: int) {
    e.tsdu != [] && maxTPDU >= MIN_NEGOTIATED_TPDU && e.sent == |Packets(e.tsdu, maxTPDU)|
  }

  predicate Partial(e: Entry, maxTPDU: int) {
    e.tsdu != [] && maxTPDU >= MIN_NEGOTIATED_TPDU && e.sent <= |Packets(e.tsdu, maxTPDU)|
  }

  /** The whole packets of one entry that have moved. */
  function ItemsOf(e: Entry, maxTPDU: int): seq<Item>
    requires Partial(e, maxTPDU)
  {
    seq(e.sent, i requires 0 <= i < e.sent => Whole(Packets(e.tsdu, maxTPDU)[i]))
  }

  predicate AllPartial(log: seq<Entry>, maxTPDU: int) { forall i | 0 <= i < |log| :: Partial(log[i], maxTPDU) }

  function Flat(log: seq<Entry>, maxTPDU: int): seq<Item>
    requires AllPartial(log, maxTPDU)
  {
    if log == [] then [] else Flat(log[..|log| - 1], maxTPDU) + ItemsOf(log[|log| - 1], maxTPDU)
  }

  /** The stream stands at the end of a TSDU. */
  predicate Clean(s: Sender) { s.tear == 0 && (s.log == [] || Complete(s.log[|s.log| - 1], s.maxTPDU)) }

  /** No octet of this call has moved. */
  predicate Untouched(s: Sender, c: Call) { forall i | 0 <= i < |s.log| :: s.log[i].who != c }

  predicate Finished(s: Sender, c: Call, tsdu: bytes) {
    exists i | 0 <= i < |s.log| :: s.log[i].who == c && s.log[i].tsdu == tsdu && Complete(s.log[i], s.maxTPDU)
  }

  /** What a result promises about the octets of the call. */
  predicate Keeps(s: Sender, term: Option<Error>, c: Call, tsdu: bytes, r: Ending) {
    match r
    case Success => Finished(s, c, tsdu)
    case Bare(_) => Untouched(s, c)
    case Rejected(e) => Untouched(s, c) && (e == {Closed} ==> term.Some?)
    case Terminal(e) => term == Some(e)
  }

  predicate SettledOr(s: Sender, term: Option<Error>) { term.Some? || Clean(s) }

  predicate At(s: Sender, term: Option<Error>, c: Call, p: Position) {
    match p
    case Queued(_) => Untouched(s, c)
    case Holding(_) => Untouched(s, c) && SettledOr(s, term) && s.deadline.active == 0
    case Admitted(_) => Untouched(s, c) && Clean(s) && s.deadline.active == 0
    case Checked(tsdu) =>
      && Untouched(s, c) && Clean(s) && s.deadline.active == 0
      && WriteLengthError(|tsdu|, s.maxTSDU) == None && s.maxTPDU >= MIN_NEGOTIATED_TPDU
    case Looping(tsdu, gen, start, next) =>
      && s.deadline.active == gen > 0 && s.tear == 0
      && WriteLengthError(|tsdu|, s.maxTSDU) == None && s.maxTPDU >= MIN_NEGOTIATED_TPDU
      && next <= |Packets(tsdu, s.maxTPDU)|
      && (if next == 0 then Untouched(s, c) && Clean(s) && s.moved == start
          else s.log != [] && s.log[|s.log| - 1] == Entry(c, tsdu, next) && s.moved > start)
    case Failed(_, gen, start, _) =>
      s.deadline.active == gen > 0 && (s.moved == start ==> Untouched(s, c) && Clean(s))
    case Classifying(_, gen, _) => s.deadline.active == gen > 0
    case Aborting(_, gen, _) => s.deadline.active == gen > 0
    case Leaving(tsdu, gen, r) => s.deadline.active == gen && SettledOr(s, term) && Keeps(s, term, c, tsdu, r)
    case Done(tsdu, r) => Keeps(s, term, c, tsdu, r)
  }

  /** The log in the order the write lock was held: whole TSDUs, then at most one that is not. */
  ghost predicate LogValid(s: Sender) {
    && AllPartial(s.log, s.maxTPDU)
    && (forall i | 0 <= i < |s.log| - 1 :: Complete(s.log[i], s.maxTPDU))
    && (forall i | 0 <= i < |s.log| :: |s.log[i].tsdu| <= TsduBound(s.maxTSDU))
    && (forall i | 0 <= i < |s.log| :: s.log[i].who in s.at && s.at[s.log[i].who].tsdu == s.log[i].tsdu)
    && (forall i, j | 0 <= i < j < |s.log| :: s.log[i].who != s.log[j].who)
    && s.wire == Flat(s.log, s.maxTPDU) + (if s.tear > 0 then [Torn(s.tear)] else [])
  }

  ghost predicate Valid(s: Sender, term: Option<Error>) {
    && LogValid(s)
    && (forall c | c in s.at :: InSection(s.at[c]) <==> s.lock == Some(c))
    && (s.lock.Some? ==> s.lock.value in s.at)
    && (s.lock == None ==> SettledOr(s, term) && s.deadline.active == 0)
    && (forall c | c in s.at :: At(s, term, c, s.at[c]))
  }

  lemma FreshIsValid(maxTPDU: int, maxTSDU: nat)
    ensures Valid(Fresh(maxTPDU, maxTSDU), None)
  {
  }

  // ---------------------------------------------------------------- preservation

  /** A step of call c leaves the entries of other calls as they are. */
  predicate Extends(log: seq<Entry>, log': seq<Entry>, c: Call) {
    && |log| <= |log'|
    && (forall i | 0 <= i < |log| :: log'[i].who == log[i].who && log'[i].tsdu == log[i].tsdu)
    && (forall i | 0 <= i < |log| :: log[i].who != c ==> log'[i] == log[i])
    && (forall i | |log| <= i < |log'| :: log'[i].who == c)
  }

  lemma OthersKeep(s: Sender, s': Sender, term: Option<Error>, term': Option<Error>, c: Call, o: Call,
                   tsdu: bytes, r: Ending)
    requires o != c && Extends(s.log, s'.log, c) && s'.maxTPDU == s.maxTPDU
    requires term.Some? ==> term' == term
    ensures Untouched(s, o) ==> Untouched(s', o)
    ensures Keeps(s, term, o, tsdu, r) ==> Keeps(s', term', o, tsdu, r)
  {
    if Finished(s, o, tsdu) {
      var i :| 0 <= i < |s.log| && s.log[i].who == o && s.log[i].tsdu == tsdu && Complete(s.log[i], s.maxTPDU);
      assert s'.log[i] == s.log[i];
    }
  }

  lemma FlatAppend(log: seq<Entry>, e: Entry, maxTPDU: int)
    requires AllPartial(log, maxTPDU) && Partial(e, maxTPDU)
    ensures AllPartial(log + [e], maxTPDU)
    ensures Flat(log + [e], maxTPDU) == Flat(log, maxTPDU) + ItemsOf(e, maxTPDU)
  {
    assert (log + [e])[..|log|] == log;
  }

  lemma ItemsMore(e: Entry, maxTPDU: int)
    requires Partial(e, maxTPDU) && Partial(e.(sent := e.sent + 1), maxTPDU)
    ensures ItemsOf(e.(sent := e.sent + 1), maxTPDU)
         == ItemsOf(e, maxTPDU) + [Whole(Packets(e.tsdu, maxTPDU)[e.sent])]
  {
  }

  /** A packet of the looping call moves whole: the stream is still the log's packets, in order. */
  ghost predicate SentWell(s: Sender, c: Call, p: Position)
    requires CanSend(s, p)
  {
    var t := Sent(s, c, p);
    && LogValid(t) && t.tear == 0 && Extends(s.log, t.log, c)
    && t.log != [] && t.log[|t.log| - 1] == Entry(c, p.tsdu, p.next + 1) && t.moved > p.start
  }

  lemma SentFirst(s: Sender, c: Call)
    requires LogValid(s) && c in s.at && CanSend(s, s.at[c]) && At(s, None, c, s.at[c]) && s.at[c].next == 0
    ensures SentWell(s, c, s.at[c])
  {
    var p, t := s.at[c], Sent(s, c, s.at[c]);
    var e := Entry(c, p.tsdu, 0);
    FlatAppend(s.log, e.(sent := 1), s.maxTPDU);
    ItemsMore(e, s.maxTPDU);
    assert ItemsOf(e, s.maxTPDU) == [];
    assert t.wire == Flat(t.log, s.maxTPDU);
  }

  lemma SentMore(s: Sender, c: Call)
    requires LogValid(s) && c in s.at && CanSend(s, s.at[c]) && At(s, None, c, s.at[c]) && s.at[c].next > 0
    ensures SentWell(s, c, s.at[c])
  {
    hide Packets, Flat;
    SentMoreWire(s, c);
  }

  lemma SentMoreWire(s: Sender, c: Call)
    requires LogValid(s) && c in s.at && CanSend(s, s.at[c]) && At(s, None, c, s.at[c]) && s.at[c].next > 0
    ensures var t := Sent(s, c, s.at[c]); AllPartial(t.log, t.maxTPDU) && t.wire == Flat(t.log, t.maxTPDU)
  {
    hide Packets;
    var p, t := s.at[c], Sent(s, c, s.at[c]);
    var e, before := Entry(c, p.tsdu, p.next), s.log[..|s.log| - 1];
    assert t.log == before + [e.(sent := p.next + 1)];
    FlatAppend(before, e.(sent := p.next + 1), s.maxTPDU);
    ItemsMore(e, s.maxTPDU);
    assert Flat(s.log, s.maxTPDU) == Flat(before, s.maxTPDU) + ItemsOf(e, s.maxTPDU);
  }

  lemma SentKeepsLog(s: Sender, c: Call)
    requires LogValid(s) && c in s.at && CanSend(s, s.at[c]) && At(s, None, c, s.at[c])
    ensures SentWell(s, c, s.at[c])
  {
    if s.at[c].next == 0 { SentFirst(s, c); } else { SentMore(s, c); }
  }

  /** Only part of a packet moves: the log says so at its end. */
  lemma TearKeepsLog(s: Sender, c: Call, octets: nat)
    requires LogValid(s) && c in s.at && CanSend(s, s.at[c]) && At(s, None, c, s.at[c]) && octets > 0
    ensures var p, t := s.at[c], Tear(s, c, s.at[c], octets);
            LogValid(t) && Extends(s.log, t.log, c) && t.moved > p.start
  {
    var p := s.at[c];
    if p.next == 0 {
      var e := Entry(c, p.tsdu, 0);
      FlatAppend(s.log, e, s.maxTPDU);
      assert ItemsOf(e, s.maxTPDU) == [];
    }
  }

  /** Another call does not notice a step of call c. */
  lemma OtherStands(s: Sender, term: Option<Error>, s': Sender, term': Option<Error>, c: Call, o: Call)
    requires o != c && o in s.at && At(s, term, o, s.at[o]) && (term.Some? ==> term' == term)
    requires Extends(s.log, s'.log, c) && s'.maxTPDU == s.maxTPDU
    requires InSection(s.at[o]) ==> s' == s.(at := s'.at)
    ensures At(s', term', o, s.at[o])
  {
    hide Extends, Keeps, Untouched;
    match s.at[o]
    case Queued(_) => OthersKeep(s, s', term, term', c, o, [], Success);
    case Done(tsdu, r) => OthersKeep(s, s', term, term', c, o, tsdu, r);
    case Leaving(tsdu, _, r) => OthersKeep(s, s', term, term', c, o, tsdu, r);
    case _ => OthersKeep(s, s', term, term', c, o, [], Success);
  }

  /** Whatever a step does to its own call, a new position and an extended log keep the invariant
      once the call's own part of it holds. */
  lemma Reassembled(s: Sender, term: Option<Error>, s': Sender, term': Option<Error>, c: Call)
    requires Valid(s, term) && (term.Some? ==> term' == term)
    requires c in s'.at && s'.at == s.at[c := s'.at[c]] && s'.maxTPDU == s.maxTPDU
    requires LogValid(s') && Extends(s.log, s'.log, c)
    requires s.lock == Some(c) || s.lock == None || (s'.lock == s.lock && s' == s.(at := s'.at))
    requires if InSection(s'.at[c]) then s'.lock == Some(c)
             else s'.lock == None || (s'.lock == s.lock && s.lock != Some(c))
    requires s'.lock == None ==> SettledOr(s', term') && s'.deadline.active == 0
    requires At(s', term', c, s'.at[c])
    ensures Valid(s', term')
  {
    hide LogValid, At, Clean, Extends;
    forall o | o in s'.at && o != c
      ensures At(s', term', o, s'.at[o])
    {
      OtherStands(s, term, s', term', c, o);
    }
  }

  lemma ExtendsItself(log: seq<Entry>, c: Call)
    ensures Extends(log, log, c)
  {
  }

  /** A call may move on without disturbing the log. */
  lemma LogStays(s: Sender, c: Call, p: Position)
    requires LogValid(s) && c in s.at && p.tsdu == s.at[c].tsdu
    ensures LogValid(Move(s, c, p))
  {
  }

  lemma SendKeeps(s: Sender, term: Option<Error>, c: Call)
    requires Valid(s, term) && Enabled(s, Send(c))
    ensures Valid(Step(s, term, Send(c)).0, term)
  {
    var s' := Step(s, term, Send(c)).0;
    hide Extends, Packets, LogValid;
    SentKeepsLog(s, c);
    LogStays(Sent(s, c, s.at[c]), c, s'.at[c]);
    Reassembled(s, term, s', term, c);
  }

  lemma FailWholeKeeps(s: Sender, term: Option<Error>, c: Call, failure: IoError)
    requires Valid(s, term) && c in s.at && CanSend(s, s.at[c])
    ensures var p := s.at[c]; Valid(Move(Sent(s, c, p), c, Failed(p.tsdu, p.gen, p.start, failure)), term)
  {
    var p := s.at[c];
    hide Packets, Extends, LogValid;
    SentKeepsLog(s, c);
    var s' := Move(Sent(s, c, p), c, Failed(p.tsdu, p.gen, p.start, failure));
    LogStays(Sent(s, c, p), c, s'.at[c]);
    Reassembled(s, term, s', term, c);
  }

  lemma FailTornKeeps(s: Sender, term: Option<Error>, c: Call, octets: nat, failure: IoError)
    requires Valid(s, term) && c in s.at && CanSend(s, s.at[c]) && octets > 0
    ensures var p := s.at[c]; Valid(Move(Tear(s, c, p, octets), c, Failed(p.tsdu, p.gen, p.start, failure)), term)
  {
    hide Packets, Extends, LogValid;
    var p := s.at[c];
    TearKeepsLog(s, c, octets);
    var s' := Move(Tear(s, c, p, octets), c, Failed(p.tsdu, p.gen, p.start, failure));
    LogStays(Tear(s, c, p, octets), c, s'.at[c]);
    Reassembled(s, term, s', term, c);
  }

  /** The steps that move no octet leave the log and the stream alone. */
  lemma Quiet(s: Sender, term: Option<Error>, s': Sender, term': Option<Error>, c: Call)
    requires Valid(s, term) && (term.Some? ==> term' == term)
    requires c in s'.at && s'.at == s.at[c := s'.at[c]] && (c in s.at ==> s'.at[c].tsdu == s.at[c].tsdu)
    requires s'.maxTPDU == s.maxTPDU && s'.maxTSDU == s.maxTSDU
    requires s'.log == s.log && s'.wire == s.wire && s'.tear == s.tear
    requires s.lock == Some(c) || s.lock == None || (s'.lock == s.lock && s' == s.(at := s'.at))
    requires if InSection(s'.at[c]) then s'.lock == Some(c)
             else s'.lock == None || (s'.lock == s.lock && s.lock != Some(c))
    requires s'.lock == None ==> SettledOr(s', term') && s'.deadline.active == 0
    requires At(s', term', c, s'.at[c])
    ensures Valid(s', term')
  {
    assert LogValid(s');
    Reassembled(s, term, s', term', c);
  }

  lemma QueueKeeps(s: Sender, term: Option<Error>, e: Event)
    requires Valid(s, term) && Enabled(s, e) && (e.Begin? || e.GiveUp? || e.Lock?)
    ensures Valid(Step(s, term, e).0, term)
  {
    var s' := Step(s, term, e).0;
    if !e.Begin? { assert At(s, term, e.call, s.at[e.call]); }
    Quiet(s, term, s', term, e.call);
  }

  /** The steps of a call that holds the lock and moves no octet. */
  predicate Steady(e: Event) {
    !e.Begin? && !e.GiveUp? && !e.Lock? && !e.Send? && !e.Finish? && (e.Fail? ==> e.octets == 0)
  }

  /** What such a step does to its own call, and that it does nothing else. */
  ghost predicate Stands(s: Sender, term: Option<Error>, s': Sender, term': Option<Error>, c: Call) {
    && c in s'.at && s'.at == s.at[c := s'.at[c]] && (c in s.at ==> s'.at[c].tsdu == s.at[c].tsdu)
    && s'.maxTPDU == s.maxTPDU && s'.maxTSDU == s.maxTSDU
    && s'.log == s.log && s'.wire == s.wire && s'.tear == s.tear
    && (term.Some? ==> term' == term) && At(s', term', c, s'.at[c])
    && (if InSection(s'.at[c]) then s'.lock == Some(c) else s'.lock == None)
    && (s'.lock == None ==> SettledOr(s', term') && s'.deadline.active == 0)
  }

  lemma SteadyKeeps(s: Sender, term: Option<Error>, e: Event)
    requires Valid(s, term) && Enabled(s, e) && Steady(e)
    ensures var (s', term') := Step(s, term, e); Valid(s', term') && (term.Some? ==> term' == term)
  {
    hide LogValid, IoCause, Packets, Step, At, SettledOr;
    var (s', term') := Step(s, term, e);
    assert At(s, term, e.call, s.at[e.call]);
    SteadyStands(s, term, e);
    Quiet(s, term, s', term', e.call);
  }

  lemma SteadyStands(s: Sender, term: Option<Error>, e: Event)
    requires Enabled(s, e) && Steady(e) && At(s, term, e.call, s.at[e.call]) && s.lock == Some(e.call)
    ensures var (s', term') := Step(s, term, e); Stands(s, term, s', term', e.call)
  {
    hide Stands, At, Step;
    if e.Look? || e.Check? || e.ArmDeadline? {
      EntryStands(s, term, e);
    } else if e.DisarmDeadline? || e.Unlock? {
      ExitStands(s, term, e);
    } else {
      FailureStands(s, term, e);
    }
  }

  lemma EntryStands(s: Sender, term: Option<Error>, e: Event)
    requires Enabled(s, e) && (e.Look? || e.Check? || e.ArmDeadline?)
    requires At(s, term, e.call, s.at[e.call]) && s.lock == Some(e.call)
    ensures var (s', term') := Step(s, term, e); Stands(s, term, s', term', e.call)
  {
    hide Chunks;
  }

  lemma FailureStands(s: Sender, term: Option<Error>, e: Event)
    requires Enabled(s, e) && ((e.Fail? && e.octets == 0) || e.Inspect? || e.Classify? || e.Abort?)
    requires At(s, term, e.call, s.at[e.call]) && s.lock == Some(e.call)
    ensures var (s', term') := Step(s, term, e); Stands(s, term, s', term', e.call)
  {
    hide IoCause, Packets, NextPacket;
  }

  lemma ExitStands(s: Sender, term: Option<Error>, e: Event)
    requires Enabled(s, e) && (e.DisarmDeadline? || e.Unlock?)
    requires At(s, term, e.call, s.at[e.call]) && s.lock == Some(e.call)
    ensures var (s', term') := Step(s, term, e); Stands(s, term, s', term', e.call)
  {
    hide Packets;
  }

  lemma FailKeeps(s: Sender, term: Option<Error>, c: Call, octets: nat, failure: IoError)
    requires Valid(s, term) && Enabled(s, Fail(c, octets, failure))
    ensures Valid(Step(s, term, Fail(c, octets, failure)).0, term)
  {
    if octets == 0 {
      SteadyKeeps(s, term, Fail(c, octets, failure));
    } else if octets == FrameLength(NextPacket(s, s.at[c])) {
      FailWholeKeeps(s, term, c, failure);
    } else {
      FailTornKeeps(s, term, c, octets, failure);
    }
  }

  lemma FinishKeeps(s: Sender, term: Option<Error>, c: Call)
    requires Valid(s, term) && Enabled(s, Finish(c))
    ensures Valid(Step(s, term, Finish(c)).0, term)
  {
    assert At(s, term, c, s.at[c]);
    PacketsExist(s.at[c].tsdu, s.maxTPDU);
    hide Packets, LogValid;
    assert Complete(s.log[|s.log| - 1], s.maxTPDU);
    assert Finished(s, c, s.at[c].tsdu);
    Quiet(s, term, Step(s, term, Finish(c)).0, term, c);
  }

  lemma StepKeeps(s: Sender, term: Option<Error>, e: Event)
    requires Valid(s, term) && Enabled(s, e)
    ensures var (s', term') := Step(s, term, e); Valid(s', term') && (term.Some? ==> term' == term)
  {
    match e
    case Send(c) => SendKeeps(s, term, c);
    case Fail(c, octets, failure) => FailKeeps(s, term, c, octets, failure);
    case Begin(_, _) => QueueKeeps(s, term, e);
    case GiveUp(_, _) => QueueKeeps(s, term, e);
    case Lock(_) => QueueKeeps(s, term, e);
    case Finish(c) => FinishKeeps(s, term, c);
    case _ => SteadyKeeps(s, term, e);
  }

  /** A terminal cause from elsewhere: Close, or an abort by the read direction. */
  lemma TermKeeps(s: Sender, term: Option<Error>, term': Option<Error>)
    requires Valid(s, term) && (term.Some? ==> term' == term)
    ensures Valid(s, term')
  {
    hide LogValid;
    forall c | c in s.at ensures At(s, term', c, s.at[c]) {
      assert At(s, term, c, s.at[c]);
    }
  }

  /** Where a call can be that has not looked before the connection ended with this cause. */
  predicate Late(s: Sender, c: Call, cause: Error) {
    c in s.at ==>
      var p := s.at[c];
      || p.Queued? || p.Holding?
      || (p.Leaving? && p.result == Terminal(cause))
      || (p.Done? && (p.result.Bare? || p.result == Terminal(cause)))
  }

  lemma LateStays(s: Sender, cause: Error, e: Event, c: Call)
    requires Enabled(s, e) && Late(s, c, cause)
    ensures Late(Step(s, Some(cause), e).0, c, cause)
  {
    hide Packets, IoCause;
  }

  lemma EndedStays(s: Sender, cause: Error, e: Event)
    requires Enabled(s, e)
    ensures Step(s, Some(cause), e).1 == Some(cause)
  {
    hide Packets, IoCause;
  }

  /** Whether a call will return the bare closed error once the connection has ended: it does, it does not, or its
      second look decides. */
  datatype Fate = Shuts | Spared | Undecided

  function FateOf(p: Position): Fate {
    if p.Admitted? then Undecided
    else if (p.Leaving? || p.Done?) && p.result == Rejected({Closed}) then Shuts
    else Spared
  }

  /** The end stored by a write: its own call aborts. */
  lemma OnlyAbortEnds(s: Sender, e: Event, c: Call)
    requires Enabled(s, e) && Step(s, None, e).1.Some? && c in s.at
    ensures var s' := Step(s, None, e).0; c in s'.at && FateOf(s'.at[c]) == FateOf(s.at[c])
  {
    hide Packets, IoCause, NextPacket, Sent, Tear;
  }

  lemma FateMoves(s: Sender, cause: Error, e: Event, c: Call)
    requires Enabled(s, e) && c in s.at
    ensures var s' := Step(s, Some(cause), e).0;
            && c in s'.at
            && FateOf(s'.at[c])
               == if e.Check? && e.call == c then (if e.shut then Shuts else Spared) else FateOf(s.at[c])
  {
    hide Packets, IoCause;
  }

  /** A call comes to have failed by its own Fail only, under the generation it armed. */
  lemma OnlyFailFails(s: Sender, term: Option<Error>, e: Event, c: Call)
    requires Enabled(s, e) && c in Step(s, term, e).0.at && Step(s, term, e).0.at[c].Failed?
    ensures c in s.at
    ensures var p := Step(s, term, e).0.at[c];
            if e.Fail? && e.call == c then s.at[c].Looping? && p.gen == s.at[c].gen && p.err == e.failure
            else p == s.at[c]
  {
    hide Packets, IoCause, NextPacket;
  }

  /** A call that has failed with nothing moved, or is on its way out with its context's bare error. */
  predicate Excused(s: Sender, c: Call) {
    && c in s.at
    && var p := s.at[c];
    (p.Failed? && p.err.timeout && s.moved == p.start) || ((p.Leaving? || p.Done?) && p.result.Bare?)
  }

  /** Other calls leave it that, and so does every step of its own but a look at its context that finds nothing. */
  lemma ExcusedStays(s: Sender, term: Option<Error>, e: Event, c: Call)
    requires Valid(s, term) && Enabled(s, e) && Excused(s, c)
    requires e.Inspect? && e.call == c ==> term == None && CtxDone(e.ctx).Some?
    ensures Excused(Step(s, term, e).0, c) && (e.call == c ==> Step(s, term, e).1 == term)
  {
    hide LogValid, Packets, IoCause, NextPacket, At;
    if e.call != c && InSection(s.at[c]) {
      assert s.lock == Some(c) && !(e.call in s.at && InSection(s.at[e.call]));
    }
  }

  /** What a failed packet leaves: all, some or none of it in the stream. */
  lemma FailIs(s: Sender, term: Option<Error>, c: Call, octets: nat, err: IoError)
    requires Enabled(s, Fail(c, octets, err))
    ensures var (s', term') := Step(s, term, Fail(c, octets, err));
            var p := s.at[c];
            && term' == term && s'.moved == s.moved + octets
            && s'.wire == s.wire + (if octets == 0 then []
                                    else if octets == FrameLength(NextPacket(s, p)) then [Whole(NextPacket(s, p))]
                                    else [Torn(octets)])
            && s'.maxTPDU == s.maxTPDU && s'.maxTSDU == s.maxTSDU && s'.lock == s.lock && s'.deadline == s.deadline
            && c in s'.at && s'.at[c] == Failed(p.tsdu, p.gen, p.start, err)
  {
    hide Packets, NextPacket, IoCause;
    assert s.wire + [] == s.wire;
  }

  /** What Valid says of one call. */
  lemma CallStands(s: Sender, term: Option<Error>, c: Call)
    requires Valid(s, term) && c in s.at
    ensures At(s, term, c, s.at[c])
    ensures s.at[c].Done? ==> Keeps(s, term, c, s.at[c].tsdu, s.at[c].result)
  {
  }
}

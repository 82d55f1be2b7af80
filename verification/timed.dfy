/** One end together with the stream deadlines its contexts set (deadline.go, tsdu.go:129-142, 211-216): a stream fails
    by timeout only when the deadline of its direction has struck. */
module Timed {
  import opened Types
  import opened Transfer
  import D = Deadline
  import Endpoint
  import R = Receiving
  import S = Sending

  /** `passed` are the operations whose context deadline is in the past. */
  datatype State = State(end: Endpoint.End, clock: D.State, passed: set<(D.Holder, nat)>)

  /** A context is done by Cancel, whether it was cancelled or its timer fired; Fire is its callback; Pass is time going
      by its deadline, which the stream may notice before the context's timer does. */
  datatype Event =
    | Act(e: Endpoint.Event)
    | Cancel(holder: D.Holder, gen: nat)
    | Fire(holder: D.Holder, gen: nat)
    | Pass(holder: D.Holder, gen: nat)

  /** The clock an open connection starts with: the handshake is over, no operation has armed yet. */
  predicate Settled(clock: D.State) {
    && clock.reading == clock.writing == D.IDLE && D.Idle(clock, D.Handshaking)
    && clock.read == clock.write == D.Unset
    && forall key | key in clock.contexts :: key.0 == D.Handshaking && 1 <= key.1 <= clock.handshake.gen
  }

  function Start(maxTPDU: int, maxTSDU: nat, clock: D.State): State {
    State(Endpoint.Start(maxTPDU, maxTSDU), clock, {})
  }

  /** An operation under this deadline fails by timeout. */
  predicate Struck(x: State, v: D.Setting) { v.Past? || (v.Due? && (v.holder, v.gen) in x.passed) }

  /** What the context of an operation says of itself at this moment. */
  predicate Tells(x: State, h: D.Holder, g: nat, ctx: Ctx) {
    && (h, g) in x.clock.contexts
    && ctx.hasDeadline == x.clock.contexts[(h, g)].hasDeadline
    && (ctx.err.Some? <==> x.clock.contexts[(h, g)].cancelled)
    && (ctx.passed <==> (h, g) in x.passed)
  }

  predicate WritePossible(x: State, w: S.Event)
    requires S.Enabled(x.end.sender, w)
  {
    match w
    case Fail(_, _, failure) => failure.timeout ==> Struck(x, x.clock.write)
    case Inspect(c, ctx) => Tells(x, D.Writing, x.end.sender.at[c].gen, ctx)
    case Classify(c, ctx) => Tells(x, D.Writing, x.end.sender.at[c].gen, ctx)
    case _ => true
  }

  predicate ReadPossible(x: State, r: R.Event)
    requires R.Enabled(x.end.receiver, x.end.inbound, r)
  {
    match r
    case Fail(_, _, failure) => failure.timeout ==> Struck(x, x.clock.read)
    case Inspect(c, ctx) => Tells(x, D.Reading, x.end.receiver.at[c].gen, ctx)
    case Classify(c, ctx) => Tells(x, D.Reading, x.end.receiver.at[c].gen, ctx)
    case _ => true
  }

  predicate Possible(x: State, event: Event) {
    match event
    case Act(e) =>
      Endpoint.Enabled(x.end, e) && (e.Write? ==> WritePossible(x, e.w)) && (e.Read? ==> ReadPossible(x, e.r))
    case Cancel(h, g) => D.Enabled(x.clock, D.Cancel(h, g))
    case Fire(h, g) => D.Enabled(x.clock, D.Fire(h, g))
    case Pass(h, g) => (h, g) in x.clock.contexts && x.clock.contexts[(h, g)].hasDeadline
  }

  /** What a step of a call does to the stream deadlines: only arm and disarm touch them. */
  function Sets(x: State, e: Endpoint.Event): Option<D.Event>
    requires Endpoint.Enabled(x.end, e)
  {
    if e.Write? && e.w.ArmDeadline? && e.w.ctx.err == None then Some(D.Arm(D.Writing, e.w.ctx.hasDeadline))
    else if e.Write? && e.w.DisarmDeadline? then Some(D.Disarm(D.Writing, x.end.sender.at[e.w.call].gen))
    else if e.Read? && e.r.ArmDeadline? && e.r.ctx.err == None then Some(D.Arm(D.Reading, e.r.ctx.hasDeadline))
    else if e.Read? && e.r.DisarmDeadline? then Some(D.Disarm(D.Reading, x.end.receiver.at[e.r.call].gen))
    else None
  }

  function Tick(clock: D.State, e: D.Event): D.State { if D.Enabled(clock, e) then D.Step(clock, e) else clock }

  /** An event that is not possible leaves the state as it is. */
  function Step(x: State, event: Event): State {
    if !Possible(x, event) then x else
      match event
      case Act(e) =>
        var setting := Sets(x, e);
        x.(end := Endpoint.Step(x.end, e), clock := if setting.Some? then Tick(x.clock, setting.value) else x.clock)
      case Cancel(h, g) => x.(clock := Tick(x.clock, D.Cancel(h, g)))
      case Fire(h, g) => x.(clock := Tick(x.clock, D.Fire(h, g)))
      case Pass(h, g) => x.(passed := x.passed + {(h, g)})
  }

  function Run(x: State, events: seq<Event>): State
    decreases |events|
  {
    if events == [] then x else Run(Step(x, events[0]), events[1..])
  }

  ghost predicate Reached(x: State) {
    exists clock, events ::
      Settled(clock) && x == Run(Start(x.end.sender.maxTPDU, x.end.sender.maxTSDU, clock), events)
  }

  // ---------------------------------------------------------------- invariant

  /** The operation's own context is done, or its own deadline has passed. */
  predicate Justified(x: State, h: D.Holder, g: nat) {
    && (h, g) in x.clock.contexts
    && var c := x.clock.contexts[(h, g)];
    c.cancelled || (c.hasDeadline && (h, g) in x.passed)
  }

  /** The holders of the clock are those of the calls. */
  ghost predicate Tied(x: State) {
    && Endpoint.Reached(x.end) && D.Valid(x.clock) && D.Idle(x.clock, D.Handshaking)
    && x.end.sender.deadline == x.clock.writing && x.end.receiver.deadline == x.clock.reading
  }

  predicate WriteJustified(x: State) {
    forall c | c in x.end.sender.at :: Late(x.end.sender.at[c]) ==> Justified(x, D.Writing, x.end.sender.at[c].gen)
  }

  predicate ReadJustified(x: State) {
    forall c | c in x.end.receiver.at ::
      LateRead(x.end.receiver.at[c]) ==> Justified(x, D.Reading, x.end.receiver.at[c].gen)
  }

  predicate Late(p: S.Position) { p.Failed? && p.err.timeout }
  predicate LateRead(p: R.Position) { p.Failed? && p.err.timeout }

  ghost predicate Valid(x: State) { Tied(x) && WriteJustified(x) && ReadJustified(x) }

  // ---------------------------------------------------------------- preservation

  /** Contexts stay, and what they have told they go on telling. */
  ghost predicate Remembers(x: State, y: State) {
    x.passed <= y.passed && D.Recalls(x.clock, y.clock)
  }

  lemma TickRemembers(clock: D.State, e: D.Event, passed: set<(D.Holder, nat)>, a: Endpoint.End, b: Endpoint.End)
    requires D.Valid(clock)
    ensures D.Valid(Tick(clock, e)) && Remembers(State(a, clock, passed), State(b, Tick(clock, e), passed))
  {
    hide D.Valid, D.Step;
    if D.Enabled(clock, e) {
      D.StepKeeps(clock, e);
      D.StepRecalls(clock, e);
    }
  }

  /** A deadline that strikes while a call of this direction is armed is that call's own. */
  lemma StruckIsOwn(x: State, h: D.Holder)
    requires D.Valid(x.clock) && D.Idle(x.clock, D.Handshaking) && h != D.Handshaking && !D.Idle(x.clock, h)
    requires Struck(x, if h == D.Writing then x.clock.write else x.clock.read)
    ensures Justified(x, h, x.clock.Of(h).active)
  {
  }

  lemma SenderDeadline(s: S.Sender, term: Option<Error>, w: S.Event)
    requires S.Enabled(s, w)
    ensures var s' := S.Step(s, term, w).0;
            s'.deadline == if w.ArmDeadline? && w.ctx.err == None then D.ArmDirection(s.deadline)
                           else if w.DisarmDeadline? then D.DisarmDirection(s.deadline, s.at[w.call].gen)
                           else s.deadline
  {
    hide Packets, IoCause, S.NextPacket;
  }

  lemma ReceiverDeadline(r: R.Receiver, wire: seq<S.Item>, term: Option<Error>, e: R.Event)
    requires R.Enabled(r, wire, e)
    ensures var r' := R.Step(r, wire, term, e).0;
            r'.deadline == if e.ArmDeadline? && e.ctx.err == None then D.ArmDirection(r.deadline)
                           else if e.DisarmDeadline? then D.DisarmDirection(r.deadline, r.at[e.call].gen)
                           else r.deadline
  {
    hide Absorb, IoCause;
  }

  /** What a call sets is always possible: it arms an idle direction and disarms its own generation. */
  lemma SettingIsEnabled(x: State, e: Endpoint.Event)
    requires Tied(x) && Endpoint.Enabled(x.end, e) && Sets(x, e).Some?
    ensures D.Enabled(x.clock, Sets(x, e).value)
  {
    hide Endpoint.Reached, S.LogValid, R.Consumed, R.Owned;
    Endpoint.ReachedIsValid(x.end);
    if e.Write? {
      assert S.At(x.end.sender, x.end.term, e.w.call, x.end.sender.at[e.w.call]);
    } else {
      assert R.At(x.end.receiver, x.end.term, e.r.call, x.end.receiver.at[e.r.call]);
    }
  }

  lemma ActTies(x: State, e: Endpoint.Event)
    requires Tied(x) && Possible(x, Act(e))
    ensures Tied(Step(x, Act(e))) && Remembers(x, Step(x, Act(e)))
  {
    hide Endpoint.Reached, S.Step, R.Step, S.Enabled, R.Enabled, D.Valid, D.Enabled;
    Endpoint.StepReaches(x.end, e);
    var y := Step(x, Act(e));
    if e.Write? { SenderDeadline(x.end.sender, x.end.term, e.w); }
    if e.Read? { ReceiverDeadline(x.end.receiver, x.end.inbound, x.end.term, e.r); }
    if Sets(x, e).Some? {
      SettingIsEnabled(x, e);
      TickRemembers(x.clock, Sets(x, e).value, x.passed, x.end, y.end);
    }
  }

  lemma ClockTies(x: State, event: Event)
    requires Tied(x) && !event.Act?
    ensures Tied(Step(x, event)) && Remembers(x, Step(x, event))
  {
    hide Endpoint.Reached, D.Valid;
    match event
    case Cancel(h, g) => TickRemembers(x.clock, D.Cancel(h, g), x.passed, x.end, x.end);
    case Fire(h, g) => TickRemembers(x.clock, D.Fire(h, g), x.passed, x.end, x.end);
    case _ =>
  }

  /** A write comes to fail by timeout only where the deadline of the write direction has struck. */
  lemma WriteStaysJustified(x: State, event: Event)
    requires Tied(x) && WriteJustified(x) && Remembers(x, Step(x, event))
    ensures WriteJustified(Step(x, event))
  {
    hide Endpoint.Reached, S.LogValid, R.Valid, D.Valid, D.Step, D.Enabled, Tick, R.Step, R.Enabled;
    Endpoint.ReachedIsValid(x.end);
    var y := Step(x, event);
    forall c | c in y.end.sender.at && Late(y.end.sender.at[c])
      ensures Justified(y, D.Writing, y.end.sender.at[c].gen)
    {
      NewlyLate(x, event, c);
    }
  }

  lemma NewlyLate(x: State, event: Event, c: S.Call)
    requires Tied(x) && WriteJustified(x) && Remembers(x, Step(x, event)) && S.Valid(x.end.sender, x.end.term)
    requires c in Step(x, event).end.sender.at && Late(Step(x, event).end.sender.at[c])
    ensures Justified(Step(x, event), D.Writing, Step(x, event).end.sender.at[c].gen)
  {
    hide Endpoint.Reached, S.LogValid, D.Valid, D.Step, D.Enabled, Tick, S.Step, R.Step, R.Enabled;
    if event.Act? && event.e.Write? && Possible(x, event) {
      S.OnlyFailFails(x.end.sender, x.end.term, event.e.w, c);
      if event.e.w.Fail? && event.e.w.call == c {
        assert S.At(x.end.sender, x.end.term, c, x.end.sender.at[c]);
        StruckIsOwn(x, D.Writing);
      }
    }
  }

  lemma ReadStaysJustified(x: State, event: Event)
    requires Tied(x) && ReadJustified(x) && Remembers(x, Step(x, event))
    ensures ReadJustified(Step(x, event))
  {
    hide Endpoint.Reached, S.Valid, R.Consumed, R.Owned, D.Valid, D.Step, D.Enabled, Tick, S.Step, S.Enabled;
    Endpoint.ReachedIsValid(x.end);
    var y := Step(x, event);
    forall c | c in y.end.receiver.at && LateRead(y.end.receiver.at[c])
      ensures Justified(y, D.Reading, y.end.receiver.at[c].gen)
    {
      NewlyLateRead(x, event, c);
    }
  }

  lemma NewlyLateRead(x: State, event: Event, c: R.Call)
    requires Tied(x) && ReadJustified(x) && Remembers(x, Step(x, event))
    requires R.Valid(x.end.receiver, x.end.term, x.end.inbound)
    requires c in Step(x, event).end.receiver.at && LateRead(Step(x, event).end.receiver.at[c])
    ensures Justified(Step(x, event), D.Reading, Step(x, event).end.receiver.at[c].gen)
  {
    hide Endpoint.Reached, R.Consumed, R.Owned, D.Valid, D.Step, D.Enabled, Tick, S.Step, S.Enabled, R.Step;
    if event.Act? && event.e.Read? && Possible(x, event) {
      R.OnlyFailFails(x.end.receiver, x.end.inbound, x.end.term, event.e.r, c);
      if event.e.r.Fail? && event.e.r.call == c {
        assert R.At(x.end.receiver, x.end.term, c, x.end.receiver.at[c]);
        StruckIsOwn(x, D.Reading);
      }
    }
  }

  lemma StepKeeps(x: State, event: Event)
    requires Valid(x)
    ensures Valid(Step(x, event))
  {
    hide Tied, WriteJustified, ReadJustified, Remembers;
    if Possible(x, event) {
      if event.Act? { ActTies(x, event.e); } else { ClockTies(x, event); }
      WriteStaysJustified(x, event);
      ReadStaysJustified(x, event);
    }
  }

  lemma {:induction false} RunKeeps(x: State, events: seq<Event>)
    requires Valid(x)
    ensures Valid(Run(x, events))
    decreases |events|
  {
    hide Valid, Step;
    if events != [] {
      StepKeeps(x, events[0]);
      RunKeeps(Step(x, events[0]), events[1..]);
    }
  }

  lemma StartIsValid(maxTPDU: int, maxTSDU: nat, clock: D.State)
    requires Settled(clock)
    ensures Valid(Start(maxTPDU, maxTSDU, clock))
  {
    hide Endpoint.Reached;
    SettledIsValid(clock);
    hide D.Valid;
    Endpoint.StartIsValid(maxTPDU, maxTSDU);
  }

  lemma SettledIsValid(clock: D.State)
    requires Settled(clock)
    ensures D.Valid(clock)
  {
  }

  lemma ReachedIsValid(x: State)
    requires Reached(x)
    ensures Valid(x)
  {
    hide Valid, Settled, Step, Start;
    var clock, events :| Settled(clock) && x == Run(Start(x.end.sender.maxTPDU, x.end.sender.maxTSDU, clock), events);
    StartIsValid(x.end.sender.maxTPDU, x.end.sender.maxTSDU, clock);
    RunKeeps(Start(x.end.sender.maxTPDU, x.end.sender.maxTSDU, clock), events);
  }

  // ---------------------------------------------------------------- results

  /** Whatever ran before on the stream, the handshake included, an operation that fails by timeout does so by its own
      context: that is done, or its deadline has passed. */
  lemma TimeoutsAreOwn(x: State, w: S.Call, r: R.Call)
    requires Reached(x)
    ensures w in x.end.sender.at && Late(x.end.sender.at[w]) ==> Justified(x, D.Writing, x.end.sender.at[w].gen)
    ensures r in x.end.receiver.at && LateRead(x.end.receiver.at[r]) ==>
              Justified(x, D.Reading, x.end.receiver.at[r].gen)
  {
    ReachedIsValid(x);
  }

  /** A write that timed out finds its context's error when it looks, and takes it for its result exactly when no octet
      moved and the connection has not ended otherwise. */
  lemma WriteTimeoutIsBare(x: State, c: S.Call, ctx: Ctx)
    requires Reached(x) && Possible(x, Act(Endpoint.Write(S.Inspect(c, ctx)))) && Late(x.end.sender.at[c])
    ensures CtxDone(ctx).Some?
    ensures var p, y := x.end.sender.at[c], Step(x, Act(Endpoint.Write(S.Inspect(c, ctx))));
            && y.end.term == x.end.term && c in y.end.sender.at
            && (x.end.sender.moved == p.start && x.end.term == None <==>
                  y.end.sender.at[c] == S.Leaving(p.tsdu, p.gen, S.Bare(CtxDone(ctx).value)))
  {
    hide Endpoint.Reached, Reached, Packets;
    TimeoutsAreOwn(x, c, 0);
  }

  lemma ReadTimeoutIsBare(x: State, c: R.Call, ctx: Ctx)
    requires Reached(x) && Possible(x, Act(Endpoint.Read(R.Inspect(c, ctx)))) && LateRead(x.end.receiver.at[c])
    ensures CtxDone(ctx).Some?
    ensures var p, y := x.end.receiver.at[c], Step(x, Act(Endpoint.Read(R.Inspect(c, ctx))));
            && y.end.term == x.end.term && c in y.end.receiver.at
            && (x.end.receiver.moved == p.start && x.end.term == None <==>
                  y.end.receiver.at[c] == R.Leaving(p.gen, R.Bare(CtxDone(ctx).value)))
  {
    hide Endpoint.Reached, Reached, Absorb;
    TimeoutsAreOwn(x, 0, c);
  }

  /** The event is a step of this write. */
  predicate StepOfWrite(event: Event, c: S.Call) { event.Act? && event.e.Write? && event.e.w.call == c }
  predicate StepOfRead(event: Event, c: R.Call) { event.Act? && event.e.Read? && event.e.r.call == c }

  /** The event is a step of one of these calls, timed out before any octet moved. */
  predicate OfExcused(x: State, event: Event, w: S.Call, r: R.Call) {
    || (StepOfWrite(event, w) && S.Excused(x.end.sender, w))
    || (StepOfRead(event, r) && R.Excused(x.end.receiver, r))
  }

  lemma WriteStaysExcused(x: State, event: Event, c: S.Call)
    requires Valid(x) && S.Excused(x.end.sender, c) && x.end.term == None
    ensures S.Excused(Step(x, event).end.sender, c)
    ensures StepOfWrite(event, c) ==> Step(x, event).end.term == None
  {
    hide Endpoint.Reached, S.Valid, R.Valid, S.Step, R.Step, Tick, D.Valid, D.Enabled, R.Enabled;
    Endpoint.ReachedIsValid(x.end);
    if event.Act? && event.e.Write? && Possible(x, event) {
      S.ExcusedStays(x.end.sender, x.end.term, event.e.w, c);
    }
  }

  lemma ReadStaysExcused(x: State, event: Event, c: R.Call)
    requires Valid(x) && R.Excused(x.end.receiver, c) && x.end.term == None
    ensures R.Excused(Step(x, event).end.receiver, c)
    ensures StepOfRead(event, c) ==> Step(x, event).end.term == None
  {
    hide Endpoint.Reached, S.Valid, R.Valid, S.Step, R.Step, Tick, D.Valid, D.Enabled, S.Enabled;
    Endpoint.ReachedIsValid(x.end);
    if event.Act? && event.e.Read? && Possible(x, event) {
      R.ExcusedStays(x.end.receiver, x.end.inbound, x.end.term, event.e.r, c);
    }
  }

  lemma EndStays(x: State, event: Event)
    requires Valid(x)
    ensures x.end.term.Some? ==> Step(x, event).end.term == x.end.term
  {
    hide Endpoint.Reached, Endpoint.Step, Endpoint.Valid, Tick, D.Valid, D.Enabled, S.Enabled, R.Enabled;
    Endpoint.ReachedIsValid(x.end);
    if event.Act? { Endpoint.StepKeeps(x.end, event.e); }
  }

  lemma {:induction false} EndStaysOn(x: State, events: seq<Event>)
    requires Valid(x) && x.end.term.Some?
    ensures Run(x, events).end.term == x.end.term
    decreases |events|
  {
    hide Valid, Step;
    if events != [] {
      EndStays(x, events[0]);
      StepKeeps(x, events[0]);
      EndStaysOn(Step(x, events[0]), events[1..]);
    }
  }

  /** An operation that times out before any octet moved returns its context's bare error, unless the connection ends
      otherwise before it does; and it leaves the connection open: no step of its own ends it. */
  lemma {:induction false} IdleTimeoutsStayOpen(x: State, events: seq<Event>, w: S.Call, r: R.Call)
    requires Reached(x) && Run(x, events).end.term == None
    ensures var s := Run(x, events).end.sender;
            S.Excused(x.end.sender, w) ==> w in s.at && (s.at[w].Done? ==> s.at[w].result.Bare?)
    ensures var t := Run(x, events).end.receiver;
            R.Excused(x.end.receiver, r) ==> r in t.at && (t.at[r].Done? ==> t.at[r].result.Bare?)
    ensures forall event | OfExcused(x, event, w, r) :: Step(x, event).end.term == None
  {
    hide Valid, Step, S.Excused, R.Excused, Reached;
    ReachedIsValid(x);
    StayExcused(x, events, w, r);
    forall event | OfExcused(x, event, w, r)
      ensures Step(x, event).end.term == None
    {
      if StepOfWrite(event, w) && S.Excused(x.end.sender, w) {
        WriteStaysExcused(x, event, w);
      } else {
        ReadStaysExcused(x, event, r);
      }
    }
    ExcusedMeans(Run(x, events).end, w, r);
  }

  lemma ExcusedMeans(x: Endpoint.End, w: S.Call, r: R.Call)
    ensures S.Excused(x.sender, w) ==> w in x.sender.at && (x.sender.at[w].Done? ==> x.sender.at[w].result.Bare?)
    ensures R.Excused(x.receiver, r) ==>
              r in x.receiver.at && (x.receiver.at[r].Done? ==> x.receiver.at[r].result.Bare?)
  {
  }

  lemma {:induction false} StayExcused(x: State, events: seq<Event>, w: S.Call, r: R.Call)
    requires Valid(x) && Run(x, events).end.term == None
    ensures x.end.term == None
    ensures S.Excused(x.end.sender, w) ==> S.Excused(Run(x, events).end.sender, w)
    ensures R.Excused(x.end.receiver, r) ==> R.Excused(Run(x, events).end.receiver, r)
    decreases |events|
  {
    hide Valid, Step, S.Excused, R.Excused;
    if x.end.term.Some? { EndStaysOn(x, events); }
    if events != [] {
      StepKeeps(x, events[0]);
      if S.Excused(x.end.sender, w) { WriteStaysExcused(x, events[0], w); }
      if R.Excused(x.end.receiver, r) { ReadStaysExcused(x, events[0], r); }
      StayExcused(Step(x, events[0]), events[1..], w, r);
    }
  }
}

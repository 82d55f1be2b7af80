/** Stream deadlines taken from contexts (deadline.go): one generation-guarded holder per direction, and the
    handshake's holder, which sets both directions of the same stream. */
module Deadline {
  import opened Types

  /** Which holder set a stream deadline. */
  datatype Holder = Handshaking | Reading | Writing

  /** A stream deadline: none, the deadline of an operation's context, or the past one its cancellation sets. */
  datatype Setting = Unset | Due(holder: Holder, gen: nat) | Past(holder: Holder, gen: nat)

  /** directionDeadline without its lock: the generation armed now (0 when idle) and the last one issued. */
  datatype Direction = Direction(active: nat, gen: nat)

  const IDLE := Direction(0, 0)

  function ArmDirection(d: Direction): Direction { Direction(d.gen + 1, d.gen + 1) }

  /** The disarm function of generation g; any other generation is left alone. */
  function DisarmDirection(d: Direction, g: nat): Direction { if d.active == g then d.(active := 0) else d }

  // ---------------------------------------------------------------- all holders of one stream

  /** What is known of the context behind a generation: whether it has a deadline, whether it has been cancelled. */
  datatype Context = Context(hasDeadline: bool, cancelled: bool)

  datatype State = State(
    handshake: Direction, reading: Direction, writing: Direction,
    read: Setting, write: Setting, contexts: map<(Holder, nat), Context>)
  {
    function Of(h: Holder): Direction {
      match h case Handshaking => handshake case Reading => reading case Writing => writing
    }

    function With(h: Holder, d: Direction): State {
      match h
      case Handshaking => this.(handshake := d)
      case Reading => this.(reading := d)
      case Writing => this.(writing := d)
    }
  }

  const START := State(IDLE, IDLE, IDLE, Unset, Unset, map[])

  predicate SetsRead(h: Holder) { h != Writing }
  predicate SetsWrite(h: Holder) { h != Reading }

  function Apply(s: State, h: Holder, v: Setting): State {
    s.(read := if SetsRead(h) then v else s.read, write := if SetsWrite(h) then v else s.write)
  }

  /** arm runs on an idle holder: operations of a direction take turns, and the handshake is over before the first.
      Cancellation, its callback, and disarm functions of any generation may happen at any time. */
  datatype Event =
    | Arm(holder: Holder, hasDeadline: bool)
    | Cancel(holder: Holder, gen: nat)
    | Fire(holder: Holder, gen: nat)
    | Disarm(holder: Holder, gen: nat)

  predicate Idle(s: State, h: Holder) { s.Of(h).active == 0 }

  predicate Enabled(s: State, e: Event) {
    match e
    case Arm(Handshaking, _) => Idle(s, Handshaking) && Idle(s, Reading) && Idle(s, Writing)
    case Arm(h, _) => Idle(s, h) && Idle(s, Handshaking)
    case Cancel(h, g) => (h, g) in s.contexts
    case Fire(h, g) => (h, g) in s.contexts && s.contexts[(h, g)].cancelled
    case Disarm(h, g) => (h, g) in s.contexts
  }

  function Step(s: State, e: Event): State
    requires Enabled(s, e)
  {
    match e
    case Arm(h, hasDeadline) =>
      var d := ArmDirection(s.Of(h));
      var armed := s.With(h, d).(contexts := s.contexts[(h, d.gen) := Context(hasDeadline, false)]);
      if hasDeadline then Apply(armed, h, Due(h, d.gen)) else armed
    case Cancel(h, g) => s.(contexts := s.contexts[(h, g) := s.contexts[(h, g)].(cancelled := true)])
    case Fire(h, g) => if s.Of(h).active == g then Apply(s, h, Past(h, g)) else s
    case Disarm(h, g) =>
      if s.Of(h).active == g
      then Apply(s.With(h, DisarmDirection(s.Of(h), g)), h, Unset)
      else s
  }

  ghost predicate Reachable(s: State, events: seq<Event>)
    decreases |events|
  {
    if events == [] then s == START
    else
      var n := |events| - 1;
      exists before: State ::
        Reachable(before, events[..n]) && Enabled(before, events[n]) && s == Step(before, events[n])
  }

  /** A setting that the current operation of a holder put there, for a reason of its own context: none only where that
      has no deadline. */
  predicate Owned(s: State, v: Setting, h: Holder) {
    var key := (h, s.Of(h).active);
    && key in s.contexts
    && ((v == Unset && !s.contexts[key].hasDeadline)
        || (v == Due(h, key.1) && s.contexts[key].hasDeadline)
        || (v == Past(h, key.1) && s.contexts[key].cancelled))
  }

  predicate DirectionOwned(s: State, v: Setting, own: Holder) {
    if !Idle(s, Handshaking) then Owned(s, v, Handshaking)
    else if !Idle(s, own) then Owned(s, v, own)
    else v == Unset
  }

  ghost predicate Valid(s: State) {
    && (forall key | key in s.contexts :: 1 <= key.1 <= s.Of(key.0).gen)
    && (forall h :: s.Of(h).active <= s.Of(h).gen)
    && (!Idle(s, Handshaking) ==> Idle(s, Reading) && Idle(s, Writing))
    && DirectionOwned(s, s.read, Reading)
    && DirectionOwned(s, s.write, Writing)
  }

  lemma ArmKeeps(s: State, h: Holder, hasDeadline: bool)
    requires Valid(s) && Enabled(s, Arm(h, hasDeadline))
    ensures Valid(Step(s, Arm(h, hasDeadline)))
  {
    var t := Step(s, Arm(h, hasDeadline));
    assert t.Of(h) == ArmDirection(s.Of(h)) && forall o | o != h :: t.Of(o) == s.Of(o);
    match h
    case Handshaking =>
    case Reading =>
    case Writing =>
  }

  lemma CancelKeeps(s: State, h: Holder, g: nat)
    requires Valid(s) && Enabled(s, Cancel(h, g))
    ensures Valid(Step(s, Cancel(h, g)))
  {
  }

  lemma FireKeeps(s: State, h: Holder, g: nat)
    requires Valid(s) && Enabled(s, Fire(h, g))
    ensures Valid(Step(s, Fire(h, g)))
  {
    match h
    case Handshaking =>
    case Reading =>
    case Writing =>
  }

  lemma DisarmKeeps(s: State, h: Holder, g: nat)
    requires Valid(s) && Enabled(s, Disarm(h, g))
    ensures Valid(Step(s, Disarm(h, g)))
  {
    match h
    case Handshaking =>
    case Reading =>
    case Writing =>
  }

  lemma StepKeeps(s: State, e: Event)
    requires Valid(s) && Enabled(s, e)
    ensures Valid(Step(s, e))
  {
    match e
    case Arm(h, hasDeadline) => ArmKeeps(s, h, hasDeadline);
    case Cancel(h, g) => CancelKeeps(s, h, g);
    case Fire(h, g) => FireKeeps(s, h, g);
    case Disarm(h, g) => DisarmKeeps(s, h, g);
  }

  /** Contexts stay, and one that is done stays done. */
  ghost predicate Recalls(s: State, t: State) {
    forall key | key in s.contexts ::
      && key in t.contexts
      && t.contexts[key].hasDeadline == s.contexts[key].hasDeadline
      && (s.contexts[key].cancelled ==> t.contexts[key].cancelled)
  }

  lemma StepRecalls(s: State, e: Event)
    requires Valid(s) && Enabled(s, e)
    ensures Recalls(s, Step(s, e))
  {
    hide DirectionOwned, Owned;
    if e.Arm? {
      var d := ArmDirection(s.Of(e.holder));
      assert (e.holder, d.gen) !in s.contexts;
    }
  }

  /** In every interleaving of arming, cancelling, late callbacks and repeated disarming, over any number of
      generations: a direction with no operation on it has no deadline, and one with an operation on it carries that
      operation's context deadline, if it has one, or the past one of that operation's own cancellation. */
  lemma {:induction false} NoStrayDeadline(s: State, events: seq<Event>)
    requires Reachable(s, events)
    ensures Valid(s)
    decreases |events|
  {
    if events != [] {
      var n := |events| - 1;
      var before: State :| Reachable(before, events[..n]) && Enabled(before, events[n]) && s == Step(before, events[n]);
      NoStrayDeadline(before, events[..n]);
      StepKeeps(before, events[n]);
    }
  }

  /** A callback of the generation armed now puts the past deadline on the directions of its holder; disarming it leaves
      the holder idle and those directions without a deadline. */
  lemma CurrentStrikes(s: State, h: Holder, g: nat)
    requires Valid(s) && (h, g) in s.contexts && g == s.Of(h).active
    ensures s.contexts[(h, g)].cancelled ==>
              var t := Step(s, Fire(h, g));
              && t.read == (if h != Writing then Past(h, g) else s.read)
              && t.write == (if h != Reading then Past(h, g) else s.write) && t.Of(h).active == g
    ensures var t := Step(s, Disarm(h, g));
            && t.Of(h).active == 0
            && t.read == (if h != Writing then Unset else s.read)
            && t.write == (if h != Reading then Unset else s.write)
  {
  }

  /** A callback or a disarm function of a generation that is not armed now changes nothing but context state. */
  lemma StaleChangesNothing(s: State, h: Holder, g: nat)
    requires Valid(s) && (h, g) in s.contexts && g != s.Of(h).active
    ensures Step(s, Disarm(h, g)) == s
    ensures s.contexts[(h, g)].cancelled ==> Step(s, Fire(h, g)) == s
  {
  }

  /** Once the handshake is disarmed, its cancellation can no longer reach either direction, in any continuation. */
  lemma {:induction false} HandshakeStaysOut(s: State, later: seq<Event>, t: State)
    requires Valid(s) && Idle(s, Handshaking)
    requires Extends(s, later, t) && forall e | e in later :: !(e.Arm? && e.holder == Handshaking)
    ensures Valid(t) && Idle(t, Handshaking)
    ensures t.read != Unset ==> t.read.holder == Reading
    ensures t.write != Unset ==> t.write.holder == Writing
    decreases |later|
  {
    if later != [] {
      StepKeeps(s, later[0]);
      HandshakeStaysOut(Step(s, later[0]), later[1..], t);
    }
  }

  ghost predicate Extends(s: State, later: seq<Event>, t: State)
    decreases |later|
  {
    if later == [] then s == t
    else Enabled(s, later[0]) && Extends(Step(s, later[0]), later[1..], t)
  }

  // ---------------------------------------------------------------- the holder object

  /** A directionDeadline and the deadline its set function last gave to its direction. */
  class DirectionDeadline {
    const holder: Holder
    var active: nat
    var gen: nat
    var deadline: Setting

    function Value(): Direction
      reads this
    {
      Direction(active, gen)
    }

    constructor (holder: Holder)
      ensures Value() == IDLE && deadline == Unset && this.holder == holder
    {
      this.holder := holder;
      active, gen, deadline := 0, 0, Unset;
    }

    /** On a context that is already done nothing changes and its error is returned. */
    method ArmFor(done: Option<Error>, hasDeadline: bool) returns (r: Result<nat>)
      modifies this
      ensures done.Some? ==> r == Err(done.value) && Value() == old(Value()) && deadline == old(deadline)
      ensures done == None ==>
                && r == Ok(gen) && Value() == ArmDirection(old(Value()))
                && deadline == if hasDeadline then Due(holder, gen) else old(deadline)
    {
      if done.Some? {
        return Err(done.value);
      }
      gen := gen + 1;
      active := gen;
      if hasDeadline {
        deadline := Due(holder, gen);
      }
      return Ok(gen);
    }

    /** The cancellation callback registered for generation g. */
    method OnCancel(g: nat)
      modifies this`deadline
      ensures deadline == if active == g then Past(holder, g) else old(deadline)
    {
      if active == g {
        deadline := Past(holder, g);
      }
    }

    method DisarmFor(g: nat)
      modifies this`active, this`deadline
      ensures Value() == DisarmDirection(old(Value()), g)
      ensures deadline == if old(active) == g then Unset else old(deadline)
    {
      if active == g {
        active := 0;
        deadline := Unset;
      }
    }
  }
}

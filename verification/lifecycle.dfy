/** Who holds a reference, and how a connection ends (conn.go:144-197, connect.go:53-63 and 162-164, accept.go:157-167
    and 206-207): any number of handshakes and connections sharing one allocator, every access a step of its own. */
module Lifecycle {
  import opened Types
  import opened References

  type Id = nat

  datatype Kind = Unterminated | ByClose | ByAbort
  datatype ConnState = Open | Closing | Shut | Aborted

  /** How far the body of termOnce has got. */
  datatype Stage = NotStarted | CauseSet | StateSet | StreamClosed | RefReleased | Over

  datatype Conn = Conn(
    ref: u16, kind: Kind, cause: Error, state: ConnState, stage: Stage, released: bool, closes: nat, releases: nat)

  datatype Actor = Handshaking(ref: u16) | Ended | Established(conn: Conn)

  /** `replies` collects what finish, abort and terminalError have returned to their callers. */
  datatype System = System(alloc: Alloc, actors: map<Id, Actor>, replies: seq<(Id, Error)>)

  const IDLE := System(FRESH, map[], [])

  datatype Event =
    | Start(id: Id)
    | Refuse(id: Id)
    | HandOver(id: Id)
    | Finish(id: Id, kind: Kind, cause: Error)
    | Advance(id: Id)
    | Return(id: Id)
    | Observe(id: Id)

  predicate IsConn(x: System, id: Id) { id in x.actors && x.actors[id].Established? }

  function ConnOf(x: System, id: Id): Conn
    requires IsConn(x, id)
  {
    x.actors[id].conn
  }

  function Put(x: System, id: Id, c: Conn): System { x.(actors := x.actors[id := Established(c)]) }

  /** One statement of the termOnce body. */
  function Advanced(x: System, id: Id): System
    requires IsConn(x, id)
  {
    var c := ConnOf(x, id);
    match c.stage
    case CauseSet => Put(x, id, c.(stage := StateSet, state := if c.kind == ByClose then Closing else Aborted))
    case StateSet => Put(x, id, c.(stage := StreamClosed, closes := c.closes + 1))
    case StreamClosed =>
      if c.released || c.ref == 0 then Put(x, id, c.(stage := RefReleased, released := true))
      else
        Put(x, id, c.(stage := RefReleased, released := true, releases := c.releases + 1))
          .(alloc := Drop(x.alloc, c.ref))
    case RefReleased => Put(x, id, c.(stage := Over, state := if c.kind == ByClose then Shut else c.state))
    case _ => x
  }

  /** An event that is not possible leaves the system as it is. */
  function Step(x: System, e: Event): System {
    match e
    case Start(id) =>
      if id in x.actors || Take(x.alloc).0.Err? then x
      else x.(alloc := Take(x.alloc).1, actors := x.actors[id := Handshaking(Take(x.alloc).0.value)])
    case Refuse(id) =>
      if id in x.actors && x.actors[id].Handshaking?
      then x.(alloc := Drop(x.alloc, x.actors[id].ref), actors := x.actors[id := Ended])
      else x
    case HandOver(id) =>
      if id in x.actors && x.actors[id].Handshaking?
      then Put(x, id, Conn(x.actors[id].ref, Unterminated, {}, Open, NotStarted, false, 0, 0))
      else x
    case Finish(id, kind, cause) =>
      if IsConn(x, id) && ConnOf(x, id).stage == NotStarted && kind != Unterminated
      then Put(x, id, ConnOf(x, id).(stage := CauseSet, kind := kind, cause := cause))
      else x
    case Advance(id) => if IsConn(x, id) then Advanced(x, id) else x
    case Return(id) =>
      if IsConn(x, id) && ConnOf(x, id).stage == Over
      then x.(replies := x.replies + [(id, ConnOf(x, id).cause)])
      else x
    case Observe(id) =>
      if IsConn(x, id) && ConnOf(x, id).kind != Unterminated
      then x.(replies := x.replies + [(id, ConnOf(x, id).cause)])
      else x
  }

  function Run(x: System, events: seq<Event>): System
    decreases |events|
  {
    if events == [] then x else Run(Step(x, events[0]), events[1..])
  }

  ghost predicate Reached(x: System) { exists events :: x == Run(IDLE, events) }

  // ---------------------------------------------------------------- invariant

  /** The actor still owes the allocator this reference. */
  predicate Holds(a: Actor, ref: u16) {
    match a
    case Handshaking(r) => r == ref
    case Ended => false
    case Established(c) => c.ref == ref && !c.released
  }

  predicate Held(x: System, ref: u16) { exists id | id in x.actors :: Holds(x.actors[id], ref) }

  predicate Consistent(c: Conn) {
    && c.ref != 0
    && (c.kind == Unterminated <==> c.stage == NotStarted)
    && c.state == (match c.stage
                   case NotStarted => Open
                   case CauseSet => Open
                   case Over => if c.kind == ByClose then Shut else Aborted
                   case _ => if c.kind == ByClose then Closing else Aborted)
    && (c.released <==> c.stage == RefReleased || c.stage == Over)
    && c.releases == (if c.released then 1 else 0)
    && c.closes == (if c.stage == NotStarted || c.stage == CauseSet || c.stage == StateSet then 0 else 1)
  }

  ghost predicate Valid(x: System) {
    && (forall ref: u16 :: ref in x.alloc.active <==> Held(x, ref))
    && 0 !in x.alloc.active
    && (forall i, j, ref: u16 |
          i in x.actors && j in x.actors && Holds(x.actors[i], ref) && Holds(x.actors[j], ref) :: i == j)
    && (forall i | i in x.actors && x.actors[i].Established? :: Consistent(x.actors[i].conn))
    && (forall k | 0 <= k < |x.replies| :: Replied(x, x.replies[k]))
  }

  predicate Replied(x: System, reply: (Id, Error)) {
    IsConn(x, reply.0) && ConnOf(x, reply.0).kind != Unterminated && ConnOf(x, reply.0).cause == reply.1
  }

  /** How one connection may change over time: its cause stays once set, its state only moves forward. */
  predicate Forward(a: Conn, b: Conn) {
    && a.ref == b.ref
    && (a.kind != Unterminated ==> b.kind == a.kind && b.cause == a.cause)
    && (a.state == b.state || a.state == Open || (a.state == Closing && b.state == Shut))
    && a.closes <= b.closes && a.releases <= b.releases
    && (a.released ==> b.released)
  }

  ghost predicate AllForward(x: System, y: System) {
    forall id | IsConn(x, id) :: IsConn(y, id) && Forward(ConnOf(x, id), ConnOf(y, id))
  }

  /** The actors other than id, and what they hold, are untouched. */
  ghost predicate OthersSame(x: System, y: System, id: Id) {
    forall o | o in x.actors && o != id :: o in y.actors && y.actors[o] == x.actors[o]
  }

  /** Changing one actor without changing what it holds. */
  lemma SameHolding(x: System, y: System, id: Id)
    requires Valid(x) && id in x.actors && y.alloc == x.alloc
    requires id in y.actors && y.actors == x.actors[id := y.actors[id]]
    requires forall ref: u16 :: Holds(y.actors[id], ref) <==> Holds(x.actors[id], ref)
    requires y.actors[id].Established? ==> Consistent(y.actors[id].conn)
    requires IsConn(x, id) ==> IsConn(y, id) && Forward(ConnOf(x, id), ConnOf(y, id))
    requires y.replies == x.replies
    ensures Valid(y) && AllForward(x, y)
  {
    forall ref: u16 ensures Held(y, ref) <==> Held(x, ref) {
      if Held(x, ref) {
        var i :| i in x.actors && Holds(x.actors[i], ref);
        assert i in y.actors && Holds(y.actors[i], ref);
      }
      if Held(y, ref) {
        var i :| i in y.actors && Holds(y.actors[i], ref);
        assert i in x.actors && Holds(x.actors[i], ref);
      }
    }
    forall k | 0 <= k < |y.replies| ensures Replied(y, y.replies[k]) {
      assert Replied(x, x.replies[k]);
    }
  }

  /** One actor gives its reference back and holds nothing afterwards. */
  lemma GivesBack(x: System, y: System, id: Id, ref: u16)
    requires Valid(x) && id in x.actors && Holds(x.actors[id], ref)
    requires y.alloc == Drop(x.alloc, ref) && id in y.actors && y.actors == x.actors[id := y.actors[id]]
    requires forall r: u16 :: !Holds(y.actors[id], r)
    requires y.actors[id].Established? ==> Consistent(y.actors[id].conn)
    requires IsConn(x, id) ==> IsConn(y, id) && Forward(ConnOf(x, id), ConnOf(y, id))
    requires y.replies == x.replies
    ensures Valid(y) && AllForward(x, y)
  {
    assert Held(x, ref);
    forall r: u16 ensures Held(y, r) <==> Held(x, r) && r != ref {
      if Held(x, r) && r != ref {
        var i :| i in x.actors && Holds(x.actors[i], r);
        assert i != id;
        assert i in y.actors && Holds(y.actors[i], r);
      }
      if Held(y, r) {
        var i :| i in y.actors && Holds(y.actors[i], r);
        assert i != id && i in x.actors && Holds(x.actors[i], r);
      }
    }
    forall k | 0 <= k < |y.replies| ensures Replied(y, y.replies[k]) {
      assert Replied(x, x.replies[k]);
    }
  }

  /** A new handshake takes a free reference. */
  lemma TakesOut(x: System, y: System, id: Id, ref: u16)
    requires Valid(x) && id !in x.actors && Free(x.alloc, ref)
    requires y.alloc.active == x.alloc.active + {ref} && y.actors == x.actors[id := Handshaking(ref)]
    requires y.replies == x.replies
    ensures Valid(y) && AllForward(x, y)
  {
    assert !Held(x, ref);
    assert Holds(y.actors[id], ref);
    forall r: u16 ensures Held(y, r) <==> Held(x, r) || r == ref {
      if Held(x, r) {
        var i :| i in x.actors && Holds(x.actors[i], r);
        assert i in y.actors && Holds(y.actors[i], r);
      }
      if Held(y, r) && r != ref {
        var i :| i in y.actors && Holds(y.actors[i], r);
        assert i in x.actors && Holds(x.actors[i], r);
      }
    }
    forall k | 0 <= k < |y.replies| ensures Replied(y, y.replies[k]) {
      assert Replied(x, x.replies[k]);
    }
  }

  lemma StepKeeps(x: System, e: Event)
    requires Valid(x)
    ensures Valid(Step(x, e)) && AllForward(x, Step(x, e)) && OthersSame(x, Step(x, e), e.id)
  {
    var y, id := Step(x, e), e.id;
    match e
    case Start(_) =>
      if id !in x.actors && Take(x.alloc).0.Ok? {
        TakeMeaning(x.alloc);
        TakesOut(x, y, id, Take(x.alloc).0.value);
      }
    case Refuse(_) =>
      if id in x.actors && x.actors[id].Handshaking? { GivesBack(x, y, id, x.actors[id].ref); }
    case HandOver(_) =>
      if id in x.actors && x.actors[id].Handshaking? {
        assert Held(x, x.actors[id].ref) by { assert Holds(x.actors[id], x.actors[id].ref); }
        SameHolding(x, y, id);
      }
    case Finish(_, _, _) =>
      if y != x { SameHolding(x, y, id); }
    case Advance(_) =>
      if IsConn(x, id) {
        var c := ConnOf(x, id);
        if c.stage == StreamClosed {
          assert Consistent(c);
          GivesBack(x, y, id, c.ref);
        } else if y != x {
          assert Consistent(c);
          SameHolding(x, y, id);
        }
      }
    case Return(_) => ReplyKeeps(x, id);
    case Observe(_) => ReplyKeeps(x, id);
  }

  lemma ReplyKeeps(x: System, id: Id)
    requires Valid(x)
    ensures IsConn(x, id) && ConnOf(x, id).kind != Unterminated ==>
              Valid(x.(replies := x.replies + [(id, ConnOf(x, id).cause)]))
  {
    if IsConn(x, id) && ConnOf(x, id).kind != Unterminated {
      var y := x.(replies := x.replies + [(id, ConnOf(x, id).cause)]);
      forall ref: u16 ensures Held(y, ref) <==> Held(x, ref) {
      }
      forall k | 0 <= k < |y.replies| ensures Replied(y, y.replies[k]) {
        if k < |x.replies| { assert Replied(x, x.replies[k]); }
      }
    }
  }

  lemma {:induction false} RunKeeps(x: System, events: seq<Event>)
    requires Valid(x)
    ensures Valid(Run(x, events)) && AllForward(x, Run(x, events))
    decreases |events|
  {
    if events != [] {
      var y := Step(x, events[0]);
      StepKeeps(x, events[0]);
      RunKeeps(y, events[1..]);
      ForwardTransitively(x, y, Run(x, events));
    }
  }

  lemma ForwardTransitively(x: System, y: System, z: System)
    requires AllForward(x, y) && AllForward(y, z)
    ensures AllForward(x, z)
  {
  }

  lemma ReachedIsValid(x: System)
    requires Reached(x)
    ensures Valid(x)
  {
    var events :| x == Run(IDLE, events);
    RunKeeps(IDLE, events);
  }

  // ---------------------------------------------------------------- results

  /** A handshake that starts while a reference is free takes one. */
  lemma HandshakesStart(x: System, id: Id)
    requires Reached(x) && id !in x.actors && exists ref: u16 :: ref != 0 && ref !in x.alloc.active
    ensures var y := Step(x, Start(id));
            && id in y.actors && y.actors == x.actors[id := y.actors[id]]
            && y.actors[id].Handshaking? && y.actors[id].ref !in x.alloc.active
            && y.alloc.active == x.alloc.active + {y.actors[id].ref}
  {
    ReachedIsValid(x);
    TakeMeaning(x.alloc);
    hide Run, Take;
  }

  /** Refused, a handshake gives its reference back; handed over, it becomes an open connection on it. */
  lemma HandshakesEnd(x: System, id: Id)
    requires Reached(x) && id in x.actors && x.actors[id].Handshaking?
    ensures var y, z, ref := Step(x, Refuse(id)), Step(x, HandOver(id)), x.actors[id].ref;
            && y.actors == x.actors[id := Ended] && y.alloc.active == x.alloc.active - {ref}
            && z.actors == x.actors[id := Established(Conn(ref, Unterminated, {}, Open, NotStarted, false, 0, 0))]
            && z.alloc == x.alloc
  {
    ReachedIsValid(x);
    assert Holds(x.actors[id], x.actors[id].ref);
    hide Run, Take;
  }

  /** Whoever asks once the cause is stored, or waits for the body of termOnce to end, is told the cause. */
  lemma CausesAreTold(x: System, id: Id)
    requires IsConn(x, id)
    ensures ConnOf(x, id).kind != Unterminated ==>
              Step(x, Observe(id)) == x.(replies := x.replies + [(id, ConnOf(x, id).cause)])
    ensures ConnOf(x, id).stage == Over ==>
              Step(x, Return(id)) == x.(replies := x.replies + [(id, ConnOf(x, id).cause)])
  {
  }

  /** In every run the active references are exactly those held by handshakes in flight and by connections that have
      not released theirs; none is zero and no two holders share one. */
  lemma OwnershipIsExact(x: System, i: Id, j: Id, ref: u16)
    requires Reached(x)
    ensures ref in x.alloc.active <==> Held(x, ref)
    ensures Held(x, ref) ==> ref != 0
    ensures i in x.actors && j in x.actors && Holds(x.actors[i], ref) && Holds(x.actors[j], ref) ==> i == j
  {
    ReachedIsValid(x);
  }

  /** No event of one actor, however late or often repeated, takes away the reference another one holds. */
  lemma NoForeignRelease(x: System, e: Event, other: Id, ref: u16)
    requires Reached(x) && other != e.id && other in x.actors && Holds(x.actors[other], ref)
    ensures var y := Step(x, e); other in y.actors && Holds(y.actors[other], ref) && ref in y.alloc.active
  {
    ReachedIsValid(x);
    StepKeeps(x, e);
    var y := Step(x, e);
    assert Held(y, ref);
  }

  /** Of any number of Close calls, aborts and I/O failures the first decides: its cause never changes and is what
      every one of them returns; the stream is closed once and the reference released once; and the state goes
      open, closing, closed or open, aborted and nowhere else. */
  lemma FirstCauseDecides(x: System, events: seq<Event>, id: Id)
    requires Reached(x) && IsConn(x, id)
    ensures var y := Run(x, events);
            && IsConn(y, id) && Forward(ConnOf(x, id), ConnOf(y, id))
            && Consistent(ConnOf(y, id))
            && ConnOf(y, id).closes <= 1 && ConnOf(y, id).releases <= 1
            && (ConnOf(y, id).stage == Over ==> ConnOf(y, id).closes == 1 && ConnOf(y, id).releases == 1)
            && (forall k | 0 <= k < |y.replies| && y.replies[k].0 == id :: y.replies[k].1 == ConnOf(y, id).cause)
  {
    ReachedIsValid(x);
    RunKeeps(x, events);
    var y := Run(x, events);
    forall k | 0 <= k < |y.replies| && y.replies[k].0 == id ensures y.replies[k].1 == ConnOf(y, id).cause {
      assert Replied(y, y.replies[k]);
    }
  }
}

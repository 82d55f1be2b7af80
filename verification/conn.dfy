/** The connection object (conn.go, tsdu.go). Its fields are the shared state; the ghost fields `writers` and `readers`
    record how far each call is in the step systems of Sending and Receiving. The invariant is that the object is always
    where some run of Endpoint leads: every method below performs steps of such a run. Between two steps another
    goroutine may end the connection, and the peer may send anything (Interrupt). */
module Connection {
  import opened Types
  import opened Transfer
  import opened Codec
  import Deadline
  import Endpoint
  import Link
  import References
  import L = Lifecycle
  import S = Sending
  import R = Receiving

  /** How a read ended: before it read, by a failure of the stream, or by what it read. */
  datatype Reading = NotStarted | StreamFailed(failure: Failure) | Decided(outcome: Outcome)

  /** A failure of the stream, and the context as it was when the failure was classified or excused. */
  datatype Failure = Failure(err: IoError, ctx: Ctx)

  /** The context's own error takes the place of a timeout. */
  predicate ExcusedBy(e: Error, f: Failure) {
    && f.err.timeout
    && (f.ctx.err == Some(e)
        || (f.ctx.err == None && f.ctx.hasDeadline && f.ctx.passed && e == {DeadlineExceeded}))
  }

  /** The cause has exactly the marks the failure calls for. */
  predicate CausedBy(e: Error, f: Failure, mid: bool) { forall m :: m in e <==> Marked(m, f.ctx, f.err, mid) }

  /** How a write that failed may end, nobody else having ended the connection. */
  predicate EndsBy(r: S.Ending, f: Failure) {
    (r.Bare? && ExcusedBy(r.error, f)) || (r.Terminal? && CausedBy(r.error, f, false))
  }

  /** Why a write of n octets is refused on an open connection, if it is. */
  function Refusal(n: nat, maxTPDU: int, maxTSDU: nat): Option<Error> {
    if n == 0 then Some({EmptyTSDU})
    else if n > (if maxTSDU == 0 then 4194304 else maxTSDU) then Some({TSDUTooLarge})
    else if maxTPDU < 4 then Some({InvalidConfig})
    else None
  }

  lemma CauseIsMarked(f: Failure, mid: bool)
    ensures CausedBy(IoCause(f.ctx, f.err, mid), f, mid)
  {
    forall m ensures m in IoCause(f.ctx, f.err, mid) <==> Marked(m, f.ctx, f.err, mid) {
      CauseIs(f.ctx, f.err, mid, m);
    }
  }

  /** What one packet does for a read: ends it, or gives it a segment. */
  datatype Turn = Ended(r: R.Ending) | Took(segment: bytes, last: bool)

  class Conn {
    const maxTPDU: int
    const maxTSDU: nat
    const localRef: u16
    const refs: References.ReferenceAllocator
    const writeDeadline: Deadline.DirectionDeadline
    const readDeadline: Deadline.DirectionDeadline

    var termKind: L.Kind
    var termErr: Error
    var state: L.ConnState
    var streamCloses: nat
    var refReleased: bool
    var writeLocked: bool
    var readLocked: bool
    var nWritten: nat
    var nRead: nat

    /** What this end has written to the stream, and what has arrived; `taken` items of the latter are consumed. */
    var outbound: seq<S.Item>
    var inbound: seq<S.Item>
    var taken: nat

    ghost var writers: S.Sender
    ghost var readers: R.Receiver

    /** How often another goroutine set out to end the connection. */
    ghost var interruptions: nat

    function Term(): Option<Error>
      reads this`termKind, this`termErr
    {
      if termKind == L.Unterminated then None else Some(termErr)
    }

    /** The connection as Lifecycle sees it, outside the body of termOnce. */
    function Life(): L.Conn
      reads this`termKind, this`termErr, this`state, this`refReleased, this`streamCloses
    {
      L.Conn(localRef, termKind, termErr, state, if termKind == L.Unterminated then L.NotStarted else L.Over,
             refReleased, streamCloses, if refReleased then 1 else 0)
    }

    /** This connection alone on its allocator. */
    ghost function Alone(): L.System
      reads this, refs
    {
      L.System(refs.Value(), map[0 := L.Established(Life())], [])
    }

    /** The connection as Endpoint sees it. */
    ghost function This(): Endpoint.End
      reads this`termKind, this`termErr, this`state, this`writers, this`readers, this`inbound
    {
      Endpoint.End(writers, readers, Term(), state != L.Open, inbound)
    }

    ghost predicate WriteSide()
      reads this`writers, this`nWritten, this`outbound, this`writeLocked, writeDeadline
    {
      && writers.maxTPDU == maxTPDU && writers.maxTSDU == maxTSDU
      && nWritten == writers.moved && outbound == writers.wire
      && writeLocked == writers.lock.Some?
      && writeDeadline.Value() == writers.deadline
    }

    ghost predicate ReadSide()
      reads this`readers, this`nRead, this`taken, this`readLocked, readDeadline
    {
      && readers.maxTPDU == maxTPDU && readers.maxTSDU == maxTSDU
      && nRead == readers.moved && taken == readers.taken
      && readLocked == readers.lock.Some?
      && readDeadline.Value() == readers.deadline
    }

    ghost predicate Valid()
      reads this, writeDeadline, readDeadline
    {
      && writeDeadline != readDeadline
      && Endpoint.Reached(This())
      && WriteSide() && ReadSide()
      && L.Consistent(Life())
    }

    constructor (maxTPDU: int, maxTSDU: nat, localRef: u16, refs: References.ReferenceAllocator)
      requires localRef != 0
      ensures Valid() && Term() == None && state == L.Open
      ensures this.maxTPDU == maxTPDU && this.maxTSDU == maxTSDU && this.localRef == localRef && this.refs == refs
      ensures This() == Endpoint.Start(maxTPDU, maxTSDU)
      ensures fresh(writeDeadline) && fresh(readDeadline)
    {
      this.maxTPDU, this.maxTSDU, this.localRef, this.refs := maxTPDU, maxTSDU, localRef, refs;
      writeDeadline := new Deadline.DirectionDeadline(Deadline.Writing);
      readDeadline := new Deadline.DirectionDeadline(Deadline.Reading);
      termKind, termErr, state := L.Unterminated, {}, L.Open;
      streamCloses, refReleased := 0, false;
      writeLocked, readLocked := false, false;
      nWritten, nRead, outbound, inbound, taken := 0, 0, [], [], 0;
      writers, readers, interruptions := S.Fresh(maxTPDU, maxTSDU), R.Fresh(maxTPDU, maxTSDU), 0;
      new;
      hide Endpoint.Reached;
      Endpoint.StartIsValid(maxTPDU, maxTSDU);
    }

    // -------------------------------------------------------------- steps

    /** A step of a write call that stores no cause. */
    lemma WriteStep(e: S.Event)
      requires Endpoint.Reached(This()) && Endpoint.Enabled(This(), Endpoint.Write(e))
      requires S.Step(writers, Term(), e).1 == Term()
      ensures Endpoint.Reached(This().(sender := S.Step(writers, Term(), e).0))
    {
      hide Endpoint.Reached, S.Step, S.Enabled;
      Endpoint.StepReaches(This(), Endpoint.Write(e));
    }

    /** A step of a read call that stores no cause. */
    lemma ReadStep(e: R.Event)
      requires Endpoint.Reached(This()) && Endpoint.Enabled(This(), Endpoint.Read(e))
      requires R.Step(readers, inbound, Term(), e).1 == Term()
      ensures Endpoint.Reached(This().(receiver := R.Step(readers, inbound, Term(), e).0))
    {
      hide Endpoint.Reached, R.Step, R.Enabled;
      Endpoint.StepReaches(This(), Endpoint.Read(e));
    }

    lemma EndStep(err: Error)
      requires Endpoint.Reached(This())
      ensures Endpoint.Reached(This().(term := S.First(Term(), err), shown := true))
    {
      hide Endpoint.Reached;
      Endpoint.StepReaches(This(), Endpoint.Terminate(err));
      Endpoint.StepReaches(Endpoint.Step(This(), Endpoint.Terminate(err)), Endpoint.Show);
    }

    // -------------------------------------------------------------- ending

    method ReleaseRef()
      modifies this`refReleased, refs
      ensures refReleased
      ensures refs.Value() == if old(refReleased) || localRef == 0 then old(refs.Value())
                              else References.Drop(old(refs.Value()), localRef)
    {
      if !refReleased {
        refReleased := true;
        if localRef != 0 {
          refs.Release(localRef);
        }
      }
    }

    /** finish runs its body once; every call returns the stored cause. */
    method Finish(kind: L.Kind, err: Error) returns (r: Error)
      requires kind != L.Unterminated && L.Consistent(Life())
      modifies this`termKind, this`termErr, this`state, this`streamCloses, this`refReleased, refs
      ensures Term() == S.First(old(Term()), err) && Term() == Some(r)
      ensures Alone() == L.Run(old(Alone()), FinishSteps(kind, err))
      ensures L.Consistent(Life())
    {
      if termKind == L.Unterminated {
        termKind := kind;
        termErr := err;
        if kind == L.ByClose {
          state := L.Closing;
        } else {
          state := L.Aborted;
        }
        streamCloses := streamCloses + 1;
        ReleaseRef();
        if kind == L.ByClose {
          state := L.Shut;
        }
      }
      FinishIsFiveSteps(old(Alone()), kind, err);
      r := termErr;
    }

    method Close() returns (r: Error)
      requires Valid()
      modifies this`termKind, this`termErr, this`state, this`streamCloses, this`refReleased, refs
      ensures Valid() && Term() == S.First(old(Term()), {Closed}) && Term() == Some(r)
      ensures Alone() == L.Run(old(Alone()), FinishSteps(L.ByClose, {Closed}))
    {
      hide Endpoint.Reached, L.Consistent, L.Run, FinishSteps;
      EndStep({Closed});
      r := Finish(L.ByClose, {Closed});
      StateShowsEnd();
    }

    method Abort(err: Error) returns (r: Error)
      requires Valid()
      modifies this`termKind, this`termErr, this`state, this`streamCloses, this`refReleased, refs
      ensures Valid() && Term() == S.First(old(Term()), err) && Term() == Some(r)
      ensures Alone() == L.Run(old(Alone()), FinishSteps(L.ByAbort, err))
    {
      hide Endpoint.Reached, L.Consistent, L.Run, FinishSteps;
      EndStep(err);
      r := Finish(L.ByAbort, err);
      StateShowsEnd();
    }

    /** Another goroutine may end the connection here, by Close or by an abort in the other direction, and the peer may
        send whatever it likes. */
    method Interrupt()
      requires Valid()
      modifies this`termKind, this`termErr, this`state, this`streamCloses, this`refReleased, refs
      modifies this`inbound, this`interruptions
      ensures Valid() && (old(Term()).Some? ==> Term() == old(Term()))
      ensures Grown(old(inbound), inbound) && interruptions >= old(interruptions)
      ensures interruptions == old(interruptions) ==> Term() == old(Term())
    {
      hide Endpoint.Reached, L.Run, FinishSteps, L.Consistent;
      Receive();
      if * {
        var _ := Close();
        interruptions := interruptions + 1;
      } else if * {
        var cause: Error := *;
        var _ := Abort(cause);
        interruptions := interruptions + 1;
      }
    }

    /** The peer's next octets, as whole packets of any content and stretches that are none. */
    method Receive()
      requires Valid()
      modifies this`inbound
      ensures Valid() && Grown(old(inbound), inbound)
    {
      hide Endpoint.Reached, L.Consistent;
      var items: seq<S.Item> := *;
      ArrivesAll(This(), items);
      inbound := inbound + items;
    }

    // -------------------------------------------------------------- writing

    /** writeMu.lock: the lock when it is free, or the context's error. */
    method EnterWrite(ghost c: S.Call, tsdu: bytes) returns (r: Option<S.Ending>)
      requires Valid() && c !in writers.at
      modifies this`writers, this`writeLocked
      ensures Valid() && c in writers.at
      ensures r == None ==> writers.at[c] == S.Holding(tsdu)
      ensures r.Some? ==> writers.at[c] == S.Done(tsdu, r.value) && r.value.Bare? && writeLocked == old(writeLocked)
    {
      hide Endpoint.Reached, ReadSide, L.Consistent, Packets, IoCause, Life;
      QueueWrite(c, tsdu);
      var free: bool := *;
      if !writeLocked && free {
        WriteStep(S.Lock(c));
        writers := S.Step(writers, Term(), S.Lock(c)).0;
        writeLocked := true;
        r := None;
      } else {
        var err: Error := *;
        WriteStep(S.GiveUp(c, err));
        writers := S.Step(writers, Term(), S.GiveUp(c, err)).0;
        r := Some(S.Bare(err));
      }
    }

    ghost method QueueWrite(c: S.Call, tsdu: bytes)
      requires Valid() && c !in writers.at
      modifies this`writers
      ensures Valid() && writers == S.Move(old(writers), c, S.Queued(tsdu))
    {
      hide Endpoint.Reached, ReadSide, L.Consistent, Packets, IoCause, Life;
      WriteStep(S.Begin(c, tsdu));
      writers := S.Step(writers, Term(), S.Begin(c, tsdu)).0;
    }

    /** Outside the body of termOnce the state shows whether a cause is stored. */
    lemma StateShowsEnd()
      requires L.Consistent(Life())
      ensures state != L.Open <==> Term().Some?
    {
    }

    /** requireOpen's first look: the stored cause. */
    method LookWrite(ghost c: S.Call, ghost tsdu: bytes) returns (r: Option<S.Ending>)
      requires Valid() && c in writers.at && writers.at[c] == S.Holding(tsdu)
      modifies this`writers
      ensures Valid() && c in writers.at
      ensures r == None ==> writers.at[c] == S.Admitted(tsdu)
      ensures r.Some? ==> writers.at[c] == S.Leaving(tsdu, 0, r.value)
      ensures r == match Term() case Some(e) => Some(S.Terminal(e)) case None => None
    {
      hide Endpoint.Reached, ReadSide, L.Consistent, Packets, IoCause, Life;
      r := if termKind != L.Unterminated then Some(S.Terminal(termErr)) else None;
      WriteStep(S.Look(c));
      writers := S.Step(writers, Term(), S.Look(c)).0;
    }

    /** Its second look, at the state; then the context, the TSDU's length, the negotiated size. */
    method CheckWrite(ghost c: S.Call, tsdu: bytes, ctx: Ctx) returns (r: Option<S.Ending>)
      requires Valid() && c in writers.at && writers.at[c] == S.Admitted(tsdu)
      modifies this`writers
      ensures Valid() && c in writers.at
      ensures r == None ==> writers.at[c] == S.Checked(tsdu)
      ensures r.Some? ==> writers.at[c] == S.Leaving(tsdu, 0, r.value)
      ensures r == if Term().Some? then Some(S.Rejected({Closed}))
                   else if ctx.err.Some? then Some(S.Bare(ctx.err.value))
                   else match Refusal(|tsdu|, maxTPDU, maxTSDU) case Some(e) => Some(S.Rejected(e)) case None => None
    {
      hide Endpoint.Reached, ReadSide, L.Consistent, Packets, IoCause, Life;
      StateShowsEnd();
      if state != L.Open {
        r := Some(S.Rejected({Closed}));
      } else if ctx.err.Some? {
        r := Some(S.Bare(ctx.err.value));
      } else if WriteLengthError(|tsdu|, maxTSDU).Some? {
        r := Some(S.Rejected(WriteLengthError(|tsdu|, maxTSDU).value));
      } else if MaxSegmentPayload(maxTPDU) < 1 {
        r := Some(S.Rejected({InvalidConfig}));
      } else {
        r := None;
      }
      WriteStep(S.Check(c, state != L.Open, ctx));
      writers := S.Step(writers, Term(), S.Check(c, state != L.Open, ctx)).0;
    }

    method ArmWrite(ghost c: S.Call, ghost tsdu: bytes, ctx: Ctx) returns (r: Result<nat>)
      requires Valid() && c in writers.at && writers.at[c] == S.Checked(tsdu)
      modifies this`writers, writeDeadline
      ensures Valid() && c in writers.at
      ensures r.Ok? ==> writers.at[c] == S.Looping(tsdu, r.value, nWritten, 0)
      ensures r.Err? ==> writers.at[c] == S.Leaving(tsdu, 0, S.Bare(r.error))
      ensures if ctx.err.Some? then r == Err(ctx.err.value) else r.Ok?
    {
      hide Endpoint.Reached, ReadSide, L.Consistent, Packets, IoCause, Life;
      WriteStep(S.ArmDeadline(c, ctx));
      writers := S.Step(writers, Term(), S.ArmDeadline(c, ctx)).0;
      r := writeDeadline.ArmFor(ctx.err, ctx.hasDeadline);
    }

    /** tpkt.Writer: the whole packet moves, or the stream fails after some of its octets. */
    method WritePacket(ghost c: S.Call, packet: bytes) returns (failure: Option<IoError>)
      requires Valid() && c in writers.at && S.CanSend(writers, writers.at[c])
      requires packet == S.NextPacket(writers, writers.at[c])
      modifies this`writers, this`outbound, this`nWritten
      ensures Valid() && c in writers.at
      ensures var p := old(writers.at)[c];
              writers.at[c] == if failure == None then p.(next := p.next + 1)
                               else S.Failed(p.tsdu, p.gen, p.start, failure.value)
      ensures failure == None ==> outbound == old(outbound) + [S.Whole(packet)] && nWritten > old(nWritten)
      ensures failure.Some? ==> Extends(old(outbound), old(nWritten), outbound, nWritten)
    {
      hide Endpoint.Reached, S.NextPacket, S.CanSend, ReadSide, L.Consistent, Life;
      var whole: bool := *;
      if whole {
        WriteStep(S.Send(c));
        writers := S.Step(writers, Term(), S.Send(c)).0;
        outbound := outbound + [S.Whole(packet)];
        nWritten := nWritten + S.FrameLength(packet);
        failure := None;
      } else {
        failure := FailPacket(c, packet);
      }
    }

    method FailPacket(ghost c: S.Call, packet: bytes) returns (failure: Option<IoError>)
      requires Valid() && c in writers.at && S.CanSend(writers, writers.at[c])
      requires packet == S.NextPacket(writers, writers.at[c])
      modifies this`writers, this`outbound, this`nWritten
      ensures Valid() && c in writers.at && failure.Some?
      ensures var p := old(writers.at)[c]; writers.at[c] == S.Failed(p.tsdu, p.gen, p.start, failure.value)
      ensures Extends(old(outbound), old(nWritten), outbound, nWritten)
    {
      hide Endpoint.Reached, S.NextPacket, S.CanSend, S.Step, ReadSide, L.Consistent, Life;
      var some: int := *;
      var err: IoError := *;
      var octets: nat := if 0 <= some < S.FrameLength(packet) then some else S.FrameLength(packet);
      S.FailIs(writers, Term(), c, octets, err);
      WriteStep(S.Fail(c, octets, err));
      writers := S.Step(writers, Term(), S.Fail(c, octets, err)).0;
      if octets == S.FrameLength(packet) {
        outbound := outbound + [S.Whole(packet)];
      } else if octets > 0 {
        outbound := outbound + [S.Torn(octets)];
      }
      nWritten := nWritten + octets;
      failure := Some(err);
    }

    /** What WriteTSDU does with a failed WritePacket: a bare context error when nothing moved and the context's own
        deadline ended it, else classifyIO, which looks at the cause and the context anew, and its abort. */
    method SettleWrite(ghost c: S.Call, ghost tsdu: bytes, ghost gen: nat, start: nat, err: IoError, ctx: Ctx)
      returns (r: S.Ending, ghost f: Failure)
      requires Valid() && c in writers.at && writers.at[c] == S.Failed(tsdu, gen, start, err)
      modifies this`writers, this`inbound, this`interruptions
      modifies this`termKind, this`termErr, this`state, this`streamCloses, this`refReleased, refs
      ensures Valid() && c in writers.at && writers.at[c] == S.Leaving(tsdu, gen, r)
      ensures if nWritten == start && old(Term()) == None && err.timeout && CtxDone(ctx).Some?
              then r == S.Bare(CtxDone(ctx).value) else r.Terminal?
      ensures interruptions >= old(interruptions)
      ensures interruptions == old(interruptions) && old(Term()) == None ==> EndsBy(r, f)
    {
      hide Endpoint.Reached, L.Consistent, IoCause, Packets, ReadSide, Life;
      hide CausedBy;
      f := Failure(err, ctx);
      WriteStep(S.Inspect(c, ctx));
      writers := S.Step(writers, Term(), S.Inspect(c, ctx)).0;
      if nWritten == start && termKind == L.Unterminated && err.timeout && CtxDone(ctx).Some? {
        return S.Bare(CtxDone(ctx).value), f;
      }
      Interrupt();
      var later: Ctx := *;
      f := Failure(err, later);
      r := ClassifyWrite(c, tsdu, gen, err, later);
    }

    method ClassifyWrite(ghost c: S.Call, ghost tsdu: bytes, ghost gen: nat, err: IoError, ctx: Ctx)
      returns (r: S.Ending)
      requires Valid() && c in writers.at && writers.at[c] == S.Classifying(tsdu, gen, err)
      modifies this`writers, this`inbound, this`interruptions
      modifies this`termKind, this`termErr, this`state, this`streamCloses, this`refReleased, refs
      ensures Valid() && c in writers.at && writers.at[c] == S.Leaving(tsdu, gen, r) && r.Terminal?
      ensures interruptions >= old(interruptions)
      ensures old(Term()).Some? ==> r.error == old(Term()).value
      ensures interruptions == old(interruptions) && old(Term()) == None ==>
                CausedBy(r.error, Failure(err, ctx), false)
    {
      hide Endpoint.Reached, L.Consistent, IoCause, Packets, ReadSide, Life, CausedBy;
      CauseIsMarked(Failure(err, ctx), false);
      WriteStep(S.Classify(c, ctx));
      writers := S.Step(writers, Term(), S.Classify(c, ctx)).0;
      if termKind != L.Unterminated {
        return S.Terminal(termErr);
      }
      Interrupt();
      r := AbortWrite(c, tsdu, gen, IoCause(ctx, err, false));
    }

    method AbortWrite(ghost c: S.Call, ghost tsdu: bytes, ghost gen: nat, cause: Error) returns (r: S.Ending)
      requires Valid() && c in writers.at && writers.at[c] == S.Aborting(tsdu, gen, cause)
      modifies this`writers, this`termKind, this`termErr, this`state, this`streamCloses, this`refReleased, refs
      ensures Valid() && c in writers.at && writers.at[c] == S.Leaving(tsdu, gen, r) && r.Terminal?
      ensures old(Term()) == None ==> r.error == cause
    {
      hide Endpoint.Reached, L.Consistent, Alone, Life, Packets;
      var stored := Abort(cause);
      WriteStep(S.Abort(c));
      writers := S.Step(writers, Term(), S.Abort(c)).0;
      return S.Terminal(stored);
    }

    /** The deferred disarm, then the deferred unlock. */
    method LeaveWrite(ghost c: S.Call, ghost tsdu: bytes, gen: nat, r: S.Ending)
      requires Valid() && c in writers.at && writers.at[c] == S.Leaving(tsdu, gen, r)
      modifies this`writers, this`writeLocked, writeDeadline
      ensures Valid() && c in writers.at && writers.at[c] == S.Done(tsdu, r) && !writeLocked
    {
      hide Endpoint.Reached, ReadSide, L.Consistent, Packets, IoCause, Life;
      if gen > 0 {
        DisarmWrite(c, tsdu, gen, r);
      }
      WriteStep(S.Unlock(c));
      writers := S.Step(writers, Term(), S.Unlock(c)).0;
      writeLocked := false;
    }

    method DisarmWrite(ghost c: S.Call, ghost tsdu: bytes, gen: nat, ghost r: S.Ending)
      requires Valid() && c in writers.at && writers.at[c] == S.Leaving(tsdu, gen, r) && gen > 0
      modifies this`writers, writeDeadline
      ensures Valid() && c in writers.at && writers.at[c] == S.Leaving(tsdu, 0, r)
    {
      hide Endpoint.Reached, ReadSide, L.Consistent, Packets, IoCause, Life;
      WriteStep(S.DisarmDeadline(c));
      writers := S.Step(writers, Term(), S.DisarmDeadline(c)).0;
      writeDeadline.DisarmFor(gen);
    }

    /** WriteTSDU, with another goroutine free to end the connection between any two accesses to shared state. */
    method WriteTSDU(ghost c: S.Call, tsdu: bytes) returns (r: S.Ending, ghost f: Option<Failure>)
      requires Valid() && c !in writers.at
      modifies this`writers, this`outbound, this`nWritten, this`writeLocked, writeDeadline
      modifies this`inbound, this`interruptions
      modifies this`termKind, this`termErr, this`state, this`streamCloses, this`refReleased, refs
      ensures Valid() && c in writers.at && writers.at[c] == S.Done(tsdu, r)
      ensures S.Keeps(writers, Term(), c, tsdu, r)
      ensures r.Success? ==> outbound == old(outbound) + WholePackets(tsdu, maxTPDU)
      ensures r.Bare? || r.Rejected? ==> nWritten == old(nWritten)
      ensures Extends(old(outbound), old(nWritten), outbound, nWritten)
      ensures r.Rejected? ==>
                Refusal(|tsdu|, maxTPDU, maxTSDU) == Some(r.error) || (r.error == {Closed} && Term().Some?)
      ensures r.Success? ==> Refusal(|tsdu|, maxTPDU, maxTSDU) == None
      ensures interruptions == old(interruptions) && old(Term()) == None && r.Terminal? ==>
                f.Some? && EndsBy(r, f.value)
      ensures !old(writeLocked) ==> !writeLocked
    {
      hide *;
      f := None;
      ExtendsItself(outbound, nWritten);
      var early := EnterWrite(c, tsdu);
      var gen: nat := 0;
      if early.Some? {
        r := early.value;
      } else {
        Interrupt();
        gen, r, f := WriteLocked(c, tsdu);
        Interrupt();
        LeaveWrite(c, tsdu, gen, r);
      }
      CallKept(c);
    }

    lemma CallKept(c: S.Call)
      requires Valid() && c in writers.at && writers.at[c].Done?
      ensures S.Keeps(writers, Term(), c, writers.at[c].tsdu, writers.at[c].result)
    {
      hide Endpoint.Reached, S.LogValid, R.Valid;
      Endpoint.ReachedIsValid(This());
      S.CallStands(writers, Term(), c);
    }

    /** WriteTSDU between lock and unlock. */
    method WriteLocked(ghost c: S.Call, tsdu: bytes) returns (gen: nat, r: S.Ending, ghost f: Option<Failure>)
      requires Valid() && c in writers.at && writers.at[c] == S.Holding(tsdu)
      modifies this`writers, this`outbound, this`nWritten, writeDeadline, this`inbound, this`interruptions
      modifies this`termKind, this`termErr, this`state, this`streamCloses, this`refReleased, refs
      ensures Valid() && c in writers.at && writers.at[c] == S.Leaving(tsdu, gen, r)
      ensures r.Success? ==> outbound == old(outbound) + WholePackets(tsdu, maxTPDU)
      ensures r.Bare? || r.Rejected? ==> nWritten == old(nWritten)
      ensures Extends(old(outbound), old(nWritten), outbound, nWritten)
      ensures interruptions >= old(interruptions)
      ensures r.Rejected? ==>
                Refusal(|tsdu|, maxTPDU, maxTSDU) == Some(r.error) || (r.error == {Closed} && Term().Some?)
      ensures r.Success? ==> Refusal(|tsdu|, maxTPDU, maxTSDU) == None
      ensures interruptions == old(interruptions) && old(Term()) == None && r.Terminal? ==>
                f.Some? && EndsBy(r, f.value)
    {
      hide *;
      ExtendsItself(outbound, nWritten);
      gen, f := 0, None;
      var bad := LookWrite(c, tsdu);
      if bad == None {
        Interrupt();
        var seen: Ctx := *;
        bad := CheckWrite(c, tsdu, seen);
      }
      if bad.Some? {
        r := bad.value;
      } else {
        Interrupt();
        var now: Ctx := *;
        var armed := ArmWrite(c, tsdu, now);
        if armed.Err? {
          r := S.Bare(armed.error);
        } else {
          gen := armed.value;
          r, f := SendSegments(c, tsdu, gen, nWritten);
        }
      }
    }

    /** The segmentation loop. */
    method SendSegments(ghost c: S.Call, tsdu: bytes, ghost gen: nat, start: nat)
      returns (r: S.Ending, ghost f: Option<Failure>)
      requires Valid() && c in writers.at && writers.at[c] == S.Looping(tsdu, gen, start, 0) && start == nWritten
      modifies this`writers, this`outbound, this`nWritten, this`inbound, this`interruptions
      modifies this`termKind, this`termErr, this`state, this`streamCloses, this`refReleased, refs
      ensures Valid() && c in writers.at && writers.at[c] == S.Leaving(tsdu, gen, r)
      ensures r.Success? ==> outbound == old(outbound) + WholePackets(tsdu, maxTPDU)
      ensures r.Bare? || r.Rejected? ==> nWritten == old(nWritten)
      ensures Extends(old(outbound), old(nWritten), outbound, nWritten)
      ensures !r.Rejected? && interruptions >= old(interruptions)
      ensures interruptions == old(interruptions) && old(Term()) == None && !r.Success? ==>
                f.Some? && EndsBy(r, f.value)
    {
      hide *;
      f := None;
      LoopStarts(c);
      ghost var before, all := outbound, WholePackets(tsdu, maxTPDU);
      WholePacketsAre(tsdu, maxTPDU);
      assert all[..0] == [];
      var maxSeg := MaxSegmentPayload(maxTPDU);
      ghost var count := |Chunks(tsdu, maxSeg)|;
      ghost var next: nat := 0;
      var offset := 0;
      while offset < |tsdu|
        invariant Valid() && c in writers.at && writers.at[c] == S.Looping(tsdu, gen, start, next)
        invariant next <= count && offset <= |tsdu|
        invariant interruptions >= old(interruptions)
        invariant interruptions == old(interruptions) ==> Term() == old(Term())
        invariant next < count ==> offset == next * maxSeg < |tsdu|
        invariant next == count ==> offset == |tsdu|
        invariant outbound == before + all[..next] && nWritten >= start && (next > 0 ==> nWritten > start)
        decreases |tsdu| - offset
      {
        Interrupt();
        var end := Min(offset + maxSeg, |tsdu|);
        NextStretch(tsdu, maxSeg, next);
        ghost var octets := nWritten;
        var failure := SendOne(c, tsdu, offset, end, next);
        if failure.Some? {
          ExtendsMore(before, start, all[..next], octets, outbound, nWritten);
          Interrupt();
          ghost var why: Failure;
          var now: Ctx := *;
          r, why := SettleWrite(c, tsdu, gen, start, failure.value, now);
          f := Some(why);
          return;
        }
        assert before + all[..next] + [all[next]] == before + all[..next + 1] by {
          assert all[..next + 1] == all[..next] + [all[next]];
        }
        offset := end;
        next := next + 1;
      }
      assert all[..next] == all;
      ExtendsAll(before, start, all, nWritten);
      r := FinishWrite(c, tsdu, gen, start, next);
    }

    lemma LoopStarts(c: S.Call)
      requires Valid() && c in writers.at && writers.at[c].Looping?
      ensures writers.at[c].tsdu != [] && maxTPDU >= MIN_NEGOTIATED_TPDU
      ensures 0 < |Chunks(writers.at[c].tsdu, MaxSegmentPayload(maxTPDU))|
      ensures MaxSegmentPayload(maxTPDU) > 0 && 0 == 0 * MaxSegmentPayload(maxTPDU)
    {
      hide Endpoint.Reached, S.LogValid, R.Valid;
      Endpoint.ReachedIsValid(This());
      S.CallStands(writers, Term(), c);
    }

    /** One turn of the loop: marshal the chunk as a minimal DT and hand it to the writer. */
    method SendOne(ghost c: S.Call, tsdu: bytes, offset: nat, end: nat, ghost next: nat)
      returns (failure: Option<IoError>)
      requires Valid() && c in writers.at && writers.at[c].Looping?
      requires writers.at[c].tsdu == tsdu && writers.at[c].next == next
      requires tsdu != [] && maxTPDU >= MIN_NEGOTIATED_TPDU && next < |Chunks(tsdu, MaxSegmentPayload(maxTPDU))|
      requires offset == next * MaxSegmentPayload(maxTPDU) && offset <= end
      requires end == Min(offset + MaxSegmentPayload(maxTPDU), |tsdu|)
      modifies this`writers, this`outbound, this`nWritten
      ensures Valid() && c in writers.at
      ensures var p := old(writers.at)[c];
              writers.at[c] == if failure == None then p.(next := next + 1)
                               else S.Failed(tsdu, p.gen, p.start, failure.value)
      ensures failure == None ==>
                outbound == old(outbound) + [WholePackets(tsdu, maxTPDU)[next]] && nWritten > old(nWritten)
      ensures failure.Some? ==> Extends(old(outbound), old(nWritten), outbound, nWritten)
    {
      hide Endpoint.Reached, Chunks, ReadSide, L.Consistent;
      var eot := end == |tsdu|;
      WholePacketsAre(tsdu, maxTPDU);
      ChunkAt(tsdu, MaxSegmentPayload(maxTPDU), next);
      var payload := MarshalDT(Minimal(eot, tsdu[offset..end]));
      PacketIsMinimalDT(eot, tsdu[offset..end]);
      failure := WritePacket(c, payload.value);
    }

    method FinishWrite(ghost c: S.Call, ghost tsdu: bytes, ghost gen: nat, ghost start: nat, ghost next: nat)
      returns (r: S.Ending)
      requires Valid() && c in writers.at && writers.at[c] == S.Looping(tsdu, gen, start, next)
      requires tsdu != [] && maxTPDU >= MIN_NEGOTIATED_TPDU && next == |Chunks(tsdu, MaxSegmentPayload(maxTPDU))|
      modifies this`writers
      ensures Valid() && c in writers.at && writers.at[c] == S.Leaving(tsdu, gen, r) && r.Success?
    {
      hide Endpoint.Reached, Chunks, ReadSide, L.Consistent;
      WriteStep(S.Finish(c));
      writers := S.Step(writers, Term(), S.Finish(c)).0;
      return S.Success;
    }

    // -------------------------------------------------------------- reading

    /** readMu.lock: the lock when it is free, or the context's error. */
    method EnterRead(ghost c: R.Call) returns (r: Option<R.Ending>)
      requires Valid() && c !in readers.at
      modifies this`readers, this`readLocked
      ensures Valid() && c in readers.at
      ensures r == None ==> readers.at[c] == R.Holding
      ensures r.Some? ==> readers.at[c] == R.Done(r.value) && r.value.Bare? && readLocked == old(readLocked)
      ensures readers.delivered == old(readers.delivered)
    {
      hide Endpoint.Reached, WriteSide, L.Consistent, Absorb, IoCause, R.Absorbed, Life;
      QueueRead(c);
      var free: bool := *;
      if !readLocked && free {
        ReadStep(R.Lock(c));
        readers := R.Step(readers, inbound, Term(), R.Lock(c)).0;
        readLocked := true;
        r := None;
      } else {
        var err: Error := *;
        ReadStep(R.GiveUp(c, err));
        readers := R.Step(readers, inbound, Term(), R.GiveUp(c, err)).0;
        r := Some(R.Bare(err));
      }
    }

    ghost method QueueRead(c: R.Call)
      requires Valid() && c !in readers.at
      modifies this`readers
      ensures Valid() && readers == R.Move(old(readers), c, R.Queued)
    {
      hide Endpoint.Reached, WriteSide, L.Consistent, Absorb, IoCause, R.Absorbed, Life;
      ReadStep(R.Begin(c));
      readers := R.Step(readers, inbound, Term(), R.Begin(c)).0;
    }

    method LookRead(ghost c: R.Call) returns (r: Option<R.Ending>)
      requires Valid() && c in readers.at && readers.at[c] == R.Holding
      modifies this`readers
      ensures Valid() && c in readers.at
      ensures r == None ==> readers.at[c] == R.Admitted
      ensures r.Some? ==> readers.at[c] == R.Leaving(0, r.value)
      ensures r == match Term() case Some(e) => Some(R.Terminal(e)) case None => None
      ensures readers.delivered == old(readers.delivered)
    {
      hide Endpoint.Reached, WriteSide, L.Consistent, Absorb, IoCause, R.Absorbed, Life;
      r := if termKind != L.Unterminated then Some(R.Terminal(termErr)) else None;
      ReadStep(R.Look(c));
      readers := R.Step(readers, inbound, Term(), R.Look(c)).0;
    }

    method CheckRead(ghost c: R.Call, ctx: Ctx) returns (r: Option<R.Ending>)
      requires Valid() && c in readers.at && readers.at[c] == R.Admitted
      modifies this`readers
      ensures Valid() && c in readers.at
      ensures r == None ==> readers.at[c] == R.Checked
      ensures r.Some? ==> readers.at[c] == R.Leaving(0, r.value)
      ensures r == if Term().Some? then Some(R.Rejected({Closed}))
                   else if ctx.err.Some? then Some(R.Bare(ctx.err.value))
                   else if maxTPDU < 4 then Some(R.Rejected({InvalidConfig})) else None
      ensures readers.delivered == old(readers.delivered)
    {
      hide Endpoint.Reached, WriteSide, L.Consistent, Absorb, IoCause, R.Absorbed, Life;
      StateShowsEnd();
      if state != L.Open {
        r := Some(R.Rejected({Closed}));
      } else if ctx.err.Some? {
        r := Some(R.Bare(ctx.err.value));
      } else if maxTPDU < MIN_NEGOTIATED_TPDU {
        r := Some(R.Rejected({InvalidConfig}));
      } else {
        r := None;
      }
      ReadStep(R.Check(c, state != L.Open, ctx));
      readers := R.Step(readers, inbound, Term(), R.Check(c, state != L.Open, ctx)).0;
    }

    method ArmRead(ghost c: R.Call, ctx: Ctx) returns (r: Result<nat>)
      requires Valid() && c in readers.at && readers.at[c] == R.Checked
      modifies this`readers, readDeadline
      ensures Valid() && c in readers.at
      ensures r.Ok? ==> readers.at[c] == R.Looping(r.value, nRead, [])
      ensures r.Err? ==> readers.at[c] == R.Leaving(0, R.Bare(r.error))
      ensures if ctx.err.Some? then r == Err(ctx.err.value) else r.Ok?
      ensures readers.delivered == old(readers.delivered)
    {
      hide Endpoint.Reached, WriteSide, L.Consistent, Absorb, IoCause, R.Absorbed, Life;
      ReadStep(R.ArmDeadline(c, ctx));
      readers := R.Step(readers, inbound, Term(), R.ArmDeadline(c, ctx)).0;
      r := readDeadline.ArmFor(ctx.err, ctx.hasDeadline);
    }

    /** Where a packet takes a reader. */
    ghost function After(p: R.Position, packet: bytes): R.Position
      requires p.Looping?
    {
      match Absorb(p.segments, packet, maxTPDU, TsduBound(maxTSDU))
      case Refuse(cause) => R.Aborting(p.gen, cause)
      case More(segments) => p.(segments := segments)
      case Complete(tsdu) => R.Leaving(p.gen, R.Got(tsdu))
    }

    /** The TSDU a packet completes, if any. */
    ghost function Yield(p: R.Position, packet: bytes): seq<bytes>
      requires p.Looping?
    {
      if After(p, packet).Leaving? && After(p, packet).result.Got? then [After(p, packet).result.tsdu] else []
    }

    /** tpkt.Reader: the next packet when enough of the stream has arrived, or a failure after some octets. */
    method ReadPacket(ghost c: R.Call, ghost p: R.Position) returns (packet: Result<bytes>, failure: IoError)
      requires Valid() && c in readers.at && readers.at[c] == p && p.Looping?
      modifies this`readers, this`taken, this`nRead
      ensures Valid() && c in readers.at
      ensures packet.Ok? ==> readers.at[c] == After(p, packet.value) && nRead > old(nRead)
      ensures packet.Ok? ==> readers.delivered == old(readers.delivered) + Yield(p, packet.value)
      ensures packet.Ok? ==> taken == old(taken) + 1 <= |inbound| && inbound[old(taken)] == S.Whole(packet.value)
      ensures packet.Err? ==> readers.at[c] == R.Failed(p.gen, p.start, p.segments != [], failure)
      ensures packet.Err? ==>
                readers.delivered == old(readers.delivered) && taken == old(taken) && nRead >= old(nRead)
    {
      hide Valid, R.Step, R.Enabled, Absorb, After, Yield;
      var arrived: bool := *;
      failure := *;
      if arrived && taken < |inbound| && inbound[taken].Whole? {
        var next := TakePacket(c, p);
        packet := Ok(next);
      } else {
        FailRead(c, failure);
        packet := Err(failure.marks);
      }
    }

    /** What the step of a whole packet changes. */
    lemma AbsorbedIs(c: R.Call, p: R.Position, packet: bytes)
      requires p.Looping? && readers.maxTPDU == maxTPDU && readers.maxTSDU == maxTSDU
      ensures var r' := R.Absorbed(readers, c, p, packet);
              && c in r'.at && r'.at[c] == After(p, packet) && r'.delivered == readers.delivered + Yield(p, packet)
              && r'.moved == readers.moved + S.FrameLength(packet) && r'.taken == readers.taken + 1
              && r'.maxTPDU == maxTPDU && r'.maxTSDU == maxTSDU && r'.lock == readers.lock
              && r'.deadline == readers.deadline
    {
      hide Absorb;
    }

    /** No packet boundary has been lost where a call still reads. */
    lemma BoundariesHold(c: R.Call)
      requires Valid() && c in readers.at && readers.at[c].Looping?
      ensures !readers.broken
    {
      hide Endpoint.Reached, S.Valid, R.Consumed, R.Owned;
      Endpoint.ReachedIsValid(This());
      assert R.At(readers, Term(), c, readers.at[c]);
    }

    method TakePacket(ghost c: R.Call, ghost p: R.Position) returns (packet: bytes)
      requires Valid() && c in readers.at && readers.at[c] == p && p.Looping?
      requires taken < |inbound| && inbound[taken].Whole?
      modifies this`readers, this`taken, this`nRead
      ensures Valid() && c in readers.at
      ensures taken == old(taken) + 1 && inbound[old(taken)] == S.Whole(packet)
      ensures readers.at[c] == After(p, packet) && nRead > old(nRead)
      ensures readers.delivered == old(readers.delivered) + Yield(p, packet)
    {
      hide Endpoint.Reached, WriteSide, L.Consistent, Life, R.Absorbed, After, Yield;
      BoundariesHold(c);
      packet := inbound[taken].packet;
      ReadStep(R.Read(c, []));
      AbsorbedIs(c, p, packet);
      readers := R.Step(readers, inbound, Term(), R.Read(c, [])).0;
      taken := taken + 1;
      nRead := nRead + S.FrameLength(packet);
    }

    method FailRead(ghost c: R.Call, failure: IoError)
      requires Valid() && c in readers.at && readers.at[c].Looping?
      modifies this`readers, this`nRead
      ensures Valid() && c in readers.at
      ensures var p := old(readers.at)[c]; readers.at[c] == R.Failed(p.gen, p.start, p.segments != [], failure)
      ensures readers.delivered == old(readers.delivered) && nRead >= old(nRead)
    {
      hide Endpoint.Reached, WriteSide, L.Consistent, Absorb, IoCause, R.Absorbed, Life;
      var some: int := *;
      var octets: nat := if some < 0 then 0 else some;
      ReadStep(R.Fail(c, octets, failure));
      readers := R.Step(readers, inbound, Term(), R.Fail(c, octets, failure)).0;
      nRead := nRead + octets;
    }

    /** What ReadTSDU does with a failed ReadPacket, as SettleWrite. */
    method SettleRead(ghost c: R.Call, ghost gen: nat, start: nat, mid: bool, err: IoError, ctx: Ctx)
      returns (r: R.Ending, ghost f: Failure)
      requires Valid() && c in readers.at && readers.at[c] == R.Failed(gen, start, mid, err)
      modifies this`readers, this`inbound, this`interruptions
      modifies this`termKind, this`termErr, this`state, this`streamCloses, this`refReleased, refs
      ensures Valid() && c in readers.at && readers.at[c] == R.Leaving(gen, r)
      ensures Grown(old(inbound), inbound) && interruptions >= old(interruptions)
      ensures if nRead == start && old(Term()) == None && err.timeout && CtxDone(ctx).Some?
              then r == R.Bare(CtxDone(ctx).value) && ExcusedBy(r.error, f) else r.Terminal?
      ensures interruptions == old(interruptions) && old(Term()) == None && r.Terminal? ==> CausedBy(r.error, f, mid)
      ensures readers.delivered == old(readers.delivered)
    {
      hide Valid, CausedBy;
      f := Failure(err, ctx);
      InspectRead(c, gen, start, mid, err, ctx);
      if nRead == start && termKind == L.Unterminated && err.timeout && CtxDone(ctx).Some? {
        return R.Bare(CtxDone(ctx).value), f;
      }
      Interrupt();
      var later: Ctx := *;
      f := Failure(err, later);
      r := ClassifyRead(c, gen, mid, err, later);
    }

    /** The progress check and idleTimeout: the step that looks at the octets read, the cause and the context. */
    ghost method InspectRead(c: R.Call, gen: nat, start: nat, mid: bool, err: IoError, ctx: Ctx)
      requires Valid() && c in readers.at && readers.at[c] == R.Failed(gen, start, mid, err)
      modifies this`readers
      ensures Valid() && c in readers.at && readers.delivered == old(readers.delivered)
      ensures readers.at[c] == if nRead == start && Term() == None && err.timeout && CtxDone(ctx).Some?
                               then R.Leaving(gen, R.Bare(CtxDone(ctx).value)) else R.Classifying(gen, mid, err)
    {
      hide Endpoint.Reached, L.Consistent, IoCause, Absorb, R.Absorbed, WriteSide, Life;
      ReadStep(R.Inspect(c, ctx));
      readers := R.Step(readers, inbound, Term(), R.Inspect(c, ctx)).0;
    }

    method ClassifyRead(ghost c: R.Call, ghost gen: nat, mid: bool, err: IoError, ctx: Ctx) returns (r: R.Ending)
      requires Valid() && c in readers.at && readers.at[c] == R.Classifying(gen, mid, err)
      modifies this`readers, this`inbound, this`interruptions
      modifies this`termKind, this`termErr, this`state, this`streamCloses, this`refReleased, refs
      ensures Valid() && c in readers.at && readers.at[c] == R.Leaving(gen, r) && r.Terminal?
      ensures readers.delivered == old(readers.delivered)
      ensures Grown(old(inbound), inbound) && interruptions >= old(interruptions)
      ensures old(Term()).Some? ==> r.error == old(Term()).value
      ensures interruptions == old(interruptions) && old(Term()) == None ==>
                CausedBy(r.error, Failure(err, ctx), mid)
    {
      hide Endpoint.Reached, L.Consistent, IoCause, Absorb, R.Absorbed, WriteSide, Life, CausedBy;
      CauseIsMarked(Failure(err, ctx), mid);
      ReadStep(R.Classify(c, ctx));
      readers := R.Step(readers, inbound, Term(), R.Classify(c, ctx)).0;
      if termKind != L.Unterminated {
        return R.Terminal(termErr);
      }
      Interrupt();
      r := AbortRead(c, gen, IoCause(ctx, err, mid));
    }

    method AbortRead(ghost c: R.Call, ghost gen: nat, cause: Error) returns (r: R.Ending)
      requires Valid() && c in readers.at && readers.at[c] == R.Aborting(gen, cause)
      modifies this`readers, this`termKind, this`termErr, this`state, this`streamCloses, this`refReleased, refs
      ensures Valid() && c in readers.at && readers.at[c] == R.Leaving(gen, r)
      ensures r.Terminal? && (old(Term()) == None ==> r.error == cause)
      ensures readers.delivered == old(readers.delivered)
    {
      hide Endpoint.Reached, L.Consistent, Alone, Life, Absorb, R.Absorbed;
      var stored := Abort(cause);
      ReadStep(R.Abort(c));
      readers := R.Step(readers, inbound, Term(), R.Abort(c)).0;
      return R.Terminal(stored);
    }

    method LeaveRead(ghost c: R.Call, gen: nat, r: R.Ending)
      requires Valid() && c in readers.at && readers.at[c] == R.Leaving(gen, r)
      modifies this`readers, this`readLocked, readDeadline
      ensures Valid() && c in readers.at && readers.at[c] == R.Done(r) && !readLocked
      ensures readers.delivered == old(readers.delivered)
    {
      hide Endpoint.Reached, WriteSide, L.Consistent, Absorb, IoCause, R.Absorbed, Life;
      if gen > 0 {
        DisarmRead(c, gen, r);
      }
      ReadStep(R.Unlock(c));
      readers := R.Step(readers, inbound, Term(), R.Unlock(c)).0;
      readLocked := false;
    }

    method DisarmRead(ghost c: R.Call, gen: nat, ghost r: R.Ending)
      requires Valid() && c in readers.at && readers.at[c] == R.Leaving(gen, r) && gen > 0
      modifies this`readers, readDeadline
      ensures Valid() && c in readers.at && readers.at[c] == R.Leaving(0, r)
      ensures readers.delivered == old(readers.delivered)
    {
      hide Endpoint.Reached, WriteSide, L.Consistent, Absorb, IoCause, R.Absorbed, Life;
      ReadStep(R.DisarmDeadline(c));
      readers := R.Step(readers, inbound, Term(), R.DisarmDeadline(c)).0;
      readDeadline.DisarmFor(gen);
    }

    /** What a read makes of the stream, whatever the peer sent, having consumed the items from `first` to `last`:
        nothing was read; or the stream failed while the read still waited, and then it returns the context's own error,
        or, unless the connection was ended meanwhile, the cause the failure calls for; or the packets consumed decide
        it, and then it returns the TSDU they make, or, with the same exception, the cause of their refusal. */
    ghost predicate Explains(how: Reading, r: R.Ending, wire: seq<S.Item>, first: nat, last: nat, undisturbed: bool) {
      && WholeFrom(wire, first, last)
      && match how
         case NotStarted =>
           !r.Got? && first == last
           && (r.Rejected? ==> r.error == {Closed} || (r.error == {InvalidConfig} && maxTPDU < 4))
         case StreamFailed(f) =>
           && Read(wire, first, last).Waiting?
           && ((r.Bare? && ExcusedBy(r.error, f))
               || (r.Terminal? && (undisturbed ==> CausedBy(r.error, f, Read(wire, first, last).segments != []))))
         case Decided(o) =>
           && o == Read(wire, first, last) && !o.Waiting? && o.used == last - first
           && (o.Delivered? ==> r == R.Got(o.tsdu))
           && (o.Aborted? ==> r.Terminal? && (undisturbed ==> r.error == o.cause))
    }

    ghost function Read(wire: seq<S.Item>, first: nat, last: nat): Outcome
      requires WholeFrom(wire, first, last)
    {
      Reassemble([], PacketsIn(wire, first, last), maxTPDU, TsduBound(maxTSDU))
    }

    /** What decided a read would decide it in the whole stream from there on, whatever came later. */
    lemma DecidedByStream(o: Outcome, r: R.Ending, wire: seq<S.Item>, first: nat, last: nat, later: nat,
                          undisturbed: bool)
      requires Explains(Decided(o), r, wire, first, last, undisturbed) && last <= later && WholeFrom(wire, first, later)
      ensures Read(wire, first, later) == o
    {
      hide Reassemble;
      DecidedStays([], PacketsIn(wire, first, last), PacketsIn(wire, last, later), maxTPDU, TsduBound(maxTSDU));
      assert PacketsIn(wire, first, later) == PacketsIn(wire, first, last) + PacketsIn(wire, last, later);
    }

    lemma NothingRead(r: R.Ending, wire: seq<S.Item>, n: nat, undisturbed: bool)
      requires !r.Got? && n <= |wire|
      requires r.Rejected? ==> r.error == {Closed} || (r.error == {InvalidConfig} && maxTPDU < 4)
      ensures Explains(NotStarted, r, wire, n, n, undisturbed)
    {
    }

    lemma StillExplains(how: Reading, r: R.Ending, wire: seq<S.Item>, first: nat, last: nat, undisturbed: bool,
                        wire': seq<S.Item>, undisturbed': bool)
      requires Explains(how, r, wire, first, last, undisturbed) && Grown(wire, wire') && (undisturbed' ==> undisturbed)
      ensures Explains(how, r, wire', first, last, undisturbed')
    {
      hide Reassemble;
      assert PacketsIn(wire', first, last) == PacketsIn(wire, first, last);
    }

    /** Waiting at `last`, one packet on: what the read then is. */
    lemma ReadOn(wire: seq<S.Item>, first: nat, last: nat, packet: bytes)
      requires WholeFrom(wire, first, last) && last < |wire| && wire[last] == S.Whole(packet)
      requires Read(wire, first, last).Waiting?
      ensures WholeFrom(wire, first, last + 1) && first <= last
      ensures Read(wire, first, last + 1) == Judged(Read(wire, first, last).segments, packet, last + 1 - first,
                                                    maxTPDU, TsduBound(maxTSDU))
    {
      hide Reassemble, Judged;
      OneMorePacket([], PacketsIn(wire, first, last), packet, maxTPDU, TsduBound(maxTSDU));
      assert PacketsIn(wire, first, last + 1) == PacketsIn(wire, first, last) + [packet];
    }

    lemma ReadGrows(wire: seq<S.Item>, first: nat, last: nat, wire': seq<S.Item>)
      requires WholeFrom(wire, first, last) && Grown(wire, wire')
      ensures WholeFrom(wire', first, last) && first <= last
      ensures Read(wire', first, last) == Read(wire, first, last)
    {
      hide Reassemble;
      assert PacketsIn(wire', first, last) == PacketsIn(wire, first, last);
    }

    lemma ReadStarts(wire: seq<S.Item>, n: nat)
      requires n <= |wire|
      ensures WholeFrom(wire, n, n) && Read(wire, n, n) == Waiting([]) && Flatten([]) == []
    {
    }

    lemma TakenFits()
      requires Valid()
      ensures taken <= |inbound|
    {
      hide Endpoint.Reached, S.Valid, R.Owned, R.At;
      Endpoint.ReachedIsValid(This());
    }

    /** ReadTSDU, with another goroutine free to end the connection between any two accesses to shared state, and any
        peer. */
    method ReadTSDU(ghost c: R.Call) returns (r: R.Ending, ghost how: Reading)
      requires Valid() && c !in readers.at
      modifies this`readers, this`taken, this`nRead, this`readLocked, readDeadline, this`inbound, this`interruptions
      modifies this`termKind, this`termErr, this`state, this`streamCloses, this`refReleased, refs
      ensures Valid() && c in readers.at && readers.at[c] == R.Done(r)
      ensures R.Keeps(readers, Term(), c, r)
      ensures readers.delivered == old(readers.delivered) + (if r.Got? then [r.tsdu] else [])
      ensures r.Bare? || r.Rejected? ==> nRead == old(nRead) && taken == old(taken)
      ensures Grown(old(inbound), inbound)
      ensures Explains(how, r, inbound, old(taken), taken, interruptions == old(interruptions))
      ensures !old(readLocked) ==> !readLocked
    {
      hide *;
      TakenFits();
      ghost var base := interruptions;
      var early := EnterRead(c);
      var gen: nat := 0;
      if early.Some? {
        r, how := early.value, NotStarted;
        NothingRead(r, inbound, taken, true);
        GrowsOn(inbound, inbound, inbound);
      } else {
        Interrupt();
        ghost var entered := inbound;
        gen, r, how := ReadLocked(c, base);
        ghost var seen, calm := inbound, interruptions == base;
        Interrupt();
        GrowsOn(old(inbound), entered, seen);
        GrowsOn(old(inbound), seen, inbound);
        StillExplains(how, r, seen, old(taken), taken, calm, inbound, interruptions == base);
        LeaveRead(c, gen, r);
      }
      ReadCallKept(c);
    }

    lemma ReadCallKept(c: R.Call)
      requires Valid() && c in readers.at && readers.at[c].Done?
      ensures R.Keeps(readers, Term(), c, readers.at[c].result)
    {
      hide Endpoint.Reached, S.Valid, R.Consumed, R.Owned;
      Endpoint.ReachedIsValid(This());
      assert R.At(readers, Term(), c, readers.at[c]);
    }

    /** ReadTSDU between lock and unlock; `base` counts the interruptions before it began. */
    method ReadLocked(ghost c: R.Call, ghost base: nat) returns (gen: nat, r: R.Ending, ghost how: Reading)
      requires Valid() && c in readers.at && readers.at[c] == R.Holding && interruptions >= base
      modifies this`readers, this`taken, this`nRead, readDeadline, this`inbound, this`interruptions
      modifies this`termKind, this`termErr, this`state, this`streamCloses, this`refReleased, refs
      ensures Valid() && c in readers.at && readers.at[c] == R.Leaving(gen, r)
      ensures readers.delivered == old(readers.delivered) + (if r.Got? then [r.tsdu] else [])
      ensures r.Bare? || r.Rejected? ==> nRead == old(nRead) && taken == old(taken)
      ensures Grown(old(inbound), inbound) && interruptions >= base
      ensures Explains(how, r, inbound, old(taken), taken, interruptions == base)
    {
      hide *;
      gen := 0;
      GrowsOn(inbound, inbound, inbound);
      var bad := LookRead(c);
      if bad == None {
        Interrupt();
        var seen: Ctx := *;
        bad := CheckRead(c, seen);
      }
      ghost var checked := inbound;
      if bad.Some? {
        r, how := bad.value, NotStarted;
        TakenFits();
        NothingRead(r, inbound, taken, interruptions == base);
      } else {
        Interrupt();
        var now: Ctx := *;
        var armed := ArmRead(c, now);
        if armed.Err? {
          r, how := R.Bare(armed.error), NotStarted;
          GrowsOn(old(inbound), checked, inbound);
          TakenFits();
          NothingRead(r, inbound, taken, interruptions == base);
        } else {
          gen := armed.value;
          GrowsOn(old(inbound), checked, inbound);
          ghost var began := inbound;
          r, how := ReceiveSegments(c, gen, nRead, base);
          GrowsOn(old(inbound), began, inbound);
        }
      }
    }

    /** The reassembly loop. It ends, whatever the peer sends: every accepted segment carries an octet. */
    method ReceiveSegments(ghost c: R.Call, ghost gen: nat, start: nat, ghost base: nat)
      returns (r: R.Ending, ghost how: Reading)
      requires Valid() && c in readers.at && readers.at[c] == R.Looping(gen, start, []) && start == nRead
      requires interruptions >= base && (interruptions == base ==> Term() == None)
      modifies this`readers, this`taken, this`nRead, this`inbound, this`interruptions
      modifies this`termKind, this`termErr, this`state, this`streamCloses, this`refReleased, refs
      ensures Valid() && c in readers.at && readers.at[c] == R.Leaving(gen, r)
      ensures readers.delivered == old(readers.delivered) + (if r.Got? then [r.tsdu] else [])
      ensures r.Bare? || r.Rejected? ==> nRead == old(nRead) && taken == old(taken)
      ensures Grown(old(inbound), inbound) && interruptions >= base
      ensures Explains(how, r, inbound, old(taken), taken, interruptions == base)
    {
      hide *;
      TakenFits();
      ReadStarts(inbound, taken);
      GrowsOn(inbound, inbound, inbound);
      ghost var first := taken;
      var bound := TsduBound(maxTSDU);
      var segments: seq<bytes> := [];
      var total := 0;
      while true
        invariant Valid() && c in readers.at && readers.at[c] == R.Looping(gen, start, segments)
        invariant total == |Flatten(segments)| && total <= bound
        invariant readers.delivered == old(readers.delivered) && nRead >= start
        invariant if segments == [] then taken == first else nRead > start
        invariant Grown(old(inbound), inbound) && interruptions >= base && (interruptions == base ==> Term() == None)
        invariant WholeFrom(inbound, first, taken) && Read(inbound, first, taken) == Waiting(segments)
        decreases bound - total
      {
        ghost var known := inbound;
        var turn, explained := ReceiveOne(c, gen, start, segments, total, first, base);
        GrowsOn(old(inbound), known, inbound);
        if turn.Ended? {
          return turn.r, explained;
        }
        var seg, eot := turn.segment, turn.last;
        FlattenMore(segments, seg);
        segments := segments + [seg];
        total := total + |seg|;
        if eot {
          break;
        }
      }
      var out := Concatenate(segments);
      r := R.Got(out);
      how := Decided(Delivered(out, taken - first));
      Decides(how.outcome, r, inbound, first, taken, interruptions == base);
    }

    /** One turn of the loop: a packet read and judged. */
    method ReceiveOne(ghost c: R.Call, ghost gen: nat, start: nat, segments: seq<bytes>, total: nat, ghost first: nat,
                      ghost base: nat)
      returns (turn: Turn, ghost how: Reading)
      requires Valid() && c in readers.at && readers.at[c] == R.Looping(gen, start, segments)
      requires total == |Flatten(segments)|
      requires if segments == [] then taken == first && nRead >= start else nRead > start
      requires WholeFrom(inbound, first, taken) && Read(inbound, first, taken) == Waiting(segments)
      requires interruptions >= base && (interruptions == base ==> Term() == None)
      modifies this`readers, this`taken, this`nRead, this`inbound, this`interruptions
      modifies this`termKind, this`termErr, this`state, this`streamCloses, this`refReleased, refs
      ensures Valid() && c in readers.at && Grown(old(inbound), inbound) && interruptions >= base
      ensures turn.Ended? ==>
                && readers.at[c] == R.Leaving(gen, turn.r) && !turn.r.Got?
                && readers.delivered == old(readers.delivered)
                && (turn.r.Bare? || turn.r.Rejected? ==> nRead == start && taken == first)
                && Explains(how, turn.r, inbound, first, taken, interruptions == base)
      ensures turn.Took? ==>
                && turn.segment != [] && total + |turn.segment| <= TsduBound(maxTSDU) && nRead > start
                && (interruptions == base ==> Term() == None)
                && WholeFrom(inbound, first, taken) && first <= taken
                && var held := segments + [turn.segment];
                && readers.at[c] == (if turn.last then R.Leaving(gen, R.Got(Flatten(held)))
                                     else R.Looping(gen, start, held))
                && readers.delivered == old(readers.delivered) + (if turn.last then [Flatten(held)] else [])
                && Read(inbound, first, taken)
                   == (if turn.last then Delivered(Flatten(held), taken - first) else Waiting(held))
    {
      hide *;
      how := NotStarted;
      ghost var known := inbound;
      var packet, failure := NextPacket(c, gen, start, segments, first, base);
      if packet.Err? {
        ghost var waited := inbound;
        var r: R.Ending;
        r, how := EndByFailure(c, gen, start, segments != [], failure, first, base);
        GrowsOn(known, waited, inbound);
        turn := Ended(r);
        return;
      }
      var judged := JudgeSegment(segments, total, packet.value);
      JudgedMeans(R.Looping(gen, start, segments), packet.value, taken - first);
      if judged.Err? {
        var r: R.Ending;
        r, how := EndByRefusal(c, gen, judged.error, first, base);
        turn := Ended(r);
        return;
      }
      turn := Took(judged.value.0, judged.value.1);
    }

    /** The stream failed while the read waited. */
    method EndByFailure(ghost c: R.Call, ghost gen: nat, start: nat, mid: bool, failure: IoError, ghost first: nat,
                        ghost base: nat)
      returns (r: R.Ending, ghost how: Reading)
      requires Valid() && c in readers.at && readers.at[c] == R.Failed(gen, start, mid, failure)
      requires interruptions >= base && (interruptions == base ==> Term() == None)
      requires WholeFrom(inbound, first, taken) && Read(inbound, first, taken).Waiting?
      requires mid <==> Read(inbound, first, taken).segments != []
      modifies this`readers, this`inbound, this`interruptions
      modifies this`termKind, this`termErr, this`state, this`streamCloses, this`refReleased, refs
      ensures Valid() && c in readers.at && readers.at[c] == R.Leaving(gen, r)
      ensures readers.delivered == old(readers.delivered) && (r.Terminal? || (r.Bare? && nRead == start))
      ensures Grown(old(inbound), inbound) && interruptions >= base
      ensures Explains(how, r, inbound, first, taken, interruptions == base)
    {
      hide *;
      ghost var f: Failure;
      var now: Ctx := *;
      r, f := SettleRead(c, gen, start, mid, failure, now);
      how := StreamFailed(f);
      ReadGrows(old(inbound), first, taken, inbound);
      StreamFails(r, f, inbound, first, taken, interruptions == base);
    }

    /** The last packet was refused. */
    method EndByRefusal(ghost c: R.Call, ghost gen: nat, cause: Error, ghost first: nat, ghost base: nat)
      returns (r: R.Ending, ghost how: Reading)
      requires Valid() && c in readers.at && readers.at[c] == R.Aborting(gen, cause)
      requires interruptions >= base && (interruptions == base ==> Term() == None)
      requires WholeFrom(inbound, first, taken) && first <= taken
      requires Read(inbound, first, taken) == Aborted(cause, taken - first)
      modifies this`readers, this`termKind, this`termErr, this`state, this`streamCloses, this`refReleased, refs
      ensures Valid() && c in readers.at && readers.at[c] == R.Leaving(gen, r)
      ensures readers.delivered == old(readers.delivered) && r.Terminal?
      ensures Explains(how, r, inbound, first, taken, interruptions == base)
    {
      hide *;
      r := AbortRead(c, gen, cause);
      how := Decided(Aborted(cause, taken - first));
      Decides(how.outcome, r, inbound, first, taken, interruptions == base);
    }

    /** ReadPacket between two moments in which others may act. */
    method NextPacket(ghost c: R.Call, ghost gen: nat, ghost start: nat, ghost segments: seq<bytes>, ghost first: nat,
                      ghost base: nat)
      returns (packet: Result<bytes>, failure: IoError)
      requires Valid() && c in readers.at && readers.at[c] == R.Looping(gen, start, segments)
      requires WholeFrom(inbound, first, taken) && Read(inbound, first, taken) == Waiting(segments)
      requires interruptions >= base && (interruptions == base ==> Term() == None)
      modifies this`readers, this`taken, this`nRead, this`inbound, this`interruptions
      modifies this`termKind, this`termErr, this`state, this`streamCloses, this`refReleased, refs
      ensures Valid() && c in readers.at && Grown(old(inbound), inbound)
      ensures interruptions >= base && (interruptions == base ==> Term() == None)
      ensures WholeFrom(inbound, first, taken) && first <= taken
      ensures var p := R.Looping(gen, start, segments);
              && (packet.Ok? ==>
                    && readers.at[c] == After(p, packet.value) && nRead > old(nRead)
                    && readers.delivered == old(readers.delivered) + Yield(p, packet.value)
                    && Read(inbound, first, taken)
                       == Judged(segments, packet.value, taken - first, maxTPDU, TsduBound(maxTSDU)))
              && (packet.Err? ==>
                    && readers.at[c] == R.Failed(gen, start, segments != [], failure)
                    && readers.delivered == old(readers.delivered) && taken == old(taken) && nRead >= old(nRead)
                    && Read(inbound, first, taken) == Waiting(segments))
    {
      hide *;
      ghost var known := inbound;
      Interrupt();
      ReadGrows(known, first, taken, inbound);
      ghost var last := taken;
      packet, failure := ReadPacket(c, R.Looping(gen, start, segments));
      if packet.Ok? { ReadOn(inbound, first, last, packet.value); }
      GrowsOn(old(inbound), known, inbound);
      known := inbound;
      Interrupt();
      ReadGrows(known, first, taken, inbound);
      GrowsOn(old(inbound), known, inbound);
    }

    lemma StreamFails(r: R.Ending, f: Failure, wire: seq<S.Item>, first: nat, last: nat, undisturbed: bool)
      requires WholeFrom(wire, first, last) && Read(wire, first, last).Waiting?
      requires || (r.Bare? && ExcusedBy(r.error, f))
               || (r.Terminal? && (undisturbed ==> CausedBy(r.error, f, Read(wire, first, last).segments != [])))
      ensures Explains(StreamFailed(f), r, wire, first, last, undisturbed)
    {
    }

    lemma Decides(o: Outcome, r: R.Ending, wire: seq<S.Item>, first: nat, last: nat, undisturbed: bool)
      requires WholeFrom(wire, first, last) && o == Read(wire, first, last) && !o.Waiting? && o.used == last - first
      requires o.Delivered? ==> r == R.Got(o.tsdu)
      requires o.Aborted? ==> r.Terminal? && (undisturbed ==> r.error == o.cause)
      ensures Explains(Decided(o), r, wire, first, last, undisturbed)
    {
    }

    /** The same absorption decides where the reader goes, what it yields and what the read is. */
    lemma JudgedMeans(p: R.Position, packet: bytes, n: nat)
      requires p.Looping?
      ensures match Absorb(p.segments, packet, maxTPDU, TsduBound(maxTSDU))
              case Refuse(cause) =>
                && After(p, packet) == R.Aborting(p.gen, cause) && Yield(p, packet) == []
                && Judged(p.segments, packet, n, maxTPDU, TsduBound(maxTSDU)) == Aborted(cause, n)
              case More(segments) =>
                && After(p, packet) == p.(segments := segments) && Yield(p, packet) == []
                && Judged(p.segments, packet, n, maxTPDU, TsduBound(maxTSDU)) == Waiting(segments)
              case Complete(tsdu) =>
                && After(p, packet) == R.Leaving(p.gen, R.Got(tsdu)) && Yield(p, packet) == [tsdu]
                && Judged(p.segments, packet, n, maxTPDU, TsduBound(maxTSDU)) == Delivered(tsdu, n)
    {
      hide Absorb;
    }

    /** The checks on one packet; an error is the cause of the abort. */
    method JudgeSegment(segments: seq<bytes>, total: nat, packet: bytes) returns (r: Result<(bytes, bool)>)
      requires total == |Flatten(segments)|
      ensures r.Err? ==> Absorb(segments, packet, maxTPDU, TsduBound(maxTSDU)) == Refuse(r.error)
      ensures r.Ok? ==>
                && r.value.0 != [] && total + |r.value.0| <= TsduBound(maxTSDU)
                && Absorb(segments, packet, maxTPDU, TsduBound(maxTSDU))
                   == if r.value.1 then Complete(Flatten(segments + [r.value.0])) else More(segments + [r.value.0])
    {
      hide DecodeOpenDT;
      var bound := TsduBound(maxTSDU);
      var mid := |segments| > 0;
      var dt := DecodeOpenDT(packet, maxTPDU);
      if dt.Err? {
        return Err(OpenCause(mid, dt.error));
      }
      var seg := dt.value.userData;
      if |seg| == 0 {
        return Err(OpenCause(mid, {Handshake}));
      }
      if total + |seg| > bound {
        return Err(OpenCause(mid, {TSDUTooLarge}));
      }
      if |segments| + 1 > bound {
        return Err(OpenCause(mid, {TSDUTooLarge}));
      }
      return Ok((seg, dt.value.eot));
    }

    /** The copy loop at the end of ReadTSDU. */
    method Concatenate(segments: seq<bytes>) returns (out: bytes)
      ensures out == Flatten(segments)
    {
      out := [];
      for i := 0 to |segments|
        invariant out == Flatten(segments[..i])
      {
        FlattenMore(segments[..i], segments[i]);
        assert segments[..i + 1] == segments[..i] + [segments[i]];
        out := out + segments[i];
      }
      assert segments[..|segments|] == segments;
    }

    /** Joined to an end of the same library, this end delivers what moved there, in order. */
    lemma HonestPeer(from: Endpoint.End)
      requires Valid() && Endpoint.Reached(from) && inbound == from.sender.wire
      ensures Link.InOrder(from, This())
    {
      hide Endpoint.Reached, S.LogValid, Chunks, S.Flat;
      Link.HearingIsPlaced(from, This());
    }
  }

  /** The steps of a finish that runs alone. */
  function FinishSteps(kind: L.Kind, cause: Error): seq<L.Event> {
    [L.Finish(0, kind, cause), L.Advance(0), L.Advance(0), L.Advance(0), L.Advance(0)]
  }

  /** The stream from one item to another is whole packets. */
  predicate WholeFrom(wire: seq<S.Item>, first: nat, last: nat) {
    first <= last <= |wire| && forall i | first <= i < last :: wire[i].Whole?
  }

  function PacketsIn(wire: seq<S.Item>, first: nat, last: nat): seq<bytes>
    requires WholeFrom(wire, first, last)
  {
    seq(last - first, i requires 0 <= i < last - first => wire[first + i].packet)
  }

  /** More of the stream has arrived, or nothing. */
  predicate Grown(before: seq<S.Item>, after: seq<S.Item>) { before <= after }

  lemma GrowsOn(a: seq<S.Item>, b: seq<S.Item>, c: seq<S.Item>)
    ensures Grown(a, a)
    ensures Grown(a, b) && Grown(b, c) ==> Grown(a, c)
  {
  }

  lemma {:induction false} ArrivesAll(x: Endpoint.End, items: seq<S.Item>)
    requires Endpoint.Reached(x)
    ensures Endpoint.Reached(x.(inbound := x.inbound + items))
    decreases |items|
  {
    hide Endpoint.Reached;
    if items == [] {
      assert x.inbound + [] == x.inbound;
    } else {
      Endpoint.StepReaches(x, Endpoint.Arrive(items[0]));
      ArrivesAll(Endpoint.Step(x, Endpoint.Arrive(items[0])), items[1..]);
      assert (x.inbound + [items[0]]) + items[1..] == x.inbound + items;
    }
  }

  /** The offsets of consecutive segments meet, and the last one ends the TSDU. */
  lemma NextStretch(tsdu: bytes, maxSeg: nat, i: nat)
    requires maxSeg > 0 && tsdu != [] && i < |Chunks(tsdu, maxSeg)|
    ensures 0 <= i * maxSeg < |tsdu|
    ensures var end := Min(i * maxSeg + maxSeg, |tsdu|);
            && i * maxSeg < end <= |tsdu|
            && (if i + 1 < |Chunks(tsdu, maxSeg)| then end == (i + 1) * maxSeg < |tsdu| else end == |tsdu|)
  {
    ChunkAt(tsdu, maxSeg, i);
    if i + 1 < |Chunks(tsdu, maxSeg)| { ChunkAt(tsdu, maxSeg, i + 1); }
  }

  /** The packets of a TSDU as the stream holds them once all have moved. */
  ghost function WholePackets(tsdu: bytes, maxTPDU: int): seq<S.Item> {
    if tsdu == [] || maxTPDU < MIN_NEGOTIATED_TPDU then []
    else
      var ps := Packets(tsdu, maxTPDU);
      seq(|ps|, i requires 0 <= i < |ps| => S.Whole(ps[i]))
  }

  /** From one state of the stream to another it is only added to, and not at all when no octet moved. */
  predicate Extends(before: seq<S.Item>, octets: nat, after: seq<S.Item>, octets': nat) {
    before <= after && octets <= octets' && (octets' == octets ==> after == before)
  }

  lemma ExtendsItself(stream: seq<S.Item>, octets: nat)
    ensures Extends(stream, octets, stream, octets)
  {
  }

  lemma ExtendsAll(before: seq<S.Item>, start: nat, more: seq<S.Item>, octets: nat)
    requires start < octets
    ensures Extends(before, start, before + more, octets)
  {
  }

  lemma ExtendsMore(before: seq<S.Item>, start: nat, more: seq<S.Item>, octets: nat, after: seq<S.Item>, octets': nat)
    requires octets >= start && (more != [] ==> octets > start) && Extends(before + more, octets, after, octets')
    ensures Extends(before, start, after, octets')
  {
    assert before <= before + more;
    if more == [] { assert before + more == before; }
  }

  lemma WholePacketsAre(tsdu: bytes, maxTPDU: int)
    requires tsdu != [] && maxTPDU >= MIN_NEGOTIATED_TPDU
    ensures |WholePackets(tsdu, maxTPDU)| == |Chunks(tsdu, MaxSegmentPayload(maxTPDU))| == |Packets(tsdu, maxTPDU)|
    ensures forall i | 0 <= i < |Packets(tsdu, maxTPDU)| ::
              WholePackets(tsdu, maxTPDU)[i] == S.Whole(Packets(tsdu, maxTPDU)[i])
  {
  }

  /** A system with one connection. */
  function Single(alloc: References.Alloc, c: L.Conn, replies: seq<(L.Id, Error)>): L.System {
    L.System(alloc, map[0 := L.Established(c)], replies)
  }

  /** One statement of termOnce's body, seen on the connection alone. */
  lemma AdvanceSingle(alloc: References.Alloc, c: L.Conn, replies: seq<(L.Id, Error)>, c': L.Conn)
    requires L.Advanced(Single(alloc, c, replies), 0).actors[0] == L.Established(c')
    ensures L.Step(Single(alloc, c, replies), L.Advance(0))
            == Single(L.Advanced(Single(alloc, c, replies), 0).alloc, c', replies)
  {
    assert L.Advanced(Single(alloc, c, replies), 0).actors == map[0 := L.Established(c')];
  }

  /** A connection whose finish has run. */
  function Finished(c: L.Conn, kind: L.Kind, cause: Error): L.Conn {
    L.Conn(c.ref, kind, cause, if kind == L.ByClose then L.Shut else L.Aborted, L.Over, true, 1, 1)
  }

  /** The five steps of a finish that starts on an open connection, or that finds it already ended. */
  lemma FinishIsFiveSteps(x: L.System, kind: L.Kind, cause: Error)
    requires x.actors.Keys == {0} && x.actors[0].Established? && L.Consistent(x.actors[0].conn)
    requires kind != L.Unterminated
    requires x.actors[0].conn.stage == L.NotStarted || x.actors[0].conn.stage == L.Over
    ensures var c := x.actors[0].conn;
            L.Run(x, FinishSteps(kind, cause))
            == if c.stage == L.Over then x else
               Single(References.Drop(x.alloc, c.ref), Finished(c, kind, cause), x.replies)
  {
    hide L.Run;
    RunOfFive(x, L.Finish(0, kind, cause), L.Advance(0), L.Advance(0), L.Advance(0), L.Advance(0));
    if x.actors[0].conn.stage == L.NotStarted {
      FiveStages(x, x.actors[0].conn, kind, cause);
    }
  }

  lemma FiveStages(x: L.System, c: L.Conn, kind: L.Kind, cause: Error)
    requires x.actors == map[0 := L.Established(c)] && L.Consistent(c) && c.stage == L.NotStarted
    requires kind != L.Unterminated
    ensures var x2 := L.Step(L.Step(x, L.Finish(0, kind, cause)), L.Advance(0));
            L.Step(L.Step(L.Step(x2, L.Advance(0)), L.Advance(0)), L.Advance(0))
            == Single(References.Drop(x.alloc, c.ref), Finished(c, kind, cause), x.replies)
  {
    var c1 := c.(stage := L.CauseSet, kind := kind, cause := cause);
    var c2 := c1.(stage := L.StateSet, state := if kind == L.ByClose then L.Closing else L.Aborted);
    var c3 := c2.(stage := L.StreamClosed, closes := 1);
    var c4 := c3.(stage := L.RefReleased, released := true, releases := 1);
    var c5 := c4.(stage := L.Over, state := if kind == L.ByClose then L.Shut else L.Aborted);
    assert L.Step(x, L.Finish(0, kind, cause)) == Single(x.alloc, c1, x.replies);
    AdvanceSingle(x.alloc, c1, x.replies, c2);
    AdvanceSingle(x.alloc, c2, x.replies, c3);
    AdvanceSingle(x.alloc, c3, x.replies, c4);
    AdvanceSingle(References.Drop(x.alloc, c.ref), c4, x.replies, c5);
  }

  lemma RunOfFive(x: L.System, a: L.Event, b: L.Event, c: L.Event, d: L.Event, e: L.Event)
    ensures L.Run(x, [a, b, c, d, e]) == L.Step(L.Step(L.Step(L.Step(L.Step(x, a), b), c), d), e)
  {
    hide L.Step;
    RunCons(x, a, [b, c, d, e]);
    RunCons(L.Step(x, a), b, [c, d, e]);
    RunCons(L.Step(L.Step(x, a), b), c, [d, e]);
    RunCons(L.Step(L.Step(L.Step(x, a), b), c), d, [e]);
    RunCons(L.Step(L.Step(L.Step(L.Step(x, a), b), c), d), e, []);
    assert [a] + [b, c, d, e] == [a, b, c, d, e] && [b] + [c, d, e] == [b, c, d, e] && [c] + [d, e] == [c, d, e];
    assert [d] + [e] == [d, e] && [e] + [] == [e];
  }

  lemma RunCons(x: L.System, e: L.Event, rest: seq<L.Event>)
    ensures L.Run(x, [e] + rest) == L.Run(L.Step(x, e), rest)
  {
    assert ([e] + rest)[1..] == rest;
  }
}

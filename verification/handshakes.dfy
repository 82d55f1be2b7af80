/** Connect and Accept as they run on a stream (connect.go:19-166, accept.go:21-210): the packets they hand to the
    writer, the reference they take and give back or pass on, the stream they close, the deadline they disarm. */
module Handshakes {
  import opened Types
  import opened Codec
  import opened SizeNego
  import opened Transfer
  import opened References
  import opened Establish
  import Deadline
  import Connection
  import L = Lifecycle

  /** What the single read of a handshake brings. */
  datatype Inbound = Arrives(payload: bytes) | Breaks(err: IoError)

  /** What a handshake meets: the context when it starts, when it arms the deadline and when it looks back at an I/O
      failure; the failure of its write, if any; and what its read brings. */
  datatype Surroundings = Surroundings(
    started: Option<Error>, armed: Ctx, failedWrite: Option<IoError>, inbound: Inbound, ended: Ctx)

  /** One handshake: the packets handed to the writer, the result, and the allocator afterwards. */
  datatype Attempt = Attempt(packets: seq<bytes>, result: Result<Session>, alloc: Alloc)

  /** Connect from the moment it holds a reference; `taken` is the allocator that lent it. */
  function Ask(cfg: ClientConfig, w: Surroundings, ref: u16, taken: Alloc): Attempt {
    var back := Drop(taken, ref);
    match SendRequest(cfg, ref)
    case Err(e) => Attempt([], Err(e), back)
    case Ok(cr) =>
      if w.armed.err.Some? then Attempt([], Err(w.armed.err.value), back)
      else if w.failedWrite.Some? then Attempt([cr], Err(HandshakeIoError(w.ended, w.failedWrite.value)), back)
      else if w.inbound.Breaks? then Attempt([cr], Err(HandshakeIoError(w.ended, w.inbound.err)), back)
      else
        var r := Conclude(cfg, ref, w.inbound.payload);
        Attempt([cr], r, if r.Ok? then taken else back)
  }

  function Initiate(cfg: ClientConfig, w: Surroundings, a: Alloc): Attempt {
    if ClientPreflight(cfg).Err? then Attempt([], Err(ClientPreflight(cfg).error), a)
    else if w.started.Some? then Attempt([], Err(w.started.value), a)
    else
      match Take(a)
      case (Err(e), taken) => Attempt([], Err(e), taken)
      case (Ok(ref), taken) => Ask(cfg, w, ref, taken)
  }

  /** Accept from the moment it holds a reference. */
  function Grant(cfg: ServerConfig, v: Verdict, w: Surroundings, ref: u16, taken: Alloc): Attempt
    requires v.Proceed?
  {
    var back := Drop(taken, ref);
    match SendConfirm(cfg, v, ref)
    case Err(e) => Attempt([], Err(e), back)
    case Ok((cc, session)) =>
      if w.failedWrite.Some? then Attempt([cc], Err(HandshakeIoError(w.ended, w.failedWrite.value)), back)
      else Attempt([cc], Ok(session), taken)
  }

  function Answer(cfg: ServerConfig, v: Verdict, w: Surroundings, a: Alloc): Attempt {
    match v
    case Silent(e) => Attempt([], Err(e), a)
    case AnswerDR(response, _) => Attempt([response], Err({ConnectionRefused}), a)
    case AnswerER(response, e) => Attempt([response], Err(e), a)
    case Proceed(_, _, _, _) =>
      match Take(a)
      case (Err(e), taken) => Attempt([], Err(e), taken)
      case (Ok(ref), taken) => Grant(cfg, v, w, ref, taken)
  }

  function Respond(cfg: ServerConfig, policy: Policy, w: Surroundings, a: Alloc): Attempt {
    if ServerPreflight(cfg).Err? then Attempt([], Err(ServerPreflight(cfg).error), a)
    else if w.started.Some? then Attempt([], Err(w.started.value), a)
    else if w.armed.err.Some? then Attempt([], Err(w.armed.err.value), a)
    else
      match w.inbound
      case Breaks(e) => Attempt([], Err(HandshakeIoError(w.ended, e)), a)
      case Arrives(payload) => Answer(cfg, Judge(cfg, policy, payload), w, a)
  }

  // ---------------------------------------------------------------- what an attempt leaves behind

  /** A failed attempt leaves no reference active that was not; a successful one exactly the one in its session. */
  predicate Balanced(x: Attempt, before: Alloc) {
    && (x.result.Err? ==> x.alloc.active == before.active)
    && (x.result.Ok? ==>
          && Free(before, x.result.value.localRef)
          && x.alloc.active == before.active + {x.result.value.localRef})
  }

  /** The packets are one CR from this reference within its 128 octets, or none. */
  predicate SaysRequest(x: Attempt, ref: u16) {
    x.packets == []
    || (|x.packets| == 1 && |x.packets[0]| <= MAX_CR_LENGTH
        && var cr := Decode(x.packets[0]); cr.Ok? && cr.value.CR? && cr.value.connect.src == ref)
  }

  /** The session stands on the CR sent and on a CC that answers it. */
  predicate Concluded(x: Attempt, inbound: Inbound)
    requires x.result.Ok?
  {
    && x.packets != [] && inbound.Arrives?
    && var cc := Decode(inbound.payload);
    && cc.Ok? && cc.value.CC? && cc.value.connect.dst == x.result.value.localRef
    && cc.value.connect.src == x.result.value.remoteRef != 0
  }

  lemma RequestSays(cfg: ClientConfig, ref: u16)
    requires SendRequest(cfg, ref).Ok?
    ensures var packet := SendRequest(cfg, ref).value;
            && |packet| <= MAX_CR_LENGTH
            && Decode(packet).Ok? && Decode(packet).value.CR? && Decode(packet).value.connect.src == ref
  {
    RequestArrives(cfg, ref);
  }

  /** The client's session comes from a CC to its reference, from a reference. */
  lemma ConcludeMeans(cfg: ClientConfig, ref: u16, payload: bytes)
    requires Conclude(cfg, ref, payload).Ok?
    ensures Decode(payload).Ok? && Decode(payload).value.CC? && Decode(payload).value.connect.dst == ref
    ensures Conclude(cfg, ref, payload).value.localRef == ref
    ensures Conclude(cfg, ref, payload).value.remoteRef == Decode(payload).value.connect.src != 0
  {
    hide Decode, BuildSizeOffer, InterpretCCSize, ClientPreflight;
  }

  lemma AskMeans(cfg: ClientConfig, w: Surroundings, ref: u16, taken: Alloc)
    ensures var x := Ask(cfg, w, ref, taken);
            && x.alloc == (if x.result.Ok? then taken else Drop(taken, ref)) && SaysRequest(x, ref)
            && (x.result.Ok? ==> Concluded(x, w.inbound) && x.result.value.localRef == ref)
  {
    hide SendRequest, Conclude, Decode, HandshakeIoError;
    if SendRequest(cfg, ref).Ok? {
      RequestSays(cfg, ref);
    }
    if w.inbound.Arrives? && Conclude(cfg, ref, w.inbound.payload).Ok? {
      ConcludeMeans(cfg, ref, w.inbound.payload);
    }
  }

  /** Whatever it meets, a Connect hands over at most one packet, its own CR; it succeeds only behind that CR and a CC
      for it, then owning exactly the reference both of them name; and a failure gives its reference back. */
  lemma InitiateMeans(cfg: ClientConfig, w: Surroundings, a: Alloc) returns (ref: u16)
    ensures var x := Initiate(cfg, w, a);
            && Balanced(x, a) && SaysRequest(x, ref) && (x.packets != [] ==> ref != 0)
            && (x.result.Ok? ==> Concluded(x, w.inbound) && x.result.value.localRef == ref)
  {
    hide Ask, Concluded, ClientPreflight;
    ref := 0;
    if ClientPreflight(cfg).Ok? && w.started == None && Take(a).0.Ok? {
      ref := Take(a).0.value;
      AskMeans(cfg, w, ref, Take(a).1);
    }
  }

  /** The packet of an attempt, when it has one, decodes as a TPDU of this type. */
  predicate Says(x: Attempt, t: TpduType) {
    x.packets != [] && Decode(x.packets[0]).Ok? && TypeOf(Decode(x.packets[0]).value) == t
  }

  /** At most one packet, and one that fits the ending: a CC before success or before a failure to write it, a DR when
      the caller learns of a refusal, an ER to a non-zero reference when the caller learns of a failed handshake. */
  predicate Fitting(x: Attempt, failedWrite: Option<IoError>) {
    && |x.packets| <= 1
    && (x.packets != [] ==> Says(x, TypeCC) || Says(x, TypeDR) || Says(x, TypeER))
    && (x.result.Ok? ==> Says(x, TypeCC))
    && (Says(x, TypeCC) ==> x.result.Ok? || failedWrite.Some?)
    && (Says(x, TypeDR) ==> x.result == Err({ConnectionRefused}))
    && (Says(x, TypeER) ==>
          x.result.Err? && Handshake in x.result.error && Decode(x.packets[0]).value.report.dst != 0)
  }

  lemma GrantMeans(cfg: ServerConfig, v: Verdict, w: Surroundings, ref: u16, taken: Alloc)
    requires v.Proceed?
    ensures var x := Grant(cfg, v, w, ref, taken);
            && x.alloc == (if x.result.Ok? then taken else Drop(taken, ref)) && Fitting(x, w.failedWrite)
            && (x.result.Ok? ==> x.result.value.localRef == ref)
  {
    if SendConfirm(cfg, v, ref).Ok? {
      ConfirmArrives(cfg, v, ref);
    }
  }

  lemma AnswerMeans(cfg: ServerConfig, policy: Policy, payload: bytes, w: Surroundings, a: Alloc)
    ensures var x := Answer(cfg, Judge(cfg, policy, payload), w, a);
            Balanced(x, a) && Fitting(x, w.failedWrite)
  {
    hide Judge, Grant, Conclude, SendRequest;
    var v := Judge(cfg, policy, payload);
    ProtestsExactly(cfg, policy, payload);
    RefusalsExactly(cfg, policy, payload);
    if v.Proceed? && Take(a).0.Ok? {
      hide Fitting;
      GrantMeans(cfg, v, w, Take(a).0.value, Take(a).1);
    }
  }

  /** Whatever payload arrives and whatever the policy decides, an Accept hands over at most one packet and of the kind
      that fits its ending, every other ending being silent; and it owns a reference exactly when it succeeds. */
  lemma RespondMeans(cfg: ServerConfig, policy: Policy, w: Surroundings, a: Alloc)
    ensures Balanced(Respond(cfg, policy, w, a), a) && Fitting(Respond(cfg, policy, w, a), w.failedWrite)
  {
    hide Judge, Answer, ServerPreflight;
    if w.inbound.Arrives? {
      AnswerMeans(cfg, policy, w.inbound.payload, w, a);
    }
  }

  // ---------------------------------------------------------------- two attempts

  lemma InitiateSucceeded(cfg: ClientConfig, w: Surroundings, a: Alloc, x: Attempt) returns (ref: u16)
    requires x == Initiate(cfg, w, a) && x.result.Ok?
    ensures ref != 0 && SendRequest(cfg, ref).Ok? && x.packets == [SendRequest(cfg, ref).value]
    ensures w.inbound.Arrives? && Conclude(cfg, ref, w.inbound.payload) == x.result
    ensures ClientPreflight(cfg).Ok? && x.result.value.maxTSDU == TsduBound(cfg.maxTSDU)
  {
    ref := Take(a).0.value;
  }

  lemma RespondSucceeded(cfg: ServerConfig, policy: Policy, w: Surroundings, a: Alloc, x: Attempt, payload: bytes)
    returns (ref: u16)
    requires x == Respond(cfg, policy, w, a) && x.result.Ok? && w.inbound == Arrives(payload)
    ensures ref != 0
    ensures var v := Judge(cfg, policy, payload);
            && v.Proceed? && SendConfirm(cfg, v, ref).Ok?
            && x.packets == [SendConfirm(cfg, v, ref).value.0] && x.result.value == SendConfirm(cfg, v, ref).value.1
    ensures x.result.value.maxTSDU == TsduBound(cfg.maxTSDU)
  {
    ref := Take(a).0.value;
    var _, _ := ProceedMeans(cfg, policy, payload);
  }

  /** A Connect and an Accept that read each other's packet and both succeed hold sessions that mirror each other. */
  lemma PeersAgree(client: ClientConfig, server: ServerConfig, policy: Policy,
                   cw: Surroundings, sw: Surroundings, ca: Alloc, sa: Alloc, c: Attempt, s: Attempt)
    returns (data: bytes)
    requires c == Initiate(client, cw, ca) && s == Respond(server, policy, sw, sa) && c.result.Ok? && s.result.Ok?
    requires |c.packets| == |s.packets| == 1
    requires sw.inbound == Arrives(c.packets[0]) && cw.inbound == Arrives(s.packets[0])
    ensures Mirrored(client, server, data, c.result.value, s.result.value)
    ensures c.result.value.maxTSDU == TsduBound(client.maxTSDU) && s.result.value.maxTSDU == TsduBound(server.maxTSDU)
  {
    hide Initiate, Respond, Judge, Conclude, SendRequest, SendConfirm, Mirrored;
    var clientRef := InitiateSucceeded(client, cw, ca, c);
    var serverRef := RespondSucceeded(server, policy, sw, sa, s, c.packets[0]);
    HandshakeAgrees(client, clientRef, server, policy, serverRef);
    data := Judge(server, policy, c.packets[0]).data;
  }

  // ---------------------------------------------------------------- on the stream

  /** The stream a handshake owns: the packets handed to its writer, how often it was closed, and the holder that sets
      the deadlines of both directions. */
  class Stream {
    const handshake: Deadline.DirectionDeadline
    var sent: seq<bytes>
    var closes: nat

    predicate Quiet()
      reads handshake
    {
      handshake.Value().active == 0 && handshake.deadline == Deadline.Unset
    }

    constructor ()
      ensures Quiet() && sent == [] && closes == 0 && fresh(handshake)
    {
      handshake := new Deadline.DirectionDeadline(Deadline.Handshaking);
      sent, closes := [], 0;
    }

    method WritePacket(packet: bytes)
      modifies this`sent
      ensures sent == old(sent) + [packet]
    {
      sent := sent + [packet];
    }

    method Close()
      modifies this`closes
      ensures closes == old(closes) + 1
    {
      closes := closes + 1;
    }

    /** The handshake's cancellation may strike at any time while its deadline is armed. */
    method Cancellable(gen: nat)
      modifies handshake`deadline
    {
      if * {
        handshake.OnCancel(gen);
      }
    }
  }

  /** newOpenConn: the stream and the reference now belong to the connection. */
  ghost predicate TakesOver(conn: Connection.Conn, session: Session, refs: ReferenceAllocator)
    reads conn, conn.writeDeadline, conn.readDeadline
  {
    && conn.Valid() && conn.Term() == None && conn.state == L.Open
    && conn.refs == refs && conn.localRef == session.localRef
    && conn.maxTPDU == session.maxTPDU && conn.maxTSDU == session.maxTSDU
  }

  /** Connect. The context, the stream's failures and what it brings are given by w. */
  method Connect(stream: Stream, refs: ReferenceAllocator, cfg: ClientConfig, w: Surroundings)
    returns (r: Result<Session>, conn: Option<Connection.Conn>)
    requires stream.Quiet()
    modifies stream`sent, stream`closes, stream.handshake, refs
    ensures stream.Quiet() && old(stream.sent) <= stream.sent
    ensures Attempt(stream.sent[|old(stream.sent)|..], r, refs.Value()) == Initiate(cfg, w, old(refs.Value()))
    ensures stream.closes == old(stream.closes) + (if r.Err? then 1 else 0)
    ensures conn.Some? <==> r.Ok?
    ensures conn.Some? ==> fresh(conn.value) && TakesOver(conn.value, r.value, refs)
  {
    hide Ask, ClientPreflight, SaysRequest, Concluded, TakesOver;
    conn := None;
    var bounds := ClientPreflight(cfg);
    if bounds.Err? {
      stream.Close();
      return Err(bounds.error), None;
    }
    if w.started.Some? {
      stream.Close();
      return Err(w.started.value), None;
    }
    var ref := refs.Allocate();
    if ref.Err? {
      stream.Close();
      return Err(ref.error), None;
    }
    AskMeans(cfg, w, ref.value, refs.Value());
    r := Exchange(stream, cfg, w, ref.value, refs.Value());
    if r.Err? {
      refs.Release(ref.value);
      stream.Close();
      return;
    }
    var open := NewOpenConn(r.value, refs);
    conn := Some(open);
  }

  method NewOpenConn(session: Session, refs: ReferenceAllocator) returns (conn: Connection.Conn)
    requires session.localRef != 0
    ensures fresh(conn) && fresh(conn.writeDeadline) && fresh(conn.readDeadline) && TakesOver(conn, session, refs)
  {
    conn := new Connection.Conn(session.maxTPDU, session.maxTSDU, session.localRef, refs);
  }

  /** Connect while it holds a reference, up to the hand-over. */
  method Exchange(stream: Stream, cfg: ClientConfig, w: Surroundings, ref: u16, ghost taken: Alloc)
    returns (r: Result<Session>)
    requires stream.Quiet() && ClientPreflight(cfg).Ok?
    modifies stream`sent, stream.handshake
    ensures stream.Quiet() && old(stream.sent) <= stream.sent
    ensures stream.sent[|old(stream.sent)|..] == Ask(cfg, w, ref, taken).packets && r == Ask(cfg, w, ref, taken).result
  {
    hide Decode, InterpretCCSize;
    var (maxTPDU, maxTSDU) := ClientPreflight(cfg).value;
    var b := BuildSizeOffer(maxTPDU, cfg.profile);
    if b.Err? {
      return Err(b.error);
    }
    var cr := MarshalCR(RequestTPDU(cfg, ref, b.value));
    if cr.Err? {
      return Err({InvalidConfig});
    }
    var armed := stream.handshake.ArmFor(w.armed.err, w.armed.hasDeadline);
    if armed.Err? {
      return Err(armed.error);
    }
    stream.WritePacket(cr.value);
    stream.Cancellable(armed.value);
    if w.failedWrite.Some? {
      r := Err(HandshakeIoError(w.ended, w.failedWrite.value));
    } else if w.inbound.Breaks? {
      r := Err(HandshakeIoError(w.ended, w.inbound.err));
    } else {
      var decoded := Decode(w.inbound.payload);
      if decoded.Err? {
        r := Err({Types.Handshake});
      } else {
        match decoded.value
        case DR(_) => r := Err({ConnectionRefused});
        case ER(_) => r := Err({Types.Handshake});
        case CC(cc) => r := ConcludeCC(cfg, maxTSDU, ref, b.value.offer, cc);
        case _ => r := Err({UnexpectedTPDU});
      }
    }
    stream.handshake.DisarmFor(armed.value);
  }

  /** Accept. */
  method Accept(stream: Stream, refs: ReferenceAllocator, cfg: ServerConfig, policy: Policy, w: Surroundings)
    returns (r: Result<Session>, conn: Option<Connection.Conn>)
    requires stream.Quiet()
    modifies stream`sent, stream`closes, stream.handshake, refs
    ensures stream.Quiet() && old(stream.sent) <= stream.sent
    ensures Attempt(stream.sent[|old(stream.sent)|..], r, refs.Value()) == Respond(cfg, policy, w, old(refs.Value()))
    ensures stream.closes == old(stream.closes) + (if r.Err? then 1 else 0)
    ensures conn.Some? <==> r.Ok?
    ensures conn.Some? ==> fresh(conn.value) && TakesOver(conn.value, r.value, refs)
  {
    hide Answer, Judge, ServerPreflight, TakesOver;
    conn := None;
    var bounds := ServerPreflight(cfg);
    if bounds.Err? {
      stream.Close();
      return Err(bounds.error), None;
    }
    if w.started.Some? {
      stream.Close();
      return Err(w.started.value), None;
    }
    var armed := stream.handshake.ArmFor(w.armed.err, w.armed.hasDeadline);
    if armed.Err? {
      stream.Close();
      return Err(armed.error), None;
    }
    stream.Cancellable(armed.value);
    if w.inbound.Breaks? {
      r := Err(HandshakeIoError(w.ended, w.inbound.err));
    } else {
      r := Reply(stream, refs, cfg, policy, w);
    }
    stream.handshake.DisarmFor(armed.value);
    if r.Err? {
      stream.Close();
      return;
    }
    var open := NewOpenConn(r.value, refs);
    conn := Some(open);
  }

  /** Accept from the received payload on: the verdict, its answer, the reference and the CC. */
  method Reply(stream: Stream, refs: ReferenceAllocator, cfg: ServerConfig, policy: Policy, w: Surroundings)
    returns (r: Result<Session>)
    requires w.inbound.Arrives?
    modifies stream`sent, refs
    ensures old(stream.sent) <= stream.sent
    ensures Attempt(stream.sent[|old(stream.sent)|..], r, refs.Value())
            == Answer(cfg, Judge(cfg, policy, w.inbound.payload), w, old(refs.Value()))
    ensures r.Ok? ==> r.value.localRef != 0
  {
    hide Judge, Grant;
    var v := Judge(cfg, policy, w.inbound.payload);
    match v
    case Silent(e) => return Err(e);
    case AnswerDR(response, _) =>
      stream.WritePacket(response);
      return Err({ConnectionRefused});
    case AnswerER(response, e) =>
      stream.WritePacket(response);
      return Err(e);
    case Proceed(_, _, _, _) =>
      var ref := refs.Allocate();
      if ref.Err? {
        return Err(ref.error);
      }
      GrantMeans(cfg, v, w, ref.value, refs.Value());
      r := SendCC(stream, cfg, v, w, ref.value, refs.Value());
      if r.Err? {
        refs.Release(ref.value);
      }
  }

  method SendCC(stream: Stream, cfg: ServerConfig, v: Verdict, w: Surroundings, ref: u16, ghost taken: Alloc)
    returns (r: Result<Session>)
    requires v.Proceed?
    modifies stream`sent
    ensures old(stream.sent) <= stream.sent
    ensures stream.sent[|old(stream.sent)|..] == Grant(cfg, v, w, ref, taken).packets
    ensures r == Grant(cfg, v, w, ref, taken).result
  {
    var cc := MarshalCC(ConfirmTPDU(cfg, v, ref));
    if cc.Err? {
      return Err({Types.Handshake});
    }
    stream.WritePacket(cc.value);
    if w.failedWrite.Some? {
      return Err(HandshakeIoError(w.ended, w.failedWrite.value));
    }
    return Ok(Session(v.selection.effective, v.maxTSDU, ref, v.cr.src,
                      Responding(cfg, v.cr), v.cr.options.calling, v.cr.userData));
  }
}

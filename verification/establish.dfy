/** The TP0 handshake (connect.go, accept.go, handshake_validate.go, config.go): what the client sends, what the server
    makes of any payload, and what the client makes of any answer. */
module Establish {
  import opened Types
  import opened Frame
  import opened Params
  import opened Codec
  import opened SizeNego
  import opened Transfer

  const MAX_CONNECT_DATA := 32

  const REASON_ADDRESS_UNKNOWN: byte := 3
  const REASON_NEGOTIATION_FAILED: byte := 130
  const CAUSE_INVALID_PARAMETER_CODE: byte := 1
  const CAUSE_INVALID_PARAMETER_VALUE: byte := 3

  /** ConnectAction is an octet in the source: 0 rejects, 1 accepts, anything else is refused. */
  const REJECT: byte := 0
  const ACCEPT: byte := 1

  datatype ClientConfig = ClientConfig(
    localSelector: Option<bytes>, remoteSelector: Option<bytes>, maxTPDU: int, maxTSDU: int,
    connectData: bytes, profile: int)

  datatype ServerConfig = ServerConfig(
    localSelector: Option<bytes>, maxTPDU: int, maxTSDU: int, profile: int, echoSelectors: bool)

  datatype Indication = Indication(
    calling: Option<bytes>, called: Option<bytes>, proposedClass: byte, maxTPDU: int, connectData: bytes,
    sourceRef: u16)

  datatype Decision = Decision(action: byte, maxTPDU: int, connectData: bytes, reason: byte)

  /** OnConnect as any function of the indication, or none for the default policy. */
  type Policy = Option<Indication -> Result<Decision>>

  /** NegotiatedParameters with the TSDU bound; the class is always 0. */
  datatype Session = Session(
    maxTPDU: int, maxTSDU: nat, localRef: u16, remoteRef: u16,
    localSelector: Option<bytes>, remoteSelector: Option<bytes>, peerConnectData: bytes)

  // ---------------------------------------------------------------- validation

  predicate SelectorError(s: Option<bytes>) { s.Some? && |s.value| > MAX_VALUE_LENGTH }

  function ClientPreflight(cfg: ClientConfig): Result<(int, nat)> {
    if !ValidProfile(cfg.profile) then Err({InvalidConfig}) else
      var maxTPDU :- NormalizeConfiguredMax(cfg.maxTPDU);
      if cfg.maxTSDU < 0 then Err({InvalidConfig})
      else if SelectorError(cfg.localSelector) || SelectorError(cfg.remoteSelector) then Err({InvalidConfig})
      else if |cfg.connectData| > MAX_CONNECT_DATA then Err({InvalidConfig})
      else Ok((maxTPDU, TsduBound(cfg.maxTSDU)))
  }

  function ServerPreflight(cfg: ServerConfig): Result<(int, nat)> {
    if !ValidProfile(cfg.profile) then Err({InvalidConfig}) else
      var maxTPDU :- NormalizeConfiguredMax(cfg.maxTPDU);
      if cfg.maxTSDU < 0 then Err({InvalidConfig})
      else if SelectorError(cfg.localSelector) then Err({InvalidConfig})
      else Ok((maxTPDU, TsduBound(cfg.maxTSDU)))
  }

  predicate Forbidden(code: byte) { 0xC3 <= code <= 0xCE }

  /** The ER cause for an identifiable Class 0 CR whose fields are wrong. */
  function CRProtocolError(cr: Connect): Option<byte> {
    if cr.cdt != 0 || cr.classOption % 0x10 != 0 then Some(CAUSE_INVALID_PARAMETER_VALUE)
    else if cr.dst != 0 then Some(CAUSE_INVALID_PARAMETER_VALUE)
    else if cr.src == 0 then Some(CAUSE_INVALID_PARAMETER_VALUE)
    else if exists p | p in cr.options.others :: Forbidden(p.code) then Some(CAUSE_INVALID_PARAMETER_CODE)
    else None
  }

  function DefaultAutoAccept(cfg: ServerConfig, ind: Indication): Decision {
    if ind.proposedClass != 0 then Decision(REJECT, 0, [], REASON_NEGOTIATION_FAILED)
    else if cfg.localSelector.Some? && ind.called != cfg.localSelector then
      Decision(REJECT, 0, [], REASON_ADDRESS_UNKNOWN)
    else Decision(ACCEPT, 0, [], 0)
  }

  /** The cause connectIOError gives a failed read or write during the handshake. */
  function HandshakeIoError(ctx: Ctx, e: IoError): Error {
    if ctx.err.Some? then {Closed} + ctx.err.value
    else if ctx.hasDeadline && e.timeout then {Closed, DeadlineExceeded}
    else if Eof in e.marks then {Disconnected, Eof}
    else if Framing in e.marks then {Handshake} + e.marks
    else e.marks
  }

  /** A failure is classified as in the open state, save that a stream that is gone is not reported as a disconnection
      or an incomplete TSDU: the handshake passes such an error on as it is. */
  lemma FailuresAgree(ctx: Ctx, e: IoError)
    requires Disconnected !in e.marks
    ensures HandshakeIoError(ctx, e) == IoCause(ctx, e, false) <==>
              ctx.err.Some? || (ctx.hasDeadline && e.timeout) || Eof in e.marks || !PeerGone(e)
  {
    if ctx.err == None && !(ctx.hasDeadline && e.timeout) && Eof !in e.marks && PeerGone(e) {
      assert Disconnected in IoCause(ctx, e, false) && Disconnected !in HandshakeIoError(ctx, e);
    }
  }

  // ---------------------------------------------------------------- client request

  function RequestTPDU(cfg: ClientConfig, localRef: u16, b: Build): Connect {
    Connect(0, 0, localRef, 0,
            Options(cfg.localSelector, cfg.remoteSelector, b.standardCode, b.preferredUnits, []), cfg.connectData)
  }

  /** The CR a client sends once it holds a reference. */
  function SendRequest(cfg: ClientConfig, localRef: u16): Result<bytes> {
    var (maxTPDU, _) :- ClientPreflight(cfg);
    var b :- BuildSizeOffer(maxTPDU, cfg.profile);
    match EncodeConnect(Request, RequestTPDU(cfg, localRef, b))
    case Ok(cr) => Ok(cr)
    case Err(_) => Err({InvalidConfig})
  }

  // ---------------------------------------------------------------- server verdict

  /** What the server does with a payload: close without a word, answer DR or ER and close, or go on to a CC. */
  datatype Verdict =
    | Silent(error: Error)
    | AnswerDR(response: bytes, reason: byte)
    | AnswerER(response: bytes, error: Error)
    | Proceed(cr: Connect, selection: Selection, data: bytes, maxTSDU: nat)

  function RefusalOf(dst: u16, reason: byte): bytes {
    [6, 0x80] + Be16(dst) + Be16(0) + [reason]
  }

  function ProtestOf(dst: u16, cause: byte): bytes {
    [4, 0x70] + Be16(dst) + [cause]
  }

  /** An answer in ER, or silence when the CR names no reference to answer to. */
  function ProtestOrSilence(cr: Connect, cause: byte, error: Error): Verdict {
    if cr.src == 0 then Silent({Handshake}) else AnswerER(ProtestOf(cr.src, cause), error)
  }

  function IndicationOf(cr: Connect, offer: Offer): Indication {
    Indication(cr.options.calling, cr.options.called, 0, ClientEffectiveProposal(offer), cr.userData, cr.src)
  }

  function Decide(cfg: ServerConfig, policy: Policy, ind: Indication): Result<Decision> {
    if policy == None then Ok(DefaultAutoAccept(cfg, ind)) else policy.value(ind)
  }

  /** Accept from the received payload up to the size selection. */
  function Judge(cfg: ServerConfig, policy: Policy, payload: bytes): Verdict {
    match ServerPreflight(cfg)
    case Err(e) => Silent(e)
    case Ok((maxTPDU, maxTSDU)) =>
      match Decode(payload)
      case Err(_) => Silent({Handshake})
      case Ok(CR(cr)) => JudgeCR(cfg, policy, maxTPDU, maxTSDU, cr)
      case Ok(_) => Silent({UnexpectedTPDU})
  }

  function JudgeCR(cfg: ServerConfig, policy: Policy, maxTPDU: int, maxTSDU: nat, cr: Connect): Verdict {
    if cr.classOption / 0x10 != 0 then AnswerDR(RefusalOf(cr.src, REASON_NEGOTIATION_FAILED), REASON_NEGOTIATION_FAILED)
    else if CRProtocolError(cr).Some? then ProtestOrSilence(cr, CRProtocolError(cr).value, {Handshake})
    else
      match DecodeSizeOffer(cr.options.size, cr.options.preferred)
      case Err(e) => ProtestOrSilence(cr, CAUSE_INVALID_PARAMETER_VALUE, e)
      case Ok(offer) =>
        if |cr.userData| > MAX_CONNECT_DATA then
          ProtestOrSilence(cr, CAUSE_INVALID_PARAMETER_VALUE, {Handshake})
        else
          var ind := IndicationOf(cr, offer);
          match Decide(cfg, policy, ind)
          case Err(e) => Silent({Handshake} + e)
          case Ok(d) => JudgeDecision(cfg, maxTPDU, maxTSDU, cr, offer, d)
  }

  function JudgeDecision(cfg: ServerConfig, maxTPDU: int, maxTSDU: nat, cr: Connect, offer: Offer, d: Decision)
    : Verdict
  {
    if d.action != REJECT && d.action != ACCEPT then Silent({Handshake, InvalidConfig})
    else if d.action == REJECT then AnswerDR(RefusalOf(cr.src, d.reason), d.reason)
    else if |d.connectData| > MAX_CONNECT_DATA then Silent({Handshake, InvalidConfig})
    else if d.maxTPDU != 0 && NormalizeConfiguredMax(d.maxTPDU).Err? then Silent({Handshake, InvalidConfig})
    else
      match SelectSize(offer, maxTPDU, d.maxTPDU, cfg.profile)
      case Err(e) => Silent(e)
      case Ok(sel) => Proceed(cr, sel, d.connectData, maxTSDU)
  }

  function Responding(cfg: ServerConfig, cr: Connect): Option<bytes> {
    if cfg.localSelector == None && cfg.echoSelectors then cr.options.called else cfg.localSelector
  }

  function ConfirmTPDU(cfg: ServerConfig, v: Verdict, localRef: u16): Connect
    requires v.Proceed?
  {
    Connect(0, v.cr.src, localRef, 0,
            Options(if cfg.echoSelectors then v.cr.options.calling else None, Responding(cfg, v.cr),
                    v.selection.standardCode, v.selection.preferredUnits, []), v.data)
  }

  /** The CC and the server's session, once the server holds a reference. */
  function SendConfirm(cfg: ServerConfig, v: Verdict, localRef: u16): Result<(bytes, Session)>
    requires v.Proceed?
  {
    match EncodeConnect(Confirm, ConfirmTPDU(cfg, v, localRef))
    case Err(_) => Err({Handshake})
    case Ok(cc) =>
      Ok((cc, Session(v.selection.effective, v.maxTSDU, localRef, v.cr.src,
                      Responding(cfg, v.cr), v.cr.options.calling, v.cr.userData)))
  }

  // ---------------------------------------------------------------- client reading the answer

  predicate KnownInCC(p: Parameter) { Known(p.code) && !Forbidden(p.code) }

  function ConcludeCC(cfg: ClientConfig, maxTSDU: nat, localRef: u16, offer: Offer, cc: Connect): Result<Session> {
    if cc.cdt != 0 || cc.classOption != 0 then Err({Handshake})
    else if cc.dst != localRef || cc.src == 0 then Err({Handshake})
    else if exists p | p in cc.options.others :: !KnownInCC(p) then Err({Handshake})
    else if |cc.userData| > MAX_CONNECT_DATA then Err({Handshake})
    else
      var effective :- InterpretCCSize(offer, cc.options.size, cc.options.preferred, cfg.profile);
      Ok(Session(effective, maxTSDU, localRef, cc.src, cfg.localSelector,
                 Params.Later(cfg.remoteSelector, cc.options.called), cc.userData))
  }

  function Conclude(cfg: ClientConfig, localRef: u16, payload: bytes): Result<Session> {
    var (maxTPDU, maxTSDU) :- ClientPreflight(cfg);
    var b :- BuildSizeOffer(maxTPDU, cfg.profile);
    match Decode(payload)
    case Err(_) => Err({Handshake})
    case Ok(DR(_)) => Err({ConnectionRefused})
    case Ok(ER(_)) => Err({Handshake})
    case Ok(CC(cc)) => ConcludeCC(cfg, maxTSDU, localRef, b.offer, cc)
    case Ok(_) => Err({UnexpectedTPDU})
  }

  // ---------------------------------------------------------------- the two ends agree

  /** What the two ends hold after a handshake, each in terms of the other's configuration. */
  predicate Mirrored(client: ClientConfig, server: ServerConfig, data: bytes, c: Session, s: Session) {
    && c.localRef == s.remoteRef && c.remoteRef == s.localRef && c.localRef != 0 && s.localRef != 0
    && c.maxTPDU == s.maxTPDU && MIN_TPDU <= c.maxTPDU <= MAX_ITOT_TPDU
    && c.maxTPDU <= Bound(client.maxTPDU) && c.maxTPDU <= Bound(server.maxTPDU)
    && c.peerConnectData == data && s.peerConnectData == client.connectData
    && c.localSelector == client.localSelector && s.remoteSelector == client.localSelector
    && c.remoteSelector == (if s.localSelector.Some? then s.localSelector else client.remoteSelector)
    && s.localSelector == (if server.localSelector == None && server.echoSelectors then client.remoteSelector
                           else server.localSelector)
  }

  lemma PreflightMeans(cfg: ClientConfig)
    requires ClientPreflight(cfg).Ok?
    ensures ValidProfile(cfg.profile) && ValidCeiling(cfg.maxTPDU)
    ensures ClientPreflight(cfg).value.0 == Bound(cfg.maxTPDU) && ValidCeiling(Bound(cfg.maxTPDU))
    ensures |cfg.connectData| <= MAX_CONNECT_DATA
  {
    CeilingsValidIff(cfg.maxTPDU);
  }

  /** The server reads the client's own CR back. */
  lemma RequestArrives(cfg: ClientConfig, localRef: u16)
    requires SendRequest(cfg, localRef).Ok?
    ensures ClientPreflight(cfg).Ok? && BuildSizeOffer(Bound(cfg.maxTPDU), cfg.profile).Ok?
    ensures var b := BuildSizeOffer(Bound(cfg.maxTPDU), cfg.profile).value;
            Decode(SendRequest(cfg, localRef).value) == Ok(CR(RequestTPDU(cfg, localRef, b)))
  {
    PreflightMeans(cfg);
    var b := BuildSizeOffer(Bound(cfg.maxTPDU), cfg.profile).value;
    var cr := RequestTPDU(cfg, localRef, b);
    ConnectRoundTrip(Request, cr);
    DispatchConnect(Request, SendRequest(cfg, localRef).value);
  }

  /** A client has a CR to send exactly when its configuration is valid and selectors, size parameters and connect data
      leave the CR within 128 octets. */
  lemma RequestEncodesIff(cfg: ClientConfig, localRef: u16)
    ensures SendRequest(cfg, localRef).Ok? <==>
              && ClientPreflight(cfg).Ok? && BuildSizeOffer(Bound(cfg.maxTPDU), cfg.profile).Ok?
              && var b := BuildSizeOffer(Bound(cfg.maxTPDU), cfg.profile).value;
              7 + SelectorLength(cfg.localSelector) + SelectorLength(cfg.remoteSelector)
                + (if b.standardCode.Some? then 3 else 0) + PreferredLength(b.preferredUnits) + |cfg.connectData|
              <= MAX_CR_LENGTH
    ensures SendRequest(cfg, localRef).Err? ==> SendRequest(cfg, localRef).error == {InvalidConfig}
  {
    if ClientPreflight(cfg).Ok? {
      PreflightMeans(cfg);
      OfferIsSound(Bound(cfg.maxTPDU), cfg.profile);
      hide StandardCode, StandardSize, FallbackStandard;
      var b := BuildSizeOffer(Bound(cfg.maxTPDU), cfg.profile).value;
      ConnectEncodesIff(Request, RequestTPDU(cfg, localRef, b));
    }
  }

  /** The client reads the server's own CC back. */
  lemma ConfirmArrives(cfg: ServerConfig, v: Verdict, localRef: u16)
    requires v.Proceed? && SendConfirm(cfg, v, localRef).Ok?
    ensures Decode(SendConfirm(cfg, v, localRef).value.0) == Ok(CC(ConfirmTPDU(cfg, v, localRef)))
  {
    ConnectRoundTrip(Confirm, ConfirmTPDU(cfg, v, localRef));
    DispatchConnect(Confirm, SendConfirm(cfg, v, localRef).value.0);
  }

  lemma ServerPreflightMeans(cfg: ServerConfig)
    requires ServerPreflight(cfg).Ok?
    ensures ValidProfile(cfg.profile) && ValidCeiling(cfg.maxTPDU)
    ensures ServerPreflight(cfg).value.0 == Bound(cfg.maxTPDU) && ValidCeiling(Bound(cfg.maxTPDU))
    ensures ServerPreflight(cfg).value.1 == TsduBound(cfg.maxTSDU) && !SelectorError(cfg.localSelector)
  {
    CeilingsValidIff(cfg.maxTPDU);
  }

  /** The decision behind a verdict that goes on to a CC. */
  predicate Accepted(cfg: ServerConfig, v: Verdict, offer: Offer, d: Decision)
    requires v.Proceed?
  {
    && ServerPreflight(cfg).Ok?
    && v.cr.classOption == 0 && v.cr.cdt == 0 && v.cr.dst == 0 && v.cr.src != 0
    && |v.cr.userData| <= MAX_CONNECT_DATA
    && DecodeSizeOffer(v.cr.options.size, v.cr.options.preferred) == Ok(offer)
    && d.action == ACCEPT && d.connectData == v.data && |v.data| <= MAX_CONNECT_DATA && ValidCeiling(d.maxTPDU)
    && SelectSize(offer, Bound(cfg.maxTPDU), d.maxTPDU, cfg.profile) == Ok(v.selection)
    && v.maxTSDU == TsduBound(cfg.maxTSDU)
  }

  /** The server goes on to a CC only for a CR whose fields are all right and an accepting decision on it. */
  lemma ProceedMeans(cfg: ServerConfig, policy: Policy, payload: bytes) returns (offer: Offer, d: Decision)
    requires Judge(cfg, policy, payload).Proceed?
    ensures var v := Judge(cfg, policy, payload);
            && Decode(payload) == Ok(CR(v.cr))
            && Accepted(cfg, v, offer, d)
            && Decide(cfg, policy, IndicationOf(v.cr, offer)) == Ok(d)
  {
    ServerPreflightMeans(cfg);
    var v := Judge(cfg, policy, payload);
    offer := DecodeSizeOffer(v.cr.options.size, v.cr.options.preferred).value;
    var ind := IndicationOf(v.cr, offer);
    d := Decide(cfg, policy, ind).value;
    CeilingsValidIff(d.maxTPDU);
  }

  /** The handshake: whenever the server answers a client's CR with a CC, whatever its policy, the client accepts
      that CC, and the two sessions mirror each other. */
  lemma HandshakeAgrees(client: ClientConfig, clientRef: u16, server: ServerConfig, policy: Policy, serverRef: u16)
    requires clientRef != 0 && serverRef != 0
    requires SendRequest(client, clientRef).Ok?
    requires var v := Judge(server, policy, SendRequest(client, clientRef).value);
             v.Proceed? && SendConfirm(server, v, serverRef).Ok?
    ensures var v := Judge(server, policy, SendRequest(client, clientRef).value);
            var (cc, s) := SendConfirm(server, v, serverRef).value;
            var c := Conclude(client, clientRef, cc);
            c.Ok? && Mirrored(client, server, v.data, c.value, s)
  {
    hide Decode, Judge, SelectSize, BuildSizeOffer, DecodeSizeOffer, InterpretCCSize, ServerPreflight;
    var payload := SendRequest(client, clientRef).value;
    var v := Judge(server, policy, payload);
    PreflightMeans(client);
    RequestArrives(client, clientRef);
    var offer, d := ProceedMeans(server, policy, payload);
    ServerPreflightMeans(server);
    var b := BuildSizeOffer(Bound(client.maxTPDU), client.profile).value;
    OfferIsSound(Bound(client.maxTPDU), client.profile);
    NegotiationAgrees(Bound(client.maxTPDU), client.profile, Bound(server.maxTPDU), d.maxTPDU, server.profile);
    SelectIsOptimal(offer, Bound(server.maxTPDU), d.maxTPDU, server.profile, 0);
    ConfirmArrives(server, v, serverRef);
  }

  /** With the default policy a client's CR leads to a CC exactly when the server asks for no called selector or for
      the one the client named; otherwise the answer is a DR, address unknown. And that CC always encodes. */
  lemma DefaultPolicyDecides(client: ClientConfig, clientRef: u16, server: ServerConfig, serverRef: u16)
    requires clientRef != 0 && SendRequest(client, clientRef).Ok? && ServerPreflight(server).Ok?
    ensures var v := Judge(server, None, SendRequest(client, clientRef).value);
            && (v.Proceed? <==> server.localSelector == None || server.localSelector == client.remoteSelector)
            && (!v.Proceed? ==> v == AnswerDR(RefusalOf(clientRef, REASON_ADDRESS_UNKNOWN), REASON_ADDRESS_UNKNOWN))
            && (v.Proceed? ==> SendConfirm(server, v, serverRef).Ok?)
  {
    PreflightMeans(client);
    ServerPreflightMeans(server);
    RequestArrives(client, clientRef);
    OfferIsSound(Bound(client.maxTPDU), client.profile);
    var payload := SendRequest(client, clientRef).value;
    var b := BuildSizeOffer(Bound(client.maxTPDU), client.profile).value;
    hide Decode, SendRequest, BuildSizeOffer, ClientPreflight, ServerPreflight, DecodeSizeOffer, JudgeCR;
    hide SendConfirm, RefusalOf;
    DefaultOnSound(server, RequestTPDU(client, clientRef, b), b.offer);
    if Judge(server, None, payload).Proceed? {
      DefaultConfirmEncodes(server, payload, serverRef);
    }
  }

  lemma DefaultOnSound(cfg: ServerConfig, cr: Connect, offer: Offer)
    requires ServerPreflight(cfg).Ok? && !FaultyCR(cr) && cr.classOption == 0
    requires DecodeSizeOffer(cr.options.size, cr.options.preferred) == Ok(offer)
    ensures var v := JudgeCR(cfg, None, Bound(cfg.maxTPDU), TsduBound(cfg.maxTSDU), cr);
            && (v.Proceed? <==> cfg.localSelector == None || cfg.localSelector == cr.options.called)
            && (!v.Proceed? ==> v == AnswerDR(RefusalOf(cr.src, REASON_ADDRESS_UNKNOWN), REASON_ADDRESS_UNKNOWN))
  {
    ServerPreflightMeans(cfg);
    assert DecodedOffer(offer);
    DecodedIsWellFormed(offer);
    SelectIsOptimal(offer, Bound(cfg.maxTPDU), 0, cfg.profile, 0);
    hide SelectSize, Best, DecodeSizeOffer, RefusalOf;
  }

  // ---------------------------------------------------------------- when the CC encodes

  /** Octets of selectors and size parameters in the CC. */
  function ConfirmLength(cfg: ServerConfig, v: Verdict): nat
    requires v.Proceed?
  {
    SelectorLength(if cfg.echoSelectors then v.cr.options.calling else None) + SelectorLength(Responding(cfg, v.cr))
    + (if v.selection.standardCode.Some? then 3 else 0) + PreferredLength(v.selection.preferredUnits)
  }

  lemma ConfirmOptionsFit(cfg: ServerConfig, v: Verdict, localRef: u16)
    requires v.Proceed? && v.selection.preferredUnits != Some(0)
    requires !SelectorError(if cfg.echoSelectors then v.cr.options.calling else None)
    requires !SelectorError(Responding(cfg, v.cr))
    ensures SendConfirm(cfg, v, localRef).Ok? <==> 6 + ConfirmLength(cfg, v) <= MAX_LI
  {
    ConnectEncodesIff(Confirm, ConfirmTPDU(cfg, v, localRef));
  }

  /** Under any policy an accepted CR is confirmed exactly when the selectors leave the CC's header within 254 octets;
      the configuration alone may already rule that out. */
  lemma ConfirmEncodesIff(cfg: ServerConfig, policy: Policy, payload: bytes, localRef: u16)
    requires Judge(cfg, policy, payload).Proceed?
    ensures var v := Judge(cfg, policy, payload);
            SendConfirm(cfg, v, localRef).Ok? <==> 6 + ConfirmLength(cfg, v) <= MAX_LI
  {
    var v := Judge(cfg, policy, payload);
    var offer, d := ProceedMeans(cfg, policy, payload);
    ServerPreflightMeans(cfg);
    SelectedUnits(cfg, offer, d, v);
    DecodedSelectors(payload, v.cr);
    ConfirmOptionsFit(cfg, v, localRef);
  }

  lemma SelectedUnits(cfg: ServerConfig, offer: Offer, d: Decision, v: Verdict)
    requires v.Proceed? && Accepted(cfg, v, offer, d)
    ensures v.selection.preferredUnits != Some(0)
    ensures PreferredLength(v.selection.preferredUnits) + (if v.selection.standardCode.Some? then 3 else 0) <= 4
  {
    ServerPreflightMeans(cfg);
    assert DecodedOffer(offer);
    DecodedIsWellFormed(offer);
    SelectIsOptimal(offer, Bound(cfg.maxTPDU), d.maxTPDU, cfg.profile, 0);
    if v.selection.preferredUnits.Some? {
      SmallUnits(v.selection.preferredUnits.value);
    }
  }

  lemma SmallUnits(units: u32)
    requires 0 < units <= MAX_PREFERRED_UNITS
    ensures PreferredLength(Some(units)) <= 4
  {
  }

  /** The selectors of a CR fit, with the rest of its header, in its 128 octets. */
  lemma DecodedSelectors(payload: bytes, cr: Connect)
    requires Decode(payload) == Ok(CR(cr))
    ensures 7 + SelectorLength(cr.options.calling) + SelectorLength(cr.options.called) <= MAX_CR_LENGTH
    ensures !SelectorError(cr.options.calling) && !SelectorError(cr.options.called)
  {
    assert DecodeConnect(Request, payload) == Ok(cr);
    DecodedConnect(Request, payload);
  }

  /** Under the default policy the CC always encodes: its selectors are selectors of the CR. */
  lemma DefaultConfirmEncodes(cfg: ServerConfig, payload: bytes, localRef: u16)
    requires Judge(cfg, None, payload).Proceed?
    ensures SendConfirm(cfg, Judge(cfg, None, payload), localRef).Ok?
  {
    var v := Judge(cfg, None, payload);
    var offer, d := ProceedMeans(cfg, None, payload);
    SelectedUnits(cfg, offer, d, v);
    DecodedSelectors(payload, v.cr);
    ConfirmEncodesIff(cfg, None, payload, localRef);
  }

  /** A client that offers nothing: no selectors, no data, the default size. */
  const PLAIN := ClientConfig(None, None, 0, 0, [], RFC1006_COMPAT)

  const ACCEPT_ALL: Policy := Some(ind => Ok(Decision(ACCEPT, 0, [], 0)))

  function PlainRequest(src: u16): Connect { Connect(0, 0, src, 0, NO_OPTIONS, []) }

  lemma PlainRequestEncodes(src: u16)
    ensures SendRequest(PLAIN, src).Ok? && Decode(SendRequest(PLAIN, src).value) == Ok(CR(PlainRequest(src)))
  {
    ConnectEncodesIff(Request, PlainRequest(src));
    RequestArrives(PLAIN, src);
  }

  /** With a policy of its own a server can accept and yet have no CC to send: a responding selector of 255 octets. */
  lemma AcceptedButUnconfirmed(selector: bytes, src: u16, localRef: u16)
    requires |selector| == MAX_VALUE_LENGTH && src != 0
    ensures var server := ServerConfig(Some(selector), 0, 0, RFC1006_COMPAT, false);
            && SendRequest(PLAIN, src).Ok?
            && var v := Judge(server, ACCEPT_ALL, SendRequest(PLAIN, src).value);
            v.Proceed? && SendConfirm(server, v, localRef).Err?
  {
    PlainRequestEncodes(src);
    var server := ServerConfig(Some(selector), 0, 0, RFC1006_COMPAT, false);
    var payload := SendRequest(PLAIN, src).value;
    assert Judge(server, ACCEPT_ALL, payload)
        == JudgeCR(server, ACCEPT_ALL, DEFAULT_MAX_TPDU, DEFAULT_MAX_TSDU, PlainRequest(src));
    assert Judge(server, ACCEPT_ALL, payload).Proceed?;
    ConfirmEncodesIff(server, ACCEPT_ALL, payload, localRef);
  }

  // ---------------------------------------------------------------- which answer

  /** A payload that is a CR asking for class 0, and what is wrong with it. */
  predicate FaultyCR(cr: Connect) {
    && cr.classOption / 0x10 == 0
    && (CRProtocolError(cr).Some? || DecodeSizeOffer(cr.options.size, cr.options.preferred).Err?
        || |cr.userData| > MAX_CONNECT_DATA)
  }

  /** The reject cause a faulty CR deserves: a forbidden parameter in a CR whose fixed fields are right, or a wrong
      value. */
  function CauseFor(cr: Connect): byte {
    if cr.cdt == 0 && cr.classOption == 0 && cr.dst == 0 && exists p | p in cr.options.others :: Forbidden(p.code)
    then CAUSE_INVALID_PARAMETER_CODE
    else CAUSE_INVALID_PARAMETER_VALUE
  }

  /** ER answers exactly the faulty Class 0 CRs that name a reference, and it is an ER to that reference, never to 0,
      with the cause that fits the fault. */
  lemma ProtestsExactly(cfg: ServerConfig, policy: Policy, payload: bytes)
    ensures var v := Judge(cfg, policy, payload);
            && (v.AnswerER? <==>
                  && ServerPreflight(cfg).Ok? && Decode(payload).Ok? && Decode(payload).value.CR?
                  && FaultyCR(Decode(payload).value.connect) && Decode(payload).value.connect.src != 0)
            && (v.AnswerER? ==>
                  var answer := Decode(v.response);
                  && answer.Ok? && answer.value.ER? && answer.value.report.dst == Decode(payload).value.connect.src
                  && answer.value.report.dst != 0 && Handshake in v.error
                  && answer.value.report.cause == CauseFor(Decode(payload).value.connect))
  {
    var v := Judge(cfg, policy, payload);
    if v.AnswerER? {
      var cr := Decode(payload).value.connect;
      var cause := if CRProtocolError(cr).Some? then CRProtocolError(cr).value else CAUSE_INVALID_PARAMETER_VALUE;
      ProtestReads(cr.src, cause);
    }
  }

  lemma ProtestReads(dst: u16, cause: byte)
    ensures EncodeReport(ErrorReport(dst, cause, [])) == Ok(ProtestOf(dst, cause))
    ensures Decode(ProtestOf(dst, cause)) == Ok(ER(ErrorReport(dst, cause, [])))
  {
    var e := ErrorReport(dst, cause, []);
    assert Print([]) == Ok([]);
    assert [4] + ReportFixed(e) + [] + [] == ProtestOf(dst, cause);
    ReportInverse(e, []);
    DispatchReport(ProtestOf(dst, cause));
  }

  lemma RefusalReads(dst: u16, reason: byte)
    ensures EncodeDisconnect(Disconnect(dst, 0, reason, [], [])) == Ok(RefusalOf(dst, reason))
    ensures Decode(RefusalOf(dst, reason)) == Ok(DR(Disconnect(dst, 0, reason, [], [])))
  {
    var d := Disconnect(dst, 0, reason, [], []);
    assert Print([]) == Ok([]);
    assert [6] + DisconnectFixed(d) + [] + [] == RefusalOf(dst, reason);
    DisconnectInverse(d, []);
    DispatchDisconnect(RefusalOf(dst, reason));
  }

  /** A sound CR asking for class 0 that the policy rejects. */
  predicate RejectedCR(cfg: ServerConfig, policy: Policy, cr: Connect) {
    && cr.classOption / 0x10 == 0 && !FaultyCR(cr)
    && var d := Decide(cfg, policy, IndicationOf(cr, DecodeSizeOffer(cr.options.size, cr.options.preferred).value));
    d.Ok? && d.value.action == REJECT
  }

  /** The reason a refusal gives: the policy's own on a CR it rejects, else that class negotiation failed. */
  function ReasonFor(cfg: ServerConfig, policy: Policy, cr: Connect): byte {
    if !RejectedCR(cfg, policy, cr) then REASON_NEGOTIATION_FAILED
    else
      var offer := DecodeSizeOffer(cr.options.size, cr.options.preferred).value;
      Decide(cfg, policy, IndicationOf(cr, offer)).value.reason
  }

  lemma RefusedCR(cfg: ServerConfig, policy: Policy, maxTPDU: int, maxTSDU: nat, cr: Connect)
    ensures var v := JudgeCR(cfg, policy, maxTPDU, maxTSDU, cr);
            && (v.AnswerDR? <==> cr.classOption / 0x10 != 0 || RejectedCR(cfg, policy, cr))
            && (v.AnswerDR? ==> v.response == RefusalOf(cr.src, v.reason))
            && (v.AnswerDR? ==> v.reason == ReasonFor(cfg, policy, cr))
  {
    hide SelectSize, RefusalOf, DefaultAutoAccept;
  }

  /** DR answers exactly a CR for another class and a rejecting decision on a sound one; it is a DR to the CR's
      reference with the reason due, which is also reported to the caller. */
  lemma RefusalsExactly(cfg: ServerConfig, policy: Policy, payload: bytes)
    ensures var v := Judge(cfg, policy, payload);
            && (v.AnswerDR? <==>
                  && ServerPreflight(cfg).Ok? && Decode(payload).Ok? && Decode(payload).value.CR?
                  && var cr := Decode(payload).value.connect;
                  cr.classOption / 0x10 != 0 || RejectedCR(cfg, policy, cr))
            && (v.AnswerDR? ==>
                  && Decode(payload).Ok? && Decode(payload).value.CR?
                  && var cr := Decode(payload).value.connect;
                  && Decode(v.response) == Ok(DR(Disconnect(cr.src, 0, v.reason, [], [])))
                  && v.reason == ReasonFor(cfg, policy, cr))
  {
    hide JudgeCR, Decode, RejectedCR, RefusalOf, ReasonFor;
    if ServerPreflight(cfg).Ok? && Decode(payload).Ok? && Decode(payload).value.CR? {
      var cr := Decode(payload).value.connect;
      RefusedCR(cfg, policy, ServerPreflight(cfg).value.0, ServerPreflight(cfg).value.1, cr);
      var v := Judge(cfg, policy, payload);
      if v.AnswerDR? { RefusalReads(cr.src, v.reason); }
    }
  }

  /** A client that is answered with that DR ends with the connection refused. */
  lemma RefusalArrives(cfg: ClientConfig, localRef: u16, reason: byte)
    requires SendRequest(cfg, localRef).Ok?
    ensures Conclude(cfg, localRef, RefusalOf(localRef, reason)) == Err({ConnectionRefused})
  {
    hide Decode;
    RefusalReads(localRef, reason);
  }
}

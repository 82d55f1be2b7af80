/** What a handshake comes to, in the numbers of RFC 1006 and section 13 of X.224: which configurations are valid, which
    CRs a server accepts, refuses, protests against or leaves without a word, which CCs a client accepts, what each side
    then holds, and with what error everything else ends. */
module Outcomes {
  import opened Types
  import opened Codec
  import opened Params
  import opened SizeNego
  import opened Transfer
  import opened Establish
  import opened References
  import opened Handshakes
  import Octets
  import PreferredMax

  // ---------------------------------------------------------------- configurations

  predicate FitSelector(s: Option<bytes>) { s.Some? ==> |s.value| <= 255 }

  predicate FitSizes(profile: int, maxTPDU: int, maxTSDU: int) {
    (profile == 0 || profile == 1) && (maxTPDU == 0 || 128 <= maxTPDU <= 65531) && maxTSDU >= 0
  }

  predicate FitClient(cfg: ClientConfig) {
    && FitSizes(cfg.profile, cfg.maxTPDU, cfg.maxTSDU)
    && FitSelector(cfg.localSelector) && FitSelector(cfg.remoteSelector) && |cfg.connectData| <= 32
  }

  predicate FitServer(cfg: ServerConfig) {
    FitSizes(cfg.profile, cfg.maxTPDU, cfg.maxTSDU) && FitSelector(cfg.localSelector)
  }

  function Limit(maxTPDU: int): int { if maxTPDU == 0 then 65531 else maxTPDU }

  function TsduLimit(maxTSDU: int): int { if maxTSDU == 0 then 4194304 else maxTSDU }

  /** A configuration is valid exactly when it fits; then zero stands for 65531 and 4 MiB. */
  lemma ConfigsValidIff(client: ClientConfig, server: ServerConfig)
    ensures FitClient(client) ==> ClientPreflight(client) == Ok((Limit(client.maxTPDU), TsduLimit(client.maxTSDU)))
    ensures !FitClient(client) ==> ClientPreflight(client) == Err({InvalidConfig})
    ensures FitServer(server) ==> ServerPreflight(server) == Ok((Limit(server.maxTPDU), TsduLimit(server.maxTSDU)))
    ensures !FitServer(server) ==> ServerPreflight(server) == Err({InvalidConfig})
  {
  }

  // ---------------------------------------------------------------- the CR

  function SelectorOctets(s: Option<bytes>): nat { if s == None then 0 else 2 + |s.value| }

  /** A parameter of 0xC0 has three octets; one of 0xF0 three or, from 256 units on, four. */
  function SizeOctets(code: Option<byte>, units: Option<u32>): nat {
    (if code == None then 0 else 3) + (if units == None then 0 else if units.value < 256 then 3 else 4)
  }

  lemma UnitsLength(units: u32)
    requires 1 <= units <= 511
    ensures |PreferredMax.Shortest(units)| == if units < 256 then 1 else 2
  {
  }

  /** A client has a CR to send exactly when its configuration fits and the CR has at most 128 octets. The server then
      reads the client's selectors, data, reference and size offer from it, and zero for all else. */
  lemma RequestIs(cfg: ClientConfig, localRef: u16)
    ensures var b := BuildSizeOffer(cfg.maxTPDU, cfg.profile);
            var r := SendRequest(cfg, localRef);
            && (FitClient(cfg) ==> b.Ok?)
            && (r.Ok? <==>
                  && FitClient(cfg)
                  && 7 + SelectorOctets(cfg.localSelector) + SelectorOctets(cfg.remoteSelector)
                     + SizeOctets(b.value.standardCode, b.value.preferredUnits) + |cfg.connectData| <= 128)
            && (r.Ok? ==>
                  Decode(r.value)
                  == Ok(CR(Connect(0, 0, localRef, 0,
                                   Options(cfg.localSelector, cfg.remoteSelector, b.value.standardCode,
                                           b.value.preferredUnits, []), cfg.connectData))))
            && (r.Err? ==> r.error == {InvalidConfig})
  {
    hide SendRequest, Decode, StandardCode, StandardSize, FallbackStandard, LargestWithin, InTable;
    ConfigsValidIff(cfg, ServerConfig(None, 0, 0, 0, false));
    RequestEncodesIff(cfg, localRef);
    if FitClient(cfg) {
      OfferIs(cfg.maxTPDU, cfg.profile);
      assert BuildSizeOffer(cfg.maxTPDU, cfg.profile) == BuildSizeOffer(Bound(cfg.maxTPDU), cfg.profile);
      hide BuildSizeOffer;
      var b := BuildSizeOffer(cfg.maxTPDU, cfg.profile).value;
      if b.preferredUnits.Some? { UnitsLength(b.preferredUnits.value); }
      if SendRequest(cfg, localRef).Ok? { RequestArrives(cfg, localRef); }
    }
  }

  // ---------------------------------------------------------------- what a server makes of a CR

  /** A CR with nothing wrong in it. */
  predicate Sound(cr: Connect) {
    && cr.cdt == 0 && cr.classOption == 0 && cr.dst == 0 && cr.src != 0
    && (forall p | p in cr.options.others :: !(0xC3 <= p.code <= 0xCE))
    && (cr.options.size.Some? ==> 7 <= cr.options.size.value <= 16)
    && (cr.options.preferred.Some? ==> 1 <= cr.options.preferred.value <= 511)
    && |cr.userData| <= 32
  }

  /** The sizes it offers. */
  function Offered(cr: Connect): Offer
    requires Sound(cr)
  {
    var o := cr.options;
    Offer(if o.size.Some? then Some(Power(o.size.value)) else None,
          if o.preferred.Some? then Some(128 * (o.preferred.value as int)) else None,
          o.size == None && o.preferred == None)
  }

  /** What the policy is shown: the preferred size offered, else the standard one, else 65531. */
  function Shown(cr: Connect): Indication
    requires Sound(cr)
  {
    var o := cr.options;
    Indication(o.calling, o.called, 0,
               if o.preferred.Some? then 128 * (o.preferred.value as int)
               else if o.size.Some? then Power(o.size.value) else 65531,
               cr.userData, cr.src)
  }

  /** The policy's decision; without a policy, acceptance unless the server has a selector and the CR calls another
      (reason 3). */
  function Ruling(cfg: ServerConfig, policy: Policy, cr: Connect): Result<Decision>
    requires Sound(cr)
  {
    if policy.Some? then policy.value(Shown(cr))
    else if cfg.localSelector.Some? && cr.options.called != cfg.localSelector then Ok(Decision(0, 0, [], 3))
    else Ok(Decision(1, 0, [], 0))
  }

  /** An acceptance the server can act on. */
  predicate Agreeable(d: Decision) {
    d.action == 1 && |d.connectData| <= 32 && (d.maxTPDU == 0 || 128 <= d.maxTPDU <= 65531)
  }

  lemma SoundIff(cr: Connect)
    requires cr.classOption / 16 == 0
    ensures Sound(cr) <==> !FaultyCR(cr)
    ensures Sound(cr) ==> DecodeSizeOffer(cr.options.size, cr.options.preferred) == Ok(Offered(cr))
    ensures Sound(cr) ==> WellFormedOffer(Offered(cr)) && IndicationOf(cr, Offered(cr)) == Shown(cr)
  {
    OfferRead(cr.options.size, cr.options.preferred);
    hide DecodeSizeOffer, Power;
    if Sound(cr) {
      assert DecodedOffer(Offered(cr)) by {
        assert DecodeSizeOffer(cr.options.size, cr.options.preferred) == Ok(Offered(cr));
      }
      DecodedIsWellFormed(Offered(cr));
    }
  }

  lemma RulingIs(cfg: ServerConfig, policy: Policy, cr: Connect)
    requires Sound(cr)
    ensures Decide(cfg, policy, Shown(cr)) == Ruling(cfg, policy, cr)
  {
  }

  /** From a decision on a sound CR to the verdict. */
  lemma DecisionJudged(cfg: ServerConfig, cr: Connect, d: Decision)
    requires FitServer(cfg) && Sound(cr)
    ensures var v := JudgeDecision(cfg, Limit(cfg.maxTPDU), TsduLimit(cfg.maxTSDU), cr, Offered(cr), d);
            && (Agreeable(d) ==>
                  var s := SelectSize(Offered(cr), cfg.maxTPDU, d.maxTPDU, cfg.profile);
                  s.Ok? && v == Proceed(cr, s.value, d.connectData, TsduLimit(cfg.maxTSDU)))
            && (d.action == 0 ==> v == AnswerDR(RefusalOf(cr.src, d.reason), d.reason))
            && (!Agreeable(d) && d.action != 0 ==> v == Silent({Handshake, InvalidConfig}))
  {
    SoundIff(cr);
    CeilingsValidIff(d.maxTPDU);
    CeilingsValidIff(cfg.maxTPDU);
    hide Sound, Offered, RefusalOf;
    if Agreeable(d) {
      SelectIsOptimal(Offered(cr), cfg.maxTPDU, d.maxTPDU, cfg.profile, 0);
      CeilingsValidIff(Limit(cfg.maxTPDU));
      assert SelectSize(Offered(cr), cfg.maxTPDU, d.maxTPDU, cfg.profile)
          == SelectSize(Offered(cr), Limit(cfg.maxTPDU), d.maxTPDU, cfg.profile);
    }
  }

  /** The cause of an ER: 1 for a forbidden parameter where all before it is right, else 3. */
  function FaultOf(cr: Connect): byte {
    if cr.cdt == 0 && cr.classOption == 0 && cr.dst == 0 && cr.src != 0
       && exists p | p in cr.options.others :: 0xC3 <= p.code <= 0xCE then 1
    else 3
  }

  lemma CRJudged(cfg: ServerConfig, policy: Policy, cr: Connect)
    requires FitServer(cfg)
    ensures var v := JudgeCR(cfg, policy, Limit(cfg.maxTPDU), TsduLimit(cfg.maxTSDU), cr);
            if cr.classOption / 16 != 0 then v == AnswerDR(RefusalOf(cr.src, 130), 130)
            else if !Sound(cr) then
              v == if cr.src == 0 then Silent({Handshake})
                   else AnswerER(ProtestOf(cr.src, FaultOf(cr)), {Handshake})
            else
              match Ruling(cfg, policy, cr)
              case Err(e) => v == Silent({Handshake} + e)
              case Ok(d) =>
                v == JudgeDecision(cfg, Limit(cfg.maxTPDU), TsduLimit(cfg.maxTSDU), cr, Offered(cr), d)
  {
    hide JudgeDecision, RefusalOf, ProtestOf, DecodeSizeOffer, Decide, Ruling;
    OfferRead(cr.options.size, cr.options.preferred);
    if cr.classOption / 16 == 0 {
      SoundIff(cr);
      if Sound(cr) { RulingIs(cfg, policy, cr); }
    }
  }

  /** The CR a payload is, if the server's configuration fits and the payload is one. */
  predicate IsCR(cfg: ServerConfig, payload: bytes) {
    FitServer(cfg) && Decode(payload).Ok? && Decode(payload).value.CR?
  }

  lemma JudgedAs(cfg: ServerConfig, policy: Policy, payload: bytes)
    ensures IsCR(cfg, payload) ==>
              Judge(cfg, policy, payload)
              == JudgeCR(cfg, policy, Limit(cfg.maxTPDU), TsduLimit(cfg.maxTSDU), Decode(payload).value.connect)
    ensures !IsCR(cfg, payload) ==>
              Judge(cfg, policy, payload)
              == Silent(if !FitServer(cfg) then {InvalidConfig}
                        else if Decode(payload).Err? then {Handshake} else {UnexpectedTPDU})
  {
    hide Decode, JudgeCR, FitServer;
    ConfigsValidIff(ClientConfig(None, None, 0, 0, [], 0), cfg);
  }

  /** A server goes on to a CC exactly for a sound CR and an agreeable ruling on it, whatever the policy; it then uses
      the ruling's data and the size selected for the offer and both ceilings. */
  lemma ProceedsIff(cfg: ServerConfig, policy: Policy, payload: bytes)
    ensures var v := Judge(cfg, policy, payload);
            && (v.Proceed? <==>
                  && IsCR(cfg, payload) && Sound(Decode(payload).value.connect)
                  && var d := Ruling(cfg, policy, Decode(payload).value.connect); d.Ok? && Agreeable(d.value))
            && (v.Proceed? ==>
                  var cr := Decode(payload).value.connect;
                  var d := Ruling(cfg, policy, cr).value;
                  && v.cr == cr && v.data == d.connectData && v.maxTSDU == TsduLimit(cfg.maxTSDU)
                  && SelectSize(Offered(cr), cfg.maxTPDU, d.maxTPDU, cfg.profile) == Ok(v.selection))
  {
    hide Judge, JudgeCR, JudgeDecision, Decode, Sound, Ruling, Agreeable, Offered, SelectSize, FaultOf;
    JudgedAs(cfg, policy, payload);
    if IsCR(cfg, payload) {
      var cr := Decode(payload).value.connect;
      CRJudged(cfg, policy, cr);
      ClassOfSound(cr);
      if Sound(cr) && Ruling(cfg, policy, cr).Ok? {
        DecisionJudged(cfg, cr, Ruling(cfg, policy, cr).value);
        ActionOfAgreeable(Ruling(cfg, policy, cr).value);
      }
    }
  }

  lemma ClassOfSound(cr: Connect)
    ensures Sound(cr) ==> cr.classOption / 16 == 0 && cr.src != 0
  {
  }

  lemma ActionOfAgreeable(d: Decision)
    ensures Agreeable(d) ==> d.action == 1
  {
  }

  /** DR answers exactly a CR for another class, with reason 130, and a sound one that is rejected, with the reason of
      the ruling. */
  lemma RefusesIff(cfg: ServerConfig, policy: Policy, payload: bytes)
    ensures var v := Judge(cfg, policy, payload);
            && (v.AnswerDR? <==>
                  && IsCR(cfg, payload)
                  && var cr := Decode(payload).value.connect;
                  || cr.classOption >= 16
                  || (Sound(cr) && Ruling(cfg, policy, cr).Ok? && Ruling(cfg, policy, cr).value.action == 0))
            && (v.AnswerDR? ==>
                  var cr := Decode(payload).value.connect;
                  && v.reason == (if cr.classOption >= 16 then 130 else Ruling(cfg, policy, cr).value.reason)
                  && v.response == [6, 0x80, cr.src / 256, cr.src % 256, 0, 0, v.reason])
  {
    hide Judge, JudgeCR, JudgeDecision, Decode, Sound, Ruling, Offered, SelectSize, FaultOf;
    JudgedAs(cfg, policy, payload);
    if IsCR(cfg, payload) {
      var cr := Decode(payload).value.connect;
      CRJudged(cfg, policy, cr);
      ClassOfSound(cr);
      if Sound(cr) && Ruling(cfg, policy, cr).Ok? { DecisionJudged(cfg, cr, Ruling(cfg, policy, cr).value); }
    }
  }

  /** ER answers exactly an unsound CR for class 0 that names a reference. */
  lemma ProtestsIff(cfg: ServerConfig, policy: Policy, payload: bytes)
    ensures var v := Judge(cfg, policy, payload);
            && (v.AnswerER? <==>
                  && IsCR(cfg, payload)
                  && var cr := Decode(payload).value.connect; cr.classOption < 16 && !Sound(cr) && cr.src != 0)
            && (v.AnswerER? ==>
                  var cr := Decode(payload).value.connect;
                  v.response == [4, 0x70, cr.src / 256, cr.src % 256, FaultOf(cr)] && v.error == {Handshake})
  {
    hide Judge, JudgeCR, JudgeDecision, Decode, Sound, Ruling, Offered, SelectSize, FaultOf;
    JudgedAs(cfg, policy, payload);
    if IsCR(cfg, payload) {
      var cr := Decode(payload).value.connect;
      CRJudged(cfg, policy, cr);
      ClassOfSound(cr);
      if Sound(cr) && Ruling(cfg, policy, cr).Ok? { DecisionJudged(cfg, cr, Ruling(cfg, policy, cr).value); }
    }
  }

  /** The server says nothing exactly when its configuration is invalid, the payload no CR, the CR for class 0 unsound
      and without a reference, or the policy fails or decides what cannot be acted on; and with these errors. */
  lemma SilentIff(cfg: ServerConfig, policy: Policy, payload: bytes)
    ensures var v := Judge(cfg, policy, payload);
            if !FitServer(cfg) then v == Silent({InvalidConfig})
            else if Decode(payload).Err? then v == Silent({Handshake})
            else if !Decode(payload).value.CR? then v == Silent({UnexpectedTPDU})
            else
              var cr := Decode(payload).value.connect;
              if cr.classOption >= 16 then !v.Silent?
              else if !Sound(cr) then if cr.src == 0 then v == Silent({Handshake}) else !v.Silent?
              else
                match Ruling(cfg, policy, cr)
                case Err(e) => v == Silent({Handshake} + e)
                case Ok(d) =>
                  if d.action == 0 || Agreeable(d) then !v.Silent?
                  else v == Silent({Handshake, InvalidConfig})
  {
    hide Judge, JudgeCR, JudgeDecision, Decode, Sound, Ruling, Offered, SelectSize, FaultOf, Agreeable;
    JudgedAs(cfg, policy, payload);
    if IsCR(cfg, payload) {
      var cr := Decode(payload).value.connect;
      CRJudged(cfg, policy, cr);
      ClassOfSound(cr);
      if Sound(cr) && Ruling(cfg, policy, cr).Ok? { DecisionJudged(cfg, cr, Ruling(cfg, policy, cr).value); }
    }
  }

  // ---------------------------------------------------------------- the CC

  /** The selector a CC gives back: the server's own, or, when it has none and echoes, the one called. */
  function GivenBack(cfg: ServerConfig, cr: Connect): Option<bytes> {
    if cfg.localSelector.Some? then cfg.localSelector else if cfg.echoSelectors then cr.options.called else None
  }

  /** A CC goes out exactly when its selectors and size leave its header within 254 octets. The client then reads from
      it the two references, the selected size and the ruling's data, the calling selector only if the server echoes,
      and zero for all else; and the server holds the selected size, the references and what the CR said. */
  lemma ConfirmIs(cfg: ServerConfig, policy: Policy, payload: bytes, localRef: u16)
    requires Judge(cfg, policy, payload).Proceed?
    ensures var v := Judge(cfg, policy, payload);
            var r := SendConfirm(cfg, v, localRef);
            var calling := if cfg.echoSelectors then v.cr.options.calling else None;
            var called := GivenBack(cfg, v.cr);
            && (r.Ok? <==>
                  6 + SelectorOctets(calling) + SelectorOctets(called)
                  + SizeOctets(v.selection.standardCode, v.selection.preferredUnits) <= 254)
            && (r.Err? ==> r.error == {Handshake})
            && (r.Ok? ==>
                  && Decode(r.value.0)
                     == Ok(CC(Connect(0, v.cr.src, localRef, 0,
                                      Options(calling, called, v.selection.standardCode, v.selection.preferredUnits,
                                              []), v.data)))
                  && r.value.1 == Session(v.selection.effective, v.maxTSDU, localRef, v.cr.src, called,
                                          v.cr.options.calling, v.cr.userData))
  {
    var v := Judge(cfg, policy, payload);
    ProceedsIff(cfg, policy, payload);
    ConfirmEncodesIff(cfg, policy, payload, localRef);
    SelectedUnitsAre(cfg, policy, payload);
    hide Judge, Decode, Sound, Ruling, Agreeable, Offered, SelectSize;
    if SendConfirm(cfg, v, localRef).Ok? { ConfirmArrives(cfg, v, localRef); }
    if v.selection.preferredUnits.Some? { UnitsLength(v.selection.preferredUnits.value); }
  }

  lemma SelectedUnitsAre(cfg: ServerConfig, policy: Policy, payload: bytes)
    requires Judge(cfg, policy, payload).Proceed?
    ensures var u := Judge(cfg, policy, payload).selection.preferredUnits; u.Some? ==> 1 <= u.value <= 511
  {
    hide Judge, Decode, Sound, Ruling, Offered, SelectSize;
    ProceedsIff(cfg, policy, payload);
    var cr := Decode(payload).value.connect;
    ClassOfSound(cr);
    SoundIff(cr);
    SelectIsOptimal(Offered(cr), cfg.maxTPDU, Ruling(cfg, policy, cr).value.maxTPDU, cfg.profile, 0);
  }

  // ---------------------------------------------------------------- what a client makes of an answer

  /** A CC for this reference with nothing wrong in it but possibly its size. */
  predicate Fine(cc: Connect, localRef: u16) {
    && cc.cdt == 0 && cc.classOption == 0 && cc.dst == localRef && cc.src != 0
    && cc.options.others == [] && |cc.userData| <= 32
  }

  /** A decoded CC keeps only unknown parameters aside. */
  lemma OthersUnknown(payload: bytes, p: Parameter)
    requires Decode(payload).Ok? && Decode(payload).value.CC? && p in Decode(payload).value.connect.options.others
    ensures p.code !in {0xC0, 0xC1, 0xC2, 0xF0}
  {
    Octets.ConnectRead(Confirm, payload);
    Octets.UnknownAre(Octets.Behind(payload, 6).value);
  }

  lemma CCConcluded(cfg: ClientConfig, maxTSDU: nat, localRef: u16, offer: Offer, cc: Connect)
    requires forall p | p in cc.options.others :: p.code !in {0xC0, 0xC1, 0xC2, 0xF0}
    requires WellFormedOffer(offer) && (cfg.profile == 0 || cfg.profile == 1)
    ensures var size := InterpretCCSize(offer, cc.options.size, cc.options.preferred, cfg.profile);
            ConcludeCC(cfg, maxTSDU, localRef, offer, cc)
            == if Fine(cc, localRef) && size.Ok?
               then Ok(Session(size.value, maxTSDU, localRef, cc.src, cfg.localSelector,
                               if cc.options.called.Some? then cc.options.called else cfg.remoteSelector, cc.userData))
               else Err({Handshake})
  {
    InterpretationIs(offer, cc.options.size, cc.options.preferred, cfg.profile);
    hide InterpretCCSize, WellFormedOffer, Power;
    if cc.options.others != [] { assert cc.options.others[0] in cc.options.others; }
  }

  /** A client accepts exactly a CC with zero CDT and class, its own reference as the destination and another non-zero
      one, no unknown parameter, at most 32 octets of data and a size it can read; it then holds what the CC says, the
      selector it called standing in for one the CC does not give. A DR ends with the connection refused, any other TPDU
      as unexpected, all else as a failed handshake. */
  lemma ConcludesIff(cfg: ClientConfig, localRef: u16, payload: bytes)
    ensures var r := Conclude(cfg, localRef, payload);
            if !FitClient(cfg) then r == Err({InvalidConfig})
            else
              match Decode(payload)
              case Ok(DR(_)) => r == Err({ConnectionRefused})
              case Ok(CC(cc)) =>
                var b := BuildSizeOffer(cfg.maxTPDU, cfg.profile);
                && b.Ok?
                && var size := InterpretCCSize(b.value.offer, cc.options.size, cc.options.preferred, cfg.profile);
                r == if Fine(cc, localRef) && size.Ok?
                     then Ok(Session(size.value, TsduLimit(cfg.maxTSDU), localRef, cc.src, cfg.localSelector,
                                     if cc.options.called.Some? then cc.options.called else cfg.remoteSelector,
                                     cc.userData))
                     else Err({Handshake})
              case Ok(ER(_)) => r == Err({Handshake})
              case Ok(_) => r == Err({UnexpectedTPDU})
              case Err(_) => r == Err({Handshake})
  {
    hide Decode, ConcludeCC, InterpretCCSize, StandardCode, StandardSize, FallbackStandard, ClientPreflight;
    ConfigsValidIff(cfg, ServerConfig(None, 0, 0, 0, false));
    if FitClient(cfg) {
      assert BuildSizeOffer(cfg.maxTPDU, cfg.profile) == BuildSizeOffer(Limit(cfg.maxTPDU), cfg.profile);
      OfferIsSound(cfg.maxTPDU, cfg.profile);
      hide BuildSizeOffer;
      if Decode(payload).Ok? && Decode(payload).value.CC? {
        var cc := Decode(payload).value.connect;
        forall p | p in cc.options.others ensures p.code !in {0xC0, 0xC1, 0xC2, 0xF0} { OthersUnknown(payload, p); }
        CCConcluded(cfg, TsduLimit(cfg.maxTSDU), localRef, BuildSizeOffer(cfg.maxTPDU, cfg.profile).value.offer, cc);
      }
    }
  }

  // ---------------------------------------------------------------- failures of the stream

  /** Which marks the cause of a failed handshake carries: as in the open state, but a stream that is gone without
      having ended is not said to be disconnected. */
  lemma HandshakeCauseIs(ctx: Ctx, e: IoError, m: Mark)
    ensures m in HandshakeIoError(ctx, e) <==>
              if ByContext(ctx, e) then m == Closed || m in ContextError(ctx)
              else if Eof in e.marks then m == Disconnected || m == Eof
              else m in e.marks || (m == Handshake && Framing in e.marks)
  {
  }

  // ---------------------------------------------------------------- the two operations

  /** A Connect succeeds exactly when its configuration fits, its context is alive at both looks, a reference is free,
      the CR encodes and moves, and a CC it accepts comes back; the CR goes out exactly when all up to the second look
      holds. The first thing that fails is what it returns. */
  lemma ConnectsIff(cfg: ClientConfig, w: Surroundings, a: Alloc)
    requires 0 !in a.active
    ensures var x := Initiate(cfg, w, a);
            var ready := FitClient(cfg) && w.started == None && exists r: u16 :: r != 0 && r !in a.active;
            && (ready ==> Take(a).0.Ok?)
            && (!ready ==>
                  x == Attempt([], Err(if FitClient(cfg) && w.started.Some? then w.started.value else {InvalidConfig}),
                               a))
            && (ready ==>
                  var ref := Take(a).0.value;
                  var cr := SendRequest(cfg, ref);
                  && x.packets == (if cr.Ok? && w.armed.err == None then [cr.value] else [])
                  && (x.result.Ok? <==>
                        && cr.Ok? && w.armed.err == None && w.failedWrite == None && w.inbound.Arrives?
                        && Conclude(cfg, ref, w.inbound.payload).Ok?)
                  && x.result
                     == if cr.Err? then Err({InvalidConfig})
                        else if w.armed.err.Some? then Err(w.armed.err.value)
                        else if w.failedWrite.Some? then Err(HandshakeIoError(w.ended, w.failedWrite.value))
                        else if w.inbound.Breaks? then Err(HandshakeIoError(w.ended, w.inbound.err))
                        else Conclude(cfg, ref, w.inbound.payload))
  {
    hide SendRequest, Conclude, HandshakeIoError, Take, FitClient, ClientPreflight;
    ConfigsValidIff(cfg, ServerConfig(None, 0, 0, 0, false));
    TakeMeaning(a);
    NoneLeft(a);
    if Take(a).0.Ok? { RequestIs(cfg, Take(a).0.value); }
  }

  lemma NoneLeft(a: Alloc)
    requires 0 !in a.active
    ensures Take(a).0.Err? ==> Take(a) == (Err({InvalidConfig}), a)
  {
    TakeMeaning(a);
  }

  /** An Accept succeeds exactly when its configuration fits, its context is alive at both looks, a payload arrives on
      which it goes on to a CC, a reference is free, and that CC encodes and moves. */
  lemma AcceptsIff(cfg: ServerConfig, policy: Policy, w: Surroundings, a: Alloc)
    requires 0 !in a.active
    ensures var x := Respond(cfg, policy, w, a);
            var alive := FitServer(cfg) && w.started == None && w.armed.err == None;
            && (x.result.Ok? <==>
                  && alive && w.inbound.Arrives? && Judge(cfg, policy, w.inbound.payload).Proceed?
                  && Take(a).0.Ok? && w.failedWrite == None
                  && SendConfirm(cfg, Judge(cfg, policy, w.inbound.payload), Take(a).0.value).Ok?)
            && (!alive ==>
                  x == Attempt([], Err(if !FitServer(cfg) then {InvalidConfig}
                                       else if w.started.Some? then w.started.value else w.armed.err.value), a))
            && (alive && w.inbound.Breaks? ==> x == Attempt([], Err(HandshakeIoError(w.ended, w.inbound.err)), a))
            && (alive && w.inbound.Arrives? ==>
                  match Judge(cfg, policy, w.inbound.payload)
                  case Silent(e) => x == Attempt([], Err(e), a)
                  case AnswerDR(response, _) => x == Attempt([response], Err({ConnectionRefused}), a)
                  case AnswerER(response, e) => x == Attempt([response], Err(e), a)
                  case Proceed(_, _, _, _) =>
                    if Take(a).0.Err? then x == Attempt([], Err({InvalidConfig}), a)
                    else
                      match SendConfirm(cfg, Judge(cfg, policy, w.inbound.payload), Take(a).0.value)
                      case Err(_) => x.packets == [] && x.result == Err({Handshake})
                      case Ok((cc, session)) =>
                        && x.packets == [cc]
                        && x.result == if w.failedWrite == None then Ok(session)
                                       else Err(HandshakeIoError(w.ended, w.failedWrite.value)))
  {
    hide Judge, HandshakeIoError, Take, FitServer, ServerPreflight;
    ConfigsValidIff(ClientConfig(None, None, 0, 0, [], 0), cfg);
    NoneLeft(a);
  }
}

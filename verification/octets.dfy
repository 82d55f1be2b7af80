/** The TPDUs octet by octet: what stands at which position of an encoding, and what each decoder accepts and reads from
    those positions, in the numbers of sections 13.3 to 13.12 of X.224. */
module Octets {
  import opened Types
  import opened Params
  import opened PreferredMax
  import opened Frame
  import opened Codec

  // ---------------------------------------------------------------- parameters

  predicate Short(v: bytes) { |v| <= 255 }

  /** The value of 0xF0, the high octet first, and the octets for the units a negotiation uses. */
  lemma NumberIs(v: bytes, units: u32)
    ensures |v| == 1 ==> BigEndian(v) == v[0]
    ensures |v| == 2 ==> BigEndian(v) == Word(v[0], v[1])
    ensures |v| == 3 ==> BigEndian(v) == 256 * Word(v[0], v[1]) + v[2]
    ensures |v| == 4 ==> BigEndian(v) == 65536 * Word(v[0], v[1]) + Word(v[2], v[3])
    ensures 1 <= units <= 255 ==> Shortest(units) == [units]
    ensures 256 <= units <= 65535 ==> Shortest(units) == [units / 256, units % 256]
  {
    if 1 <= |v| <= 4 {
      assert BigEndian(v[..0]) == 0;
      assert v[..1][..0] == v[..0] && v[..|v|] == v;
      assert |v| >= 2 ==> v[..2][..1] == v[..1];
      assert |v| >= 3 ==> v[..3][..2] == v[..2];
      assert |v| >= 4 ==> v[..4][..3] == v[..3];
    }
    if 256 <= units <= 65535 { assert Shortest(units / 256) == [units / 256]; }
  }

  /** Two octets as a number, the high one first. */
  function Word(hi: int, lo: int): int { 256 * hi + lo }

  /** The last parameter with a code, if there is one. */
  lemma {:induction false} LastValueIs(ps: seq<Parameter>, code: byte)
    ensures LastValue(ps, code) == None <==> forall p | p in ps :: p.code != code
    ensures forall i | 0 <= i < |ps| && ps[i].code == code && (forall j | i < j < |ps| :: ps[j].code != code) ::
              LastValue(ps, code) == Some(ps[i].value)
  {
    if ps != [] {
      var init, n := ps[..|ps| - 1], |ps| - 1;
      assert ps == init + [ps[n]];
      LastValueIs(init, code);
      forall i | 0 <= i < |ps| && ps[i].code == code && (forall j | i < j < |ps| :: ps[j].code != code)
        ensures LastValue(ps, code) == Some(ps[i].value)
      {
        if i < n {
          assert ps[n].code != code;
          assert init[i] == ps[i] && forall j | i < j < |init| :: init[j] == ps[j];
        }
      }
    }
  }

  /** Code, length, value. */
  function Triple(code: byte, v: bytes): bytes
    requires Short(v)
  {
    [code, |v|] + v
  }

  /** The parameters that are not one of the four codes of a CR or CC, one after the other. */
  predicate OthersShort(ps: seq<Parameter>) {
    forall p | p in ps && p.code !in {0xC0, 0xC1, 0xC2, 0xF0} :: Short(p.value)
  }

  function Triples(ps: seq<Parameter>): bytes
    requires forall p | p in ps :: Short(p.value)
  {
    if ps == [] then [] else Triple(ps[0].code, ps[0].value) + Triples(ps[1..])
  }

  function OtherTriples(ps: seq<Parameter>): bytes
    requires OthersShort(ps)
  {
    if ps == [] then []
    else if ps[0].code in {0xC0, 0xC1, 0xC2, 0xF0} then OtherTriples(ps[1..])
    else Triple(ps[0].code, ps[0].value) + OtherTriples(ps[1..])
  }

  predicate SelectorShort(s: Option<bytes>) { s.Some? ==> Short(s.value) }

  function SelectorTriple(code: byte, s: Option<bytes>): bytes
    requires SelectorShort(s)
  {
    if s.Some? then Triple(code, s.value) else []
  }

  /** The variable part of a CR or CC: 0xC1 calling, 0xC2 called, 0xC0 size, 0xF0 preferred size, then the others. */
  function VariablePart(o: Options): bytes
    requires SelectorShort(o.calling) && SelectorShort(o.called) && OthersShort(o.others)
    requires o.preferred.Some? ==> 0 < o.preferred.value && Short(Shortest(o.preferred.value))
  {
    SelectorTriple(0xC1, o.calling) + SelectorTriple(0xC2, o.called)
    + (if o.size.Some? then [0xC0, 1, o.size.value] else [])
    + (if o.preferred.Some? then Triple(0xF0, Shortest(o.preferred.value)) else [])
    + OtherTriples(o.others)
  }

  predicate HasVariablePart(o: Options) {
    && SelectorShort(o.calling) && SelectorShort(o.called) && OthersShort(o.others)
    && (o.preferred.Some? ==> 0 < o.preferred.value && Short(Shortest(o.preferred.value)))
  }

  lemma {:induction false} PrintIsTriples(ps: seq<Parameter>)
    ensures Print(ps).Ok? <==> forall p | p in ps :: Short(p.value)
    ensures Print(ps).Ok? ==> Print(ps).value == Triples(ps)
    ensures Print(ps).Err? ==> Print(ps).error == {UnexpectedParameterLength}
  {
    PrintsIffFits(ps);
    if ps != [] {
      assert ps == [ps[0]] + ps[1..];
      PrintIsTriples(ps[1..]);
    }
  }

  lemma {:induction false} UnknownIsOthers(ps: seq<Parameter>)
    ensures Print(Unknown(ps)).Ok? <==> OthersShort(ps)
    ensures OthersShort(ps) ==> Print(Unknown(ps)).value == OtherTriples(ps)
  {
    if ps != [] {
      assert ps == [ps[0]] + ps[1..];
      UnknownIsOthers(ps[1..]);
      UnknownSplit(ps);
    }
  }

  /** A CR/CC variable part encodes exactly when every value is short and the units are not zero, and to these
      octets. */
  lemma OptionsOctets(o: Options)
    ensures EncodeOptions(o).Ok? <==> HasVariablePart(o)
    ensures EncodeOptions(o).Ok? ==> EncodeOptions(o).value == VariablePart(o)
  {
    UnknownIsOthers(o.others);
    EncodesIff(o);
    hide Print, Unknown, OtherTriples, OthersShort, Shortest;
    if o.preferred.Some? && o.preferred.value > 0 { ShortestFits(o.preferred.value); }
  }

  // ---------------------------------------------------------------- encodings

  /** An encoded CR or CC: length indicator, code and CDT, destination and source reference with the high octet first,
      class and options, the variable part, user data. */
  lemma ConnectOctets(kind: Kind, c: Connect)
    ensures EncodeConnect(kind, c).Ok? <==>
              && HasVariablePart(c.options) && 6 + |VariablePart(c.options)| <= 254
              && (kind == Request ==> 7 + |VariablePart(c.options)| + |c.userData| <= 128)
    ensures EncodeConnect(kind, c).Ok? ==>
              EncodeConnect(kind, c).value
              == [6 + |VariablePart(c.options)|, (if kind == Request then 0xE0 else 0xD0) + c.cdt % 16,
                  c.dst / 256, c.dst % 256, c.src / 256, c.src % 256, c.classOption]
                 + VariablePart(c.options) + c.userData
    ensures EncodeConnect(kind, c).Err? ==>
              EncodeConnect(kind, c).error
              == if !HasVariablePart(c.options) then {UnexpectedParameterLength}
                 else if 6 + |VariablePart(c.options)| > 254 then {InvalidLI} else {LengthMismatch}
  {
    OptionsOctets(c.options);
    EncodesIff(c.options);
    hide VariablePart, HasVariablePart, EncodeOptions;
  }

  /** The error of an encoder that has only parameters to fail on. */
  function EncodeError(ps: seq<Parameter>): Error {
    if forall p | p in ps :: Short(p.value) then {InvalidLI} else {UnexpectedParameterLength}
  }

  /** An encoded DT, in the format without and with a destination reference. */
  lemma DataOctets(d: Data)
    ensures EncodeData(d).Ok? <==>
              && (forall p | p in d.parameters :: Short(p.value))
              && (if d.dst == None then 2 else 4) + |Triples(d.parameters)| <= 254
    ensures var nr := (if d.nr.Some? then d.nr.value % 128 else 0) + (if d.eot then 128 else 0);
            EncodeData(d).Ok? ==>
              EncodeData(d).value
              == (if d.dst == None then [2 + |Triples(d.parameters)|, 0xF0, nr]
                  else [4 + |Triples(d.parameters)|, 0xF0, d.dst.value / 256, d.dst.value % 256, nr])
                 + Triples(d.parameters) + d.userData
    ensures EncodeData(d).Err? ==> EncodeData(d).error == EncodeError(d.parameters)
  {
    PrintIsTriples(d.parameters);
    hide Print, Triples;
  }

  lemma DisconnectOctets(d: Disconnect)
    ensures EncodeDisconnect(d).Ok? <==>
              (forall p | p in d.parameters :: Short(p.value)) && 6 + |Triples(d.parameters)| <= 254
    ensures EncodeDisconnect(d).Ok? ==>
              EncodeDisconnect(d).value
              == [6 + |Triples(d.parameters)|, 0x80, d.dst / 256, d.dst % 256, d.src / 256, d.src % 256, d.reason]
                 + Triples(d.parameters) + d.userData
    ensures EncodeDisconnect(d).Err? ==> EncodeDisconnect(d).error == EncodeError(d.parameters)
  {
    PrintIsTriples(d.parameters);
    hide Print, Triples;
  }

  lemma ReportOctets(e: ErrorReport)
    ensures EncodeReport(e).Ok? <==>
              (forall p | p in e.parameters :: Short(p.value)) && 4 + |Triples(e.parameters)| <= 254
    ensures EncodeReport(e).Ok? ==>
              EncodeReport(e).value
              == [4 + |Triples(e.parameters)|, 0x70, e.dst / 256, e.dst % 256, e.cause] + Triples(e.parameters)
    ensures EncodeReport(e).Err? ==> EncodeReport(e).error == EncodeError(e.parameters)
  {
    PrintIsTriples(e.parameters);
    hide Print, Triples;
  }

  lemma ExpeditedOctets(e: Expedited)
    ensures EncodeExpedited(e).Ok? <==>
              && e.dst.Some? && e.nr.Some? && 1 <= |e.userData| <= 16
              && (forall p | p in e.parameters :: Short(p.value)) && 4 + |Triples(e.parameters)| <= 254
    ensures EncodeExpedited(e).Ok? ==>
              EncodeExpedited(e).value
              == [4 + |Triples(e.parameters)|, 0x10, e.dst.value / 256, e.dst.value % 256,
                  e.nr.value % 128 + (if e.eot then 128 else 0)]
                 + Triples(e.parameters) + e.userData
    ensures EncodeExpedited(e).Err? ==>
              EncodeExpedited(e).error
              == if e.dst == None || e.nr == None then {MissingRequiredField}
                 else if !(1 <= |e.userData| <= 16) then {InvalidEDUserDataLength} else EncodeError(e.parameters)
  {
    PrintIsTriples(e.parameters);
    hide Print, Triples;
  }

  // ---------------------------------------------------------------- decodings

  /** A length indicator of at least n that stays below 255 and within the octets there. */
  predicate Headed(b: bytes, n: nat) { n < |b| && n <= b[0] <= 254 && 1 + b[0] <= |b| }

  /** What is wrong with a header that is not: too few octets, or a length indicator that cannot be. */
  function HeadError(b: bytes, n: nat): Error
    requires !Headed(b, n)
  {
    if n < |b| && (b[0] < n || b[0] > 254) then {InvalidLI} else {TooShort}
  }

  /** The whole parameters at the start of a variable part, up to one that does not fit. */
  function WholeOnes(b: bytes): seq<Parameter>
    decreases |b|
  {
    if |b| < 2 || 2 + b[1] > |b| then [] else [Parameter(b[0], b[2..2 + b[1]])] + WholeOnes(b[2 + b[1]..])
  }

  lemma {:induction false} ParseErrors(b: bytes)
    ensures Parse(b).Ok? ==> Parse(b).value == WholeOnes(b)
    ensures Parse(b).Err? ==> Parse(b).error == {MalformedParameter}
    decreases |b|
  {
    if |b| >= 2 && 2 + b[1] <= |b| { ParseErrors(b[2 + b[1]..]); }
  }

  /** A CR/CC variable part fails on the first parameter that cannot be read, or else where one does not fit. */
  lemma {:induction false} OptionsErrors(b: bytes)
    ensures ParseOptions(b).Err? ==>
              ParseOptions(b).error
              == if forall p | p in WholeOnes(b) :: Interpretable(p) then {MalformedParameter}
                 else {UnexpectedParameterLength}
    decreases |b|
  {
    if |b| >= 2 && 2 + b[1] <= |b| {
      var p, rest := Parameter(b[0], b[2..2 + b[1]]), b[2 + b[1]..];
      InterpretableIff(p);
      OptionsErrors(rest);
      assert p in WholeOnes(b);
      assert forall q | q in WholeOnes(b) :: q == p || q in WholeOnes(rest);
      assert forall q | q in WholeOnes(rest) :: q in WholeOnes(b);
    }
  }

  /** The parameters behind a fixed part of n octets. */
  function Behind(b: bytes, n: nat): Result<seq<Parameter>>
    requires Headed(b, n)
  {
    Parse(b[1 + n..1 + b[0]])
  }

  /** Octet strings that split into triples, and the triples they split into. */
  lemma TriplesParse(b: bytes, ps: seq<Parameter>)
    ensures Parse(b) == Ok(ps) <==> (forall p | p in ps :: Short(p.value)) && b == Triples(ps)
  {
    PrintIsTriples(ps);
    if Parse(b) == Ok(ps) { PrintParse(b); }
    if Print(ps) == Ok(b) { ParsePrint(ps); }
  }

  /** What a CR/CC accepts as the value of a parameter. */
  predicate Interpretable(p: Parameter) {
    && (p.code == 0xC0 ==> |p.value| == 1)
    && (p.code == 0xF0 ==> 1 <= |p.value| <= 4 && BigEndian(p.value) > 0)
  }

  lemma InterpretableIff(p: Parameter)
    ensures Interpret(p).Ok? <==> Interpretable(p)
    ensures Interpret(p).Err? ==> Interpret(p).error == {UnexpectedParameterLength}
  {
  }

  /** Which octet strings are a CR or CC, and what is read from them: the last of each known code, the rest in order. */
  lemma ConnectRead(kind: Kind, b: bytes)
    ensures DecodeConnect(kind, b).Ok? <==>
              && Headed(b, 6) && b[1] / 16 == (if kind == Request then 0xE else 0xD)
              && (kind == Request ==> |b| <= 128)
              && Behind(b, 6).Ok? && forall p | p in Behind(b, 6).value :: Interpretable(p)
    ensures DecodeConnect(kind, b).Ok? ==>
              var c, ps := DecodeConnect(kind, b).value, Behind(b, 6).value;
              && c.cdt == b[1] % 16 && c.dst == Word(b[2], b[3]) && c.src == Word(b[4], b[5])
              && c.classOption == b[6] && c.userData == b[1 + b[0]..]
              && c.options.calling == LastValue(ps, 0xC1) && c.options.called == LastValue(ps, 0xC2)
              && (match LastValue(ps, 0xC0)
                  case None => c.options.size == None
                  case Some(v) => |v| == 1 && c.options.size == Some(v[0]))
              && (match LastValue(ps, 0xF0)
                  case None => c.options.preferred == None
                  case Some(v) => c.options.preferred.Some? && c.options.preferred.value == BigEndian(v))
              && c.options.others == Unknown(ps)
    ensures DecodeConnect(kind, b).Err? ==>
              DecodeConnect(kind, b).error
              == if kind == Request && |b| > 128 then {LengthMismatch}
                 else if !Headed(b, 6) then HeadError(b, 6)
                 else if b[1] / 16 != (if kind == Request then 0xE else 0xD) then {InvalidTPDUCode}
                 else if forall p | p in WholeOnes(b[7..1 + b[0]]) :: Interpretable(p) then {MalformedParameter}
                 else {UnexpectedParameterLength}
  {
    hide LastValue, Parse, ParseOptions, Unknown, BigEndian, Interpret, WholeOnes;
    if Split(b, 6).Ok? {
      var v := Split(b, 6).value.variable;
      LastWins(v);
      OptionsErrors(v);
      if Parse(v).Ok? {
        forall p | p in Parse(v).value ensures Interpret(p).Ok? <==> Interpretable(p) { InterpretableIff(p); }
      }
    }
  }

  lemma {:induction false} UnknownAre(ps: seq<Parameter>)
    ensures forall p :: p in Unknown(ps) <==> p in ps && p.code !in {0xC0, 0xC1, 0xC2, 0xF0}
  {
    if ps != [] {
      assert ps == [ps[0]] + ps[1..];
      UnknownAre(ps[1..]);
    }
  }

  /** Which octet strings are a DT: length indicator 2, or 4 and more with a reference; ROA is ignored. */
  lemma DataRead(b: bytes)
    ensures DecodeData(b).Ok? <==>
              && |b| >= 2 && b[0] <= 254 && 1 + b[0] <= |b| && (b[1] == 0xF0 || b[1] == 0xF1)
              && (b[0] == 2 || (b[0] >= 4 && Behind(b, 4).Ok?))
    ensures DecodeData(b).Ok? ==>
              DecodeData(b).value
              == if b[0] == 2 then Data(b[2] >= 128, Some(b[2] % 128), None, [], b[3..])
                 else Data(b[4] >= 128, Some(b[4] % 128), Some(Word(b[2], b[3])), Behind(b, 4).value, b[1 + b[0]..])
    ensures DecodeData(b).Err? ==>
              DecodeData(b).error
              == if |b| < 2 || (b[0] <= 254 && |b| < 1 + b[0]) then {TooShort}
                 else if b[0] == 255 then {InvalidLI}
                 else if b[1] != 0xF0 && b[1] != 0xF1 then {InvalidTPDUCode}
                 else if b[0] < 4 then {UnsupportedDTVariant} else {MalformedParameter}
  {
    if Headed(b, 4) { ParseErrors(b[5..1 + b[0]]); }
    hide Parse;
  }

  /** Why a DR, ER or ED with a fixed part of n octets is not read. */
  function ListedError(b: bytes, n: nat, code: byte): Error
    requires n > 0
  {
    if !Headed(b, n) then HeadError(b, n) else if b[1] != code then {InvalidTPDUCode} else {MalformedParameter}
  }

  lemma DisconnectRead(b: bytes)
    ensures DecodeDisconnect(b).Ok? <==> Headed(b, 6) && b[1] == 0x80 && Behind(b, 6).Ok?
    ensures DecodeDisconnect(b).Ok? ==>
              DecodeDisconnect(b).value
              == Disconnect(Word(b[2], b[3]), Word(b[4], b[5]), b[6], Behind(b, 6).value, b[1 + b[0]..])
    ensures DecodeDisconnect(b).Err? ==> DecodeDisconnect(b).error == ListedError(b, 6, 0x80)
  {
    if Headed(b, 6) { ParseErrors(b[7..1 + b[0]]); }
    hide Parse;
  }

  lemma ReportRead(b: bytes)
    ensures DecodeReport(b).Ok? <==> Headed(b, 4) && b[1] == 0x70 && Behind(b, 4).Ok?
    ensures DecodeReport(b).Ok? ==> DecodeReport(b).value == ErrorReport(Word(b[2], b[3]), b[4], Behind(b, 4).value)
    ensures DecodeReport(b).Err? ==> DecodeReport(b).error == ListedError(b, 4, 0x70)
  {
    if Headed(b, 4) { ParseErrors(b[5..1 + b[0]]); }
    hide Parse;
  }

  lemma ExpeditedRead(b: bytes)
    ensures DecodeExpedited(b).Ok? <==>
              Headed(b, 4) && b[1] == 0x10 && Behind(b, 4).Ok? && 1 <= |b| - 1 - b[0] <= 16
    ensures DecodeExpedited(b).Ok? ==>
              DecodeExpedited(b).value
              == Expedited(Some(Word(b[2], b[3])), Some(b[4] % 128), b[4] >= 128, Behind(b, 4).value, b[1 + b[0]..])
    ensures DecodeExpedited(b).Err? ==>
              DecodeExpedited(b).error
              == if Headed(b, 4) && b[1] == 0x10 && Behind(b, 4).Ok? then {InvalidEDUserDataLength}
                 else ListedError(b, 4, 0x10)
  {
    if Headed(b, 4) { ParseErrors(b[5..1 + b[0]]); }
    hide Parse;
  }

  /** The type octet of a TPDU; 0x00 and 0x30 are reserved, the rest is invalid. */
  lemma TypeRead(b: bytes)
    ensures PeekType(b).Ok? <==>
              && |b| >= 2 && b[0] <= 254
              && (b[1] / 16 in {0xE, 0xD, 0x6, 0x5} || b[1] in {0x80, 0xC0, 0xF0, 0xF1, 0x70, 0x10, 0x20})
    ensures PeekType(b).Ok? ==>
              PeekType(b).value
              == if b[1] / 16 == 0xE then TypeCR
                 else if b[1] / 16 == 0xD then TypeCC
                 else if b[1] / 16 == 0x6 then TypeAK
                 else if b[1] / 16 == 0x5 then TypeRJ
                 else if b[1] == 0x80 then TypeDR
                 else if b[1] == 0xC0 then TypeDC
                 else if b[1] == 0x70 then TypeER
                 else if b[1] == 0x10 then TypeED
                 else if b[1] == 0x20 then TypeEA
                 else TypeDT
    ensures PeekType(b).Err? ==>
              PeekType(b).error
              == if |b| < 2 then {TooShort} else if b[0] == 255 then {InvalidLI}
                 else if b[1] in {0x00, 0x30} then {ReservedTPDU} else {InvalidTPDUCode}
    ensures PeekType(b).Err? ==> Decode(b) == Err(PeekType(b).error)
  {
  }

  /** What is not read as its type is not read at all, with the error of that type's decoder. */
  lemma DecodeFails(b: bytes)
    requires PeekType(b).Ok?
    ensures b[1] / 16 == 0xE ==> Decode(b).Ok? == DecodeConnect(Request, b).Ok?
    ensures b[1] / 16 == 0xE && Decode(b).Err? ==> Decode(b).error == DecodeConnect(Request, b).error
    ensures b[1] / 16 == 0xD ==> Decode(b).Ok? == DecodeConnect(Confirm, b).Ok?
    ensures b[1] / 16 == 0xD && Decode(b).Err? ==> Decode(b).error == DecodeConnect(Confirm, b).error
    ensures b[1] in {0xF0, 0xF1} ==> Decode(b).Ok? == DecodeData(b).Ok?
    ensures b[1] in {0xF0, 0xF1} && Decode(b).Err? ==> Decode(b).error == DecodeData(b).error
    ensures b[1] == 0x80 ==> Decode(b).Ok? == DecodeDisconnect(b).Ok?
    ensures b[1] == 0x80 && Decode(b).Err? ==> Decode(b).error == DecodeDisconnect(b).error
    ensures b[1] == 0x70 ==> Decode(b).Ok? == DecodeReport(b).Ok?
    ensures b[1] == 0x70 && Decode(b).Err? ==> Decode(b).error == DecodeReport(b).error
    ensures b[1] == 0x10 ==> Decode(b).Ok? == DecodeExpedited(b).Ok?
    ensures b[1] == 0x10 && Decode(b).Err? ==> Decode(b).error == DecodeExpedited(b).error
  {
    hide DecodeConnect, DecodeData, DecodeDisconnect, DecodeReport, DecodeExpedited, DecodeOther;
  }

  /** DC, AK, EA and RJ: a fixed part of five or four octets, then parameters, of which RJ has none. */
  lemma OtherRead(b: bytes)
    requires PeekType(b).Ok? && PeekType(b).value in {TypeDC, TypeAK, TypeEA, TypeRJ}
    ensures var n := if b[1] == 0xC0 then 5 else 4;
            && (Decode(b).Ok? <==> Headed(b, n) && (b[1] / 16 == 0x5 ==> b[0] == 4) && Behind(b, n).Ok?)
            && (Decode(b).Ok? ==>
                  Decode(b).value == Other(PeekType(b).value, b[1..1 + n], Behind(b, n).value))
            && (Decode(b).Err? ==>
                  Decode(b).error == if !Headed(b, n) && !(b[1] / 16 == 0x5 && |b| >= 5 && 4 < b[0] <= 254)
                                     then HeadError(b, n) else {MalformedParameter})
  {
    hide Parse, DecodeConnect, DecodeData, DecodeDisconnect, DecodeReport, DecodeExpedited, WholeOnes;
    if Headed(b, 4) { ParseErrors(b[5..1 + b[0]]); }
    if Headed(b, 5) { ParseErrors(b[6..1 + b[0]]); }
    if Headed(b, 4) && b[0] == 4 {
      assert b[5..5] == [];
      assert Parse([]) == Ok([]) by { ParseNothing(); }
    }
  }

  lemma ParseNothing()
    ensures Parse([]) == Ok([])
  {
  }
}

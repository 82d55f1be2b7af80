/** TPDU encoders and decoders (types.go, encode_*.go, decode*.go) over the shared header. */
module Codec {
  import opened Types
  import opened Params
  import opened Frame

  const MAX_CR_LENGTH := 128
  const MIN_ED_DATA := 1
  const MAX_ED_DATA := 16

  /** CR and CC have the same fields; the kind carries what differs between them. */
  datatype Kind = Request | Confirm

  datatype Connect = Connect(
    cdt: byte, dst: u16, src: u16, classOption: byte, options: Options, userData: bytes)
  datatype Data = Data(
    eot: bool, nr: Option<byte>, dst: Option<u16>, parameters: seq<Parameter>, userData: bytes)
  datatype Disconnect = Disconnect(
    dst: u16, src: u16, reason: byte, parameters: seq<Parameter>, userData: bytes)
  datatype ErrorReport = ErrorReport(dst: u16, cause: byte, parameters: seq<Parameter>)
  datatype Expedited = Expedited(
    dst: Option<u16>, nr: Option<byte>, eot: bool, parameters: seq<Parameter>, userData: bytes)

  datatype TpduType = TypeCR | TypeCC | TypeDR | TypeDC | TypeDT | TypeER | TypeED | TypeAK | TypeEA | TypeRJ

  /** A decoded TPDU. DC, AK, EA and RJ keep their fixed part undivided. */
  datatype Tpdu =
    | CR(connect: Connect)
    | CC(connect: Connect)
    | DT(data: Data)
    | DR(disconnect: Disconnect)
    | ER(report: ErrorReport)
    | ED(expedited: Expedited)
    | Other(kind: TpduType, fixed: bytes, parameters: seq<Parameter>)

  function TypeOf(t: Tpdu): TpduType {
    match t
    case CR(_) => TypeCR
    case CC(_) => TypeCC
    case DT(_) => TypeDT
    case DR(_) => TypeDR
    case ER(_) => TypeER
    case ED(_) => TypeED
    case Other(kind, _, _) => kind
  }

  // ---------------------------------------------------------------- CR and CC

  function HighNibble(kind: Kind): byte { if kind == Request then 0xE else 0xD }

  function ConnectFixed(kind: Kind, c: Connect): bytes {
    [0x10 * HighNibble(kind) + c.cdt % 0x10] + Be16(c.dst) + Be16(c.src) + [c.classOption]
  }

  function EncodeConnect(kind: Kind, c: Connect): Result<bytes> {
    var variable :- EncodeOptions(c.options);
    var b :- Join(Frame(ConnectFixed(kind, c), variable, c.userData));
    if kind == Request && |b| > MAX_CR_LENGTH then Err({LengthMismatch}) else Ok(b)
  }

  function DecodeConnect(kind: Kind, b: bytes): Result<Connect> {
    if kind == Request && |b| > MAX_CR_LENGTH then Err({LengthMismatch}) else
      var f :- Split(b, 6);
      if f.fixed[0] / 0x10 != HighNibble(kind) then Err({InvalidTPDUCode}) else
        var options :- ParseOptions(f.variable);
        Ok(Connect(f.fixed[0] % 0x10, FromBe16(f.fixed[1], f.fixed[2]), FromBe16(f.fixed[3], f.fixed[4]),
                   f.fixed[5], options, f.userData))
  }

  /** What an encoded CR or CC says: CDT in four bits, known codes dropped from the generic list. */
  function NormalConnect(c: Connect): Connect {
    c.(cdt := c.cdt % 0x10, options := Normal(c.options))
  }

  /** Decoding an encoded CR or CC gives back its normal form, for every value that encodes. */
  lemma ConnectRoundTrip(kind: Kind, c: Connect)
    requires EncodeConnect(kind, c).Ok?
    ensures DecodeConnect(kind, EncodeConnect(kind, c).value) == Ok(NormalConnect(c))
  {
    var f := Frame(ConnectFixed(kind, c), EncodeOptions(c.options).value, c.userData);
    SplitJoin(f);
    OptionsRoundTrip(c.options);
    FixedFields(kind, c);
  }

  lemma FixedFields(kind: Kind, c: Connect)
    ensures var fixed := ConnectFixed(kind, c);
            && |fixed| == 6
            && fixed[0] / 0x10 == HighNibble(kind) && fixed[0] % 0x10 == c.cdt % 0x10
            && FromBe16(fixed[1], fixed[2]) == c.dst && FromBe16(fixed[3], fixed[4]) == c.src
            && fixed[5] == c.classOption
  {
    Be16Inverse(c.dst, 0, 0);
    Be16Inverse(c.src, 0, 0);
  }

  /** When encoding a CR or CC succeeds. */
  predicate ConnectFits(kind: Kind, c: Connect) {
    && Encodable(c.options)
    && 6 + OptionsLength(Normal(c.options)) <= MAX_LI
    && (kind == Request ==> 7 + OptionsLength(Normal(c.options)) + |c.userData| <= MAX_CR_LENGTH)
  }

  lemma ConnectEncodesIff(kind: Kind, c: Connect)
    ensures EncodeConnect(kind, c).Ok? <==> ConnectFits(kind, c)
    ensures EncodeConnect(kind, c).Ok? ==>
              |EncodeConnect(kind, c).value| == 7 + OptionsLength(Normal(c.options)) + |c.userData|
  {
    EncodesIff(c.options);
  }

  /** A decoded CR or CC is in normal form and its encoding fits in the octets it came from. */
  lemma DecodedConnect(kind: Kind, b: bytes)
    requires DecodeConnect(kind, b).Ok?
    ensures var c := DecodeConnect(kind, b).value;
            NormalConnect(c) == c && ConnectFits(kind, c) && 7 + OptionsLength(c.options) + |c.userData| <= |b|
  {
    hide ParseOptions, Encodable, OptionsLength, Normal;
    var f := Split(b, 6).value;
    JoinSplit(b, 6);
    ReencodeShrinks(f.variable);
  }

  /** Re-encoding an accepted CR or CC always succeeds, never lengthens it, decodes to the same value,
      and re-encoding once more changes nothing. */
  lemma ConnectReencode(kind: Kind, b: bytes)
    requires DecodeConnect(kind, b).Ok?
    ensures var c := DecodeConnect(kind, b).value;
            && EncodeConnect(kind, c).Ok?
            && var again := EncodeConnect(kind, c).value;
            && |again| <= |b|
            && DecodeConnect(kind, again) == Ok(c)
            && EncodeConnect(kind, DecodeConnect(kind, again).value) == Ok(again)
  {
    var c := DecodeConnect(kind, b).value;
    DecodedConnect(kind, b);
    ConnectEncodesIff(kind, c);
    ConnectRoundTrip(kind, c);
  }

  method MarshalCR(c: Connect) returns (r: Result<bytes>)
    ensures r == EncodeConnect(Request, c)
  {
    var variable := EncodeCRCCVariablePart(c.options);
    if variable.Err? {
      return variable;
    }
    var li := 6 + |variable.value|;
    if li > MAX_LI {
      return Err({InvalidLI});
    }
    var total := 1 + li + |c.userData|;
    if total > MAX_CR_LENGTH {
      return Err({LengthMismatch});
    }
    var out: bytes := [li];
    out := out + [0xE0 + c.cdt % 0x10];
    out := out + Be16(c.dst);
    out := out + Be16(c.src);
    out := out + [c.classOption];
    assert out == [li] + ConnectFixed(Request, c);
    out := out + variable.value;
    out := out + c.userData;
    return Ok(out);
  }

  method MarshalCC(c: Connect) returns (r: Result<bytes>)
    ensures r == EncodeConnect(Confirm, c)
  {
    var variable := EncodeCRCCVariablePart(c.options);
    if variable.Err? {
      return variable;
    }
    var li := 6 + |variable.value|;
    if li > MAX_LI {
      return Err({InvalidLI});
    }
    var out: bytes := [li];
    out := out + [0xD0 + c.cdt % 0x10];
    out := out + Be16(c.dst);
    out := out + Be16(c.src);
    out := out + [c.classOption];
    assert out == [li] + ConnectFixed(Confirm, c);
    out := out + variable.value;
    out := out + c.userData;
    return Ok(out);
  }

  // ---------------------------------------------------------------- DT

  function NrOctet(nr: Option<byte>, eot: bool): byte {
    (if nr.Some? then nr.value % 0x80 else 0) + (if eot then 0x80 else 0)
  }

  function DataFixed(d: Data): bytes {
    if d.dst == None then [0xF0, NrOctet(d.nr, d.eot)]
    else [0xF0] + Be16(d.dst.value) + [NrOctet(d.nr, d.eot)]
  }

  function EncodeData(d: Data): Result<bytes> {
    var variable :- Print(d.parameters);
    Join(Frame(DataFixed(d), variable, d.userData))
  }

  function DecodeData(b: bytes): Result<Data> {
    if |b| < 2 then Err({TooShort}) else
      var li :- ReadLI(b);
      if |b| < 1 + li then Err({TooShort})
      else if b[1] != 0xF0 && b[1] != 0xF1 then Err({InvalidTPDUCode})
      else if li == 2 then
        Ok(Data(b[2] >= 0x80, Some(b[2] % 0x80), None, [], b[3..]))
      else if li >= 4 then
        var parameters :- Parse(b[5..1 + li]);
        Ok(Data(b[4] >= 0x80, Some(b[4] % 0x80), Some(FromBe16(b[2], b[3])), parameters, b[1 + li..]))
      else Err({UnsupportedDTVariant})
  }

  /** A DT as its octets show it: an absent TPDU-NR is sent as 0, and only seven bits of it. */
  function NormalData(d: Data): Data {
    d.(nr := Some(if d.nr.Some? then d.nr.value % 0x80 else 0))
  }

  lemma NrFields(nr: Option<byte>, eot: bool, octet: byte)
    ensures NrOctet(nr, eot) % 0x80 == if nr.Some? then nr.value % 0x80 else 0
    ensures (NrOctet(nr, eot) >= 0x80) == eot
    ensures NrOctet(Some(octet % 0x80), octet >= 0x80) == octet
  {
  }

  lemma MinimalData(d: Data)
    requires EncodeData(d).Ok? && d.dst == None
    ensures DecodeData(EncodeData(d).value) == Ok(NormalData(d)) <==> d.parameters == []
  {
    var b, nr := EncodeData(d).value, NrOctet(d.nr, d.eot);
    var variable := Print(d.parameters).value;
    assert b == [2 + |variable|, 0xF0, nr] + variable + d.userData;
    NrFields(d.nr, d.eot, 0);
    if d.parameters == [] {
      assert b[3..] == d.userData;
    } else {
      assert |variable| >= 2;
    }
  }

  lemma NormalFormatData(d: Data)
    requires EncodeData(d).Ok? && d.dst.Some?
    ensures DecodeData(EncodeData(d).value) == Ok(NormalData(d))
  {
    var b, nr, ref := EncodeData(d).value, NrOctet(d.nr, d.eot), Be16(d.dst.value);
    var variable := Print(d.parameters).value;
    assert b == [4 + |variable|, 0xF0, ref[0], ref[1], nr] + variable + d.userData;
    NrFields(d.nr, d.eot, 0);
    Be16Inverse(d.dst.value, 0, 0);
    ParsePrint(d.parameters);
    assert b[5..5 + |variable|] == variable && b[5 + |variable|..] == d.userData;
  }

  /** An encoded DT decodes back exactly when it is not a minimal DT with parameters. */
  lemma DataRoundTrip(d: Data)
    requires EncodeData(d).Ok?
    ensures DecodeData(EncodeData(d).value) == Ok(NormalData(d)) <==> d.dst.Some? || d.parameters == []
  {
    if d.dst.Some? { NormalFormatData(d); } else { MinimalData(d); }
  }

  /** Such a DT exists: one unknown parameter and no destination reference. */
  lemma DataRoundTripFails()
    ensures var d := Data(true, None, None, [Parameter(1, [])], []);
            EncodeData(d).Ok? && DecodeData(EncodeData(d).value) != Ok(NormalData(d))
  {
    var d := Data(true, None, None, [Parameter(1, [])], []);
    assert d.parameters[1..] == [];
    assert Print(d.parameters) == Ok(PrintOne(d.parameters[0]) + []);
    DataRoundTrip(d);
  }

  /** Re-encoding a decoded DT gives the input with the ROA bit cleared. */
  lemma DataReencode(b: bytes)
    requires DecodeData(b).Ok?
    ensures |b| >= 2 && EncodeData(DecodeData(b).value) == Ok(b[1 := 0xF0])
  {
    if ReadLI(b).value == 2 {
      assert Print([]) == Ok([]);
      assert [2] + [0xF0, b[2]] + [] + b[3..] == b[1 := 0xF0];
    } else {
      NormalFormatReencode(b);
    }
  }

  lemma NormalFormatReencode(b: bytes)
    requires DecodeData(b).Ok? && b[0] != 2
    ensures EncodeData(DecodeData(b).value) == Ok(b[1 := 0xF0])
  {
    hide Parse, Print;
    var d, li := DecodeData(b).value, b[0];
    PrintParse(b[5..1 + li]);
    Be16Inverse(0, b[2], b[3]);
    NrFields(None, false, b[4]);
    assert DataFixed(d) == [0xF0, b[2], b[3], b[4]];
    assert [li] + [0xF0, b[2], b[3], b[4]] + b[5..1 + li] + b[1 + li..] == b[1 := 0xF0];
  }

  method MarshalDT(d: Data) returns (r: Result<bytes>)
    ensures r == EncodeData(d)
  {
    var fixed: bytes, li: int := [], 0;
    var nr: byte := 0;
    if d.nr.Some? {
      nr := d.nr.value % 0x80;
    }
    if d.eot {
      nr := nr + 0x80;
    }
    if d.dst == None {
      fixed := [0xF0, nr];
      li := 2;
    } else {
      fixed := [0xF0] + Be16(d.dst.value) + [nr];
      li := 4;
    }
    var variable := EncodeVariablePart(d.parameters);
    if variable.Err? {
      return variable;
    }
    li := li + |variable.value|;
    if li > MAX_LI {
      return Err({InvalidLI});
    }
    var out: bytes := [li];
    out := out + fixed;
    out := out + variable.value;
    out := out + d.userData;
    return Ok(out);
  }

  // ---------------------------------------------------------------- DR, ER, ED

  /** A fixed part, a generic parameter list and user data: the shape of DR, ER and ED. */
  datatype Listed = Listed(fixed: bytes, parameters: seq<Parameter>, userData: bytes)

  function EncodeListed(l: Listed): Result<bytes> {
    var variable :- Print(l.parameters);
    Join(Frame(l.fixed, variable, l.userData))
  }

  function DecodeListed(b: bytes, fixedLength: nat, code: byte): (r: Result<Listed>)
    requires fixedLength > 0
    ensures r.Ok? ==> |r.value.fixed| == fixedLength && r.value.fixed[0] == code
  {
    var f :- Split(b, fixedLength);
    if f.fixed[0] != code then Err({InvalidTPDUCode}) else
      var parameters :- Parse(f.variable);
      Ok(Listed(f.fixed, parameters, f.userData))
  }

  /** The shared shape decodes back and re-encodes octet for octet. */
  lemma ListedRoundTrip(l: Listed)
    requires l.fixed != [] && EncodeListed(l).Ok?
    ensures DecodeListed(EncodeListed(l).value, |l.fixed|, l.fixed[0]) == Ok(l)
  {
    SplitJoin(Frame(l.fixed, Print(l.parameters).value, l.userData));
    ParsePrint(l.parameters);
  }

  lemma ListedReencode(b: bytes, fixedLength: nat, code: byte)
    requires fixedLength > 0 && DecodeListed(b, fixedLength, code).Ok?
    ensures var l := DecodeListed(b, fixedLength, code).value;
            && EncodeListed(l) == Ok(b)
            && 1 + b[0] <= |b| && EncodeListed(l.(userData := [])) == Ok(b[..1 + b[0]])
  {
    var f := Split(b, fixedLength).value;
    JoinSplit(b, fixedLength);
    PrintParse(f.variable);
    assert [b[0]] + f.fixed + f.variable + [] == b[..1 + b[0]];
  }

  function DisconnectFixed(d: Disconnect): bytes { [0x80] + Be16(d.dst) + Be16(d.src) + [d.reason] }

  function EncodeDisconnect(d: Disconnect): Result<bytes> {
    EncodeListed(Listed(DisconnectFixed(d), d.parameters, d.userData))
  }

  function DecodeDisconnect(b: bytes): Result<Disconnect> {
    var l :- DecodeListed(b, 6, 0x80);
    Ok(Disconnect(FromBe16(l.fixed[1], l.fixed[2]), FromBe16(l.fixed[3], l.fixed[4]), l.fixed[5],
                  l.parameters, l.userData))
  }

  function ReportFixed(e: ErrorReport): bytes { [0x70] + Be16(e.dst) + [e.cause] }

  function EncodeReport(e: ErrorReport): Result<bytes> {
    EncodeListed(Listed(ReportFixed(e), e.parameters, []))
  }

  function DecodeReport(b: bytes): Result<ErrorReport> {
    var l :- DecodeListed(b, 4, 0x70);
    Ok(ErrorReport(FromBe16(l.fixed[1], l.fixed[2]), l.fixed[3], l.parameters))
  }

  function ExpeditedFixed(dst: u16, nr: byte, eot: bool): bytes { [0x10] + Be16(dst) + [NrOctet(Some(nr), eot)] }

  function EncodeExpedited(e: Expedited): Result<bytes> {
    if e.dst == None || e.nr == None then Err({MissingRequiredField})
    else if !(MIN_ED_DATA <= |e.userData| <= MAX_ED_DATA) then Err({InvalidEDUserDataLength})
    else EncodeListed(Listed(ExpeditedFixed(e.dst.value, e.nr.value, e.eot), e.parameters, e.userData))
  }

  function DecodeExpedited(b: bytes): Result<Expedited> {
    var l :- DecodeListed(b, 4, 0x10);
    if !(MIN_ED_DATA <= |l.userData| <= MAX_ED_DATA) then Err({InvalidEDUserDataLength})
    else Ok(Expedited(Some(FromBe16(l.fixed[1], l.fixed[2])), Some(l.fixed[3] % 0x80), l.fixed[3] >= 0x80,
                      l.parameters, l.userData))
  }

  /** Every DR that encodes decodes to itself, and every accepted DR re-encodes to the exact input. */
  lemma DisconnectInverse(d: Disconnect, b: bytes)
    ensures EncodeDisconnect(d).Ok? ==> DecodeDisconnect(EncodeDisconnect(d).value) == Ok(d)
    ensures DecodeDisconnect(b).Ok? ==> EncodeDisconnect(DecodeDisconnect(b).value) == Ok(b)
  {
    hide Split, Parse, Print;
    if EncodeDisconnect(d).Ok? {
      ListedRoundTrip(Listed(DisconnectFixed(d), d.parameters, d.userData));
      Be16Inverse(d.dst, 0, 0);
      Be16Inverse(d.src, 0, 0);
    }
    if DecodeDisconnect(b).Ok? {
      var fixed := DecodeListed(b, 6, 0x80).value.fixed;
      ListedReencode(b, 6, 0x80);
      Be16Inverse(0, fixed[1], fixed[2]);
      Be16Inverse(0, fixed[3], fixed[4]);
      assert [0x80] + [fixed[1], fixed[2]] + [fixed[3], fixed[4]] + [fixed[5]] == fixed;
    }
  }

  /** Every ER that encodes decodes to itself; an accepted ER re-encodes to its header, octets behind it dropped. */
  lemma ReportInverse(e: ErrorReport, b: bytes)
    ensures EncodeReport(e).Ok? ==> DecodeReport(EncodeReport(e).value) == Ok(e)
    ensures DecodeReport(b).Ok? ==>
              0 < |b| && 1 + b[0] <= |b| && EncodeReport(DecodeReport(b).value) == Ok(b[..1 + b[0]])
  {
    hide Split, Parse, Print;
    if EncodeReport(e).Ok? {
      ListedRoundTrip(Listed(ReportFixed(e), e.parameters, []));
      Be16Inverse(e.dst, 0, 0);
    }
    if DecodeReport(b).Ok? {
      var fixed := DecodeListed(b, 4, 0x70).value.fixed;
      ListedReencode(b, 4, 0x70);
      Be16Inverse(0, fixed[1], fixed[2]);
      assert [0x70] + [fixed[1], fixed[2]] + [fixed[3]] == fixed;
    }
  }

  /** Every ED that encodes decodes to itself with a seven-bit number; an accepted ED re-encodes exactly. */
  lemma ExpeditedInverse(e: Expedited, b: bytes)
    ensures EncodeExpedited(e).Ok? ==>
              DecodeExpedited(EncodeExpedited(e).value) == Ok(e.(nr := Some(e.nr.value % 0x80)))
    ensures DecodeExpedited(b).Ok? ==> EncodeExpedited(DecodeExpedited(b).value) == Ok(b)
  {
    hide Split, Parse, Print;
    if EncodeExpedited(e).Ok? {
      ListedRoundTrip(Listed(ExpeditedFixed(e.dst.value, e.nr.value, e.eot), e.parameters, e.userData));
      Be16Inverse(e.dst.value, 0, 0);
      NrFields(e.nr, e.eot, 0);
    }
    if DecodeExpedited(b).Ok? {
      var fixed := DecodeListed(b, 4, 0x10).value.fixed;
      ListedReencode(b, 4, 0x10);
      Be16Inverse(0, fixed[1], fixed[2]);
      NrFields(None, false, fixed[3]);
      assert [0x10] + [fixed[1], fixed[2]] + [fixed[3]] == fixed;
    }
  }

  method MarshalDR(d: Disconnect) returns (r: Result<bytes>)
    ensures r == EncodeDisconnect(d)
  {
    var variable := EncodeVariablePart(d.parameters);
    if variable.Err? {
      return variable;
    }
    var li := 6 + |variable.value|;
    if li > MAX_LI {
      return Err({InvalidLI});
    }
    var out: bytes := [li];
    out := out + [0x80];
    out := out + Be16(d.dst);
    out := out + Be16(d.src);
    out := out + [d.reason];
    assert out == [li] + DisconnectFixed(d);
    out := out + variable.value;
    out := out + d.userData;
    return Ok(out);
  }

  method MarshalER(e: ErrorReport) returns (r: Result<bytes>)
    ensures r == EncodeReport(e)
  {
    var variable := EncodeVariablePart(e.parameters);
    if variable.Err? {
      return variable;
    }
    var li := 4 + |variable.value|;
    if li > MAX_LI {
      return Err({InvalidLI});
    }
    var out: bytes := [li];
    out := out + [0x70];
    out := out + Be16(e.dst);
    out := out + [e.cause];
    assert out == [li] + ReportFixed(e);
    out := out + variable.value;
    assert out + [] == out;
    return Ok(out);
  }

  method MarshalED(e: Expedited) returns (r: Result<bytes>)
    ensures r == EncodeExpedited(e)
  {
    if e.dst == None || e.nr == None {
      return Err({MissingRequiredField});
    }
    if |e.userData| < MIN_ED_DATA || |e.userData| > MAX_ED_DATA {
      return Err({InvalidEDUserDataLength});
    }
    var variable := EncodeVariablePart(e.parameters);
    if variable.Err? {
      return variable;
    }
    var li := 4 + |variable.value|;
    if li > MAX_LI {
      return Err({InvalidLI});
    }
    var nr: byte := e.nr.value % 0x80;
    if e.eot {
      nr := nr + 0x80;
    }
    var out: bytes := [li];
    out := out + [0x10];
    out := out + Be16(e.dst.value);
    out := out + [nr];
    assert out == [li] + ExpeditedFixed(e.dst.value, e.nr.value, e.eot);
    out := out + variable.value;
    out := out + e.userData;
    return Ok(out);
  }

  // ---------------------------------------------------------------- dispatch

  function PeekType(b: bytes): Result<TpduType> {
    if |b| < 2 then Err({TooShort}) else
      var _ :- ReadLI(b);
      var code := b[1];
      if code / 0x10 == 0xE then Ok(TypeCR)
      else if code / 0x10 == 0xD then Ok(TypeCC)
      else if code == 0x80 then Ok(TypeDR)
      else if code == 0xC0 then Ok(TypeDC)
      else if code == 0xF0 || code == 0xF1 then Ok(TypeDT)
      else if code == 0x70 then Ok(TypeER)
      else if code == 0x10 then Ok(TypeED)
      else if code / 0x10 == 0x6 then Ok(TypeAK)
      else if code == 0x20 then Ok(TypeEA)
      else if code / 0x10 == 0x5 then Ok(TypeRJ)
      else if code == 0x00 || code == 0x30 then Err({ReservedTPDU})
      else Err({InvalidTPDUCode})
  }

  /** DC, AK, EA and RJ: a fixed part, then parameters; RJ allows none. */
  function DecodeOther(kind: TpduType, b: bytes): Result<Tpdu> {
    var fixedLength := if kind == TypeDC then 5 else 4;
    if kind == TypeRJ && |b| >= 5 && b[0] <= MAX_LI && b[0] > 4 then Err({MalformedParameter}) else
      var f :- Split(b, fixedLength);
      var parameters :- Parse(f.variable);
      Ok(Other(kind, f.fixed, parameters))
  }

  function Decode(b: bytes): Result<Tpdu> {
    var kind :- PeekType(b);
    match kind
    case TypeCR => var c :- DecodeConnect(Request, b); Ok(CR(c))
    case TypeCC => var c :- DecodeConnect(Confirm, b); Ok(CC(c))
    case TypeDT => var d :- DecodeData(b); Ok(DT(d))
    case TypeDR => var d :- DecodeDisconnect(b); Ok(DR(d))
    case TypeER => var e :- DecodeReport(b); Ok(ER(e))
    case TypeED => var e :- DecodeExpedited(b); Ok(ED(e))
    case _ => DecodeOther(kind, b)
  }

  /** The dispatcher's result has the peeked type. */
  lemma DispatchType(b: bytes)
    requires Decode(b).Ok?
    ensures PeekType(b) == Ok(TypeOf(Decode(b).value))
  {
  }

  /** What a type's own decoder accepts, the dispatcher accepts as that type: no octet string is two TPDUs. */
  lemma DispatchConnect(kind: Kind, b: bytes)
    requires DecodeConnect(kind, b).Ok?
    ensures var c := DecodeConnect(kind, b).value; Decode(b) == Ok(if kind == Request then CR(c) else CC(c))
  {
    assert PeekType(b) == Ok(if kind == Request then TypeCR else TypeCC);
  }

  lemma DispatchData(b: bytes)
    requires DecodeData(b).Ok?
    ensures Decode(b) == Ok(DT(DecodeData(b).value))
  {
    assert PeekType(b) == Ok(TypeDT);
  }

  lemma DispatchDisconnect(b: bytes)
    requires DecodeDisconnect(b).Ok?
    ensures Decode(b) == Ok(DR(DecodeDisconnect(b).value))
  {
    assert PeekType(b) == Ok(TypeDR);
  }

  lemma DispatchReport(b: bytes)
    requires DecodeReport(b).Ok?
    ensures Decode(b) == Ok(ER(DecodeReport(b).value))
  {
    assert PeekType(b) == Ok(TypeER);
  }

  lemma DispatchExpedited(b: bytes)
    requires DecodeExpedited(b).Ok?
    ensures Decode(b) == Ok(ED(DecodeExpedited(b).value))
  {
    assert PeekType(b) == Ok(TypeED);
  }
}

/** What happens to one TSDU on its way (tsdu.go, open_dt.go): segmentation, acceptance of one packet,
    reassembly, and the cause an I/O failure leaves behind. */
module Transfer {
  import opened Types
  import opened Codec

  const MINIMAL_DT_OVERHEAD := 3
  const MIN_NEGOTIATED_TPDU := 4
  const DEFAULT_MAX_TSDU := 4194304

  /** A configured TSDU bound; zero stands for the default. */
  function TsduBound(maxTSDU: nat): nat { if maxTSDU == 0 then DEFAULT_MAX_TSDU else maxTSDU }

  function MaxSegmentPayload(maxTPDU: int): nat {
    if maxTPDU < MIN_NEGOTIATED_TPDU then 0 else maxTPDU - MINIMAL_DT_OVERHEAD
  }

  function WriteLengthError(length: nat, maxTSDU: nat): Option<Error> {
    if length == 0 then Some({EmptyTSDU})
    else if length > TsduBound(maxTSDU) then Some({TSDUTooLarge})
    else None
  }

  // ---------------------------------------------------------------- segmentation

  function Chunks(tsdu: bytes, maxSeg: nat): (cs: seq<bytes>)
    requires maxSeg > 0 && tsdu != []
    ensures cs != []
  {
    if |tsdu| <= maxSeg then [tsdu] else [tsdu[..maxSeg]] + Chunks(tsdu[maxSeg..], maxSeg)
  }

  function Flatten(cs: seq<bytes>): bytes {
    if cs == [] then [] else cs[0] + Flatten(cs[1..])
  }

  function Minimal(eot: bool, data: bytes): Data { Data(eot, None, None, [], data) }

  /** The octets of a minimal Class 0 DT. */
  function Packet(eot: bool, data: bytes): bytes { [2, 0xF0, if eot then 0x80 else 0] + data }

  lemma PacketIsMinimalDT(eot: bool, data: bytes)
    ensures EncodeData(Minimal(eot, data)) == Ok(Packet(eot, data))
    ensures DecodeData(Packet(eot, data)) == Ok(NormalData(Minimal(eot, data)))
  {
    MinimalData(Minimal(eot, data));
    assert [2] + [0xF0, NrOctet(None, eot)] + [] + data == Packet(eot, data);
  }

  /** The packets WriteTSDU sends for a TSDU. */
  function Packets(tsdu: bytes, maxTPDU: int): seq<bytes>
    requires maxTPDU >= MIN_NEGOTIATED_TPDU && tsdu != []
  {
    var cs := Chunks(tsdu, MaxSegmentPayload(maxTPDU));
    seq(|cs|, i requires 0 <= i < |cs| => Packet(i == |cs| - 1, cs[i]))
  }

  lemma PacketsExist(tsdu: bytes, maxTPDU: int)
    requires maxTPDU >= MIN_NEGOTIATED_TPDU && tsdu != []
    ensures Packets(tsdu, maxTPDU) != []
  {
  }

  lemma {:induction false} FlattenMore(cs: seq<bytes>, c: bytes)
    ensures Flatten(cs + [c]) == Flatten(cs) + c
  {
    if cs == [] {
      assert [c][1..] == [] && [c] == [] + [c] && c + [] == [] + c;
    } else {
      FlattenMore(cs[1..], c);
      assert (cs + [c])[1..] == cs[1..] + [c];
      assert cs[0] + (Flatten(cs[1..]) + c) == (cs[0] + Flatten(cs[1..])) + c;
    }
  }

  function CeilDiv(n: nat, m: nat): nat
    requires m > 0
  {
    (n + m - 1) / m
  }

  lemma CeilStep(n: nat, m: nat)
    requires m > 0
    ensures n > m ==> CeilDiv(n, m) == 1 + CeilDiv(n - m, m)
    ensures 1 <= n <= m ==> CeilDiv(n, m) == 1
  {
    if n > m {
      assert n + m - 1 == m + (n - 1);
      DivAdd(n - 1, m);
    } else if n > 0 {
      DivUnique(n + m - 1, m, 1, n - 1);
    }
  }

  lemma DivAdd(x: nat, m: nat)
    requires m > 0
    ensures (m + x) / m == 1 + x / m
  {
    var q, r := x / m, x % m;
    assert x == q * m + r;
    assert m + x == (q + 1) * m + r;
    DivUnique(m + x, m, q + 1, r);
  }

  lemma DivUnique(x: nat, m: nat, q: nat, r: nat)
    requires m > 0 && x == q * m + r && r < m
    ensures x / m == q
  {
    var d := x / m - q;
    assert x == (x / m) * m + x % m;
    assert d * m == r - x % m;
    MulGrows(d, m);
  }

  lemma MulGrows(d: int, m: int)
    requires m > 0
    ensures d > 0 ==> d * m >= m
    ensures d < 0 ==> d * m <= -m
  {
  }

  /** A TSDU of n octets is cut into ceil(n / m) chunks of 1 to m octets that concatenate to it. */
  lemma {:induction false} ChunksMeaning(tsdu: bytes, m: nat)
    requires m > 0 && tsdu != []
    ensures |Chunks(tsdu, m)| == CeilDiv(|tsdu|, m)
    ensures forall c | c in Chunks(tsdu, m) :: 1 <= |c| <= m
    ensures Flatten(Chunks(tsdu, m)) == tsdu
  {
    hide CeilDiv;
    var cs := Chunks(tsdu, m);
    CeilStep(|tsdu|, m);
    if |tsdu| <= m {
      assert cs[1..] == [] && tsdu + [] == tsdu;
    } else {
      ChunksMeaning(tsdu[m..], m);
      assert cs[1..] == Chunks(tsdu[m..], m);
      assert tsdu[..m] + tsdu[m..] == tsdu;
    }
  }

  /** Where the i-th chunk starts. */
  function Start(i: nat, m: nat): nat { if i == 0 then 0 else Start(i - 1, m) + m }

  lemma {:induction false} StartIs(i: nat, m: nat)
    ensures Start(i, m) == i * m
  {
    if i > 0 {
      StartIs(i - 1, m);
      assert i * m == (i - 1) * m + m;
    }
  }

  lemma {:induction false} ChunkFrom(tsdu: bytes, m: nat, i: nat)
    requires m > 0 && tsdu != [] && i < |Chunks(tsdu, m)|
    ensures Start(i, m) < |tsdu|
    ensures Chunks(tsdu, m)[i] == tsdu[Start(i, m)..Min(Start(i, m) + m, |tsdu|)]
    ensures i == |Chunks(tsdu, m)| - 1 <==> Start(i, m) + m >= |tsdu|
  {
    if i > 0 {
      var rest, before := tsdu[m..], Start(i - 1, m);
      ChunkFrom(rest, m, i - 1);
      SliceOfDrop(tsdu, m, before, Min(before + m, |rest|));
    }
  }

  lemma SliceOfDrop(s: bytes, m: nat, i: nat, j: nat)
    requires m <= |s| && i <= j <= |s| - m
    ensures s[m..][i..j] == s[i + m..j + m]
  {
  }

  /** The i-th chunk is the stretch of the TSDU from octet i * m on. */
  lemma ChunkAt(tsdu: bytes, m: nat, i: nat)
    requires m > 0 && tsdu != [] && i < |Chunks(tsdu, m)|
    ensures 0 <= i * m < |tsdu|
    ensures Chunks(tsdu, m)[i] == tsdu[i * m..Min(i * m + m, |tsdu|)]
    ensures i == |Chunks(tsdu, m)| - 1 <==> i * m + m >= |tsdu|
  {
    hide Chunks, Start;
    StartIs(i, m);
    ChunkFrom(tsdu, m, i);
  }

  // ---------------------------------------------------------------- one inbound packet

  function UnexpectedOpenTPDU(kind: TpduType): Error {
    if kind == TypeDR then {UnexpectedTPDU, Disconnected} else {UnexpectedTPDU}
  }

  function MinimalClass0Error(li: int, typeOctet: byte, nrEot: byte): Option<Error> {
    if li != 2 || typeOctet != 0xF0 || nrEot % 0x80 != 0 then Some({Handshake}) else None
  }

  /** Everything decodeOpenDT checks before it looks at the destination reference and the parameters. */
  function OpenMinimalDT(packet: bytes, maxTPDU: int): Result<Data> {
    if |packet| > maxTPDU then Err({Handshake})
    else if |packet| < 2 then Err({Handshake, TooShort})
    else if Decode(packet).Err? then Err({Handshake})
    else if !Decode(packet).value.DT? then Err(UnexpectedOpenTPDU(TypeOf(Decode(packet).value)))
    else
      var d := Decode(packet).value.data;
      var nrEot := if |packet| > 2 then packet[2] else 0;
      match MinimalClass0Error(packet[0], packet[1], nrEot)
      case Some(e) => Err(e)
      case None => Ok(d)
  }

  function DecodeOpenDT(packet: bytes, maxTPDU: int): Result<Data> {
    var d :- OpenMinimalDT(packet, maxTPDU);
    if d.dst.Some? then Err({Handshake})
    else if d.parameters != [] then Err({Handshake})
    else Ok(d)
  }

  /** The last two rejections cannot fire: whatever passes the LI check is minimal. */
  lemma LateRejectionsAreDead(packet: bytes, maxTPDU: int)
    requires OpenMinimalDT(packet, maxTPDU).Ok?
    ensures var d := OpenMinimalDT(packet, maxTPDU).value; d.dst == None && d.parameters == []
  {
  }

  /** An open connection accepts exactly the minimal DTs within the negotiated length, and reads them back. */
  lemma OpenDTAccepts(packet: bytes, maxTPDU: int, eot: bool, data: bytes)
    ensures DecodeOpenDT(packet, maxTPDU) == Ok(NormalData(Minimal(eot, data)))
            <==> |packet| <= maxTPDU && packet == Packet(eot, data)
    ensures DecodeOpenDT(packet, maxTPDU).Ok? ==>
              var d := DecodeOpenDT(packet, maxTPDU).value; d == NormalData(Minimal(d.eot, d.userData))
  {
    if packet == Packet(eot, data) {
      PacketIsMinimalDT(eot, data);
      DispatchData(packet);
    }
    if DecodeOpenDT(packet, maxTPDU).Ok? {
      var d := DecodeOpenDT(packet, maxTPDU).value;
      assert DecodeData(packet) == Ok(d);
      assert packet == [2, 0xF0, packet[2]] + packet[3..];
    }
  }

  // ---------------------------------------------------------------- reassembly

  /** What ReadTSDU does with one packet, given the segments it holds. */
  datatype Absorption =
    | More(segments: seq<bytes>)
    | Complete(tsdu: bytes)
    | Refuse(cause: Error)

  /** abortOpen's cause: inside a TSDU an incomplete TSDU is reported as well. */
  function OpenCause(mid: bool, err: Error): Error { if mid then err + {IncompleteTSDU} else err }

  function Absorb(segments: seq<bytes>, packet: bytes, maxTPDU: int, maxTSDU: int): Absorption {
    var mid := segments != [];
    match DecodeOpenDT(packet, maxTPDU)
    case Err(e) => Refuse(OpenCause(mid, e))
    case Ok(dt) =>
      var seg := dt.userData;
      if seg == [] then Refuse(OpenCause(mid, {Handshake}))
      else if |Flatten(segments)| + |seg| > maxTSDU then Refuse(OpenCause(mid, {TSDUTooLarge}))
      else if |segments| + 1 > maxTSDU then Refuse(OpenCause(mid, {TSDUTooLarge}))
      else if dt.eot then Complete(Flatten(segments + [seg]))
      else More(segments + [seg])
  }

  /** Why a packet is refused, from its octets alone. */
  function RefusalCause(mid: bool, p: bytes, maxTPDU: int): Error {
    IncompleteIf(mid)
    + (if |p| > maxTPDU then {Handshake}
       else if |p| < 2 then {Handshake, TooShort}
       else if Decode(p).Ok? && Decode(p).value.DR? then {UnexpectedTPDU, Disconnected}
       else if Decode(p).Ok? && !Decode(p).value.DT? then {UnexpectedTPDU}
       else if IsSegment(p, maxTPDU) then {TSDUTooLarge}
       else {Handshake})
  }

  predicate NonEmpty(segments: seq<bytes>) { forall i | 0 <= i < |segments| :: segments[i] != [] }

  lemma {:induction false} SegmentsWeigh(segments: seq<bytes>)
    requires NonEmpty(segments)
    ensures |segments| <= |Flatten(segments)|
  {
    if segments != [] {
      SegmentsWeigh(segments[1..]);
    }
  }

  /** The segment-count bound never decides: with non-empty segments the length bound is reached first. */
  lemma SegmentCountIsDead(segments: seq<bytes>, seg: bytes, maxTSDU: int)
    requires NonEmpty(segments) && seg != [] && |Flatten(segments)| + |seg| <= maxTSDU
    ensures |segments| + 1 <= maxTSDU
  {
    SegmentsWeigh(segments);
  }

  /** A packet an open connection takes as a segment: a minimal DT with data, within the negotiated length. */
  predicate IsSegment(p: bytes, maxTPDU: int) {
    4 <= |p| <= maxTPDU && p == Packet(p[2] == 0x80, p[3..])
  }

  function Payload(p: bytes): bytes { if |p| < 3 then [] else p[3..] }

  predicate Ends(p: bytes) { |p| > 2 && p[2] == 0x80 }

  /** One packet's verdict in terms of its octets. */
  lemma AbsorbMeaning(segments: seq<bytes>, p: bytes, maxTPDU: int, maxTSDU: int)
    requires NonEmpty(segments)
    ensures var fits := IsSegment(p, maxTPDU) && |Flatten(segments)| + |Payload(p)| <= maxTSDU;
            && Absorb(segments, p, maxTPDU, maxTSDU).Refuse? == !fits
            && (fits && Ends(p) ==>
                  Absorb(segments, p, maxTPDU, maxTSDU) == Complete(Flatten(segments) + Payload(p)))
            && (fits && !Ends(p) ==> Absorb(segments, p, maxTPDU, maxTSDU) == More(segments + [Payload(p)]))
            && (!fits ==> Absorb(segments, p, maxTPDU, maxTSDU) == Refuse(RefusalCause(segments != [], p, maxTPDU)))
  {
    if IsSegment(p, maxTPDU) {
      OpenDTAccepts(p, maxTPDU, Ends(p), Payload(p));
      if |Flatten(segments)| + |Payload(p)| <= maxTSDU {
        SegmentCountIsDead(segments, Payload(p), maxTSDU);
        FlattenMore(segments, Payload(p));
      }
    } else if DecodeOpenDT(p, maxTPDU).Ok? {
      var d := DecodeOpenDT(p, maxTPDU).value;
      OpenDTAccepts(p, maxTPDU, d.eot, d.userData);
      assert p[3..] == d.userData;
    }
  }

  /** ReadTSDU over a stream of packets: the TSDU and the packets it took, or the cause and the packets it took,
      or still waiting with the segments so far. */
  datatype Outcome =
    | Delivered(tsdu: bytes, used: nat)
    | Aborted(cause: Error, used: nat)
    | Waiting(segments: seq<bytes>)

  function Reassemble(segments: seq<bytes>, ps: seq<bytes>, maxTPDU: int, maxTSDU: int): (o: Outcome)
    ensures !o.Waiting? ==> 1 <= o.used <= |ps|
    decreases |ps|
  {
    if ps == [] then Waiting(segments) else
      match Absorb(segments, ps[0], maxTPDU, maxTSDU)
      case Refuse(cause) => Aborted(cause, 1)
      case Complete(tsdu) => Delivered(tsdu, 1)
      case More(more) => Later(Reassemble(more, ps[1..], maxTPDU, maxTSDU))
  }

  function Later(o: Outcome): Outcome {
    match o
    case Delivered(tsdu, n) => Delivered(tsdu, n + 1)
    case Aborted(cause, n) => Aborted(cause, n + 1)
    case Waiting(_) => o
  }

  function Payloads(ps: seq<bytes>): bytes {
    if ps == [] then [] else Payload(ps[0]) + Payloads(ps[1..])
  }

  /** The first n packets are segments without EOT whose data fits behind `held` octets. */
  predicate Continues(held: nat, ps: seq<bytes>, n: nat, maxTPDU: int, maxTSDU: int)
    requires n <= |ps|
  {
    && (forall i | 0 <= i < n :: IsSegment(ps[i], maxTPDU) && !Ends(ps[i]))
    && (n > 0 ==> held + |Payloads(ps[..n])| <= maxTSDU)
  }

  /** What each outcome means for the packets read, both ways. */
  ghost predicate Explains(o: Outcome, segments: seq<bytes>, ps: seq<bytes>, maxTPDU: int, maxTSDU: int) {
    var held := Flatten(segments);
    match o
    case Delivered(tsdu, n) =>
      && 1 <= n <= |ps| && Continues(|held|, ps, n - 1, maxTPDU, maxTSDU)
      && IsSegment(ps[n - 1], maxTPDU) && Ends(ps[n - 1])
      && tsdu == held + Payloads(ps[..n]) && |tsdu| <= maxTSDU
    case Aborted(cause, n) =>
      && 1 <= n <= |ps| && Continues(|held|, ps, n - 1, maxTPDU, maxTSDU)
      && cause == RefusalCause(segments != [] || n > 1, ps[n - 1], maxTPDU)
      && (!IsSegment(ps[n - 1], maxTPDU) || |held| + |Payloads(ps[..n])| > maxTSDU)
    case Waiting(more) =>
      && Continues(|held|, ps, |ps|, maxTPDU, maxTSDU)
      && Flatten(more) == held + Payloads(ps)
  }

  /** ReadTSDU delivers the data up to the first EOT exactly when every packet up to it is a segment and the data
      fits; otherwise it aborts at the first packet that is no segment or does not fit, with the cause due to it. */
  lemma {:induction false} ReassembleMeaning(segments: seq<bytes>, ps: seq<bytes>, maxTPDU: int, maxTSDU: int)
    requires NonEmpty(segments)
    ensures Explains(Reassemble(segments, ps, maxTPDU, maxTSDU), segments, ps, maxTPDU, maxTSDU)
    decreases |ps|
  {
    if ps == [] {
      assert Flatten(segments) + [] == Flatten(segments);
      assert Payloads(ps) == [];
    } else {
      var p, rest := ps[0], ps[1..];
      AbsorbMeaning(segments, p, maxTPDU, maxTSDU);
      PayloadsShift(ps, 0);
      assert Payload(p) + Payloads(rest[..0]) == Payload(p);
      match Absorb(segments, p, maxTPDU, maxTSDU)
      case Refuse(_) =>
      case Complete(_) =>
      case More(more) =>
        FlattenMore(segments, Payload(p));
        ReassembleMeaning(more, rest, maxTPDU, maxTSDU);
        OutcomeShift(segments, ps, Reassemble(more, rest, maxTPDU, maxTSDU), maxTPDU, maxTSDU);
    }
  }

  lemma ContinuesShift(held: nat, ps: seq<bytes>, n: nat, maxTPDU: int, maxTSDU: int)
    requires n < |ps| && IsSegment(ps[0], maxTPDU) && !Ends(ps[0])
    requires held + |Payload(ps[0])| <= maxTSDU
    requires Continues(held + |Payload(ps[0])|, ps[1..], n, maxTPDU, maxTSDU)
    ensures Continues(held, ps, n + 1, maxTPDU, maxTSDU)
  {
    PayloadsShift(ps, n);
    forall i | 0 <= i < n + 1 ensures IsSegment(ps[i], maxTPDU) && !Ends(ps[i]) {
      if i > 0 { assert ps[i] == ps[1..][i - 1]; }
    }
    if n == 0 { assert ps[1..][..0] == []; }
  }

  lemma OutcomeShift(segments: seq<bytes>, ps: seq<bytes>, o: Outcome, maxTPDU: int, maxTSDU: int)
    requires ps != [] && IsSegment(ps[0], maxTPDU) && !Ends(ps[0])
    requires |Flatten(segments)| + |Payload(ps[0])| <= maxTSDU
    requires Explains(o, segments + [Payload(ps[0])], ps[1..], maxTPDU, maxTSDU)
    ensures Explains(Later(o), segments, ps, maxTPDU, maxTSDU)
  {
    hide IsSegment, Ends, Payload, Flatten, RefusalCause;
    var p, rest, held := ps[0], ps[1..], Flatten(segments);
    FlattenMore(segments, Payload(p));
    match o
    case Waiting(_) =>
      ContinuesShift(|held|, ps, |rest|, maxTPDU, maxTSDU);
      assert ps[..|ps|] == ps;
      assert (held + Payload(p)) + Payloads(rest) == held + (Payload(p) + Payloads(rest));
    case Delivered(_, n) =>
      ContinuesShift(|held|, ps, n - 1, maxTPDU, maxTSDU);
      PayloadsShift(ps, n);
      assert ps[n] == rest[n - 1];
      assert (held + Payload(p)) + Payloads(rest[..n]) == held + (Payload(p) + Payloads(rest[..n]));
    case Aborted(_, n) =>
      ContinuesShift(|held|, ps, n - 1, maxTPDU, maxTSDU);
      PayloadsShift(ps, n);
      assert ps[n] == rest[n - 1];
  }

  lemma PayloadsShift(ps: seq<bytes>, n: nat)
    requires ps != [] && n < |ps|
    ensures Payloads(ps[..n + 1]) == Payload(ps[0]) + Payloads(ps[1..][..n])
  {
    assert ps[..n + 1][1..] == ps[1..][..n];
  }

  /** However the peer behaves, at most maxTSDU + 1 packets decide a ReadTSDU. */
  lemma ReassemblyIsBounded(ps: seq<bytes>, maxTPDU: int, maxTSDU: nat)
    ensures var o := Reassemble([], ps, maxTPDU, maxTSDU);
            match o
            case Delivered(_, n) => n <= maxTSDU
            case Aborted(_, n) => n <= maxTSDU + 1
            case Waiting(_) => |ps| <= maxTSDU
  {
    ReassembleMeaning([], ps, maxTPDU, maxTSDU);
    var o := Reassemble([], ps, maxTPDU, maxTSDU);
    var n := match o case Delivered(_, n) => n case Aborted(_, n) => n - 1 case Waiting(_) => |ps|;
    assert ps[..|ps|] == ps;
    PayloadsWeigh(ps[..n], maxTPDU);
  }

  lemma {:induction false} PayloadsWeigh(ps: seq<bytes>, maxTPDU: int)
    requires forall i | 0 <= i < |ps| :: IsSegment(ps[i], maxTPDU)
    ensures |ps| <= |Payloads(ps)|
  {
    if ps != [] { PayloadsWeigh(ps[1..], maxTPDU); }
  }

  lemma PacketIsSegment(eot: bool, data: bytes, maxTPDU: int)
    requires 1 <= |data| <= maxTPDU - 3
    ensures var p := Packet(eot, data); IsSegment(p, maxTPDU) && (Ends(p) <==> eot) && Payload(p) == data
  {
    assert Packet(eot, data)[3..] == data;
  }

  /** WriteTSDU's packets: ceil(n / (max - 3)) of them, all segments, EOT on the last only, data in order. */
  lemma PacketsMeaning(tsdu: bytes, maxTPDU: int)
    requires maxTPDU >= MIN_NEGOTIATED_TPDU && tsdu != []
    ensures var ps := Packets(tsdu, maxTPDU);
            && |ps| == (|tsdu| + maxTPDU - 4) / (maxTPDU - 3) > 0
            && (forall i | 0 <= i < |ps| :: IsSegment(ps[i], maxTPDU))
            && (forall i | 0 <= i < |ps| :: Ends(ps[i]) <==> i == |ps| - 1)
            && Payloads(ps) == tsdu
  {
    hide IsSegment, Ends, Payload, Packet, Chunks;
    var cs, ps := Chunks(tsdu, MaxSegmentPayload(maxTPDU)), Packets(tsdu, maxTPDU);
    ChunksMeaning(tsdu, MaxSegmentPayload(maxTPDU));
    forall i | 0 <= i < |ps|
      ensures IsSegment(ps[i], maxTPDU) && (Ends(ps[i]) <==> i == |ps| - 1) && Payload(ps[i]) == cs[i]
    {
      assert cs[i] in cs;
      PacketIsSegment(i == |cs| - 1, cs[i], maxTPDU);
    }
    PayloadsFlatten(ps, cs);
  }

  lemma {:induction false} PayloadsFlatten(ps: seq<bytes>, cs: seq<bytes>)
    requires |ps| == |cs| && forall i | 0 <= i < |ps| :: Payload(ps[i]) == cs[i]
    ensures Payloads(ps) == Flatten(cs)
  {
    if ps != [] { PayloadsFlatten(ps[1..], cs[1..]); }
  }

  /** What WriteTSDU sends, ReadTSDU delivers, taking exactly those packets, whatever follows them. */
  lemma TransferRoundTrip(tsdu: bytes, rest: seq<bytes>, maxTPDU: int, maxTSDU: int)
    requires maxTPDU >= MIN_NEGOTIATED_TPDU && 1 <= |tsdu| <= maxTSDU
    ensures var ps := Packets(tsdu, maxTPDU);
            Reassemble([], ps + rest, maxTPDU, maxTSDU) == Delivered(tsdu, |ps|)
  {
    var ps := Packets(tsdu, maxTPDU);
    var all := ps + rest;
    PacketsMeaning(tsdu, maxTPDU);
    ReassembleMeaning([], all, maxTPDU, maxTSDU);
    var o := Reassemble([], all, maxTPDU, maxTSDU);
    var n := match o case Delivered(_, n) => n case Aborted(_, n) => n case Waiting(_) => |all|;
    assert Ends(all[|ps| - 1]);
    assert n <= |ps|;
    assert all[..n] == ps[..n];
    PayloadsPrefix(ps, n);
    assert ps[..|ps|] == ps;
  }

  lemma {:induction false} PayloadsPrefix(ps: seq<bytes>, n: nat)
    requires n <= |ps|
    ensures |Payloads(ps[..n])| <= |Payloads(ps)|
  {
    if n > 0 {
      PayloadsPrefix(ps[1..], n - 1);
      PayloadsShift(ps, n - 1);
    }
  }

  // ---------------------------------------------------------------- one read after the other

  /** A decided read stays decided, whatever packets follow. */
  lemma {:induction false} DecidedStays(segments: seq<bytes>, ps: seq<bytes>, rest: seq<bytes>,
                                        maxTPDU: int, maxTSDU: int)
    requires !Reassemble(segments, ps, maxTPDU, maxTSDU).Waiting?
    ensures Reassemble(segments, ps + rest, maxTPDU, maxTSDU) == Reassemble(segments, ps, maxTPDU, maxTSDU)
    decreases |ps|
  {
    hide Absorb;
    assert (ps + rest)[1..] == ps[1..] + rest;
    match Absorb(segments, ps[0], maxTPDU, maxTSDU)
    case More(more) => DecidedStays(more, ps[1..], rest, maxTPDU, maxTSDU);
    case _ =>
  }

  /** What one more packet makes of a read that waits. */
  function Judged(segments: seq<bytes>, p: bytes, n: nat, maxTPDU: int, maxTSDU: int): Outcome {
    match Absorb(segments, p, maxTPDU, maxTSDU)
    case Refuse(cause) => Aborted(cause, n)
    case Complete(tsdu) => Delivered(tsdu, n)
    case More(more) => Waiting(more)
  }

  lemma {:induction false} OneMorePacket(segments: seq<bytes>, ps: seq<bytes>, p: bytes, maxTPDU: int, maxTSDU: int)
    requires Reassemble(segments, ps, maxTPDU, maxTSDU).Waiting?
    ensures Reassemble(segments, ps + [p], maxTPDU, maxTSDU)
            == Judged(Reassemble(segments, ps, maxTPDU, maxTSDU).segments, p, |ps| + 1, maxTPDU, maxTSDU)
    decreases |ps|
  {
    hide Absorb;
    if ps == [] {
      assert [] + [p] == [p] && [p][1..] == [];
    } else {
      assert (ps + [p])[1..] == ps[1..] + [p];
      OneMorePacket(Absorb(segments, ps[0], maxTPDU, maxTSDU).segments, ps[1..], p, maxTPDU, maxTSDU);
    }
  }

  /** The TSDUs that reads one after the other return from a stream of packets, and the segments the last one holds. */
  datatype Progress = Progress(delivered: seq<bytes>, held: seq<bytes>)

  /** Reads one after the other, or None when one of them aborts. */
  function Reads(held: seq<bytes>, ps: seq<bytes>, maxTPDU: int, maxTSDU: int): Option<Progress>
    decreases |ps|
  {
    match Reassemble(held, ps, maxTPDU, maxTSDU)
    case Waiting(segments) => Some(Progress([], segments))
    case Aborted(_, _) => None
    case Delivered(tsdu, n) =>
      match Reads([], ps[n..], maxTPDU, maxTSDU)
      case None => None
      case Some(x) => Some(x.(delivered := [tsdu] + x.delivered))
  }

  /** What one more packet makes of them. */
  function Advanced(x: Progress, p: bytes, maxTPDU: int, maxTSDU: int): Option<Progress> {
    match Absorb(x.held, p, maxTPDU, maxTSDU)
    case Refuse(_) => None
    case More(more) => Some(x.(held := more))
    case Complete(tsdu) => Some(Progress(x.delivered + [tsdu], []))
  }

  lemma {:induction false} ReadsAdvance(held: seq<bytes>, ps: seq<bytes>, p: bytes, maxTPDU: int, maxTSDU: int)
    ensures var x := Reads(held, ps, maxTPDU, maxTSDU);
            Reads(held, ps + [p], maxTPDU, maxTSDU)
            == if x == None then None else Advanced(x.value, p, maxTPDU, maxTSDU)
    decreases |ps|
  {
    hide Absorb, Reassemble;
    var o := Reassemble(held, ps, maxTPDU, maxTSDU);
    if o.Waiting? {
      OneMorePacket(held, ps, p, maxTPDU, maxTSDU);
      ReadsNothing(maxTPDU, maxTSDU);
      assert (ps + [p])[|ps| + 1..] == [];
      if Judged(o.segments, p, |ps| + 1, maxTPDU, maxTSDU).Delivered? {
        var tsdu := Judged(o.segments, p, |ps| + 1, maxTPDU, maxTSDU).tsdu;
        assert [tsdu] + [] == [] + [tsdu];
      }
    } else {
      DecidedStays(held, ps, [p], maxTPDU, maxTSDU);
      if o.Delivered? {
        ReadsAdvance([], ps[o.used..], p, maxTPDU, maxTSDU);
        assert (ps + [p])[o.used..] == ps[o.used..] + [p];
        var x := Reads([], ps[o.used..], maxTPDU, maxTSDU);
        if x.Some? {
          forall t: bytes ensures [o.tsdu] + (x.value.delivered + [t]) == ([o.tsdu] + x.value.delivered) + [t] {
          }
        }
      }
    }
  }

  /** The segments a read holds are never empty. */
  lemma {:induction false} HeldAreNonEmpty(held: seq<bytes>, ps: seq<bytes>, maxTPDU: int, maxTSDU: int)
    requires NonEmpty(held)
    ensures var o := Reassemble(held, ps, maxTPDU, maxTSDU); o.Waiting? ==> NonEmpty(o.segments)
    ensures var x := Reads(held, ps, maxTPDU, maxTSDU); x.Some? ==> NonEmpty(x.value.held)
    decreases |ps|
  {
    hide DecodeOpenDT;
    if ps != [] {
      match Absorb(held, ps[0], maxTPDU, maxTSDU)
      case More(more) => HeldAreNonEmpty(more, ps[1..], maxTPDU, maxTSDU);
      case _ =>
      var o := Reassemble(held, ps, maxTPDU, maxTSDU);
      if o.Delivered? { HeldAreNonEmpty([], ps[o.used..], maxTPDU, maxTSDU); }
    }
  }

  lemma ReadsNothing(maxTPDU: int, maxTSDU: int)
    ensures Reads([], [], maxTPDU, maxTSDU) == Some(Progress([], []))
  {
  }

  // ---------------------------------------------------------------- I/O failures

  /** An error of the stream: whether it is a deadline expiry, whether it says the stream is gone
      (reset, aborted, broken pipe, closed), and what else errors.Is finds in it. */
  datatype IoError = IoError(timeout: bool, gone: bool, marks: Error)

  /** A context as one step sees it: its error if done, whether it has a deadline, whether that has passed. */
  datatype Ctx = Ctx(err: Option<Error>, hasDeadline: bool, passed: bool)

  function CtxDone(ctx: Ctx): Option<Error> {
    if ctx.err.Some? then ctx.err
    else if ctx.hasDeadline && ctx.passed then Some({DeadlineExceeded})
    else None
  }

  predicate PeerGone(e: IoError) { UnexpectedEof in e.marks || e.gone }

  function IncompleteIf(c: bool): Error { if c then {IncompleteTSDU} else {} }

  /** The cause classifyIOPhase aborts with. */
  function IoCause(ctx: Ctx, e: IoError, mid: bool): Error {
    if ctx.err.Some? then {Closed} + ctx.err.value
    else if ctx.hasDeadline && e.timeout then {Closed, DeadlineExceeded}
    else if Eof in e.marks then IncompleteIf(mid) + {Disconnected, Eof}
    else if PeerGone(e) then
      IncompleteIf(mid || UnexpectedEof in e.marks) + {Disconnected} + e.marks
    else if Framing in e.marks then OpenCause(mid, {Handshake} + e.marks)
    else if mid then {IncompleteTSDU, Disconnected} + e.marks
    else e.marks
  }

  /** The bound on a TSDU: 4 MiB where none is configured. */
  lemma BoundIs(maxTSDU: nat)
    ensures TsduBound(maxTSDU) == if maxTSDU == 0 then 4194304 else maxTSDU
  {
  }

  /** When and with what error a context is done. */
  lemma DoneIs(ctx: Ctx)
    ensures CtxDone(ctx) == if ctx.err.Some? then ctx.err
                            else if ctx.hasDeadline && ctx.passed then Some({DeadlineExceeded}) else None
  {
  }

  /** The context ended the operation: it is done, or it has a deadline and the stream timed out. */
  predicate ByContext(ctx: Ctx, e: IoError) { ctx.err.Some? || (ctx.hasDeadline && e.timeout) }

  /** The error a context ends an operation with. */
  function ContextError(ctx: Ctx): Error { if ctx.err.Some? then ctx.err.value else {DeadlineExceeded} }

  /** The stream is gone: it ended inside a packet, or was reset, aborted or closed. */
  predicate StreamGone(e: IoError) { UnexpectedEof in e.marks || e.gone }

  /** Which marks the cause of an I/O failure carries. By the context: closed, and the context's error. At the end of
      the stream: disconnected and the end itself, the other marks of the error being dropped. Otherwise the error's own
      marks, and disconnected where the stream is gone or a TSDU was under way, handshake where the framing is wrong.
      And an incomplete TSDU wherever the stream failed inside one or inside a packet. */
  predicate Marked(m: Mark, ctx: Ctx, e: IoError, mid: bool) {
    if ByContext(ctx, e) then m == Closed || m in ContextError(ctx)
    else if Eof in e.marks then m == Disconnected || m == Eof || (m == IncompleteTSDU && mid)
    else
      || m in e.marks
      || (m == Disconnected && (StreamGone(e) || (mid && Framing !in e.marks)))
      || (m == Handshake && !StreamGone(e) && Framing in e.marks)
      || (m == IncompleteTSDU && (mid || UnexpectedEof in e.marks))
  }

  lemma CauseIs(ctx: Ctx, e: IoError, mid: bool, m: Mark)
    ensures m in IoCause(ctx, e, mid) <==> Marked(m, ctx, e, mid)
  {
  }

  /** An incomplete TSDU is reported exactly when the stream, not the context, ended the operation and either
      segments were held or the stream ended inside a packet. */
  lemma IncompleteIff(ctx: Ctx, e: IoError, mid: bool)
    requires IncompleteTSDU !in e.marks && (ctx.err.Some? ==> IncompleteTSDU !in ctx.err.value)
    ensures IncompleteTSDU in IoCause(ctx, e, mid) <==>
              && ctx.err == None && !(ctx.hasDeadline && e.timeout)
              && (mid || (UnexpectedEof in e.marks && Eof !in e.marks))
  {
  }
}

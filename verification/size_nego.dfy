/** TPDU size negotiation (size_nego.go): what a client offers, a server selects and a client accepts. */
module SizeNego {
  import opened Types

  const DEFAULT_MAX_TPDU := 65531
  const MAX_ITOT_TPDU := 65531
  const MIN_TPDU := 128
  const MAX_PREFERRED_UNITS := 511

  /** SizeProfile is an int in the source: 0 and 1 are its two values, anything else is refused. */
  const RFC1006_COMPAT := 0
  const PREFERRED_MAXIMUM := 1

  predicate ValidProfile(profile: int) { profile == RFC1006_COMPAT || profile == PREFERRED_MAXIMUM }

  datatype Offer = Offer(standard: Option<int>, preferred: Option<int>, omitted: bool)
  datatype Path = PathOmitted | PathStandard | PathPreferred
  datatype Selection = Selection(path: Path, effective: int, standardCode: Option<byte>, preferredUnits: Option<u32>)
  datatype Build = Build(offer: Offer, standardCode: Option<byte>, preferredUnits: Option<u32>)

  // ---------------------------------------------------------------- the table of class 0 standard sizes

  function StandardSize(code: byte): Option<int> {
    if code == 0x10 then Some(65536)
    else if code == 0x0F then Some(32768)
    else if code == 0x0E then Some(16384)
    else if code == 0x0D then Some(8192)
    else if code == 0x0C then Some(4096)
    else if code == 0x0B then Some(2048)
    else if code == 0x0A then Some(1024)
    else if code == 0x09 then Some(512)
    else if code == 0x08 then Some(256)
    else if code == 0x07 then Some(128)
    else None
  }

  function StandardCode(size: int): Option<byte> {
    if size == 65536 then Some(0x10)
    else if size == 32768 then Some(0x0F)
    else if size == 16384 then Some(0x0E)
    else if size == 8192 then Some(0x0D)
    else if size == 4096 then Some(0x0C)
    else if size == 2048 then Some(0x0B)
    else if size == 1024 then Some(0x0A)
    else if size == 512 then Some(0x09)
    else if size == 256 then Some(0x08)
    else if size == 128 then Some(0x07)
    else None
  }

  predicate IsStandard(size: int) { StandardCode(size).Some? }

  /** The largest standard size not above a length, scanning the table from the top. */
  function FallbackStandard(length: int): Result<(int, byte)> {
    if length < MIN_TPDU then Err({InvalidConfig})
    else if 65536 <= length then Ok((65536, 0x10))
    else if 32768 <= length then Ok((32768, 0x0F))
    else if 16384 <= length then Ok((16384, 0x0E))
    else if 8192 <= length then Ok((8192, 0x0D))
    else if 4096 <= length then Ok((4096, 0x0C))
    else if 2048 <= length then Ok((2048, 0x0B))
    else if 1024 <= length then Ok((1024, 0x0A))
    else if 512 <= length then Ok((512, 0x09))
    else if 256 <= length then Ok((256, 0x08))
    else Ok((128, 0x07))
  }

  /** Codes and sizes of the table determine each other. */
  lemma TableInverse(code: byte, size: int)
    ensures StandardSize(code) == Some(size) <==> StandardCode(size) == Some(code)
    ensures StandardSize(code).Some? <==> 0x07 <= code <= 0x10
  {
  }

  /** The fallback is the greatest standard size not above the length, with its own code. */
  lemma FallbackIsGreatest(length: int, size: int)
    ensures FallbackStandard(length).Ok? <==> length >= MIN_TPDU
    ensures FallbackStandard(length).Ok? ==>
              var (best, code) := FallbackStandard(length).value;
              && StandardCode(best) == Some(code)
              && best <= length
              && (IsStandard(size) && size <= length ==> size <= best)
  {
  }

  function Power(n: nat): nat { if n == 0 then 1 else 2 * Power(n - 1) }

  /** The table: code n stands for 2^n octets, from 128 to 65536 (section 13.3.4 of X.224, with the sizes of ITOT). */
  lemma TableIsPowers(code: byte)
    ensures StandardSize(code) == if 7 <= code <= 16 then Some(Power(code)) else None
  {
    assert Power(4) == 16;
    assert Power(8) == 16 * Power(4);
    assert Power(12) == 16 * Power(8);
    assert Power(16) == 16 * Power(12);
  }

  function NormalizeConfiguredMax(configured: int): Result<int> {
    if configured == 0 then Ok(DEFAULT_MAX_TPDU)
    else if configured < MIN_TPDU || configured > MAX_ITOT_TPDU then Err({InvalidConfig})
    else Ok(configured)
  }

  function PreferredUnitsAndEffective(configured: int): Result<(u32, int)> {
    var ceiling :- NormalizeConfiguredMax(configured);
    var u := ceiling / 128;
    if u < 1 then Err({InvalidConfig}) else
      var units := if u > MAX_PREFERRED_UNITS then MAX_PREFERRED_UNITS else u;
      Ok((units, units * 128))
  }

  function NormalizePreferredCeiling(ceiling: int): Result<int> {
    var (_, effective) :- PreferredUnitsAndEffective(ceiling);
    Ok(effective)
  }

  function NormalizeStandardCeiling(ceiling: int): Result<(int, byte)> {
    var c :- NormalizeConfiguredMax(ceiling);
    FallbackStandard(c)
  }

  // ---------------------------------------------------------------- client offer

  function BuildSizeOffer(configured: int, profile: int): Result<Build> {
    if !ValidProfile(profile) then Err({InvalidConfig}) else
      var ceiling :- NormalizeConfiguredMax(configured);
      if profile == RFC1006_COMPAT then
        if ceiling == DEFAULT_MAX_TPDU then Ok(Build(Offer(None, None, true), None, None))
        else if StandardCode(ceiling).Some? then
          Ok(Build(Offer(Some(ceiling), None, false), StandardCode(ceiling), None))
        else
          var (units, effective) :- PreferredUnitsAndEffective(ceiling);
          var (size, code) :- FallbackStandard(effective);
          Ok(Build(Offer(Some(size), Some(effective), false), Some(code), Some(units)))
      else
        var (units, effective) :- PreferredUnitsAndEffective(ceiling);
        if StandardCode(ceiling).Some? && ceiling == effective then
          Ok(Build(Offer(Some(ceiling), Some(effective), false), StandardCode(ceiling), Some(units)))
        else
          var (size, code) :- FallbackStandard(effective);
          Ok(Build(Offer(Some(size), Some(effective), false), Some(code), Some(units)))
  }

  // ---------------------------------------------------------------- server side

  function DecodeSizeOffer(standardCode: Option<byte>, preferredUnits: Option<u32>): Result<Offer> {
    if standardCode == None && preferredUnits == None then Ok(Offer(None, None, true))
    else if standardCode.Some? && StandardSize(standardCode.value) == None then Err({Handshake})
    else
      var standard := if standardCode.Some? then StandardSize(standardCode.value) else None;
      if preferredUnits.Some? && !(0 < preferredUnits.value <= MAX_PREFERRED_UNITS) then Err({Handshake})
      else Ok(Offer(standard, if preferredUnits.Some? then Some(preferredUnits.value * 128) else None, false))
  }

  function SelectOmitted(serverCeiling: int, callbackCeiling: int): Result<Selection> {
    var ceiling := if callbackCeiling != 0 && callbackCeiling < serverCeiling then callbackCeiling else serverCeiling;
    if ceiling == DEFAULT_MAX_TPDU then Ok(Selection(PathOmitted, DEFAULT_MAX_TPDU, None, None))
    else if StandardCode(ceiling).Some? then Ok(Selection(PathStandard, ceiling, StandardCode(ceiling), None))
    else
      var (size, code) :- NormalizeStandardCeiling(ceiling);
      Ok(Selection(PathStandard, size, Some(code), None))
  }

  function SelectPreferred(peer: int, serverCeiling: int, callbackCeiling: int): Result<Selection> {
    var serverEffective :- NormalizePreferredCeiling(serverCeiling);
    var both := Min(serverEffective, peer);
    var callback :- if callbackCeiling != 0 then NormalizePreferredCeiling(callbackCeiling) else Ok(both);
    var selected := if callback < both then callback else both;
    if selected < MIN_TPDU then Err({Handshake}) else
      var n := selected / 128;
      if n <= 0 || n > MAX_PREFERRED_UNITS then Err({Handshake})
      else Ok(Selection(PathPreferred, n * 128, None, Some(n)))
  }

  /** The server's choice on the standard path before it looks up the code. */
  function StandardFloor(peer: int, serverCeiling: int, callbackCeiling: int): Result<int> {
    var (serverSize, _) :- NormalizeStandardCeiling(serverCeiling);
    var both := Min(serverSize, peer);
    if callbackCeiling == 0 then Ok(both) else
      var (callback, _) :- NormalizeStandardCeiling(callbackCeiling);
      Ok(if callback < both then callback else both)
  }

  function SelectStandard(peer: int, serverCeiling: int, callbackCeiling: int): Result<Selection> {
    var selected :- StandardFloor(peer, serverCeiling, callbackCeiling);
    if StandardCode(selected).Some? then Ok(Selection(PathStandard, selected, StandardCode(selected), None))
    else
      var (size, code) :- FallbackStandard(selected);
      Ok(Selection(PathStandard, size, Some(code), None))
  }

  function SelectSize(peer: Offer, serverCeiling: int, callbackCeiling: int, profile: int): Result<Selection> {
    if !ValidProfile(profile) then Err({InvalidConfig}) else
      var server :- NormalizeConfiguredMax(serverCeiling);
      var _ :- if callbackCeiling != 0 then NormalizeConfiguredMax(callbackCeiling) else Ok(0);
      if peer.omitted || (peer.standard == None && peer.preferred == None) then SelectOmitted(server, callbackCeiling)
      else if peer.preferred.Some? then SelectPreferred(peer.preferred.value, server, callbackCeiling)
      else SelectStandard(peer.standard.value, server, callbackCeiling)
  }

  // ---------------------------------------------------------------- client reading the CC

  function ClientEffectiveProposal(sent: Offer): int {
    if sent.preferred.Some? then sent.preferred.value
    else if sent.standard.Some? then sent.standard.value
    else DEFAULT_MAX_TPDU
  }

  function InterpretCCSize(sent: Offer, standardCode: Option<byte>, preferredUnits: Option<u32>, profile: int)
    : Result<int>
  {
    if !ValidProfile(profile) then Err({InvalidConfig})
    else if standardCode.Some? && preferredUnits.Some? then Err({Handshake})
    else if standardCode == None && preferredUnits == None then
      if profile == PREFERRED_MAXIMUM then Err({Handshake})
      else Ok(Min(ClientEffectiveProposal(sent), DEFAULT_MAX_TPDU))
    else if preferredUnits.Some? then
      if sent.preferred == None then Err({Handshake})
      else if !(0 < preferredUnits.value <= MAX_PREFERRED_UNITS) then Err({Handshake})
      else if preferredUnits.value * 128 > sent.preferred.value then Err({Handshake})
      else Ok(preferredUnits.value * 128)
    else if sent.standard == None && !sent.omitted then Err({Handshake})
    else if StandardSize(standardCode.value) == None then Err({Handshake})
    else
      var size := StandardSize(standardCode.value).value;
      if sent.omitted then Ok(Min(size, ClientEffectiveProposal(sent)))
      else if size > sent.standard.value then Err({Handshake})
      else Ok(size)
  }

  // ---------------------------------------------------------------- properties

  /** A configured ceiling preflight accepts, and the bound it stands for. */
  predicate ValidCeiling(c: int) { c == 0 || MIN_TPDU <= c <= MAX_ITOT_TPDU }

  function Bound(c: int): int { if c == 0 then DEFAULT_MAX_TPDU else c }

  lemma CeilingsValidIff(c: int)
    ensures NormalizeConfiguredMax(c).Ok? <==> c == 0 || 128 <= c <= 65531
    ensures NormalizeConfiguredMax(c).Ok? ==> NormalizeConfiguredMax(c).value == if c == 0 then 65531 else c
    ensures NormalizeConfiguredMax(c).Err? ==> NormalizeConfiguredMax(c).error == {InvalidConfig}
    ensures NormalizeConfiguredMax(c).Ok? <==> ValidCeiling(c)
    ensures ValidCeiling(c) ==> NormalizeConfiguredMax(c) == Ok(Bound(c))
  {
  }

  /** What a peer offer decoded from wire parameters can be. */
  ghost predicate DecodedOffer(o: Offer) {
    exists code, units :: DecodeSizeOffer(code, units) == Ok(o)
  }

  predicate WellFormedOffer(o: Offer) {
    && (o.omitted <==> o.standard == None && o.preferred == None)
    && (o.standard.Some? ==> IsStandard(o.standard.value))
    && (o.preferred.Some? ==> o.preferred.value % 128 == 0 && 128 <= o.preferred.value <= 128 * MAX_PREFERRED_UNITS)
  }

  lemma DecodedIsWellFormed(o: Offer)
    ensures DecodedOffer(o) <==> WellFormedOffer(o)
  {
    if DecodedOffer(o) {
      var code, units :| DecodeSizeOffer(code, units) == Ok(o);
      if code.Some? { TableInverse(code.value, if o.standard.Some? then o.standard.value else 0); }
    }
    if WellFormedOffer(o) {
      var code := if o.standard.Some? then StandardCode(o.standard.value) else None;
      var units: Option<u32> := if o.preferred.Some? then Some(o.preferred.value / 128) else None;
      if code.Some? { TableInverse(code.value, o.standard.value); }
      assert DecodeSizeOffer(code, units) == Ok(o);
    }
  }

  /** What a server reads from the size parameters of a CR: a table size, 1 to 511 units of 128 octets, or neither. */
  lemma OfferRead(code: Option<byte>, units: Option<u32>)
    ensures DecodeSizeOffer(code, units).Ok? <==>
              (code.Some? ==> 7 <= code.value <= 16) && (units.Some? ==> 1 <= units.value <= 511)
    ensures DecodeSizeOffer(code, units).Ok? ==>
              DecodeSizeOffer(code, units).value
              == Offer(if code.Some? then Some(Power(code.value)) else None,
                       if units.Some? then Some(128 * (units.value as int)) else None, code == None && units == None)
    ensures DecodeSizeOffer(code, units).Err? ==> DecodeSizeOffer(code, units).error == {Handshake}
  {
    if code.Some? { TableIsPowers(code.value); }
  }

  /** The path an offer puts the server on. */
  function PathOf(peer: Offer): Path {
    if peer.preferred.Some? then PathPreferred else if peer.standard.Some? then PathStandard else PathOmitted
  }

  /** Sizes a CC can state on a path; on the omitted path saying nothing stands for 65531. */
  predicate Representable(path: Path, n: int) {
    match path
    case PathPreferred => n % 128 == 0 && 128 <= n <= 128 * MAX_PREFERRED_UNITS
    case PathStandard => IsStandard(n)
    case PathOmitted => IsStandard(n) || n == DEFAULT_MAX_TPDU
  }

  predicate Admissible(peer: Offer, serverCeiling: int, callbackCeiling: int, n: int) {
    && Representable(PathOf(peer), n)
    && n <= Bound(serverCeiling)
    && n <= Bound(callbackCeiling)
    && (peer.preferred.Some? ==> n <= peer.preferred.value)
    && (peer.preferred == None && peer.standard.Some? ==> n <= peer.standard.value)
  }

  /** A successful selection: admissible, not below `other` when that is admissible too, within [128, 65531], and
      answered with parameters that say exactly its size, 0xF0 exactly where 0xF0 was offered. */
  predicate Best(peer: Offer, serverCeiling: int, callbackCeiling: int, r: Result<Selection>, other: int) {
    && r.Ok?
    && var sel := r.value;
    && Admissible(peer, serverCeiling, callbackCeiling, sel.effective)
    && (Admissible(peer, serverCeiling, callbackCeiling, other) ==> other <= sel.effective)
    && MIN_TPDU <= sel.effective <= MAX_ITOT_TPDU
    && (sel.standardCode.Some? ==> StandardSize(sel.standardCode.value) == Some(sel.effective))
    && (sel.preferredUnits.Some? <==> peer.preferred.Some?)
    && (sel.preferredUnits.Some? ==> sel.preferredUnits.value * 128 == sel.effective)
    && (sel.standardCode == None && sel.preferredUnits == None ==> peer.omitted && sel.effective == DEFAULT_MAX_TPDU)
    && (sel.standardCode == None || sel.preferredUnits == None)
  }

  lemma BestOmitted(peer: Offer, server: int, callback: int, other: int)
    requires peer == Offer(None, None, true) && ValidCeiling(server) && ValidCeiling(callback)
    ensures Best(peer, server, callback, SelectOmitted(Bound(server), callback), other)
  {
    var ceiling := Min(Bound(server), Bound(callback));
    FallbackIsGreatest(ceiling, other);
    TableInverse(FallbackStandard(ceiling).value.1, FallbackStandard(ceiling).value.0);
    if StandardCode(ceiling).Some? { TableInverse(StandardCode(ceiling).value, ceiling); }
  }

  lemma BestPreferred(peer: Offer, server: int, callback: int, other: int)
    requires WellFormedOffer(peer) && peer.preferred.Some? && ValidCeiling(server) && ValidCeiling(callback)
    ensures Best(peer, server, callback, SelectPreferred(peer.preferred.value, Bound(server), callback), other)
  {
    var p := peer.preferred.value;
    CeilingsValidIff(Bound(server));
    CeilingsValidIff(callback);
    var sel := SelectPreferred(p, Bound(server), callback);
    assert sel.Ok? && sel.value.effective % 128 == 0;
  }

  lemma BestStandard(peer: Offer, server: int, callback: int, other: int)
    requires WellFormedOffer(peer) && peer.preferred == None && peer.standard.Some?
    requires ValidCeiling(server) && ValidCeiling(callback)
    ensures Best(peer, server, callback, SelectStandard(peer.standard.value, Bound(server), callback), other)
  {
    RefloorIsDead(peer.standard.value, Bound(server), callback);
    var selected := StandardFloor(peer.standard.value, Bound(server), callback).value;
    TableInverse(StandardCode(selected).value, selected);
    FallbackIsGreatest(Bound(server), other);
    FallbackIsGreatest(Bound(callback), other);
  }

  /** For every decodable offer and every valid pair of ceilings the server selects, and selects the greatest
      admissible size. */
  lemma SelectIsOptimal(peer: Offer, server: int, callback: int, profile: int, other: int)
    requires WellFormedOffer(peer) && ValidCeiling(server) && ValidCeiling(callback) && ValidProfile(profile)
    ensures Best(peer, server, callback, SelectSize(peer, server, callback, profile), other)
  {
    CeilingsValidIff(server);
    CeilingsValidIff(callback);
    if peer.preferred.Some? {
      BestPreferred(peer, server, callback, other);
    } else if peer.standard.Some? {
      BestStandard(peer, server, callback, other);
    } else {
      BestOmitted(peer, server, callback, other);
    }
  }

  /** For a fixed offer a larger server or policy ceiling never gives a smaller size. */
  lemma SelectIsMonotone(peer: Offer, server: int, server': int, callback: int, callback': int, profile: int)
    requires WellFormedOffer(peer) && ValidProfile(profile)
    requires ValidCeiling(server) && ValidCeiling(server') && ValidCeiling(callback) && ValidCeiling(callback')
    requires Bound(server) <= Bound(server') && Bound(callback) <= Bound(callback')
    ensures var low, high := SelectSize(peer, server, callback, profile), SelectSize(peer, server', callback', profile);
            low.Ok? && high.Ok? && low.value.effective <= high.value.effective
  {
    SelectIsOptimal(peer, server, callback, profile, 0);
    var low := SelectSize(peer, server, callback, profile);
    SelectIsOptimal(peer, server', callback', profile, low.value.effective);
  }

  /** On the standard path the minimum is always a table size: the re-floor branch is never taken. */
  lemma RefloorIsDead(peer: int, serverCeiling: int, callbackCeiling: int)
    requires IsStandard(peer) && ValidCeiling(serverCeiling) && ValidCeiling(callbackCeiling)
    ensures StandardFloor(peer, serverCeiling, callbackCeiling).Ok?
    ensures StandardCode(StandardFloor(peer, serverCeiling, callbackCeiling).value).Some?
  {
    FallbackIsGreatest(Bound(serverCeiling), peer);
    FallbackIsGreatest(Bound(callbackCeiling), peer);
  }

  /** What a client may offer: always decodable, and never above its own ceiling. */
  lemma OfferIsSound(configured: int, profile: int)
    requires ValidCeiling(configured) && ValidProfile(profile)
    ensures BuildSizeOffer(configured, profile).Ok?
    ensures var b := BuildSizeOffer(configured, profile).value;
            && WellFormedOffer(b.offer)
            && DecodeSizeOffer(b.standardCode, b.preferredUnits) == Ok(b.offer)
            && ClientEffectiveProposal(b.offer) <= Bound(configured)
            && (b.offer.standard.Some? ==> b.offer.standard.value <= Bound(configured))
            && (profile == PREFERRED_MAXIMUM ==> b.offer.preferred.Some?)
  {
    hide FallbackStandard, StandardSize, StandardCode;
    var ceiling := Bound(configured);
    if StandardCode(ceiling).Some? { TableInverse(StandardCode(ceiling).value, ceiling); }
    var effective := PreferredUnitsAndEffective(ceiling).value.1;
    FallbackIsGreatest(effective, effective);
    TableInverse(FallbackStandard(effective).value.1, FallbackStandard(effective).value.0);
  }

  predicate InTable(size: int) { exists n | 7 <= n <= 16 :: size == Power(n) }

  /** A table size that a length reaches and that no larger one of the table does. */
  predicate LargestWithin(size: int, length: int) {
    size <= length && exists n | 7 <= n <= 16 :: size == Power(n) && (n == 16 || length < Power(n + 1))
  }

  lemma FallbackIsLargest(length: int)
    requires length >= 128
    ensures FallbackStandard(length).Ok? && LargestWithin(FallbackStandard(length).value.0, length)
    ensures StandardSize(FallbackStandard(length).value.1) == Some(FallbackStandard(length).value.0)
  {
    var (size, code) := FallbackStandard(length).value;
    TableIsPowers(code);
    if code < 16 { TableIsPowers(code + 1); }
  }

  /** What a CR says of sizes. Under Compat: nothing for 65531; the code alone for a table size; else 0xF0 with the
      ceiling in whole units of 128 octets, at most 511, and beside it the largest table size within that. Under
      PreferredMaximum always these two. */
  lemma OfferIs(configured: int, profile: int)
    requires (configured == 0 || 128 <= configured <= 65531) && (profile == 0 || profile == 1)
    ensures BuildSizeOffer(configured, profile).Ok?
    ensures var b := BuildSizeOffer(configured, profile).value;
            var ceiling := if configured == 0 then 65531 else configured;
            var units := WholeUnits(ceiling);
            if profile == 0 && ceiling == 65531 then b == Build(Offer(None, None, true), None, None)
            else
              && b.standardCode.Some? && !b.offer.omitted
              && b.offer.standard == StandardSize(b.standardCode.value) && b.offer.standard.Some?
              && (if profile == 0 && InTable(ceiling)
                  then b.offer.standard == Some(ceiling) && b.preferredUnits == None && b.offer.preferred == None
                  else
                    && b.preferredUnits == Some(units) && b.offer.preferred == Some(128 * units)
                    && LargestWithin(b.offer.standard.value, 128 * units))
  {
    hide FallbackStandard, StandardCode, StandardSize, InTable, LargestWithin, WholeUnits, PreferredUnitsAndEffective;
    var ceiling := if configured == 0 then 65531 else configured;
    UnitsAre(ceiling);
    TablePowers(ceiling);
    FallbackIsLargest(128 * WholeUnits(ceiling));
    if StandardCode(ceiling).Some? {
      TableInverse(StandardCode(ceiling).value, ceiling);
      FallbackIsGreatest(ceiling, ceiling);
      FallbackIsLargest(ceiling);
    }
  }

  /** Whole units of 128 octets, 511 at most. */
  function WholeUnits(length: nat): nat { if length / 128 > 511 then 511 else length / 128 }

  lemma UnitsAre(ceiling: int)
    requires 128 <= ceiling <= 65531
    ensures PreferredUnitsAndEffective(ceiling) == Ok((WholeUnits(ceiling), 128 * WholeUnits(ceiling)))
    ensures 1 <= WholeUnits(ceiling) <= 511
  {
  }

  lemma TablePowers(size: int)
    ensures StandardCode(size).Some? <==> InTable(size)
  {
    if StandardCode(size).Some? {
      TableInverse(StandardCode(size).value, size);
      TableIsPowers(StandardCode(size).value);
      assert size == Power(StandardCode(size).value);
    }
    if n :| 7 <= n <= 16 && size == Power(n) {
      TableIsPowers(n);
      TableInverse(n, size);
    }
  }

  /** The size a server answers any offer with, and the parameter that says it. After 0xF0: 0xF0 alone, with the
      smallest of the units offered and those of the ceilings. After 0xC0 alone: the largest table size within
      the offer and the ceilings. After neither: 65531 in silence if the ceilings allow it, else the largest table size
      within them. */
  lemma SelectionIs(peer: Offer, server: int, callback: int, profile: int)
    requires WellFormedOffer(peer) && (profile == 0 || profile == 1)
    requires (server == 0 || 128 <= server <= 65531) && (callback == 0 || 128 <= callback <= 65531)
    ensures SelectSize(peer, server, callback, profile).Ok?
    ensures var s := SelectSize(peer, server, callback, profile).value;
            var m := Min(if server == 0 then 65531 else server, if callback == 0 then 65531 else callback);
            if peer.preferred.Some? then
              && s.preferredUnits == Some(Min(peer.preferred.value / 128, WholeUnits(m))) && s.standardCode == None
              && s.effective == Min(peer.preferred.value, 128 * WholeUnits(m))
            else if peer.standard == None && m == 65531 then
              s.preferredUnits == None && s.standardCode == None && s.effective == 65531
            else
              && s.preferredUnits == None && s.standardCode.Some?
              && StandardSize(s.standardCode.value) == Some(s.effective)
              && LargestWithin(s.effective, if peer.standard.Some? then Min(peer.standard.value, m) else m)
  {
    hide SelectSize, FallbackStandard, StandardCode, StandardSize, LargestWithin, InTable, Power;
    var m := Min(Bound(server), Bound(callback));
    var n := if peer.standard.Some? then Min(peer.standard.value, m) else m;
    SelectIsOptimal(peer, server, callback, profile, 0);
    var s := SelectSize(peer, server, callback, profile).value;
    if peer.preferred.Some? {
      SelectIsOptimal(peer, server, callback, profile, Min(peer.preferred.value, 128 * WholeUnits(m)));
    } else if peer.standard == None && m == 65531 {
      SelectIsOptimal(peer, server, callback, profile, 65531);
      if s.standardCode.Some? { TableInverse(s.standardCode.value, 65531); NoCodeForLargest(); }
    } else {
      if peer.standard.Some? { StandardReaches(peer.standard.value); }
      FallbackIsLargest(n);
      FallbackIsGreatest(n, s.effective);
      SelectIsOptimal(peer, server, callback, profile, FallbackStandard(n).value.0);
    }
  }

  lemma NoCodeForLargest()
    ensures StandardCode(65531) == None
  {
  }

  lemma StandardReaches(size: int)
    requires IsStandard(size)
    ensures 128 <= size <= 65536
  {
  }

  /** What a client makes of the size parameters of any CC, for any offer it can have sent. 0xF0 alone: if it was
      offered, 1 to 511 units within the offer. 0xC0 alone: if nothing was offered, any table code, capped at 65531;
      else a code within the standard size offered, beside 0xF0 or not. Neither: under Compat, its own proposal.
      Both: never. */
  lemma InterpretationIs(sent: Offer, code: Option<byte>, units: Option<u32>, profile: int)
    requires WellFormedOffer(sent) && (profile == 0 || profile == 1)
    ensures var r := InterpretCCSize(sent, code, units, profile);
            && (r.Err? ==> r.error == {Handshake})
            && (code.Some? && units.Some? ==> r.Err?)
            && (code == None && units == None ==>
                  r == if profile == 1 then Err({Handshake})
                       else if sent.preferred.Some? && sent.preferred.value < 65531 then Ok(sent.preferred.value)
                       else if sent.preferred == None && sent.standard.Some? && sent.standard.value < 65531
                         then Ok(sent.standard.value)
                       else Ok(65531))
            && (code == None && units.Some? ==>
                  var size := 128 * (units.value as int);
                  r == if sent.preferred.Some? && 1 <= units.value <= 511 && size <= sent.preferred.value
                       then Ok(size) else Err({Handshake}))
            && (code.Some? && units == None ==>
                  r == if !(7 <= code.value <= 16) then Err({Handshake})
                       else if sent.omitted then Ok(if Power(code.value) > 65531 then 65531 else Power(code.value))
                       else if sent.standard.Some? && Power(code.value) <= sent.standard.value
                         then Ok(Power(code.value))
                       else Err({Handshake}))
  {
    if code.Some? { TableIsPowers(code.value); }
    hide Power, StandardSize, StandardCode;
  }

  /** Whatever the CC says, an accepted interpretation is a size the client can live with. */
  lemma InterpretationIsBounded(configured: int, profile: int, code: Option<byte>, units: Option<u32>, ccProfile: int)
    requires ValidCeiling(configured) && ValidProfile(profile)
    ensures var sent := BuildSizeOffer(configured, profile).value.offer;
            var r := InterpretCCSize(sent, code, units, ccProfile);
            r.Ok? ==> MIN_TPDU <= r.value <= Bound(configured)
  {
    OfferIsSound(configured, profile);
    if code.Some? { TableInverse(code.value, 0); }
  }

  /** The negotiation: for all ceilings and profiles on both sides, offering, decoding, selecting and interpreting
      succeed and leave client and server with one size, at least 128 and within every ceiling. */
  lemma NegotiationAgrees(client: int, clientProfile: int, server: int, callback: int, serverProfile: int)
    requires ValidCeiling(client) && ValidCeiling(server) && ValidCeiling(callback)
    requires ValidProfile(clientProfile) && ValidProfile(serverProfile)
    ensures BuildSizeOffer(client, clientProfile).Ok?
    ensures var b := BuildSizeOffer(client, clientProfile).value;
            && DecodeSizeOffer(b.standardCode, b.preferredUnits).Ok?
            && var peer := DecodeSizeOffer(b.standardCode, b.preferredUnits).value;
            && SelectSize(peer, server, callback, serverProfile).Ok?
            && var sel := SelectSize(peer, server, callback, serverProfile).value;
            && InterpretCCSize(b.offer, sel.standardCode, sel.preferredUnits, clientProfile) == Ok(sel.effective)
            && MIN_TPDU <= sel.effective
            && sel.effective <= Bound(client) && sel.effective <= Bound(server) && sel.effective <= Bound(callback)
  {
    hide SelectSize, StandardCode, StandardSize, FallbackStandard, BuildSizeOffer;
    OfferIsSound(client, clientProfile);
    SelectIsOptimal(BuildSizeOffer(client, clientProfile).value.offer, server, callback, serverProfile, 0);
  }

  // ---------------------------------------------------------------- the agreed size

  /** The size both ends hold after offer, decoding, selection and interpretation. */
  function AgreedSize(client: int, server: int, callback: int, clientProfile: int, serverProfile: int): Result<int> {
    var b :- BuildSizeOffer(client, clientProfile);
    var peer :- DecodeSizeOffer(b.standardCode, b.preferredUnits);
    var sel :- SelectSize(peer, server, callback, serverProfile);
    InterpretCCSize(b.offer, sel.standardCode, sel.preferredUnits, clientProfile)
  }

  /** The largest preferred size not above a length. */
  function PreferredFloor(length: int): int { 128 * Min(length / 128, MAX_PREFERRED_UNITS) }

  /** What a CC can say without 0xF0 for a bound: silence for 65531, else a size of the table. */
  function StandardOrSilent(length: int): int
    requires length >= MIN_TPDU
  {
    if length == DEFAULT_MAX_TPDU then DEFAULT_MAX_TPDU else FallbackStandard(length).value.0
  }

  /** The CR of a client with this ceiling carries 0xF0. */
  predicate OffersPreferred(client: int, profile: int) {
    profile == PREFERRED_MAXIMUM || (Bound(client) != DEFAULT_MAX_TPDU && !IsStandard(Bound(client)))
  }

  /** The size in closed form: the client's own ceiling alone decides on which scale the smallest ceiling is read. */
  function SizeFor(client: int, profile: int, others: int): int
    requires Bound(client) >= MIN_TPDU && others >= MIN_TPDU
  {
    if OffersPreferred(client, profile) then Min(PreferredFloor(Bound(client)), PreferredFloor(others))
    else StandardOrSilent(Min(Bound(client), others))
  }

  /** The greatest preferred size within a bound. */
  lemma PreferredFloorIsGreatest(length: int, n: int)
    requires length >= MIN_TPDU
    ensures Representable(PathPreferred, PreferredFloor(length)) && PreferredFloor(length) <= length
    ensures Representable(PathPreferred, n) && n <= length ==> n <= PreferredFloor(length)
  {
  }

  /** The offer by path. */
  lemma OfferOf(client: int, profile: int)
    requires ValidCeiling(client) && ValidProfile(profile)
    ensures BuildSizeOffer(client, profile).Ok?
    ensures var o := BuildSizeOffer(client, profile).value.offer;
            && PathOf(o) == (if OffersPreferred(client, profile) then PathPreferred
                             else if Bound(client) == DEFAULT_MAX_TPDU then PathOmitted else PathStandard)
            && (o.preferred.Some? ==> o.preferred.value == PreferredFloor(Bound(client)))
            && (PathOf(o) == PathStandard ==> o.standard == Some(Bound(client)))
  {
    hide FallbackStandard, StandardCode;
    OfferIsSound(client, profile);
  }

  /** On each path the greatest admissible size is the closed form. */
  lemma SizeForIsGreatest(client: int, profile: int, server: int, callback: int, n: int)
    requires ValidCeiling(client) && ValidCeiling(server) && ValidCeiling(callback) && ValidProfile(profile)
    ensures BuildSizeOffer(client, profile).Ok?
    ensures var peer := BuildSizeOffer(client, profile).value.offer;
            var size := SizeFor(client, profile, Min(Bound(server), Bound(callback)));
            && Admissible(peer, server, callback, size)
            && (Admissible(peer, server, callback, n) ==> n <= size)
  {
    var m := Min(Bound(server), Bound(callback));
    OfferOf(client, profile);
    PreferredFloorIsGreatest(Bound(client), n);
    PreferredFloorIsGreatest(m, n);
    FallbackIsGreatest(Min(Bound(client), m), n);
    hide BuildSizeOffer, FallbackStandard, StandardCode;
  }

  /** For all valid ceilings and profiles the two ends agree on the closed form. */
  lemma AgreedSizeIs(client: int, server: int, callback: int, clientProfile: int, serverProfile: int)
    requires ValidCeiling(client) && ValidCeiling(server) && ValidCeiling(callback)
    requires ValidProfile(clientProfile) && ValidProfile(serverProfile)
    ensures AgreedSize(client, server, callback, clientProfile, serverProfile)
            == Ok(SizeFor(client, clientProfile, Min(Bound(server), Bound(callback))))
  {
    hide BuildSizeOffer, DecodeSizeOffer, SelectSize, InterpretCCSize, SizeFor;
    hide StandardCode, StandardSize, FallbackStandard;
    OfferIsSound(client, clientProfile);
    NegotiationAgrees(client, clientProfile, server, callback, serverProfile);
    var peer := BuildSizeOffer(client, clientProfile).value.offer;
    var size := SizeFor(client, clientProfile, Min(Bound(server), Bound(callback)));
    SelectIsOptimal(peer, server, callback, serverProfile, size);
    SizeForIsGreatest(client, clientProfile, server, callback,
                      SelectSize(peer, server, callback, serverProfile).value.effective);
  }

  /** Raising the client's ceiling moves the exchange from the preferred scale to the standard one, the other ceilings
      are below the raised one, and the step of the table under them lies at least 128 octets under what the preferred
      scale could reach. */
  predicate LeavesFinerScale(client: int, client': int, profile: int, others: int)
    requires others >= MIN_TPDU
  {
    && OffersPreferred(client, profile) && !OffersPreferred(client', profile)
    && others < Bound(client')
    && FallbackStandard(others).value.0 + 128 <= Min(Bound(client), others)
  }

  /** The agreed size follows the client's ceiling upwards except exactly then; under PreferredMaximum always. */
  lemma MonotoneInClientIff(client: int, client': int, server: int, callback: int, profile: int, serverProfile: int)
    requires ValidCeiling(client) && ValidCeiling(client') && ValidCeiling(server) && ValidCeiling(callback)
    requires ValidProfile(profile) && ValidProfile(serverProfile) && Bound(client) <= Bound(client')
    ensures var low := AgreedSize(client, server, callback, profile, serverProfile);
            var high := AgreedSize(client', server, callback, profile, serverProfile);
            && low.Ok? && high.Ok?
            && (low.value <= high.value <==>
                  !LeavesFinerScale(client, client', profile, Min(Bound(server), Bound(callback))))
            && (profile == PREFERRED_MAXIMUM ==> low.value <= high.value)
  {
    var m := Min(Bound(server), Bound(callback));
    AgreedSizeIs(client, server, callback, profile, serverProfile);
    AgreedSizeIs(client', server, callback, profile, serverProfile);
    SizesCompare(client, client', m, profile);
  }

  lemma SizesCompare(client: int, client': int, m: int, profile: int)
    requires ValidCeiling(client) && ValidCeiling(client') && ValidProfile(profile)
    requires Bound(client) <= Bound(client') && MIN_TPDU <= m <= MAX_ITOT_TPDU
    ensures SizeFor(client, profile, m) <= SizeFor(client', profile, m)
            <==> !LeavesFinerScale(client, client', profile, m)
  {
    hide FallbackStandard, StandardCode, PreferredFloor;
    FallbackIsGreatest(Min(Bound(client), m), 0);
    var n := FallbackStandard(Min(Bound(client), m)).value.0;
    if OffersPreferred(client, profile) && !OffersPreferred(client', profile) {
      LeavingCompares(client, client', m, profile);
    } else if OffersPreferred(client, profile) {
      FloorsCompare(Bound(client), Bound(client'), 0);
    } else {
      FallbackIsGreatest(Min(Bound(client), m), n);
      FallbackIsGreatest(Min(Bound(client'), m), n);
      if OffersPreferred(client', profile) {
        StandardBelowLargest(Bound(client), Bound(client'));
        StandardIsPreferred(n);
        PreferredFloorIsGreatest(Bound(client'), n);
        PreferredFloorIsGreatest(m, n);
      }
    }
  }

  /** The preferred scale keeps order, and passes a size on it exactly from 128 octets above on. */
  lemma FloorsCompare(x: int, y: int, n: int)
    requires MIN_TPDU <= x <= y <= MAX_ITOT_TPDU && n % 128 == 0
    ensures PreferredFloor(x) <= PreferredFloor(y)
    ensures n < PreferredFloor(x) <==> n + 128 <= x
  {
  }

  /** An ITOT bound that is standard is below the largest one. */
  lemma StandardBelowLargest(bound: int, bound': int)
    requires bound <= bound' <= MAX_ITOT_TPDU && (bound == DEFAULT_MAX_TPDU || IsStandard(bound))
    requires bound' != DEFAULT_MAX_TPDU
    ensures IsStandard(bound) && bound != DEFAULT_MAX_TPDU
  {
  }

  lemma LeavingCompares(client: int, client': int, m: int, profile: int)
    requires ValidCeiling(client) && ValidCeiling(client') && ValidProfile(profile)
    requires Bound(client) <= Bound(client') && MIN_TPDU <= m <= MAX_ITOT_TPDU
    requires OffersPreferred(client, profile) && !OffersPreferred(client', profile)
    ensures SizeFor(client, profile, m) <= SizeFor(client', profile, m)
            <==> !LeavesFinerScale(client, client', profile, m)
  {
    hide FallbackStandard, StandardCode, PreferredFloor;
    FallbackIsGreatest(Min(Bound(client'), m), Bound(client'));
    var n := FallbackStandard(Min(Bound(client'), m)).value.0;
    StandardIsPreferred(n);
    FloorsCompare(Bound(client), Bound(client'), n);
    FloorsCompare(m, m, n);
    PreferredFloorIsGreatest(Bound(client), n);
  }

  /** Every table size an ITOT ceiling allows is also a preferred size. */
  lemma StandardIsPreferred(n: int)
    requires IsStandard(n) && n <= MAX_ITOT_TPDU
    ensures Representable(PathPreferred, n)
  {
  }

  /** That exception exists: raising the ceiling from 1000 to 1024 against a server at 1000 takes 896 to 512. */
  lemma NotMonotoneInClient()
    ensures var low, high := BuildSizeOffer(1000, RFC1006_COMPAT), BuildSizeOffer(1024, RFC1006_COMPAT);
            && low.Ok? && high.Ok?
            && SelectSize(low.value.offer, 1000, 0, RFC1006_COMPAT) == Ok(Selection(PathPreferred, 896, None, Some(7)))
            && SelectSize(high.value.offer, 1000, 0, RFC1006_COMPAT)
               == Ok(Selection(PathStandard, 512, Some(0x09), None))
    ensures LeavesFinerScale(1000, 1024, RFC1006_COMPAT, 1000)
  {
  }
}

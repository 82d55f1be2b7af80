/** Preferred-maximum TPDU size values (preferred_max.go): units of 128 octets in 1 to 4 big-endian octets. */
module PreferredMax {
  import opened Types

  /** The number a big-endian octet string denotes. */
  function BigEndian(v: bytes): nat {
    if v == [] then 0 else 0x100 * BigEndian(v[..|v| - 1]) + v[|v| - 1]
  }

  function Zeros(n: nat): bytes { seq(n, _ => 0) }

  /** The big-endian octets of a positive number with no leading zero. */
  function Shortest(n: nat): bytes
    requires n > 0
  {
    (if n < 0x100 then [] else Shortest(n / 0x100)) + [n % 0x100]
  }

  lemma {:induction false} ShortestDenotes(n: nat)
    requires n > 0
    ensures BigEndian(Shortest(n)) == n && Shortest(n)[0] != 0
  {
    var s := Shortest(n);
    if n >= 0x100 {
      ShortestDenotes(n / 0x100);
      assert s[..|s| - 1] == Shortest(n / 0x100);
    } else {
      assert s[..|s| - 1] == [];
    }
  }

  /** Every octet string for a positive number is its shortest form behind leading zeros. */
  lemma {:induction false} ShortestIsUnique(v: bytes)
    requires BigEndian(v) > 0
    ensures |Shortest(BigEndian(v))| <= |v|
    ensures v == Zeros(|v| - |Shortest(BigEndian(v))|) + Shortest(BigEndian(v))
  {
    var n, init := BigEndian(v), v[..|v| - 1];
    assert v == init + [v[|v| - 1]];
    assert n / 0x100 == BigEndian(init) && n % 0x100 == v[|v| - 1];
    if n >= 0x100 {
      ShortestIsUnique(init);
    } else {
      ZeroValue(init);
    }
  }

  lemma {:induction false} ZeroValue(v: bytes)
    requires BigEndian(v) == 0
    ensures v == Zeros(|v|)
  {
    if v != [] {
      ZeroValue(v[..|v| - 1]);
      assert v == v[..|v| - 1] + [v[|v| - 1]];
    }
  }

  lemma {:induction false} BigEndianBound(v: bytes, bound: nat)
    requires bound == Pow256(|v|)
    ensures BigEndian(v) < bound
  {
    if v != [] {
      BigEndianBound(v[..|v| - 1], Pow256(|v| - 1));
    }
  }

  function Pow256(n: nat): nat {
    if n == 0 then 1 else 0x100 * Pow256(n - 1)
  }

  /** What decodePreferredMaxUnits accepts, and as what. */
  function UnitsOf(value: bytes): Result<u32> {
    if !(1 <= |value| <= 4) then Err({UnexpectedParameterLength})
    else if BigEndian(value) == 0 then Err({UnexpectedParameterLength})
    else
      assert BigEndian(value) < 0x1_0000_0000 by { FourOctets(value); }
      Ok(BigEndian(value))
  }

  lemma FourOctets(v: bytes)
    requires |v| <= 4
    ensures BigEndian(v) < 0x1_0000_0000
  {
    BigEndianBound(v, Pow256(|v|));
    assert Pow256(0) == 1;
    assert Pow256(1) == 0x100;
    assert Pow256(2) == 0x1_0000;
    assert Pow256(3) == 0x100_0000;
    assert Pow256(4) == 0x1_0000_0000;
  }

  /** What encodePreferredMaxUnits produces. */
  function UnitsForm(units: u32): Result<bytes> {
    if units == 0 then Err({UnexpectedParameterLength}) else Ok(Shortest(units))
  }

  /** The shortest form of a 32-bit value takes 1 to 4 octets. */
  lemma ShortestFits(units: u32)
    requires units > 0
    ensures 1 <= |Shortest(units)| <= 4
  {
    var a, b, c := units / 0x100, units / 0x1_0000, units / 0x100_0000;
    assert units >= 0x100 ==> Shortest(units) == Shortest(a) + [units % 0x100];
    assert a >= 0x100 ==> Shortest(a) == Shortest(b) + [a % 0x100];
    assert b >= 0x100 ==> Shortest(b) == Shortest(c) + [b % 0x100];
    assert c < 0x100;
  }

  /** Encoding gives the unique shortest accepted form, and decoding inverts it. */
  lemma UnitsRoundTrip(units: u32)
    requires units > 0
    ensures UnitsForm(units).Ok? && UnitsOf(UnitsForm(units).value) == Ok(units)
    ensures forall v | UnitsOf(v) == Ok(units) ::
              v == UnitsForm(units).value || |v| > |UnitsForm(units).value|
  {
    ShortestDenotes(units);
    ShortestFits(units);
    forall v: bytes | UnitsOf(v) == Ok(units)
      ensures v == Shortest(units) || |v| > |Shortest(units)|
    {
      ShortestIsUnique(v);
    }
  }

  method DecodePreferredMaxUnits(value: bytes) returns (r: Result<u32>)
    ensures r == UnitsOf(value)
  {
    if |value| < 1 || |value| > 4 {
      return Err({UnexpectedParameterLength});
    }
    var units: u32 := 0;
    for i := 0 to |value|
      invariant units == BigEndian(value[..i])
    {
      FourOctets(value[..i + 1]);
      assert value[..i + 1][..i] == value[..i];
      // The shift of a uint32 wraps modulo 2^32; with four octets at most it never does.
      units := (units * 0x100) % 0x1_0000_0000 + value[i];
    }
    assert value[..|value|] == value;
    if units == 0 {
      return Err({UnexpectedParameterLength});
    }
    return Ok(units);
  }

  method EncodePreferredMaxUnits(units: u32) returns (r: Result<bytes>)
    ensures r == UnitsForm(units)
  {
    hide BigEndian, Shortest;
    if units == 0 {
      return Err({UnexpectedParameterLength});
    }
    var buf: bytes := [units / 0x100_0000, units / 0x1_0000 % 0x100, units / 0x100 % 0x100, units % 0x100];
    WordDenotes(units);
    ShortestIsUnique(buf);
    var lead := 0;
    ShortestDenotes(units);
    ShortestFits(units);
    assert buf[4 - |Shortest(units)|] == Shortest(units)[0];
    while buf[lead] == 0
      invariant lead <= 4 - |Shortest(units)|
      invariant lead < 4
      decreases 4 - lead
    {
      lead := lead + 1;
    }
    assert buf[lead..] == Shortest(units);
    return Ok(buf[lead..]);
  }

  lemma WordDenotes(units: u32)
    ensures BigEndian([units / 0x100_0000, units / 0x1_0000 % 0x100, units / 0x100 % 0x100, units % 0x100]) == units
  {
    var b: bytes := [units / 0x100_0000, units / 0x1_0000 % 0x100, units / 0x100 % 0x100, units % 0x100];
    assert b[..3] == [b[0], b[1], b[2]] && b[..3][..2] == [b[0], b[1]] && b[..3][..2][..1] == [b[0]];
    assert b[..3][..2][..1][..0] == [];
    assert BigEndian([b[0]]) == b[0];
    assert BigEndian([b[0], b[1]]) == units / 0x1_0000;
    assert BigEndian([b[0], b[1], b[2]]) == units / 0x100;
  }

  /** PreferredMaxTPDULength: octets for wire units. */
  function LengthOfUnits(units: u32): Result<nat> {
    if units == 0 then Err({UnexpectedParameterLength}) else Ok(units * 128)
  }

  /** PreferredMaxTPDUUnits: exact units for a 64-bit octet length. */
  function UnitsOfLength(length: nat): Result<u32>
    requires length < 0x1_0000_0000_0000_0000
  {
    if length == 0 then Err({UnexpectedParameterLength})
    else if length % 128 != 0 then Err({UnexpectedParameterLength})
    else if length / 128 > 0xFFFF_FFFF then Err({UnexpectedParameterLength})
    else Ok(length / 128)
  }

  /** The two helpers are inverse to each other wherever either is defined. */
  lemma LengthUnitsInverse(length: nat, units: u32)
    requires length < 0x1_0000_0000_0000_0000
    ensures LengthOfUnits(units) == Ok(length) <==> UnitsOfLength(length) == Ok(units)
    ensures LengthOfUnits(units) == Ok(length) <==> units > 0 && length == 128 * units
    ensures LengthOfUnits(units).Err? ==> LengthOfUnits(units).error == {UnexpectedParameterLength}
    ensures UnitsOfLength(length).Err? ==> UnitsOfLength(length).error == {UnexpectedParameterLength}
  {
  }
}

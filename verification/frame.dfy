/** The header every TPDU shares (wire.go): length indicator, fixed part, variable part, then user data. */
module Frame {
  import opened Types

  const MAX_LI := 254

  datatype Frame = Frame(fixed: bytes, variable: bytes, userData: bytes)

  function ReadLI(b: bytes): Result<byte> {
    if |b| < 1 then Err({TooShort}) else if b[0] > MAX_LI then Err({InvalidLI}) else Ok(b[0])
  }

  function HeaderBounds(b: bytes, li: byte, fixedLength: nat): Result<nat> {
    if li < fixedLength then Err({InvalidLI})
    else if |b| < 1 + li then Err({TooShort})
    else Ok(1 + li)
  }

  /** The three stretches of a TPDU whose fixed part has the given length. */
  function Split(b: bytes, fixedLength: nat): (r: Result<Frame>)
    ensures r.Ok? ==> |r.value.fixed| == fixedLength
  {
    if |b| < 1 + fixedLength then Err({TooShort}) else
      var li :- ReadLI(b);
      var header :- HeaderBounds(b, li, fixedLength);
      Ok(Frame(b[1..1 + fixedLength], b[1 + fixedLength..header], b[header..]))
  }

  function Join(f: Frame): Result<bytes> {
    if |f.fixed| + |f.variable| > MAX_LI then Err({InvalidLI})
    else Ok([|f.fixed| + |f.variable|] + f.fixed + f.variable + f.userData)
  }

  lemma SplitJoin(f: Frame)
    requires Join(f).Ok?
    ensures Split(Join(f).value, |f.fixed|) == Ok(f)
    ensures |Join(f).value| == 1 + |f.fixed| + |f.variable| + |f.userData|
  {
    var b, n, h := Join(f).value, |f.fixed|, 1 + |f.fixed| + |f.variable|;
    assert b[1..1 + n] == f.fixed && b[1 + n..h] == f.variable && b[h..] == f.userData;
  }

  lemma JoinSplit(b: bytes, fixedLength: nat)
    requires Split(b, fixedLength).Ok?
    ensures Join(Split(b, fixedLength).value) == Ok(b)
    ensures var f := Split(b, fixedLength).value; |b| == 1 + fixedLength + |f.variable| + |f.userData|
  {
    var f := Split(b, fixedLength).value;
    assert [b[0]] + f.fixed + f.variable + f.userData == b;
  }
}

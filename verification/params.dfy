/** Variable parts (params.go): code, length, value triples, and the CR/CC interpretation of them. */
module Params {
  import opened Types
  import opened PreferredMax

  datatype Parameter = Parameter(code: byte, value: bytes)

  const MAX_VALUE_LENGTH := 255

  const CALLING: byte := 0xC1
  const CALLED: byte := 0xC2
  const TPDU_SIZE: byte := 0xC0
  const PREFERRED: byte := 0xF0

  predicate Known(code: byte) { code == CALLING || code == CALLED || code == TPDU_SIZE || code == PREFERRED }

  predicate Fits(p: Parameter) { |p.value| <= MAX_VALUE_LENGTH }

  // ---------------------------------------------------------------- generic variable part

  /** The first parameter of a variable part and the octets behind it. */
  function ParseOne(b: bytes): (r: Result<(Parameter, bytes)>)
    requires b != []
    ensures r.Ok? ==> |r.value.1| < |b|
  {
    if |b| < 2 || 2 + b[1] > |b| then Err({MalformedParameter})
    else Ok((Parameter(b[0], b[2..2 + b[1]]), b[2 + b[1]..]))
  }

  function PrintOne(p: Parameter): bytes
    requires Fits(p)
  {
    [p.code, |p.value|] + p.value
  }

  function Parse(b: bytes): Result<seq<Parameter>>
    decreases |b|
  {
    if b == [] then Ok([]) else
      var (p, rest) :- ParseOne(b);
      var ps :- Parse(rest);
      Ok([p] + ps)
  }

  function Print(ps: seq<Parameter>): Result<bytes> {
    if ps == [] then Ok([])
    else if !Fits(ps[0]) then Err({UnexpectedParameterLength})
    else
      var b :- Print(ps[1..]);
      Ok(PrintOne(ps[0]) + b)
  }

  lemma OneInverse(p: Parameter, rest: bytes, b: bytes)
    ensures Fits(p) ==> ParseOne(PrintOne(p) + rest) == Ok((p, rest))
    ensures b != [] && ParseOne(b).Ok? ==>
              Fits(ParseOne(b).value.0) && b == PrintOne(ParseOne(b).value.0) + ParseOne(b).value.1
  {
    if Fits(p) {
      var whole := PrintOne(p) + rest;
      assert whole[2..2 + |p.value|] == p.value && whole[2 + |p.value|..] == rest;
    }
  }

  /** Parsing undoes printing. */
  lemma {:induction false} ParsePrint(ps: seq<Parameter>)
    requires Print(ps).Ok?
    ensures Parse(Print(ps).value) == Ok(ps)
  {
    if ps != [] {
      var rest := Print(ps[1..]).value;
      ParsePrint(ps[1..]);
      OneInverse(ps[0], rest, []);
      assert Parse(PrintOne(ps[0]) + rest) == Ok([ps[0]] + ps[1..]);
      assert [ps[0]] + ps[1..] == ps;
    }
  }

  /** Printing undoes parsing, octet for octet. */
  lemma {:induction false} PrintParse(b: bytes)
    requires Parse(b).Ok?
    ensures Print(Parse(b).value) == Ok(b)
    decreases |b|
  {
    if b != [] {
      OneInverse(Parameter(0, []), [], b);
      PrintParse(ParseOne(b).value.1);
    }
  }

  /** Printing fails exactly when some value does not fit its one-octet length field. */
  lemma {:induction false} PrintsIffFits(ps: seq<Parameter>)
    ensures Print(ps).Ok? <==> forall p | p in ps :: Fits(p)
    ensures Print(ps).Err? ==> Print(ps).error == {UnexpectedParameterLength}
  {
    if ps != [] {
      assert ps == [ps[0]] + ps[1..];
      PrintsIffFits(ps[1..]);
    }
  }

  /** A parse result behind parameters already collected. */
  function Behind(done: seq<Parameter>, r: Result<seq<Parameter>>): Result<seq<Parameter>> {
    if r.Ok? then Ok(done + r.value) else r
  }

  lemma BehindNothing(r: Result<seq<Parameter>>)
    ensures Behind([], r) == r
  {
    if r.Ok? { assert [] + r.value == r.value; }
  }

  lemma BehindOne(done: seq<Parameter>, p: Parameter, r: Result<seq<Parameter>>)
    ensures Behind(done, Behind([p], r)) == Behind(done + [p], r)
  {
    if r.Ok? { assert done + ([p] + r.value) == (done + [p]) + r.value; }
  }

  method ParseVariablePart(b: bytes) returns (r: Result<seq<Parameter>>)
    ensures r == Parse(b)
  {
    var params: seq<Parameter> := [];
    var pos := 0;
    assert b[0..] == b;
    BehindNothing(Parse(b));
    while pos < |b|
      invariant 0 <= pos <= |b|
      invariant Parse(b) == Behind(params, Parse(b[pos..]))
      decreases |b| - pos
    {
      if pos + 2 > |b| {
        return Err({MalformedParameter});
      }
      var code, length := b[pos], b[pos + 1];
      if pos + 2 + length > |b| {
        return Err({MalformedParameter});
      }
      ghost var here := b[pos..];
      assert here[2..2 + length] == b[pos + 2..pos + 2 + length] && here[2 + length..] == b[pos + 2 + length..];
      BehindOne(params, Parameter(code, b[pos + 2..pos + 2 + length]), Parse(b[pos + 2 + length..]));
      params := params + [Parameter(code, b[pos + 2..pos + 2 + length])];
      pos := pos + 2 + length;
    }
    assert params + [] == params;
    return Ok(params);
  }

  method AppendParameter(dst: bytes, p: Parameter) returns (r: Result<bytes>)
    ensures r == if Fits(p) then Ok(dst + PrintOne(p)) else Err({UnexpectedParameterLength})
  {
    if |p.value| > MAX_VALUE_LENGTH {
      return Err({UnexpectedParameterLength});
    }
    var out := dst + [p.code, |p.value|];
    assert out + p.value == dst + PrintOne(p);
    return Ok(out + p.value);
  }

  /** A print result behind octets already written. */
  function Onto(dst: bytes, r: Result<bytes>): Result<bytes> {
    if r.Ok? then Ok(dst + r.value) else r
  }

  lemma OntoOne(dst: bytes, ps: seq<Parameter>)
    ensures Onto([], Print(ps)) == Print(ps)
    ensures ps != [] ==>
              Onto(dst, Print(ps)) ==
              if Fits(ps[0]) then Onto(dst + PrintOne(ps[0]), Print(ps[1..])) else Err({UnexpectedParameterLength})
  {
    if Print(ps).Ok? {
      assert [] + Print(ps).value == Print(ps).value;
      if ps != [] {
        var rest := Print(ps[1..]).value;
        assert dst + (PrintOne(ps[0]) + rest) == (dst + PrintOne(ps[0])) + rest;
      }
    }
  }

  method EncodeVariablePart(params: seq<Parameter>) returns (r: Result<bytes>)
    ensures r == Print(params)
  {
    var out: bytes := [];
    OntoOne([], params);
    for i := 0 to |params|
      invariant Print(params) == Onto(out, Print(params[i..]))
    {
      OntoOne(out, params[i..]);
      var step := AppendParameter(out, params[i]);
      if step.Err? {
        return Err(step.error);
      }
      out := step.value;
    }
    assert out + [] == out;
    return Ok(out);
  }

  // ---------------------------------------------------------------- CR/CC variable part

  /** The variable part of a CR or CC. A selector present with length 0 is Some([]). */
  datatype Options = Options(
    calling: Option<bytes>, called: Option<bytes>, size: Option<byte>, preferred: Option<u32>,
    others: seq<Parameter>)

  const NO_OPTIONS := Options(None, None, None, None, [])

  function Later<T>(first: Option<T>, second: Option<T>): Option<T> { if second.Some? then second else first }

  /** Two consecutive stretches of a variable part: known parameters of the later one win. */
  function Merge(a: Options, b: Options): Options {
    Options(Later(a.calling, b.calling), Later(a.called, b.called), Later(a.size, b.size),
            Later(a.preferred, b.preferred), a.others + b.others)
  }

  /** One parameter read as a CR/CC option. */
  function Interpret(p: Parameter): Result<Options> {
    if p.code == CALLING then Ok(NO_OPTIONS.(calling := Some(p.value)))
    else if p.code == CALLED then Ok(NO_OPTIONS.(called := Some(p.value)))
    else if p.code == TPDU_SIZE then
      if |p.value| != 1 then Err({UnexpectedParameterLength}) else Ok(NO_OPTIONS.(size := Some(p.value[0])))
    else if p.code == PREFERRED then
      var units :- UnitsOf(p.value);
      Ok(NO_OPTIONS.(preferred := Some(units)))
    else Ok(NO_OPTIONS.(others := [p]))
  }

  function ParseOptions(b: bytes): Result<Options>
    decreases |b|
  {
    if b == [] then Ok(NO_OPTIONS) else
      var (p, rest) :- ParseOne(b);
      var head :- Interpret(p);
      var tail :- ParseOptions(rest);
      Ok(Merge(head, tail))
  }

  function LastValue(ps: seq<Parameter>, code: byte): Option<bytes> {
    if ps == [] then None
    else if ps[|ps| - 1].code == code then Some(ps[|ps| - 1].value)
    else LastValue(ps[..|ps| - 1], code)
  }

  function Unknown(ps: seq<Parameter>): seq<Parameter> {
    if ps == [] then [] else (if Known(ps[0].code) then [] else [ps[0]]) + Unknown(ps[1..])
  }

  /** What a CR/CC variable part means, stated over the generic parameter list. */
  predicate Means(ps: seq<Parameter>, o: Options) {
    && o.calling == LastValue(ps, CALLING)
    && o.called == LastValue(ps, CALLED)
    && (match LastValue(ps, TPDU_SIZE) case None => o.size == None case Some(v) => |v| == 1 && o.size == Some(v[0]))
    && (match LastValue(ps, PREFERRED)
        case None => o.preferred == None
        case Some(v) => UnitsOf(v).Ok? && o.preferred == Some(UnitsOf(v).value))
    && o.others == Unknown(ps)
  }

  lemma {:induction false} LastValueOfCons(p: Parameter, ps: seq<Parameter>, code: byte)
    ensures LastValue([p] + ps, code) == Later(if p.code == code then Some(p.value) else None, LastValue(ps, code))
  {
    var all := [p] + ps;
    if ps == [] {
      assert all[..|all| - 1] == [];
    } else {
      LastValueOfCons(p, ps[..|ps| - 1], code);
      assert all[..|all| - 1] == [p] + ps[..|ps| - 1];
    }
  }

  /** A variable part is accepted exactly when it splits into parameters that each interpret,
      and then the last occurrence of every known code wins and every unknown one is kept in order. */
  lemma {:induction false} LastWins(b: bytes)
    ensures ParseOptions(b).Ok? <==> Parse(b).Ok? && forall p | p in Parse(b).value :: Interpret(p).Ok?
    ensures ParseOptions(b).Ok? ==> Means(Parse(b).value, ParseOptions(b).value)
    decreases |b|
  {
    if b != [] && ParseOne(b).Ok? {
      var (p, rest) := ParseOne(b).value;
      LastWins(rest);
      if Parse(rest).Ok? {
        var ps := Parse(rest).value;
        assert Parse(b).value == [p] + ps;
        assert p in [p] + ps && forall q | q in ps :: q in [p] + ps;
        LastValueOfCons(p, ps, CALLING);
        LastValueOfCons(p, ps, CALLED);
        LastValueOfCons(p, ps, TPDU_SIZE);
        LastValueOfCons(p, ps, PREFERRED);
        assert ([p] + ps)[1..] == ps;
      }
    }
  }

  // ---------------------------------------------------------------- canonical CR/CC variable part

  function SelectorPart(code: byte, selector: Option<bytes>): Result<bytes> {
    if selector == None then Ok([])
    else if |selector.value| > MAX_VALUE_LENGTH then Err({UnexpectedParameterLength})
    else Ok(PrintOne(Parameter(code, selector.value)))
  }

  function SizePart(size: Option<byte>): bytes {
    if size == None then [] else [TPDU_SIZE, 1, size.value]
  }

  function PreferredPart(preferred: Option<u32>): Result<bytes> {
    if preferred == None then Ok([])
    else
      var form :- UnitsForm(preferred.value);
      if |form| > MAX_VALUE_LENGTH then Err({UnexpectedParameterLength})
      else Ok(PrintOne(Parameter(PREFERRED, form)))
  }

  /** The canonical encoding: 0xC1, 0xC2, 0xC0, 0xF0, then the parameters with other codes. */
  function EncodeOptions(o: Options): Result<bytes> {
    var calling :- SelectorPart(CALLING, o.calling);
    var called :- SelectorPart(CALLED, o.called);
    var preferred :- PreferredPart(o.preferred);
    var others :- Print(Unknown(o.others));
    Ok(calling + called + SizePart(o.size) + preferred + others)
  }

  /** What survives encoding: parameters that carry a known code are dropped from the generic list. */
  function Normal(o: Options): Options { o.(others := Unknown(o.others)) }

  lemma {:induction false} UnknownIdempotent(ps: seq<Parameter>)
    ensures Unknown(Unknown(ps)) == Unknown(ps)
    ensures forall p | p in Unknown(ps) :: !Known(p.code) && p in ps
  {
    if ps != [] {
      UnknownIdempotent(ps[1..]);
      assert ps == [ps[0]] + ps[1..];
      var u := Unknown(ps[1..]);
      if Known(ps[0].code) {
        assert [] + u == u;
      } else {
        assert Unknown(ps) == [ps[0]] + u && ([ps[0]] + u)[1..] == u;
        assert Unknown([ps[0]] + u) == [ps[0]] + Unknown(u);
      }
    }
  }

  lemma MergeLaws(a: Options, b: Options, c: Options)
    ensures Merge(NO_OPTIONS, a) == a == Merge(a, NO_OPTIONS)
    ensures Merge(Merge(a, b), c) == Merge(a, Merge(b, c))
  {
    assert [] + a.others == a.others == a.others + [];
    assert (a.others + b.others) + c.others == a.others + (b.others + c.others);
  }

  /** Accepted variable parts concatenate, the later one winning. */
  lemma {:induction false} ParseConcat(a: bytes, b: bytes)
    requires ParseOptions(a).Ok? && ParseOptions(b).Ok?
    ensures ParseOptions(a + b) == Ok(Merge(ParseOptions(a).value, ParseOptions(b).value))
    decreases |a|
  {
    if a == [] {
      assert a + b == b;
      MergeLaws(ParseOptions(b).value, NO_OPTIONS, NO_OPTIONS);
    } else {
      var (p, rest) := ParseOne(a).value;
      OneInverse(p, rest + b, a);
      assert a + b == PrintOne(p) + (rest + b);
      ParseConcat(rest, b);
      MergeLaws(Interpret(p).value, ParseOptions(rest).value, ParseOptions(b).value);
    }
  }

  lemma ParseSingle(p: Parameter)
    requires Fits(p) && Interpret(p).Ok?
    ensures ParseOptions(PrintOne(p)) == Ok(Interpret(p).value)
  {
    OneInverse(p, [], []);
    assert PrintOne(p) + [] == PrintOne(p);
    MergeLaws(Interpret(p).value, NO_OPTIONS, NO_OPTIONS);
  }

  lemma {:induction false} ParseOthers(ps: seq<Parameter>)
    requires Print(ps).Ok? && forall p | p in ps :: !Known(p.code)
    ensures ParseOptions(Print(ps).value) == Ok(NO_OPTIONS.(others := ps))
  {
    if ps != [] {
      ParseOthers(ps[1..]);
      ParseSingle(ps[0]);
      ParseConcat(PrintOne(ps[0]), Print(ps[1..]).value);
      assert [ps[0]] + ps[1..] == ps;
    }
  }

  lemma ParseEnds(b: bytes)
    ensures b == [] ==> ParseOptions(b) == Ok(NO_OPTIONS)
    ensures b != [] && ParseOne(b).Err? ==> ParseOptions(b) == Err(ParseOne(b).error)
  {
  }

  lemma PartsParse(o: Options)
    requires EncodeOptions(o).Ok?
    ensures ParseOptions(SelectorPart(CALLING, o.calling).value) == Ok(NO_OPTIONS.(calling := o.calling))
    ensures ParseOptions(SelectorPart(CALLED, o.called).value) == Ok(NO_OPTIONS.(called := o.called))
    ensures ParseOptions(SizePart(o.size)) == Ok(NO_OPTIONS.(size := o.size))
    ensures ParseOptions(PreferredPart(o.preferred).value) == Ok(NO_OPTIONS.(preferred := o.preferred))
  {
    hide ParseOptions, BigEndian, Shortest, Print, Unknown;
    ParseEnds([]);
    if o.calling.Some? { ParseSingle(Parameter(CALLING, o.calling.value)); }
    if o.called.Some? { ParseSingle(Parameter(CALLED, o.called.value)); }
    if o.size.Some? {
      var p := Parameter(TPDU_SIZE, [o.size.value]);
      ParseSingle(p);
      assert PrintOne(p) == SizePart(o.size);
    }
    if o.preferred.Some? {
      UnitsRoundTrip(o.preferred.value);
      ParseSingle(Parameter(PREFERRED, UnitsForm(o.preferred.value).value));
    }
  }

  /** Decoding a canonical variable part gives back the options, unknown parameters only in the list. */
  lemma OptionsRoundTrip(o: Options)
    requires EncodeOptions(o).Ok?
    ensures ParseOptions(EncodeOptions(o).value) == Ok(Normal(o))
  {
    hide ParseOptions, BigEndian, Shortest, Print, Unknown, UnitsForm;
    var calling, called := SelectorPart(CALLING, o.calling).value, SelectorPart(CALLED, o.called).value;
    var size, preferred := SizePart(o.size), PreferredPart(o.preferred).value;
    var others := Print(Unknown(o.others)).value;
    UnknownIdempotent(o.others);
    ParseOthers(Unknown(o.others));
    PartsParse(o);
    ParseConcat(calling, called);
    ParseConcat(calling + called, size);
    ParseConcat(calling + called + size, preferred);
    ParseConcat(calling + called + size + preferred, others);
    var merged := ParseOptions(EncodeOptions(o).value).value;
    assert merged.others == Unknown(o.others);
  }

  /** Octets of the canonical encoding, option by option. */
  function SelectorLength(s: Option<bytes>): nat { if s == None then 0 else 2 + |s.value| }
  function PreferredLength(s: Option<u32>): nat { if s == None || s.value == 0 then 0 else 2 + |Shortest(s.value)| }
  function OthersLength(ps: seq<Parameter>): nat {
    if ps == [] then 0 else 2 + |ps[0].value| + OthersLength(ps[1..])
  }

  lemma {:induction false} PrintLength(ps: seq<Parameter>)
    requires Print(ps).Ok?
    ensures |Print(ps).value| == OthersLength(ps)
  {
    if ps != [] {
      PrintLength(ps[1..]);
    }
  }

  function OptionsLength(o: Options): nat {
    SelectorLength(o.calling) + SelectorLength(o.called) + |SizePart(o.size)|
    + PreferredLength(o.preferred) + OthersLength(o.others)
  }

  /** Encoding succeeds exactly when every value it writes fits, and its length is the sum of its parts. */
  predicate Encodable(o: Options) {
    && (o.calling.Some? ==> |o.calling.value| <= MAX_VALUE_LENGTH)
    && (o.called.Some? ==> |o.called.value| <= MAX_VALUE_LENGTH)
    && o.preferred != Some(0)
    && (forall p | p in o.others && !Known(p.code) :: Fits(p))
  }

  lemma EncodesIff(o: Options)
    ensures EncodeOptions(o).Ok? <==> Encodable(o)
    ensures EncodeOptions(o).Ok? ==> |EncodeOptions(o).value| == OptionsLength(Normal(o))
    ensures EncodeOptions(o).Err? ==> EncodeOptions(o).error == {UnexpectedParameterLength}
  {
    hide Shortest, Unknown, Print, OthersLength;
    UnknownIdempotent(o.others);
    UnknownKeeps(o.others);
    PrintsIffFits(Unknown(o.others));
    if Print(Unknown(o.others)).Ok? { PrintLength(Unknown(o.others)); }
    if o.preferred.Some? && o.preferred.value > 0 { ShortestFits(o.preferred.value); }
  }

  lemma {:induction false} UnknownKeeps(ps: seq<Parameter>)
    ensures forall p | p in ps && !Known(p.code) :: p in Unknown(ps)
  {
    if ps != [] {
      UnknownKeeps(ps[1..]);
      assert ps == [ps[0]] + ps[1..];
    }
  }

  /** One more parameter in front costs at most the octets it had. */
  predicate Shrinks(p: Parameter, tail: Options)
    requires Fits(p) && Interpret(p).Ok?
  {
    var o := Merge(Interpret(p).value, tail);
    Normal(o) == o && Encodable(o) && OptionsLength(o) <= |PrintOne(p)| + OptionsLength(tail)
  }

  lemma ShrinkStep(p: Parameter, tail: Options)
    requires Fits(p) && Interpret(p).Ok? && Encodable(tail) && Normal(tail) == tail
    ensures Shrinks(p, tail)
  {
    OthersStep(p, tail.others);
    if p.code == PREFERRED {
      ShrinkPreferred(p, tail);
    } else if Known(p.code) {
      ShrinkKnown(p, tail);
    } else {
      hide Shortest, OthersLength, Unknown;
      assert Merge(Interpret(p).value, tail) == tail.(others := [p] + tail.others);
    }
  }

  lemma ShrinkPreferred(p: Parameter, tail: Options)
    requires Fits(p) && Interpret(p).Ok? && Encodable(tail) && Normal(tail) == tail && p.code == PREFERRED
    ensures Shrinks(p, tail)
  {
    hide Shortest, BigEndian, Zeros, OthersLength, Unknown;
    ShortestIsUnique(p.value);
    var o := Merge(Interpret(p).value, tail);
    assert o == tail.(preferred := Later(Some(UnitsOf(p.value).value), tail.preferred)) by {
      assert o.others == tail.others;
    }
  }

  lemma ShrinkKnown(p: Parameter, tail: Options)
    requires Fits(p) && Interpret(p).Ok? && Encodable(tail) && Normal(tail) == tail
    requires Known(p.code) && p.code != PREFERRED
    ensures Shrinks(p, tail)
  {
    hide Shortest, OthersLength, Unknown;
    assert Merge(Interpret(p).value, tail).others == tail.others;
  }

  lemma OthersStep(p: Parameter, ps: seq<Parameter>)
    ensures [] + ps == ps && OthersLength([p] + ps) == 2 + |p.value| + OthersLength(ps)
    ensures Unknown([p] + ps) == if Known(p.code) then Unknown(ps) else [p] + Unknown(ps)
  {
    assert ([p] + ps)[1..] == ps && [] + Unknown(ps) == Unknown(ps);
  }

  /** A decoded variable part re-encodes without loss and never gets longer. */
  lemma {:induction false} ReencodeShrinks(b: bytes)
    requires ParseOptions(b).Ok?
    ensures var o := ParseOptions(b).value;
            Normal(o) == o && Encodable(o) && OptionsLength(o) <= |b|
    decreases |b|
  {
    if b != [] {
      var (p, rest) := ParseOne(b).value;
      OneInverse(p, rest, b);
      ReencodeShrinks(rest);
      ShrinkStep(p, ParseOptions(rest).value);
    }
  }

  /** A parse result behind options already collected. */
  function Joined(done: Options, r: Result<Options>): Result<Options> {
    if r.Ok? then Ok(Merge(done, r.value)) else r
  }

  lemma Joins(done: Options, head: Options, r: Result<Options>)
    ensures Joined(NO_OPTIONS, r) == r
    ensures Joined(done, Joined(head, r)) == Joined(Merge(done, head), r)
  {
    if r.Ok? { MergeLaws(done, head, r.value); MergeLaws(r.value, r.value, r.value); }
  }

  /** Reading one more parameter into the options collected so far. */
  lemma JoinStep(done: Options, b: bytes, p: Parameter, rest: bytes)
    requires b != [] && ParseOne(b) == Ok((p, rest))
    ensures Interpret(p).Err? ==> ParseOptions(b) == Err(Interpret(p).error)
    ensures Interpret(p).Ok? ==>
              Joined(done, ParseOptions(b)) == Joined(Merge(done, Interpret(p).value), ParseOptions(rest))
  {
    if Interpret(p).Ok? { Joins(done, Interpret(p).value, ParseOptions(rest)); }
  }

  lemma MergeOne(done: Options, p: Parameter)
    requires Interpret(p).Ok?
    ensures Merge(done, Interpret(p).value) ==
            if p.code == CALLING then done.(calling := Some(p.value))
            else if p.code == CALLED then done.(called := Some(p.value))
            else if p.code == TPDU_SIZE then done.(size := Some(p.value[0]))
            else if p.code == PREFERRED then done.(preferred := Some(UnitsOf(p.value).value))
            else done.(others := done.others + [p])
  {
    assert done.others + [] == done.others;
  }

  method ParseCRCCVariablePart(b: bytes) returns (r: Result<Options>)
    ensures r == ParseOptions(b)
  {
    hide ParseOptions, UnitsOf, Merge;
    var o := NO_OPTIONS;
    var pos := 0;
    assert b[0..] == b;
    Joins(NO_OPTIONS, NO_OPTIONS, ParseOptions(b));
    while pos < |b|
      invariant 0 <= pos <= |b|
      invariant ParseOptions(b) == Joined(o, ParseOptions(b[pos..]))
      decreases |b| - pos
    {
      ParseEnds(b[pos..]);
      if pos + 2 > |b| {
        return Err({MalformedParameter});
      }
      var code, length := b[pos], b[pos + 1];
      if pos + 2 + length > |b| {
        return Err({MalformedParameter});
      }
      var value := b[pos + 2..pos + 2 + length];
      ghost var here, p := b[pos..], Parameter(code, value);
      assert here[2..2 + length] == value && here[2 + length..] == b[pos + 2 + length..];
      JoinStep(o, here, p, b[pos + 2 + length..]);
      if Interpret(p).Ok? { MergeOne(o, p); }
      pos := pos + 2 + length;
      if code == CALLING {
        o := o.(calling := Some(value));
      } else if code == CALLED {
        o := o.(called := Some(value));
      } else if code == TPDU_SIZE {
        if length != 1 {
          return Err({UnexpectedParameterLength});
        }
        o := o.(size := Some(value[0]));
      } else if code == PREFERRED {
        var units := DecodePreferredMaxUnits(value);
        if units.Err? {
          return Err(units.error);
        }
        o := o.(preferred := Some(units.value));
      } else {
        o := o.(others := o.others + [Parameter(code, value)]);
      }
    }
    ParseEnds(b[pos..]);
    MergeLaws(o, NO_OPTIONS, NO_OPTIONS);
    return Ok(o);
  }

  method EncodeCRCCVariablePart(o: Options) returns (r: Result<bytes>)
    ensures r == EncodeOptions(o)
  {
    var out: bytes := [];
    if o.calling.Some? {
      if |o.calling.value| > MAX_VALUE_LENGTH {
        return Err({UnexpectedParameterLength});
      }
      out := out + [CALLING, |o.calling.value|];
      out := out + o.calling.value;
    }
    assert out == SelectorPart(CALLING, o.calling).value;
    if o.called.Some? {
      if |o.called.value| > MAX_VALUE_LENGTH {
        return Err({UnexpectedParameterLength});
      }
      out := out + [CALLED, |o.called.value|];
      out := out + o.called.value;
    }
    assert out == SelectorPart(CALLING, o.calling).value + SelectorPart(CALLED, o.called).value;
    if o.size.Some? {
      out := out + [TPDU_SIZE, 1, o.size.value];
    }
    assert out == SelectorPart(CALLING, o.calling).value + SelectorPart(CALLED, o.called).value + SizePart(o.size);
    if o.preferred.Some? {
      var form := EncodePreferredMaxUnits(o.preferred.value);
      if form.Err? {
        return Err(form.error);
      }
      var step := AppendParameter(out, Parameter(PREFERRED, form.value));
      if step.Err? {
        return Err(step.error);
      }
      out := step.value;
    }
    assert out == SelectorPart(CALLING, o.calling).value + SelectorPart(CALLED, o.called).value
                  + SizePart(o.size) + PreferredPart(o.preferred).value;
    r := AppendUnknown(out, o.others);
  }

  /** The last loop of encodeCRCCVariablePart: parameters with a known code are skipped. */
  method AppendUnknown(dst: bytes, params: seq<Parameter>) returns (r: Result<bytes>)
    ensures r == Onto(dst, Print(Unknown(params)))
  {
    var out := dst;
    assert params[0..] == params;
    for i := 0 to |params|
      invariant Onto(dst, Print(Unknown(params))) == Onto(out, Print(Unknown(params[i..])))
    {
      var p := params[i];
      UnknownSplit(params[i..]);
      if p.code == CALLING || p.code == CALLED || p.code == TPDU_SIZE || p.code == PREFERRED {
        continue;
      }
      OntoOne(out, Unknown(params[i..]));
      var step := AppendParameter(out, p);
      if step.Err? {
        return Err(step.error);
      }
      out := step.value;
    }
    assert out + [] == out;
    return Ok(out);
  }

  lemma UnknownSplit(ps: seq<Parameter>)
    requires ps != []
    ensures Known(ps[0].code) ==> Unknown(ps) == Unknown(ps[1..])
    ensures !Known(ps[0].code) ==>
              Unknown(ps) != [] && Unknown(ps)[0] == ps[0] && Unknown(ps)[1..] == Unknown(ps[1..])
  {
    assert [] + Unknown(ps[1..]) == Unknown(ps[1..]);
  }
}

/** The SRC-REF allocator (reference_allocator.go): next-fit over 16 bits, skipping zero and active references. */
module References {
  import opened Types

  const CAPACITY := 65535
  const WRAP := 0x1_0000

  datatype Alloc = Alloc(next: u16, active: set<u16>)

  const FRESH := Alloc(1, {})

  function Succ(x: u16): u16 { (x + 1) % 0x1_0000 }

  /** The candidate examined d steps from `next`. */
  function At(next: u16, d: nat): u16 { (next + d) % 0x1_0000 }

  predicate Free(a: Alloc, ref: u16) { ref != 0 && ref !in a.active }

  /** The first offset from d on whose candidate is free, or WRAP when there is none. */
  function Offset(a: Alloc, d: nat): (e: nat)
    requires d <= WRAP
    ensures d <= e <= WRAP
    ensures e < WRAP ==> Free(a, At(a.next, e))
    ensures forall k | d <= k < e :: !Free(a, At(a.next, k))
    decreases WRAP - d, a.active
  {
    if d == WRAP || Free(a, At(a.next, d)) then d else Offset(a, d + 1)
  }

  /** What Allocate returns and leaves behind. */
  function Take(a: Alloc): (Result<u16>, Alloc) {
    if |a.active| >= CAPACITY then (Err({InvalidConfig}), a)
    else if Offset(a, 0) == WRAP then (Err({InvalidConfig}), a)
    else
      var ref := At(a.next, Offset(a, 0));
      (Ok(ref), Alloc(Succ(ref), a.active + {ref}))
  }

  function Drop(a: Alloc, ref: u16): Alloc {
    if ref == 0 then a else a.(active := a.active - {ref})
  }

  // ---------------------------------------------------------------- exhaustion

  lemma {:induction false} AtLeast(active: set<u16>, n: nat)
    requires n < WRAP && forall x: u16 | 1 <= x <= n :: x in active
    ensures |active| >= n
  {
    if n > 0 { AtLeast(active - {n}, n - 1); }
  }

  lemma {:induction false} AtMost(active: set<u16>, n: nat)
    requires n < WRAP && forall x | x in active :: 1 <= x <= n
    ensures |active| <= n
  {
    if n == 0 {
      assert active == {};
    } else {
      AtMost(active - {n}, n - 1);
    }
  }

  /** Every non-zero reference has an offset below WRAP. */
  lemma OffsetOf(next: u16, ref: u16) returns (d: nat)
    ensures d < WRAP && At(next, d) == ref
  {
    d := (ref - next) % 0x1_0000;
  }

  /** Below capacity the scan always finds a reference: the exhaustion return behind the loop is unreachable. */
  lemma ScanFinds(a: Alloc)
    requires |a.active| < CAPACITY
    ensures Offset(a, 0) < WRAP
  {
    if Offset(a, 0) == WRAP {
      forall ref: u16 | 1 <= ref <= CAPACITY ensures ref in a.active {
        var d := OffsetOf(a.next, ref);
        assert !Free(a, At(a.next, d));
      }
      AtLeast(a.active, CAPACITY);
    }
  }

  /** Allocation fails exactly when no non-zero reference is free; otherwise it returns the cyclically first
      free one from `next`, which becomes active and is passed over. */
  lemma TakeMeaning(a: Alloc)
    requires 0 !in a.active
    ensures Take(a).0.Err? <==> forall ref: u16 | ref != 0 :: ref in a.active
    ensures Take(a).0.Err? ==> Take(a).1 == a
    ensures Take(a).0.Ok? ==>
              var ref := Take(a).0.value;
              && Free(a, ref)
              && (exists d: nat :: d < WRAP && ref == At(a.next, d) && forall e: nat | e < d :: !Free(a, At(a.next, e)))
              && Take(a).1 == Alloc(Succ(ref), a.active + {ref})
  {
    if |a.active| >= CAPACITY {
      forall ref: u16 | ref != 0 ensures ref in a.active {
        if ref !in a.active { AtMost(a.active + {ref}, CAPACITY); }
      }
    }
    if |a.active| < CAPACITY {
      ScanFinds(a);
      var d := Offset(a, 0);
      assert d < WRAP && At(a.next, d) == Take(a).0.value;
    }
  }

  // ---------------------------------------------------------------- reuse

  datatype Op = OpTake | OpDrop(ref: u16)

  function Step(a: Alloc, op: Op): Alloc {
    match op
    case OpTake => Take(a).1
    case OpDrop(ref) => Drop(a, ref)
  }

  /** An allocation from a came to the candidate v: it returned v, or found it active and passed it over. */
  ghost predicate Examined(a: Alloc, v: u16) {
    && Take(a).0.Ok?
    && (exists d: nat :: d <= Offset(a, 0) && v == At(a.next, d))
    && (Take(a).0 == Ok(v) || v in a.active)
  }

  lemma CandidateIsExamined(a: Alloc, d: nat)
    requires Take(a).0.Ok? && d <= Offset(a, 0) && At(a.next, d) != 0
    ensures Examined(a, At(a.next, d))
  {
    if d < Offset(a, 0) { assert !Free(a, At(a.next, d)); }
  }

  /** v was returned, or found active and passed over, by some allocation of the run. */
  ghost predicate Visited(a: Alloc, ops: seq<Op>, v: u16)
    decreases |ops|
  {
    ops != [] && ((ops[0] == OpTake && Examined(a, v)) || Visited(Step(a, ops[0]), ops[1..], v))
  }

  predicate Granted(a: Alloc, ops: seq<Op>, ref: u16)
    decreases |ops|
  {
    ops != [] && ((ops[0] == OpTake && Take(a).0 == Ok(ref)) || Granted(Step(a, ops[0]), ops[1..], ref))
  }

  function Run(a: Alloc, ops: seq<Op>): Alloc
    decreases |ops|
  {
    if ops == [] then a else Run(Step(a, ops[0]), ops[1..])
  }

  /** How far v lies behind ref in allocation order; ref itself comes last. */
  function Distance(ref: u16, v: u16): nat { (v - ref - 1) % 0x1_0000 }

  /** Quotient and remainder by 2^16 from any split of a number. */
  lemma ResidueIs(x: int, q: int, r: nat)
    requires r < WRAP && x == q * WRAP + r
    ensures x % 0x1_0000 == r
  {
  }

  /** One turn of the scan at most: the candidate without a remainder. */
  lemma AtIs(next: u16, d: nat)
    requires d <= WRAP
    ensures At(next, d) == if next + d < WRAP then next + d else next + d - WRAP
  {
    if next + d < WRAP { ResidueIs(next + d, 0, next + d); } else { ResidueIs(next + d, 1, next + d - WRAP); }
  }

  lemma DistanceIs(ref: u16, v: u16)
    ensures Distance(ref, v) == if v > ref then v - ref - 1 else v - ref - 1 + WRAP
  {
    if v > ref { ResidueIs(v - ref - 1, 0, v - ref - 1); } else { ResidueIs(v - ref - 1, -1, v - ref - 1 + WRAP); }
  }

  lemma DistanceOfCandidate(ref: u16, next: u16, d: nat)
    requires d <= WRAP
    ensures var sum := Distance(ref, next) + d;
            Distance(ref, At(next, d))
            == if sum < WRAP then sum else if sum < 2 * WRAP then sum - WRAP else sum - 2 * WRAP
  {
    hide At, Distance;
    AtIs(next, d);
    DistanceIs(ref, next);
    DistanceIs(ref, At(next, d));
  }

  lemma SuccOfCandidate(next: u16, d: nat)
    ensures Succ(At(next, d)) == At(next, d + 1)
  {
    var x := next + d;
    var q, r := x / 0x1_0000, x % 0x1_0000;
    if r == WRAP - 1 {
      ResidueIs(r + 1, 1, 0);
      ResidueIs(x + 1, q + 1, 0);
    } else {
      ResidueIs(r + 1, 0, r + 1);
      ResidueIs(x + 1, q, r + 1);
    }
  }

  lemma AtDistance(ref: u16, next: u16, v: u16)
    requires Distance(ref, next) <= Distance(ref, v)
    ensures At(next, Distance(ref, v) - Distance(ref, next)) == v
  {
    hide At, Distance;
    DistanceIs(ref, next);
    DistanceIs(ref, v);
    AtIs(next, Distance(ref, v) - Distance(ref, next));
  }

  lemma LastDistance(ref: u16, v: u16)
    ensures Distance(ref, v) <= Distance(ref, ref) == WRAP - 1
  {
    hide Distance;
    DistanceIs(ref, v);
    DistanceIs(ref, ref);
  }

  /** One allocation examines every reference between its `next` and the one it grants. */
  lemma SweepExamines(a: Alloc, ref: u16, v: u16)
    requires Take(a).0.Ok? && v != 0
    requires Distance(ref, a.next) <= Distance(ref, v) < Distance(ref, ref)
    requires Take(a).0 == Ok(ref) || Distance(ref, v) < Distance(ref, Take(a).1.next)
             || Distance(ref, Take(a).1.next) <= Distance(ref, a.next)
    ensures Examined(a, v)
  {
    var d, granted := Distance(ref, v) - Distance(ref, a.next), Offset(a, 0);
    AtDistance(ref, a.next, v);
    DistanceOfCandidate(ref, a.next, granted);
    DistanceOfCandidate(ref, a.next, granted + 1);
    SuccOfCandidate(a.next, granted);
    LastDistance(ref, At(a.next, granted));
    assert d <= granted;
    CandidateIsExamined(a, d);
  }

  /** From the moment ref is granted, it is not granted again before every other non-zero reference has been
      granted or found active, whatever is allocated and released in between. */
  lemma {:induction false} LeastRecentlyIssued(a: Alloc, ops: seq<Op>, ref: u16)
    requires ref != 0 && a.next == Succ(ref)
    requires !Granted(a, ops, ref) && Take(Run(a, ops)).0 == Ok(ref)
    ensures forall v: u16 | v != 0 && v != ref :: Visited(a, ops + [OpTake], v)
  {
    assert Distance(ref, a.next) == 0;
    forall v: u16 | v != 0 && v != ref ensures Visited(a, ops + [OpTake], v) {
      VisitedBefore(a, ops, ref, v);
    }
  }

  lemma {:induction false} VisitedBefore(a: Alloc, ops: seq<Op>, ref: u16, v: u16)
    requires ref != 0 && v != 0 && v != ref
    requires Distance(ref, a.next) <= Distance(ref, v)
    requires !Granted(a, ops, ref) && Take(Run(a, ops)).0 == Ok(ref)
    ensures Visited(a, ops + [OpTake], v)
    decreases |ops|
  {
    assert Distance(ref, v) < Distance(ref, ref);
    var all := ops + [OpTake];
    if ops == [] {
      SweepExamines(a, ref, v);
    } else {
      assert all[0] == ops[0] && all[1..] == ops[1..] + [OpTake];
      var b := Step(a, ops[0]);
      if Distance(ref, b.next) <= Distance(ref, v)
         && (b.next == a.next || Distance(ref, a.next) < Distance(ref, b.next)) {
        VisitedBefore(b, ops[1..], ref, v);
      } else {
        SweepExamines(a, ref, v);
      }
    }
  }

  // ---------------------------------------------------------------- the allocator object

  class ReferenceAllocator {
    var next: u16
    var active: set<u16>

    function Value(): Alloc
      reads this
    {
      Alloc(next, active)
    }

    constructor ()
      ensures Value() == FRESH
    {
      next, active := 1, {};
    }

    method Allocate() returns (r: Result<u16>)
      modifies this
      ensures (r, Value()) == Take(old(Value()))
    {
      if |active| >= 65535 {
        return Err({InvalidConfig});
      }
      ghost var start := Value();
      for i := 0 to 65536
        invariant Value() == start.(next := At(start.next, i))
        invariant Offset(start, 0) == Offset(start, i)
      {
        var cand := next;
        SuccOfCandidate(start.next, i);
        next := (next + 1) % 0x1_0000;
        if cand == 0 {
          continue;
        }
        if cand in active {
          continue;
        }
        active := active + {cand};
        return Ok(cand);
      }
      return Err({InvalidConfig});
    }

    method Release(ref: u16)
      modifies this
      ensures Value() == Drop(old(Value()), ref)
    {
      if ref == 0 {
        return;
      }
      active := active - {ref};
    }

    method Active(ref: u16) returns (r: bool)
      ensures r <==> ref in Value().active
    {
      r := ref in active;
    }
  }
}

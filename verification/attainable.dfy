/** That the step systems do what they are for: from any quiet connection a TSDU of any content and any length within
    the bounds can be written and read, and so any number of them one after the other; and a timed-out operation does
    come to its context's error. */
module Attainable {
  import opened Types
  import opened Transfer
  import D = Deadline
  import Endpoint
  import Link
  import R = Receiving
  import S = Sending
  import Timed

  // ---------------------------------------------------------------- runs of a link

  ghost predicate Leads(x: Link.State, y: Link.State) { exists events :: y == Link.Run(x, events) }

  lemma {:induction false} RunMore(x: Link.State, events: seq<Link.Event>, e: Link.Event)
    ensures Link.Run(x, events + [e]) == Link.Step(Link.Run(x, events), e)
    decreases |events|
  {
    hide Link.Step;
    if events == [] {
      assert [] + [e] == [e] && [e][1..] == [];
    } else {
      assert (events + [e])[1..] == events[1..] + [e];
      RunMore(Link.Step(x, events[0]), events[1..], e);
    }
  }

  lemma LeadsOn(x: Link.State, y: Link.State, e: Link.Event)
    requires Leads(x, y)
    ensures Leads(x, Link.Step(y, e))
  {
    hide Link.Step;
    var events :| y == Link.Run(x, events);
    RunMore(x, events, e);
  }

  lemma LeadsItself(x: Link.State)
    ensures Leads(x, x)
  {
    assert Link.Run(x, []) == x;
  }

  lemma {:induction false} RunThrough(x: Link.State, first: seq<Link.Event>, second: seq<Link.Event>)
    ensures Link.Run(x, first + second) == Link.Run(Link.Run(x, first), second)
    decreases |first|
  {
    hide Link.Step;
    if first == [] {
      assert [] + second == second;
    } else {
      assert (first + second)[1..] == first[1..] + second;
      RunThrough(Link.Step(x, first[0]), first[1..], second);
    }
  }

  lemma LeadsThrough(x: Link.State, y: Link.State, z: Link.State)
    requires Leads(x, y) && Leads(y, z)
    ensures Leads(x, z)
  {
    var first :| y == Link.Run(x, first);
    var second :| z == Link.Run(y, second);
    RunThrough(x, first, second);
  }

  /** A step of a write at the first end: nothing else changes there, and the second end hears what was sent. */
  predicate Wrote(y: Link.State, z: Link.State) {
    && z.a == y.a.(sender := z.a.sender, term := z.a.term) && z.b == y.b.(inbound := z.a.sender.wire)
    && z.a.sender.maxTPDU == y.a.sender.maxTPDU && z.a.sender.maxTSDU == y.a.sender.maxTSDU
  }

  lemma WriteStep(x: Link.State, y: Link.State, w: S.Event) returns (z: Link.State)
    requires Leads(x, y) && S.Enabled(y.a.sender, w) && (w.Check? ==> w.shut == y.a.shown)
    ensures Leads(x, z) && Wrote(y, z) && (z.a.sender, z.a.term) == S.Step(y.a.sender, y.a.term, w)
  {
    hide Leads, S.Enabled;
    z := Link.Step(y, Link.AtA(Endpoint.Write(w)));
    LeadsOn(x, y, Link.AtA(Endpoint.Write(w)));
    BoundsStay(y.a.sender, y.a.term, w);
    hide S.Step;
  }

  lemma BoundsStay(s: S.Sender, term: Option<Error>, w: S.Event)
    requires S.Enabled(s, w)
    ensures var s' := S.Step(s, term, w).0; s'.maxTPDU == s.maxTPDU && s'.maxTSDU == s.maxTSDU
  {
    hide Packets, IoCause, S.NextPacket;
  }

  lemma ReadStep(x: Link.State, y: Link.State, r: R.Event) returns (z: Link.State)
    requires Leads(x, y) && R.Enabled(y.b.receiver, y.b.inbound, r) && (r.Check? ==> r.shut == y.b.shown)
    requires y.a.inbound == y.b.sender.wire
    ensures Leads(x, z) && z == y.(b := y.b.(receiver := z.b.receiver, term := z.b.term))
    ensures (z.b.receiver, z.b.term) == R.Step(y.b.receiver, y.b.inbound, y.b.term, r)
  {
    hide Leads, R.Enabled, R.Step;
    z := Link.Step(y, Link.AtB(Endpoint.Read(r)));
    LeadsOn(x, y, Link.AtB(Endpoint.Read(r)));
  }

  // ---------------------------------------------------------------- one TSDU

  const LIVE := Ctx(None, false, false)

  /** Both ends are open, no call writes at the first or reads at the second, and all that moved has been read. */
  predicate Quiet(x: Link.State) {
    && x.a.term == None && !x.a.shown && x.a.sender.lock == None
    && x.b.term == None && !x.b.shown && x.b.receiver.lock == None
    && !x.b.receiver.broken && x.b.receiver.taken == |x.b.inbound| && x.b.inbound == x.a.sender.wire
    && x.a.inbound == x.b.sender.wire
    && x.a.sender.maxTPDU == x.b.receiver.maxTPDU
  }

  /** The first end sends this TSDU and the second takes it. */
  predicate Fits(x: Link.State, tsdu: bytes) {
    && x.a.sender.maxTPDU >= 4 && 1 <= |tsdu|
    && |tsdu| <= (if x.a.sender.maxTSDU == 0 then 4194304 else x.a.sender.maxTSDU)
    && |tsdu| <= (if x.b.receiver.maxTSDU == 0 then 4194304 else x.b.receiver.maxTSDU)
  }

  /** From Begin to the second look. */
  lemma WriteEnters(x: Link.State, c: S.Call, tsdu: bytes) returns (y: Link.State)
    requires Quiet(x) && c !in x.a.sender.at
    ensures Leads(x, y) && Wrote(x, y) && y.a.term == None && y.a.sender.wire == x.a.sender.wire
    ensures y.a.sender.at == x.a.sender.at[c := S.Admitted(tsdu)]
  {
    hide Leads, Packets, IoCause;
    LeadsItself(x);
    y := WriteStep(x, x, S.Begin(c, tsdu));
    y := WriteStep(x, y, S.Lock(c));
    y := WriteStep(x, y, S.Look(c));
  }

  /** From Begin to the start of the segmentation loop. */
  lemma WriteOpens(x: Link.State, c: S.Call, tsdu: bytes) returns (y: Link.State)
    requires Quiet(x) && Fits(x, tsdu) && c !in x.a.sender.at
    ensures Leads(x, y) && Wrote(x, y) && y.a.term == None && y.a.sender.wire == x.a.sender.wire
    ensures c in y.a.sender.at && y.a.sender.at == x.a.sender.at[c := y.a.sender.at[c]]
    ensures var p := y.a.sender.at[c]; p.Looping? && p.tsdu == tsdu && p.gen > 0 && p.next == 0
  {
    hide Leads, Packets, IoCause;
    y := WriteEnters(x, c, tsdu);
    y := WriteStep(x, y, S.Check(c, false, LIVE));
    y := WriteStep(x, y, S.ArmDeadline(c, LIVE));
  }

  /** The packets of a TSDU from the k-th on, as the stream holds them. */
  function Items(tsdu: bytes, maxTPDU: int, k: nat): seq<S.Item>
    requires tsdu != [] && maxTPDU >= 4 && k <= |Packets(tsdu, maxTPDU)|
  {
    seq(|Packets(tsdu, maxTPDU)| - k, i requires 0 <= i < |Packets(tsdu, maxTPDU)| - k =>
      S.Whole(Packets(tsdu, maxTPDU)[k + i]))
  }

  lemma {:induction false} WriteLoops(x: Link.State, y: Link.State, c: S.Call) returns (z: Link.State)
    requires Leads(x, y) && y.a.term == None && c in y.a.sender.at && y.a.sender.at[c].Looping?
    requires y.b.inbound == y.a.sender.wire && y.a.sender.at[c].tsdu != [] && y.a.sender.maxTPDU >= 4
    requires y.a.sender.at[c].next <= |Packets(y.a.sender.at[c].tsdu, y.a.sender.maxTPDU)|
    ensures var p := y.a.sender.at[c];
            && Leads(x, z) && Wrote(y, z) && z.a.term == None && c in z.a.sender.at
            && z.a.sender.at == y.a.sender.at[c := p.(next := |Packets(p.tsdu, y.a.sender.maxTPDU)|)]
            && z.a.sender.wire == y.a.sender.wire + Items(p.tsdu, y.a.sender.maxTPDU, p.next)
    decreases |Packets(y.a.sender.at[c].tsdu, y.a.sender.maxTPDU)| - y.a.sender.at[c].next
  {
    hide Leads, Packets;
    var p, n := y.a.sender.at[c], |Packets(y.a.sender.at[c].tsdu, y.a.sender.maxTPDU)|;
    if p.next == n {
      z := y;
      assert y.b.(inbound := y.a.sender.wire) == y.b;
    } else {
      var m := WriteStep(x, y, S.Send(c));
      z := WriteLoops(x, m, c);
      assert Items(p.tsdu, y.a.sender.maxTPDU, p.next)
          == [S.Whole(Packets(p.tsdu, y.a.sender.maxTPDU)[p.next])] + Items(p.tsdu, y.a.sender.maxTPDU, p.next + 1);
    }
  }

  /** From the end of the loop to the caller. */
  lemma WriteCloses(x: Link.State, y: Link.State, c: S.Call) returns (z: Link.State)
    requires Leads(x, y) && y.a.term == None && c in y.a.sender.at && y.a.sender.at[c].Looping?
    requires y.a.sender.at[c].tsdu != [] && y.a.sender.maxTPDU >= 4 && y.a.sender.at[c].gen > 0
    requires y.a.sender.at[c].next == |Packets(y.a.sender.at[c].tsdu, y.a.sender.maxTPDU)|
    ensures Leads(x, z) && Wrote(y, z) && z.a.term == None && z.a.sender.wire == y.a.sender.wire
    ensures z.a.sender.lock == None
    ensures z.a.sender.at == y.a.sender.at[c := S.Done(y.a.sender.at[c].tsdu, S.Success)]
  {
    hide Leads, Packets, IoCause;
    z := WriteStep(x, y, S.Finish(c));
    z := WriteStep(x, z, S.DisarmDeadline(c));
    z := WriteStep(x, z, S.Unlock(c));
  }

  /** A whole write. */
  lemma Writes(x: Link.State, c: S.Call, tsdu: bytes) returns (y: Link.State)
    requires Quiet(x) && Fits(x, tsdu) && c !in x.a.sender.at
    ensures Leads(x, y) && Wrote(x, y) && y.a.term == None && y.a.sender.lock == None
    ensures y.a.sender.at == x.a.sender.at[c := S.Done(tsdu, S.Success)]
    ensures y.a.sender.wire == x.a.sender.wire + Items(tsdu, x.a.sender.maxTPDU, 0)
  {
    hide Leads, Packets;
    y := WriteOpens(x, c, tsdu);
    y := WriteLoops(x, y, c);
    y := WriteCloses(x, y, c);
  }

  /** From Begin to the start of the reassembly loop. */
  lemma ReadOpens(x: Link.State, y: Link.State, d: R.Call) returns (z: Link.State)
    requires Leads(x, y) && y.b.term == None && !y.b.shown && y.b.receiver.lock == None && d !in y.b.receiver.at
    requires y.a.inbound == y.b.sender.wire && y.b.receiver.maxTPDU >= 4
    ensures Leads(x, z) && z == y.(b := y.b.(receiver := z.b.receiver)) && d in z.b.receiver.at
    ensures z.b.receiver.at == y.b.receiver.at[d := z.b.receiver.at[d]]
    ensures var p := z.b.receiver.at[d]; p.Looping? && p.gen > 0 && p.segments == []
    ensures var r, r' := y.b.receiver, z.b.receiver;
            && r'.maxTPDU == r.maxTPDU && r'.maxTSDU == r.maxTSDU && r'.taken == r.taken && r'.broken == r.broken
            && r'.delivered == r.delivered
  {
    hide Leads, Absorb, IoCause;
    z := ReadStep(x, y, R.Begin(d));
    z := ReadStep(x, z, R.Lock(d));
    z := ReadStep(x, z, R.Look(d));
    z := ReadStep(x, z, R.Check(d, false, LIVE));
    z := ReadStep(x, z, R.ArmDeadline(d, LIVE));
  }

  /** A reader that holds the first k segments of a TSDU whose other packets lie before it. */
  predicate Reading(y: Link.State, d: R.Call, tsdu: bytes, k: nat) {
    && Fits(y, tsdu) && y.a.sender.maxTPDU == y.b.receiver.maxTPDU && y.a.inbound == y.b.sender.wire
    && d in y.b.receiver.at && y.b.receiver.at[d].Looping? && y.b.receiver.at[d].gen > 0
    && k < |Packets(tsdu, y.b.receiver.maxTPDU)|
    && y.b.receiver.at[d].segments == Chunks(tsdu, MaxSegmentPayload(y.b.receiver.maxTPDU))[..k]
    && !y.b.receiver.broken && y.b.receiver.taken <= |y.b.inbound|
    && y.b.inbound[y.b.receiver.taken..] == Items(tsdu, y.b.receiver.maxTPDU, k)
  }

  /** One packet on. */
  lemma ReadsOne(x: Link.State, y: Link.State, d: R.Call, tsdu: bytes, k: nat) returns (z: Link.State)
    requires Leads(x, y) && Reading(y, d, tsdu, k)
    ensures Leads(x, z) && z == y.(b := y.b.(receiver := z.b.receiver)) && d in z.b.receiver.at
    ensures z.b.receiver.at == y.b.receiver.at[d := z.b.receiver.at[d]]
    ensures z.b.receiver.maxTPDU == y.b.receiver.maxTPDU && z.b.receiver.maxTSDU == y.b.receiver.maxTSDU
    ensures z.b.receiver.taken == y.b.receiver.taken + 1 && !z.b.receiver.broken
    ensures var n := |Packets(tsdu, y.b.receiver.maxTPDU)|;
            && (k + 1 < n ==>
                  && Reading(z, d, tsdu, k + 1) && z.b.receiver.at[d].gen == y.b.receiver.at[d].gen
                  && z.b.receiver.delivered == y.b.receiver.delivered)
            && (k + 1 == n ==>
                  && z.b.receiver.taken == |y.b.inbound|
                  && z.b.receiver.delivered == y.b.receiver.delivered + [tsdu]
                  && z.b.receiver.at[d] == R.Leaving(y.b.receiver.at[d].gen, R.Got(tsdu)))
  {
    hide Leads, Absorb, IoCause;
    var r, n := y.b.receiver, |Packets(tsdu, y.b.receiver.maxTPDU)|;
    R.ExpectedPacket(r.at[d].segments, tsdu, r.maxTPDU, r.maxTPDU, TsduBound(r.maxTSDU));
    hide Chunks;
    assert y.b.inbound[r.taken] == y.b.inbound[r.taken..][0] == S.Whole(Packets(tsdu, r.maxTPDU)[k]);
    z := ReadStep(x, y, R.Read(d, []));
    assert y.b.inbound[r.taken + 1..] == y.b.inbound[r.taken..][1..];
    assert Items(tsdu, r.maxTPDU, k)[1..] == Items(tsdu, r.maxTPDU, k + 1);
  }

  lemma {:induction false} ReadLoops(x: Link.State, y: Link.State, d: R.Call, tsdu: bytes, k: nat)
    returns (z: Link.State)
    requires Leads(x, y) && Reading(y, d, tsdu, k)
    ensures Leads(x, z) && z == y.(b := y.b.(receiver := z.b.receiver)) && d in z.b.receiver.at
    ensures z.b.receiver.at == y.b.receiver.at[d := R.Leaving(y.b.receiver.at[d].gen, R.Got(tsdu))]
    ensures z.b.receiver.maxTPDU == y.b.receiver.maxTPDU && z.b.receiver.maxTSDU == y.b.receiver.maxTSDU
    ensures z.b.receiver.taken == |z.b.inbound| && !z.b.receiver.broken
    ensures z.b.receiver.delivered == y.b.receiver.delivered + [tsdu]
    decreases |Packets(tsdu, y.b.receiver.maxTPDU)| - k
  {
    hide Leads, Packets, Chunks, Items;
    z := ReadsOne(x, y, d, tsdu, k);
    if k + 1 < |Packets(tsdu, y.b.receiver.maxTPDU)| {
      z := ReadLoops(x, z, d, tsdu, k + 1);
    }
  }

  lemma ReadCloses(x: Link.State, y: Link.State, d: R.Call) returns (z: Link.State)
    requires Leads(x, y) && d in y.b.receiver.at && y.b.receiver.at[d].Leaving? && y.b.receiver.at[d].gen > 0
    requires y.a.inbound == y.b.sender.wire
    ensures Leads(x, z) && z == y.(b := y.b.(receiver := z.b.receiver)) && z.b.receiver.lock == None
    ensures z.b.receiver.at == y.b.receiver.at[d := R.Done(y.b.receiver.at[d].result)]
    ensures var r, r' := y.b.receiver, z.b.receiver;
            && r'.maxTPDU == r.maxTPDU && r'.maxTSDU == r.maxTSDU && r'.taken == r.taken && r'.broken == r.broken
            && r'.delivered == r.delivered
  {
    hide Leads, Absorb, IoCause;
    z := ReadStep(x, y, R.DisarmDeadline(d));
    z := ReadStep(x, z, R.Unlock(d));
  }

  /** From every quiet connection, whatever went before, a write of any TSDU that fits and a read can both succeed, the
      read with that TSDU; and the connection is quiet again. */
  lemma TransferHappens(x: Link.State, c: S.Call, d: R.Call, tsdu: bytes) returns (y: Link.State)
    requires Quiet(x) && Fits(x, tsdu) && c !in x.a.sender.at && d !in x.b.receiver.at
    ensures Leads(x, y) && Quiet(y)
    ensures y.a.sender.at == x.a.sender.at[c := S.Done(tsdu, S.Success)]
    ensures y.b.receiver.at == x.b.receiver.at[d := R.Done(R.Got(tsdu))]
    ensures y.b.receiver.delivered == x.b.receiver.delivered + [tsdu]
    ensures y.a.sender.maxTPDU == x.a.sender.maxTPDU && y.a.sender.maxTSDU == x.a.sender.maxTSDU
    ensures y.b.receiver.maxTSDU == x.b.receiver.maxTSDU
  {
    hide Leads, Packets, Chunks;
    y := Writes(x, c, tsdu);
    assert y.b.inbound[y.b.receiver.taken..] == Items(tsdu, x.a.sender.maxTPDU, 0);
    y := ReadOpens(x, y, d);
    PacketsExist(tsdu, x.a.sender.maxTPDU);
    assert y.b.receiver.at[d].segments == Chunks(tsdu, MaxSegmentPayload(x.a.sender.maxTPDU))[..0];
    y := ReadLoops(x, y, d, tsdu, 0);
    y := ReadCloses(x, y, d);
  }

  // ---------------------------------------------------------------- any number of TSDUs

  lemma {:induction false} TransfersFollow(x: Link.State, n: nat, tsdus: seq<bytes>) returns (y: Link.State)
    requires Quiet(x) && forall tsdu | tsdu in tsdus :: Fits(x, tsdu)
    requires forall c | c in x.a.sender.at || c in x.b.receiver.at :: c < n
    ensures Leads(x, y) && y.b.receiver.delivered == x.b.receiver.delivered + tsdus
    decreases |tsdus|
  {
    hide Leads, Quiet;
    if tsdus == [] {
      LeadsItself(x);
      y := x;
      assert x.b.receiver.delivered + [] == x.b.receiver.delivered;
    } else {
      var z := TransferHappens(x, n, n, tsdus[0]);
      assert forall tsdu | tsdu in tsdus[1..] :: tsdu in tsdus;
      y := TransfersFollow(z, n + 1, tsdus[1..]);
      LeadsThrough(x, z, y);
      assert x.b.receiver.delivered + [tsdus[0]] + tsdus[1..] == x.b.receiver.delivered + tsdus;
    }
  }

  /** Between two ends that have agreed on a size, any sequence of TSDUs that one sends and the other takes can arrive,
      whole and in order: what DeliveryIsPrefix allows is also reached. */
  lemma AnythingArrives(maxTPDU: int, maxA: nat, maxB: nat, tsdus: seq<bytes>) returns (y: Link.State)
    requires maxTPDU >= 4
    requires forall tsdu | tsdu in tsdus :: 1 <= |tsdu| <= Min(TsduBound(maxA), TsduBound(maxB))
    ensures Leads(Link.Start(maxTPDU, maxA, maxTPDU, maxB), y) && y.b.receiver.delivered == tsdus
  {
    hide Leads;
    var start := Link.Start(maxTPDU, maxA, maxTPDU, maxB);
    assert Quiet(start);
    y := TransfersFollow(start, 0, tsdus);
    assert [] + tsdus == tsdus;
  }

  // ---------------------------------------------------------------- a timeout

  ghost predicate TimedLeads(x: Timed.State, y: Timed.State) { exists events :: y == Timed.Run(x, events) }

  lemma {:induction false} TimedRunMore(x: Timed.State, events: seq<Timed.Event>, e: Timed.Event)
    ensures Timed.Run(x, events + [e]) == Timed.Step(Timed.Run(x, events), e)
    decreases |events|
  {
    hide Timed.Step;
    if events == [] {
      assert [] + [e] == [e] && [e][1..] == [];
    } else {
      assert (events + [e])[1..] == events[1..] + [e];
      TimedRunMore(Timed.Step(x, events[0]), events[1..], e);
    }
  }

  lemma Follow(x: Timed.State, y: Timed.State, e: Timed.Event) returns (z: Timed.State)
    requires TimedLeads(x, y)
    ensures z == Timed.Step(y, e) && TimedLeads(x, z)
  {
    hide Timed.Step;
    z := Timed.Step(y, e);
    var events :| y == Timed.Run(x, events);
    TimedRunMore(x, events, e);
  }

  const DUE := Ctx(None, true, false)

  /** A step of the write that does not touch the stream deadlines. */
  lemma TimedWrite(x: Timed.State, y: Timed.State, w: S.Event) returns (z: Timed.State)
    requires TimedLeads(x, y) && S.Enabled(y.end.sender, w) && (w.Check? ==> w.shut == y.end.shown)
    requires Timed.WritePossible(y, w) && !w.ArmDeadline? && !w.DisarmDeadline?
    ensures TimedLeads(x, z)
    ensures z == y.(end := y.end.(sender := S.Step(y.end.sender, y.end.term, w).0,
                                  term := S.Step(y.end.sender, y.end.term, w).1))
  {
    hide TimedLeads, S.Step, S.Enabled;
    z := Follow(x, y, Timed.Act(Endpoint.Write(w)));
  }

  /** The write arms the deadline of its context, on an idle direction. */
  lemma TimedArm(x: Timed.State, y: Timed.State, tsdu: bytes) returns (z: Timed.State)
    requires TimedLeads(x, y) && Timed.Settled(y.clock) && y.end.sender.deadline == D.IDLE
    requires y.end.sender.at == map[0 := S.Checked(tsdu)]
    ensures TimedLeads(x, z) && z.passed == y.passed && z.end == y.end.(sender := z.end.sender)
    ensures z.end.sender == y.end.sender.(at := map[0 := S.Looping(tsdu, 1, y.end.sender.moved, 0)],
                                          deadline := D.Direction(1, 1))
    ensures z.clock.writing == D.Direction(1, 1) && z.clock.write == D.Due(D.Writing, 1)
    ensures z.clock.contexts == y.clock.contexts[(D.Writing, 1) := D.Context(true, false)]
  {
    hide TimedLeads;
    z := Follow(x, y, Timed.Act(Endpoint.Write(S.ArmDeadline(0, DUE))));
  }

  /** A write under a deadline, up to its first packet. */
  lemma TimedOpens(x: Timed.State, tsdu: bytes) returns (y: Timed.State)
    requires Idle(x) && 1 <= |tsdu| <= TsduBound(x.end.sender.maxTSDU)
    ensures TimedLeads(x, y) && y.passed == x.passed && y.end == x.end.(sender := y.end.sender)
    ensures y.end.sender.wire == x.end.sender.wire && y.end.sender.maxTPDU == x.end.sender.maxTPDU
    ensures y.end.sender.at == map[0 := S.Looping(tsdu, 1, y.end.sender.moved, 0)]
    ensures y.clock.writing == y.end.sender.deadline == D.Direction(1, 1) && y.clock.write == D.Due(D.Writing, 1)
    ensures y.clock.contexts == x.clock.contexts[(D.Writing, 1) := D.Context(true, false)]
  {
    hide TimedLeads, Timed.Settled, Packets, IoCause;
    TimedLeadsItself(x);
    y := TimedWrite(x, x, S.Begin(0, tsdu));
    y := TimedWrite(x, y, S.Lock(0));
    y := TimedWrite(x, y, S.Look(0));
    y := TimedWrite(x, y, S.Check(0, false, DUE));
    assert y.end.sender.at == map[0 := S.Checked(tsdu)];
    y := TimedArm(x, y, tsdu);
  }

  /** An open connection on which nothing has been done. */
  predicate Idle(x: Timed.State) {
    && x.end.term == None && !x.end.shown && x.end.sender.at == map[] && x.end.sender.lock == None
    && x.end.sender.deadline == D.IDLE && Timed.Settled(x.clock) && x.end.sender.maxTPDU >= 4
  }

  lemma TimedLeadsItself(x: Timed.State)
    ensures TimedLeads(x, x)
  {
    assert Timed.Run(x, []) == x;
  }

  const TIMEOUT := IoError(true, false, {})

  /** The context of the operation then: done, or with its deadline in the past. */
  function Done(why: Option<Error>): Ctx { if why.Some? then Ctx(why, true, false) else Ctx(None, true, true) }

  /** The deadline strikes: its time passes, or its context is done and the callback runs. */
  lemma Strikes(x: Timed.State, y: Timed.State, why: Option<Error>) returns (z: Timed.State)
    requires TimedLeads(x, y) && y.clock.writing == D.Direction(1, 1) && y.clock.write == D.Due(D.Writing, 1)
    requires (D.Writing, 1) in y.clock.contexts && y.clock.contexts[(D.Writing, 1)] == D.Context(true, false)
    requires (D.Writing, 1) !in y.passed
    ensures TimedLeads(x, z) && z.end == y.end && z.clock.writing == y.clock.writing
    ensures (D.Writing, 1) in z.clock.contexts
    ensures Timed.Struck(z, z.clock.write)
    ensures Timed.Tells(z, D.Writing, 1, Done(why))
  {
    hide TimedLeads;
    if why.Some? {
      z := Follow(x, y, Timed.Cancel(D.Writing, 1));
      z := Follow(x, z, Timed.Fire(D.Writing, 1));
    } else {
      z := Follow(x, y, Timed.Pass(D.Writing, 1));
    }
  }

  /** A write whose deadline has struck before any octet moved. */
  lemma TimesOut(x: Timed.State, y: Timed.State, tsdu: bytes, ctx: Ctx, e: Error) returns (z: Timed.State)
    requires TimedLeads(x, y) && y.end.term == None && tsdu != [] && y.end.sender.maxTPDU >= 4
    requires y.end.sender.at == map[0 := S.Looping(tsdu, 1, y.end.sender.moved, 0)]
    requires y.end.sender.deadline == y.clock.writing == D.Direction(1, 1)
    requires Timed.Struck(y, y.clock.write) && Timed.Tells(y, D.Writing, 1, ctx) && CtxDone(ctx) == Some(e)
    ensures TimedLeads(x, z) && z.clock == y.clock && z.end == y.end.(sender := z.end.sender)
    ensures z.end.sender == y.end.sender.(at := map[0 := S.Leaving(tsdu, 1, S.Bare(e))])
  {
    hide TimedLeads, Packets, IoCause, Timed.Struck, Timed.Tells;
    PacketsExist(tsdu, y.end.sender.maxTPDU);
    z := TimedWrite(x, y, S.Fail(0, 0, TIMEOUT));
    assert Timed.Tells(z, D.Writing, 1, ctx) by { SameTells(y, z, ctx); }
    z := TimedWrite(x, z, S.Inspect(0, ctx));
  }

  lemma SameTells(y: Timed.State, z: Timed.State, ctx: Ctx)
    requires z.clock == y.clock && z.passed == y.passed && Timed.Tells(y, D.Writing, 1, ctx)
    ensures Timed.Tells(z, D.Writing, 1, ctx)
  {
  }

  /** It returns; its direction has no deadline any more. */
  lemma TimedCloses(x: Timed.State, y: Timed.State, tsdu: bytes, r: S.Ending) returns (z: Timed.State)
    requires TimedLeads(x, y) && y.end.sender.at == map[0 := S.Leaving(tsdu, 1, r)] && y.end.term == None
    requires y.end.sender.deadline == y.clock.writing == D.Direction(1, 1)
    requires (D.Writing, 1) in y.clock.contexts
    ensures TimedLeads(x, z) && z.end.sender.at == map[0 := S.Done(tsdu, r)] && z.end.term == None
    ensures z.end.sender.wire == y.end.sender.wire && z.clock.write == D.Unset
  {
    hide TimedLeads, Packets, IoCause;
    z := Follow(x, y, Timed.Act(Endpoint.Write(S.DisarmDeadline(0))));
    z := TimedWrite(x, z, S.Unlock(0));
  }

  /** A write of any TSDU that fits can time out, by its own deadline or by its context: it then returns the bare error
      of the context, no octet has moved, the connection stays open and the direction has no deadline. */
  lemma TimeoutHappens(x: Timed.State, tsdu: bytes, why: Option<Error>) returns (y: Timed.State)
    requires Idle(x) && x.passed == {} && 1 <= |tsdu| <= TsduBound(x.end.sender.maxTSDU)
    ensures TimedLeads(x, y) && y.end.term == None && y.clock.write == D.Unset
    ensures y.end.sender.at
            == map[0 := S.Done(tsdu, S.Bare(if why.Some? then why.value else {DeadlineExceeded}))]
    ensures y.end.sender.wire == x.end.sender.wire
  {
    hide TimedLeads, Timed.Struck, Timed.Tells, Timed.Settled;
    y := TimedOpens(x, tsdu);
    y := Strikes(x, y, why);
    y := TimesOut(x, y, tsdu, Done(why), CtxDone(Done(why)).value);
    y := TimedCloses(x, y, tsdu, S.Bare(CtxDone(Done(why)).value));
  }
}

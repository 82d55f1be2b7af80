/** From the first packet to the last: two peers that complete their handshake agree on their parameters, and TSDUs then
    arrive whole and in order. */
module EndToEnd {
  import opened Types
  import opened Establish
  import opened Handshakes
  import opened Transfer
  import Endpoint
  import Link
  import R = Receiving
  import References
  import SizeNego

  /** Two attempts that read each other's packet and both succeed. */
  ghost predicate Connected(client: ClientConfig, server: ServerConfig, policy: Policy,
                            cw: Surroundings, sw: Surroundings, ca: References.Alloc, sa: References.Alloc,
                            c: Attempt, s: Attempt)
  {
    && c == Initiate(client, cw, ca) && s == Respond(server, policy, sw, sa)
    && c.result.Ok? && s.result.Ok? && |c.packets| == |s.packets| == 1
    && sw.inbound == Arrives(c.packets[0]) && cw.inbound == Arrives(s.packets[0])
  }

  /** The connection they set up, after any interleaving of events at both ends. */
  ghost predicate Carries(client: Session, server: Session, x: Link.State) {
    exists events ::
      x == Link.Run(Link.Start(client.maxTPDU, client.maxTSDU, server.maxTPDU, server.maxTSDU), events)
  }

  /** No packet is refused on the way from one end to the other if it takes TSDUs as long as the other sends. */
  ghost predicate Accepting(from: Endpoint.End, to: Endpoint.End, call: R.Call, stray: bytes) {
    TsduBound(from.sender.maxTSDU) <= TsduBound(to.sender.maxTSDU)
    && R.Enabled(to.receiver, to.inbound, R.Read(call, stray)) ==>
      var p := R.Step(to.receiver, to.inbound, to.term, R.Read(call, stray)).0.at[call];
      p.Looping? || (p.Leaving? && p.result.Got?)
  }

  lemma ConnectionIsFaithful(client: Session, server: Session, x: Link.State, call: R.Call, stray: bytes)
    requires client.maxTPDU == server.maxTPDU && Carries(client, server, x)
    ensures Link.InOrder(x.a, x.b) && Link.InOrder(x.b, x.a)
    ensures Link.Exhaustive(x.a, x.b) && Link.Exhaustive(x.b, x.a)
    ensures Accepting(x.a, x.b, call, stray) && Accepting(x.b, x.a, call, stray)
    ensures x.a.sender.maxTPDU == x.b.sender.maxTPDU == client.maxTPDU
  {
    hide Endpoint.Reached, Endpoint.Start, R.Step, R.Enabled, Link.InOrder, Link.Exhaustive;
    CarriesIsReached(client, server, x);
    Link.DeliveryIsPrefix(x);
    Link.DeliveryIsExhaustive(x);
    Link.ReachedIsJoined(x);
    if TsduBound(x.a.sender.maxTSDU) <= TsduBound(x.b.sender.maxTSDU)
       && R.Enabled(x.b.receiver, x.b.inbound, R.Read(call, stray)) {
      Link.AgreedPacketsAreAccepted(x.a, x.b, call, stray);
    }
    if TsduBound(x.b.sender.maxTSDU) <= TsduBound(x.a.sender.maxTSDU)
       && R.Enabled(x.a.receiver, x.a.inbound, R.Read(call, stray)) {
      Link.AgreedPacketsAreAccepted(x.b, x.a, call, stray);
    }
  }

  lemma CarriesIsReached(client: Session, server: Session, x: Link.State)
    requires Carries(client, server, x)
    ensures Link.Reached(x) && x.a.sender.maxTPDU == client.maxTPDU && x.b.sender.maxTPDU == server.maxTPDU
  {
    hide Link.Joined;
    var start := Link.Start(client.maxTPDU, client.maxTSDU, server.maxTPDU, server.maxTSDU);
    var events :| x == Link.Run(start, events);
    Link.StartIsJoined(client.maxTPDU, client.maxTSDU, server.maxTPDU, server.maxTSDU);
    Link.RunKeepsBounds(start, events);
  }

  /** The two sessions mirror each other and, whatever then happens at both ends, the TSDUs each end delivers are a
      prefix of those that moved octets at the other, and all that were wholly sent once all that moved is accepted,
      under one TPDU size that both ends accept every packet of. */
  lemma HandshakeThenTransfer(client: ClientConfig, server: ServerConfig, policy: Policy,
                              cw: Surroundings, sw: Surroundings, ca: References.Alloc, sa: References.Alloc,
                              c: Attempt, s: Attempt, x: Link.State, call: R.Call, stray: bytes)
    returns (data: bytes)
    requires Connected(client, server, policy, cw, sw, ca, sa, c, s)
    requires Carries(c.result.value, s.result.value, x)
    ensures Mirrored(client, server, data, c.result.value, s.result.value)
    ensures x.a.sender.maxTPDU == x.b.sender.maxTPDU >= SizeNego.MIN_TPDU
    ensures Link.InOrder(x.a, x.b) && Link.InOrder(x.b, x.a)
    ensures Link.Exhaustive(x.a, x.b) && Link.Exhaustive(x.b, x.a)
    ensures Accepting(x.a, x.b, call, stray) && Accepting(x.b, x.a, call, stray)
  {
    hide Initiate, Respond, Accepting, Carries, Link.InOrder, Link.Exhaustive;
    data := PeersAgree(client, server, policy, cw, sw, ca, sa, c, s);
    ConnectionIsFaithful(c.result.value, s.result.value, x, call, stray);
  }
}

/** Relayed packets on their way through any network of devices. */
module RelayNetwork {
  import opened Wrappers
  import opened Wire
  import opened AllowedIps
  import opened Messages
  import opened RelayEnvelope

  /** What forwarding consults of a configured peer. */
  datatype RelayPeer = RelayPeer(relay: Option<PublicKey>, endpoint: Option<SocketAddr>)

  /** A device as a relay: its peers, whether it lets one peer send to another, and who this packet came from. */
  datatype Node = Node(peers: map<PublicKey, RelayPeer>, authorize: (PublicKey, PublicKey) -> bool, sender: PublicKey)

  datatype Outcome =
    | Dropped
    | ToRelay(relay: PublicKey, addr: SocketAddr, envelope: Bytes)
    | ToDestination(addr: SocketAddr, inner: Bytes)

  /** What a device does with the plaintext of a relayed packet, its tunnels being up. */
  function Forward(node: Node, plaintext: Bytes): Outcome
  {
    if Parse(plaintext).Err? || ValidateInnerPacket(InnerPacket(plaintext)).Err? then Dropped
    else
      var destination := Destination(plaintext);
      if !node.authorize(node.sender, destination) then Dropped
      else
        var (relay, endpoint) :=
          if destination in node.peers then (node.peers[destination].relay, node.peers[destination].endpoint)
          else (None, None);
        if relay.Some? then
          if relay.value !in node.peers then Dropped
          else if HopLimit(plaintext) <= 1 then Dropped
          else if node.peers[relay.value].endpoint.None? then Dropped
          else ToRelay(relay.value, node.peers[relay.value].endpoint.value, OneHopLess(plaintext))
        else if endpoint.Some? then ToDestination(endpoint.value, InnerPacket(plaintext))
        else Dropped
  }

  /** The envelope carries `inner` to `destination` with so many hops left. */
  ghost predicate Carries(plaintext: Bytes, destination: PublicKey, inner: Bytes, hops: nat)
  {
    && Parse(plaintext).Ok?
    && Destination(plaintext) == destination && InnerPacket(plaintext) == inner && HopLimit(plaintext) == hops
  }

  /** A packet sent through `nodes` in turn: every one but the last forwards it, sealed anew, to the next. */
  ghost predicate Travels(nodes: seq<Node>, plaintexts: seq<Bytes>, destination: PublicKey, inner: Bytes)
  {
    && |nodes| == |plaintexts| > 0
    && plaintexts[0] == Padded(Enveloped(destination, inner))
    && forall i {:trigger nodes[i]} :: 0 <= i < |nodes| - 1 ==>
         Forward(nodes[i], plaintexts[i]).ToRelay? && plaintexts[i + 1] == Padded(Forward(nodes[i], plaintexts[i]).envelope)
  }

  lemma {:induction false} EnvelopeUnderway(nodes: seq<Node>, plaintexts: seq<Bytes>, destination: PublicKey,
                                            inner: Bytes, i: nat)
    requires Travels(nodes, plaintexts, destination, inner) && |inner| < 0x1_0000 && i < |nodes|
    ensures i < DEFAULT_HOP_LIMIT && Carries(plaintexts[i], destination, inner, DEFAULT_HOP_LIMIT - i)
    ensures |plaintexts[i]| == |plaintexts[0]| == PaddedLen(ENVELOPE_HEADER_SIZE + |inner|)
  {
    PaddingIsStable(ENVELOPE_HEADER_SIZE + |inner|);
    if i == 0 {
      EnvelopeSurvivesPadding(destination, inner, Zeros(PaddedLen(ENVELOPE_HEADER_SIZE + |inner|) - ENVELOPE_HEADER_SIZE - |inner|));
    } else {
      EnvelopeUnderway(nodes, plaintexts, destination, inner, i - 1);
      var before := plaintexts[i - 1];
      assert Forward(nodes[i - 1], before).ToRelay?;
      var next := OneHopLess(before);
      HopKeepsEnvelope(before);
      PaddingKeepsEnvelope(next, Zeros(PaddedLen(|next|) - |next|));
    }
  }

  /**
   However the relays are configured, in circles even, a fresh envelope is forwarded from relay to relay at most seven
   times. Its destination and inner packet never change, it never grows, and what is delivered in the end is the inner
   packet, which is a standard WireGuard message and never a relayed one.
   */
  lemma RelayingIsBounded(nodes: seq<Node>, plaintexts: seq<Bytes>, destination: PublicKey, inner: Bytes)
    requires Travels(nodes, plaintexts, destination, inner) && |inner| < 0x1_0000
    ensures var n := |nodes| - 1;
            var outcome := Forward(nodes[n], plaintexts[n]);
            && n <= 7
            && (forall i :: 0 <= i <= n ==> Carries(plaintexts[i], destination, inner, 8 - i) &&
                                            |plaintexts[i]| == PaddedLen(ENVELOPE_HEADER_SIZE + |inner|))
            && (outcome.ToDestination? ==>
                  && outcome.inner == inner
                  && ParseIncomingPacket(inner).Ok? && !ParseIncomingPacket(inner).value.RelayData?)
  {
    var n := |nodes| - 1;
    forall i | 0 <= i <= n
      ensures i < 8 && Carries(plaintexts[i], destination, inner, 8 - i)
      ensures |plaintexts[i]| == PaddedLen(ENVELOPE_HEADER_SIZE + |inner|)
    {
      EnvelopeUnderway(nodes, plaintexts, destination, inner, i);
    }
    ForwardsStandardMessagesOnly(inner);
  }

  /** The device would pass the packet on to another relay if only it had hops left. */
  ghost predicate Passable(node: Node, destination: PublicKey, inner: Bytes)
  {
    && ValidateInnerPacket(inner).Ok? && node.authorize(node.sender, destination)
    && destination in node.peers && var relay := node.peers[destination].relay;
    relay.Some? && relay.value in node.peers && node.peers[relay.value].endpoint.Some?
  }

  /** A relay passes an envelope on exactly if it may and at least two hops are left. */
  lemma HopsDecide(node: Node, plaintext: Bytes, destination: PublicKey, inner: Bytes, hops: nat)
    requires Carries(plaintext, destination, inner, hops)
    ensures Forward(node, plaintext).ToRelay? <==> Passable(node, destination, inner) && hops >= 2
  {
  }

  /** Relays that may pass the packet on do so, up to seven of them. */
  lemma {:induction false} PassableRelaysPassOn(nodes: seq<Node>, destination: PublicKey, inner: Bytes)
    requires 0 < |nodes| <= DEFAULT_HOP_LIMIT && |inner| < 0x1_0000
    requires forall i :: 0 <= i < |nodes| - 1 ==> Passable(nodes[i], destination, inner)
    ensures exists plaintexts :: Travels(nodes, plaintexts, destination, inner)
  {
    var n := |nodes| - 1;
    if n == 0 {
      assert Travels(nodes, [Padded(Enveloped(destination, inner))], destination, inner);
    } else {
      PassableRelaysPassOn(nodes[..n], destination, inner);
      var before :| Travels(nodes[..n], before, destination, inner);
      EnvelopeUnderway(nodes[..n], before, destination, inner, n - 1);
      HopsDecide(nodes[n - 1], before[n - 1], destination, inner, DEFAULT_HOP_LIMIT - (n - 1));
      var plaintexts := before + [Padded(Forward(nodes[n - 1], before[n - 1]).envelope)];
      forall i {:trigger nodes[i]} | 0 <= i < |nodes| - 1
        ensures Forward(nodes[i], plaintexts[i]).ToRelay? && plaintexts[i + 1] == Padded(Forward(nodes[i], plaintexts[i]).envelope)
      {
        assert nodes[..n][i] == nodes[i];
      }
      assert Travels(nodes, plaintexts, destination, inner);
    }
  }

  /** A relay that sends everything for the destination to the destination itself, to be relayed there again. */
  function Circle(destination: PublicKey, addr: SocketAddr, sender: PublicKey): Node
  {
    Node(map[destination := RelayPeer(Some(destination), Some(addr))], (_, _) => true, sender)
  }

  /** The bound is reached: every valid inner packet can be forwarded seven times, by relays that go round in a circle. */
  lemma SevenForwardsHappen(destination: PublicKey, addr: SocketAddr, sender: PublicKey, inner: Bytes)
    requires ValidateInnerPacket(inner).Ok? && |inner| < 0x1_0000
    ensures var nodes := seq(8, _ => Circle(destination, addr, sender));
            exists plaintexts :: Travels(nodes, plaintexts, destination, inner) && Forward(nodes[7], plaintexts[7]) == Dropped
  {
    var nodes := seq(8, _ => Circle(destination, addr, sender));
    forall i | 0 <= i < 7
      ensures Passable(nodes[i], destination, inner)
    {
    }
    PassableRelaysPassOn(nodes, destination, inner);
    var plaintexts :| Travels(nodes, plaintexts, destination, inner);
    EnvelopeUnderway(nodes, plaintexts, destination, inner, 7);
    assert Forward(nodes[7], plaintexts[7]) == Dropped;
  }

  /** A tunnelled packet of at most the MTU, relayed, still fits every buffer, whichever relay seals it. */
  lemma RelayedFits(c: Aead, index: U32, counter: U64, key: Key, index2: U32, counter2: U64, key2: Key,
                    destination: PublicKey, src: Bytes)
    requires Lawful(c) && |src| <= MTU
    ensures var inner := Formatted(c, DATA, index, counter, key, src);
            var plaintext := Padded(Enveloped(destination, inner));
            && |inner| <= MTU + PACKET_OVERHEAD < 0x1_0000
            && |Formatted(c, RELAY_DATA, index2, counter2, key2, plaintext)|
               == |Formatted(c, RELAY_DATA, index2, counter2, key2, Enveloped(destination, inner))| <= MAX_PACKET_SIZE
  {
    var inner := Formatted(c, DATA, index, counter, key, src);
    var envelope := Enveloped(destination, inner);
    FormattedFits(c, DATA, index, counter, key, src);
    FormattedFits(c, RELAY_DATA, index2, counter2, key2, envelope);
    FormattedFits(c, RELAY_DATA, index2, counter2, key2, Padded(envelope));
    PaddingIsStable(|envelope|);
  }
}

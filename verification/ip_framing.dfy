/** Inner IP packets: how the padding is cut off again, and the way of a packet from end to end. */
module IpFraming {
  import opened Wrappers
  import opened Wire
  import opened Messages

  const IPV4_MIN_HEADER_SIZE: nat := 20
  const IPV6_MIN_HEADER_SIZE: nat := 40

  datatype TunnResult = Done | Rejected | WriteToInterfaceV4(packet: Bytes, src: Bytes) | WriteToInterfaceV6(packet: Bytes, src: Bytes)

  function HeaderLen4(packet: Bytes): nat
    requires packet != []
  {
    packet[0] % 16 * 4
  }

  predicate ValidHeader4(packet: Bytes)
  {
    |packet| >= IPV4_MIN_HEADER_SIZE && IPV4_MIN_HEADER_SIZE <= HeaderLen4(packet) <= |packet|
  }

  function SrcAddress(packet: Bytes): Option<Bytes>
  {
    if packet == [] then None
    else if packet[0] / 16 == 4 && ValidHeader4(packet) then Some(packet[12..16])
    else if packet[0] / 16 == 6 && |packet| >= IPV6_MIN_HEADER_SIZE then Some(packet[8..24])
    else None
  }

  function FromBe16(high: Byte, low: Byte): nat
  {
    256 * high + low
  }

  /** The length a packet's header declares, if its header is whole and holds together. */
  function DeclaredLen(packet: Bytes): (r: Option<nat>)
    ensures r.Some? ==> packet != [] && r.value >= IPV4_MIN_HEADER_SIZE
  {
    if packet == [] || SrcAddress(packet).None? then None
    else if packet[0] / 16 == 4 then
      var total := FromBe16(packet[2], packet[3]);
      if total < HeaderLen4(packet) then None else Some(total)
    else Some(FromBe16(packet[4], packet[5]) + IPV6_MIN_HEADER_SIZE)
  }

  /** The packet without what padding follows it; an empty one is a keepalive. */
  method ValidateDecapsulatedPacket(packet: Bytes) returns (r: TunnResult)
    ensures r == Validated(packet)
  {
    if |packet| == 0 {
      return Done;
    }
    var src := SrcAddress(packet);
    if src.None? {
      return Rejected;
    }
    var computedLen: nat;
    if packet[0] / 16 == 4 {
      if |packet| < IPV4_MIN_HEADER_SIZE {
        return Rejected;
      }
      var headerLen := packet[0] % 16 * 4;
      if headerLen < IPV4_MIN_HEADER_SIZE || |packet| < headerLen {
        return Rejected;
      }
      var total := FromBe16(packet[2], packet[3]);
      if total < headerLen {
        return Rejected;
      }
      computedLen := total;
    } else if packet[0] / 16 == 6 {
      if |packet| < IPV6_MIN_HEADER_SIZE {
        return Rejected;
      }
      computedLen := FromBe16(packet[4], packet[5]) + IPV6_MIN_HEADER_SIZE;
    } else {
      return Rejected;
    }
    if computedLen > |packet| {
      return Rejected;
    }
    if |src.value| == 4 {
      return WriteToInterfaceV4(packet[..computedLen], src.value);
    } else {
      return WriteToInterfaceV6(packet[..computedLen], src.value);
    }
  }

  function Validated(packet: Bytes): TunnResult
  {
    if packet == [] then Done
    else
      var len := DeclaredLen(packet);
      if len.None? || len.value > |packet| then Rejected
      else if packet[0] / 16 == 4 then WriteToInterfaceV4(packet[..len.value], packet[12..16])
      else WriteToInterfaceV6(packet[..len.value], packet[8..24])
  }

  /** A packet as the tunnel delivers it to the interface. */
  predicate Delivers(r: TunnResult, packet: Bytes)
  {
    (r.WriteToInterfaceV4? || r.WriteToInterfaceV6?) && r.packet == packet
  }

  lemma HeadersSurvivePadding(src: Bytes, padding: Bytes)
    requires src != [] && DeclaredLen(src).Some?
    ensures DeclaredLen(src + padding) == DeclaredLen(src)
  {
  }

  /** Padding is cut off to leave just the packet exactly if the packet declares its own length. */
  lemma PaddingIsCutOffExactly(src: Bytes)
    requires src != []
    ensures Delivers(Validated(Padded(src)), src) <==> DeclaredLen(src) == Some(|src|)
  {
  }

  /** An IPv4 packet declares the length it carries in bytes 2 and 3, unless that is less than its header. */
  lemma DeclaredIn4(packet: Bytes, n: nat)
    requires |packet| >= 20 && packet[0] / 16 == 4 && 20 <= packet[0] % 16 * 4 <= |packet|
    requires n < 0x1_0000 && packet[2] == n / 256 && packet[3] == n % 256
    ensures DeclaredLen(packet) == if n >= packet[0] % 16 * 4 then Some(n) else None
  {
  }

  /** An IPv6 packet declares the payload length it carries in bytes 4 and 5, and its header. */
  lemma DeclaredIn6(packet: Bytes, n: nat)
    requires |packet| >= 40 && packet[0] / 16 == 6
    requires n < 0x1_0000 && packet[4] == n / 256 && packet[5] == n % 256
    ensures DeclaredLen(packet) == Some(n + 40)
  {
  }

  /** Nothing else declares a length. */
  lemma NothingElseDeclares(packet: Bytes)
    requires packet == [] || (packet[0] / 16 != 4 && packet[0] / 16 != 6)
             || (packet[0] / 16 == 4 && !(20 <= packet[0] % 16 * 4 <= |packet|)) || (packet[0] / 16 == 6 && |packet| < 40)
    ensures DeclaredLen(packet).None?
  {
  }

  /** An IPv4 packet that carries its own length is delivered whole after padding, with its bytes 12 to 15 as source. */
  lemma Delivered4(src: Bytes)
    requires 20 <= |src| < 0x1_0000 && src[0] / 16 == 4 && 20 <= src[0] % 16 * 4 <= |src|
    requires src[2] == |src| / 256 && src[3] == |src| % 256
    ensures Validated(Padded(src)) == WriteToInterfaceV4(src, [src[12], src[13], src[14], src[15]])
  {
    DeclaredIn4(src, |src|);
    PaddingIsCutOffExactly(src);
    SourceIsKept(src);
    assert src[12..16] == [src[12], src[13], src[14], src[15]];
  }

  /** An IPv6 packet likewise, with its bytes 8 to 23 as source. */
  lemma Delivered6(src: Bytes)
    requires 40 <= |src| < 40 + 0x1_0000 && src[0] / 16 == 6
    requires src[4] == (|src| - 40) / 256 && src[5] == (|src| - 40) % 256
    ensures var r := Validated(Padded(src));
            && r.WriteToInterfaceV6? && r.packet == src && |r.src| == 16
            && forall i :: 0 <= i < 16 ==> r.src[i] == src[8 + i]
  {
    DeclaredIn6(src, |src| - 40);
    PaddingIsCutOffExactly(src);
    SourceIsKept(src);
  }

  /** The source address delivered with a packet is the one in it. */
  lemma SourceIsKept(src: Bytes)
    requires src != [] && DeclaredLen(src) == Some(|src|)
    ensures Some(Validated(Padded(src)).src) == SrcAddress(src)
  {
    PaddingIsStable(|src|);
    HeadersSurvivePadding(src, Zeros(PaddedLen(|src|) - |src|));
    assert forall i :: 0 <= i < |src| ==> Padded(src)[i] == src[i];
    assert Padded(src)[12..16] == src[12..16];
    if |src| >= 24 {
      assert Padded(src)[8..24] == src[8..24];
    }
  }

  /**
   Sending and receiving is the identity: a packet formatted on one session is parsed as data for the peer's session,
   opens to its padding, and is delivered whole and alone, exactly if it declares its own length.
   */
  lemma SentIsReceived(c: Aead, receiverIdx: U32, counter: U64, key: Key, src: Bytes)
    requires Lawful(c) && src != []
    ensures var wire := Formatted(c, DATA, receiverIdx, counter, key, src);
            var parsed := ParseIncomingPacket(wire);
            && parsed.Ok? && parsed.value.Data? && Opened(c, key, parsed.value.data).Some?
            && (Delivers(Validated(Opened(c, key, parsed.value.data).value), src) <==> DeclaredLen(src) == Some(|src|))
            && |src| <= |wire| && (|src| <= MTU ==> |wire| <= MTU + PACKET_OVERHEAD <= MAX_PACKET_SIZE)
  {
    FormattedParsesAndOpens(c, DATA, receiverIdx, counter, key, src);
    FormattedFits(c, DATA, receiverIdx, counter, key, src);
    PaddingIsStable(|src|);
    PaddingIsCutOffExactly(src);
  }
}

/** Relay envelopes: a WireGuard packet with the key of the peer it is for and a hop limit. */
module RelayEnvelope {
  import opened Wrappers
  import opened Wire
  import opened Messages
  import opened Buffers

  const ENVELOPE_VERSION: Byte := 1
  const DEFAULT_HOP_LIMIT: Byte := 8

  datatype RelayError =
    | BufferTooSmall
    | TooShort
    | UnsupportedVersion(version: Byte)
    | HopLimitExhausted
    | InnerPacketTooLarge
    | TooShortForType
    | InvalidMessageType(kind: nat)

  function HopLimit(bytes: Bytes): Byte
    requires |bytes| >= ENVELOPE_HEADER_SIZE
  {
    bytes[1]
  }

  /** The length of the inner packet, if the envelope is sound. */
  function Parse(bytes: Bytes): (r: Result<nat, RelayError>)
    ensures r.Ok? ==> ENVELOPE_HEADER_SIZE + r.value <= |bytes| && HopLimit(bytes) > 0
  {
    if |bytes| < ENVELOPE_HEADER_SIZE then Err(TooShort)
    else if bytes[0] != ENVELOPE_VERSION then Err(UnsupportedVersion(bytes[0]))
    else if bytes[1] == 0 then Err(HopLimitExhausted)
    else
      var innerLen := FromLe(bytes[2..4]);
      if ENVELOPE_HEADER_SIZE + innerLen > |bytes| then Err(TooShort) else Ok(innerLen)
  }

  function Destination(bytes: Bytes): PublicKey
    requires |bytes| >= ENVELOPE_HEADER_SIZE
  {
    bytes[4..ENVELOPE_HEADER_SIZE]
  }

  function InnerPacket(bytes: Bytes): Bytes
    requires Parse(bytes).Ok?
  {
    bytes[ENVELOPE_HEADER_SIZE..ENVELOPE_HEADER_SIZE + Parse(bytes).value]
  }

  /** A fresh envelope. */
  function Enveloped(destination: PublicKey, inner: Bytes): (r: Bytes)
    ensures |r| == ENVELOPE_HEADER_SIZE + |inner|
  {
    EnvelopeHeader(|inner|, destination) + inner
  }

  function EnvelopeHeader(innerLen: nat, destination: PublicKey): (r: Bytes)
    ensures |r| == ENVELOPE_HEADER_SIZE
  {
    [ENVELOPE_VERSION, DEFAULT_HOP_LIMIT] + ToLe(innerLen, 2) + destination
  }

  lemma HeaderFields(innerLen: nat, destination: PublicKey)
    requires innerLen < 0x1_0000
    ensures var h := EnvelopeHeader(innerLen, destination);
            && h[0] == ENVELOPE_VERSION && h[1] == DEFAULT_HOP_LIMIT
            && FromLe(h[2..4]) == innerLen && h[4..ENVELOPE_HEADER_SIZE] == destination
  {
  }

  /** Whatever follows it, an envelope is read as it was built. */
  lemma EnvelopeSurvivesPadding(destination: PublicKey, inner: Bytes, padding: Bytes)
    requires |inner| < 0x1_0000
    ensures var bytes := Enveloped(destination, inner) + padding;
            && Parse(bytes) == Ok(|inner|) && Destination(bytes) == destination && InnerPacket(bytes) == inner
            && HopLimit(bytes) == DEFAULT_HOP_LIMIT
  {
    var h, bytes := EnvelopeHeader(|inner|, destination), Enveloped(destination, inner) + padding;
    HeaderFields(|inner|, destination);
    assert bytes == h + (inner + padding);
    assert bytes[0] == h[0] && bytes[1] == h[1] && bytes[2..4] == h[2..4];
    assert bytes[4..ENVELOPE_HEADER_SIZE] == h[4..ENVELOPE_HEADER_SIZE];
    assert bytes[ENVELOPE_HEADER_SIZE..ENVELOPE_HEADER_SIZE + |inner|] == inner;
  }

  method WriteEnvelopeHeader(dst: array<Byte>, destination: PublicKey, innerLen: nat)
    requires dst.Length >= ENVELOPE_HEADER_SIZE
    modifies dst
    ensures dst[..] == EnvelopeHeader(innerLen, destination) + old(dst[..])[ENVELOPE_HEADER_SIZE..]
  {
    Write(dst, 0, Zeros(ENVELOPE_HEADER_SIZE));
    ghost var cleared := dst[..];
    assert cleared[ENVELOPE_HEADER_SIZE..] == old(dst[..])[ENVELOPE_HEADER_SIZE..];
    FirstBytes(cleared, ENVELOPE_VERSION, DEFAULT_HOP_LIMIT);
    Write(dst, 0, [ENVELOPE_VERSION]);
    Write(dst, 1, [DEFAULT_HOP_LIMIT]);
    assert dst[..] == [ENVELOPE_VERSION, DEFAULT_HOP_LIMIT] + cleared[2..];
    OtherFields([ENVELOPE_VERSION, DEFAULT_HOP_LIMIT], cleared[2..], ToLe(innerLen, 2), destination);
    Write(dst, 2, ToLe(innerLen, 2));
    Write(dst, 4, destination);
    assert cleared[2..][34..] == cleared[ENVELOPE_HEADER_SIZE..];
  }

  /** Builds an envelope at the front of `dst` and returns its length. */
  method BuildEnvelope(dst: array<Byte>, destination: PublicKey, inner: Bytes) returns (r: Result<nat, RelayError>)
    modifies dst
    ensures r == Err(InnerPacketTooLarge) <==> |inner| >= 0x1_0000
    ensures r == Err(BufferTooSmall) <==> |inner| < 0x1_0000 && dst.Length < ENVELOPE_HEADER_SIZE + |inner|
    ensures r.Err? ==> dst[..] == old(dst[..])
    ensures r.Ok? ==> r.value == ENVELOPE_HEADER_SIZE + |inner| <= dst.Length
    ensures r.Ok? ==> dst[..] == Overwritten(old(dst[..]), 0, Enveloped(destination, inner))
  {
    if |inner| > 0xffff {
      return Err(InnerPacketTooLarge);
    }
    var envelopeLen := ENVELOPE_HEADER_SIZE + |inner|;
    if dst.Length < envelopeLen {
      return Err(BufferTooSmall);
    }
    WriteEnvelopeHeader(dst, destination, |inner|);
    Write(dst, ENVELOPE_HEADER_SIZE, inner);
    Extends(EnvelopeHeader(|inner|, destination), old(dst[..])[ENVELOPE_HEADER_SIZE..], inner);
    return Ok(envelopeLen);
  }

  lemma FirstBytes(bytes: Bytes, x: Byte, y: Byte)
    requires |bytes| >= 2
    ensures Overwritten(Overwritten(bytes, 0, [x]), 1, [y]) == [x, y] + bytes[2..]
  {
  }

  lemma OtherFields(head: Bytes, rest: Bytes, le: Bytes, destination: PublicKey)
    requires |head| == |le| == 2 && |rest| >= 34
    ensures Overwritten(Overwritten(head + rest, 2, le), 4, destination) == head + le + destination + rest[34..]
  {
  }

  /** Writing right behind a prefix extends it. */
  lemma Extends(prefix: Bytes, rest: Bytes, src: Bytes)
    requires |src| <= |rest|
    ensures Overwritten(prefix + rest, |prefix|, src) == prefix + src + rest[|src|..]
  {
  }

  /** The envelope with one hop used up. */
  function OneHopLess(bytes: Bytes): (r: Bytes)
    requires Parse(bytes).Ok? && HopLimit(bytes) > 1
    ensures |r| == |bytes|
  {
    bytes[1 := bytes[1] - 1]
  }

  method DecrementHopLimit(bytes: array<Byte>) returns (ok: bool)
    requires Parse(bytes[..]).Ok?
    modifies bytes
    ensures ok <==> HopLimit(old(bytes[..])) > 1
    ensures bytes[..] == if ok then OneHopLess(old(bytes[..])) else old(bytes[..])
  {
    if bytes[1] <= 1 {
      return false;
    }
    bytes[1] := bytes[1] - 1;
    return true;
  }

  lemma HopKeepsEnvelope(bytes: Bytes)
    requires Parse(bytes).Ok? && HopLimit(bytes) > 1
    ensures var next := OneHopLess(bytes);
            && Parse(next) == Parse(bytes) && Destination(next) == Destination(bytes)
            && InnerPacket(next) == InnerPacket(bytes) && HopLimit(next) == HopLimit(bytes) - 1
  {
  }

  lemma PaddingKeepsEnvelope(bytes: Bytes, padding: Bytes)
    requires Parse(bytes).Ok?
    ensures var next := bytes + padding;
            && Parse(next) == Parse(bytes) && Destination(next) == Destination(bytes)
            && InnerPacket(next) == InnerPacket(bytes) && HopLimit(next) == HopLimit(bytes)
  {
    var next := bytes + padding;
    assert next[2..4] == bytes[2..4];
    assert next[4..36] == bytes[4..36];
    var len := Parse(bytes).value;
    assert next[36..36 + len] == bytes[36..36 + len];
  }

  /** A standard WireGuard message, as far as its type and size tell. */
  function ValidateInnerPacket(inner: Bytes): Result<(), RelayError>
  {
    if |inner| < 4 then Err(TooShortForType)
    else
      var kind := Word32(inner, 0);
      if kind == HANDSHAKE_INIT && |inner| == HANDSHAKE_INIT_SZ then Ok(())
      else if kind == HANDSHAKE_RESP && |inner| == HANDSHAKE_RESP_SZ then Ok(())
      else if kind == COOKIE_REPLY && |inner| == COOKIE_REPLY_SZ then Ok(())
      else if kind == DATA && |inner| >= DATA_OVERHEAD_SZ then Ok(())
      else if kind == HANDSHAKE_INIT || kind == HANDSHAKE_RESP || kind == COOKIE_REPLY || kind == DATA
      then Err(TooShortForType)
      else Err(InvalidMessageType(kind))
  }

  /** Exactly what an endpoint would parse and is not itself relayed is forwarded; the rest is of another type or size. */
  lemma ForwardsStandardMessagesOnly(inner: Bytes)
    ensures ValidateInnerPacket(inner).Ok? <==>
            ParseIncomingPacket(inner).Ok? && !ParseIncomingPacket(inner).value.RelayData?
    ensures ValidateInnerPacket(inner) == Err(TooShortForType) <==>
            |inner| < 4 || (ValidateInnerPacket(inner).Err? && 1 <= Word32(inner, 0) <= 4)
    ensures ValidateInnerPacket(inner).Err? && |inner| >= 4 && !(1 <= Word32(inner, 0) <= 4) ==>
              ValidateInnerPacket(inner) == Err(InvalidMessageType(Word32(inner, 0)))
  {
  }
}

/** The packets on the wire: their layout, how incoming bytes are told apart, and how data is sealed in them. */
module Messages {
  import opened Wrappers
  import opened Wire

  const HANDSHAKE_INIT: nat := 1
  const HANDSHAKE_RESP: nat := 2
  const COOKIE_REPLY: nat := 3
  const DATA: nat := 4
  /** Non-standard: relayed data. */
  const RELAY_DATA: nat := 5

  const HANDSHAKE_INIT_SZ: nat := 148
  const HANDSHAKE_RESP_SZ: nat := 92
  const COOKIE_REPLY_SZ: nat := 64
  const DATA_OVERHEAD_SZ: nat := 32

  /** Where the sealed data of a data packet starts, and how much longer than the plaintext it is. */
  const DATA_OFFSET: nat := 16
  const AEAD_SIZE: nat := 16

  type U32 = n: nat | n < 0x1_0000_0000
  type U64 = n: nat | n < 0x1_0000_0000_0000_0000

  type Bytes = seq<Byte>

  // -------------------------------------------------------------------------
  // Little-endian integers
  // -------------------------------------------------------------------------

  function Power256(k: nat): (r: nat)
    ensures r >= 1
  {
    if k == 0 then 1 else 256 * Power256(k - 1)
  }

  /** `n` in `k` bytes, least significant first. */
  function ToLe(n: nat, k: nat): (r: Bytes)
    ensures |r| == k
    decreases k
  {
    if k == 0 then [] else [n % 256] + ToLe(n / 256, k - 1)
  }

  function FromLe(bytes: Bytes): (r: nat)
    ensures r < Power256(|bytes|)
  {
    if bytes == [] then 0 else bytes[0] + 256 * FromLe(bytes[1..])
  }

  lemma {:induction false} LeRoundTrip(n: nat, k: nat)
    requires n < Power256(k)
    ensures FromLe(ToLe(n, k)) == n
    decreases k
  {
    if k > 0 {
      LeRoundTrip(n / 256, k - 1);
    }
  }

  /** The `i`-th byte is the `i`-th digit to the base 256. */
  lemma {:induction false} LeDigits(n: nat, k: nat, i: nat)
    requires i < k
    ensures ToLe(n, k)[i] == n / Power256(i) % 256
    decreases k
  {
    if i > 0 {
      LeDigits(n / 256, k - 1, i - 1);
      DividedTwice(n, Power256(i - 1));
    }
  }

  lemma DividedTwice(n: nat, d: nat)
    requires d > 0
    ensures n / 256 / d == n / (256 * d)
  {
    var q, r := n / 256 / d, n / 256 % d;
    assert n == 256 * (d * q + r) + n % 256 && 256 * r + n % 256 < 256 * d;
    assert n == 256 * d * q + (256 * r + n % 256);
    QuotientIs(n, 256 * d, q, 256 * r + n % 256);
  }

  lemma QuotientIs(n: nat, d: nat, q: nat, r: nat)
    requires r < d && n == d * q + r
    ensures n / d == q
  {
    assert d * (n / d) <= n < d * (n / d) + d;
    Cancelled(d, q, n / d + 1);
    Cancelled(d, n / d, q + 1);
  }

  lemma Cancelled(d: nat, a: nat, b: nat)
    requires d * a < d * b
    ensures a < b
  {
  }

  lemma WordSizes()
    ensures Power256(2) == 0x1_0000 && Power256(4) == 0x1_0000_0000 && Power256(8) == 0x1_0000_0000_0000_0000
  {
  }

  // -------------------------------------------------------------------------
  // Telling packets apart
  // -------------------------------------------------------------------------

  datatype DataMessage = DataMessage(receiverIdx: U32, counter: U64, encapsulated: Bytes)

  datatype Packet =
    | HandshakeInit(senderIdx: U32, unencryptedEphemeral: Bytes, encryptedStatic: Bytes, encryptedTimestamp: Bytes)
    | HandshakeResponse(senderIdx: U32, receiverIdx: U32, unencryptedEphemeral: Bytes, encryptedNothing: Bytes)
    | CookieReply(receiverIdx: U32, nonce: Bytes, encryptedCookie: Bytes)
    | Data(data: DataMessage)
    | RelayData(data: DataMessage)

  datatype PacketError = InvalidPacket

  function Word32(src: Bytes, at: nat): U32
    requires at + 4 <= |src|
  {
    WordSizes();
    FromLe(src[at..at + 4])
  }

  function DataOf(src: Bytes): DataMessage
    requires |src| >= 16
  {
    WordSizes();
    DataMessage(Word32(src, 4), FromLe(src[8..16]), src[16..])
  }

  /** The sizes a packet of each kind may have: handshake messages are of fixed size, data has at least a tag. */
  predicate RightSize(kind: nat, len: nat)
  {
    match kind
    case 1 => len == HANDSHAKE_INIT_SZ
    case 2 => len == HANDSHAKE_RESP_SZ
    case 3 => len == COOKIE_REPLY_SZ
    case 4 => len >= DATA_OVERHEAD_SZ
    case 5 => len >= DATA_OVERHEAD_SZ
    case _ => false
  }

  function KindOf(p: Packet): nat
  {
    match p
    case HandshakeInit(_, _, _, _) => HANDSHAKE_INIT
    case HandshakeResponse(_, _, _, _) => HANDSHAKE_RESP
    case CookieReply(_, _, _) => COOKIE_REPLY
    case Data(_) => DATA
    case RelayData(_) => RELAY_DATA
  }

  function ParseIncomingPacket(src: Bytes): (r: Result<Packet, PacketError>)
    ensures r.Ok? <==> |src| >= 4 && RightSize(FromLe(src[..4]), |src|)
    ensures r.Ok? ==> KindOf(r.value) == FromLe(src[..4])
    ensures r.Ok? && (r.value.Data? || r.value.RelayData?) ==> |r.value.data.encapsulated| == |src| - DATA_OFFSET >= AEAD_SIZE
  {
    if |src| < 4 then Err(InvalidPacket)
    else
      var kind := Word32(src, 0);
      if kind == HANDSHAKE_INIT && |src| == HANDSHAKE_INIT_SZ then
        Ok(HandshakeInit(Word32(src, 4), src[8..40], src[40..88], src[88..116]))
      else if kind == HANDSHAKE_RESP && |src| == HANDSHAKE_RESP_SZ then
        Ok(HandshakeResponse(Word32(src, 4), Word32(src, 8), src[12..44], src[44..60]))
      else if kind == COOKIE_REPLY && |src| == COOKIE_REPLY_SZ then
        Ok(CookieReply(Word32(src, 4), src[8..32], src[32..64]))
      else if kind == DATA && |src| >= DATA_OVERHEAD_SZ then Ok(Data(DataOf(src)))
      else if kind == RELAY_DATA && |src| >= DATA_OVERHEAD_SZ then Ok(RelayData(DataOf(src)))
      else Err(InvalidPacket)
  }

  /** A handshake initiation as it is laid out on the wire, its two MACs last. */
  function InitBytes(senderIdx: U32, ephemeral: Bytes, encryptedStatic: Bytes, encryptedTimestamp: Bytes, macs: Bytes): Bytes
  {
    ToLe(HANDSHAKE_INIT, 4) + ToLe(senderIdx, 4) + ephemeral + encryptedStatic + encryptedTimestamp + macs
  }

  function ResponseBytes(senderIdx: U32, receiverIdx: U32, ephemeral: Bytes, encryptedNothing: Bytes, macs: Bytes): Bytes
  {
    ToLe(HANDSHAKE_RESP, 4) + ToLe(senderIdx, 4) + ToLe(receiverIdx, 4) + ephemeral + encryptedNothing + macs
  }

  function CookieReplyBytes(receiverIdx: U32, nonce: Bytes, encryptedCookie: Bytes): Bytes
  {
    ToLe(COOKIE_REPLY, 4) + ToLe(receiverIdx, 4) + nonce + encryptedCookie
  }

  /** What is laid out with fields of the right lengths is parsed as the same message again. */
  lemma HandshakeMessagesParse(senderIdx: U32, receiverIdx: U32, b16: Bytes, b24: Bytes, b28: Bytes, ephemeral: Bytes,
                               b48: Bytes, macs: Bytes)
    requires |b16| == 16 && |b24| == 24 && |b28| == 28 && |ephemeral| == |macs| == 32 && |b48| == 48
    ensures ParseIncomingPacket(InitBytes(senderIdx, ephemeral, b48, b28, macs))
            == Ok(HandshakeInit(senderIdx, ephemeral, b48, b28))
    ensures ParseIncomingPacket(ResponseBytes(senderIdx, receiverIdx, ephemeral, b16, macs))
            == Ok(HandshakeResponse(senderIdx, receiverIdx, ephemeral, b16))
    ensures ParseIncomingPacket(CookieReplyBytes(receiverIdx, b24, macs)) == Ok(CookieReply(receiverIdx, b24, macs))
  {
    WordSizes();
    LeRoundTrip(HANDSHAKE_INIT, 4);
    LeRoundTrip(HANDSHAKE_RESP, 4);
    LeRoundTrip(COOKIE_REPLY, 4);
    LeRoundTrip(senderIdx, 4);
    LeRoundTrip(receiverIdx, 4);
    InitLayout(ToLe(HANDSHAKE_INIT, 4), ToLe(senderIdx, 4), ephemeral, b48, b28, macs);
    ResponseLayout(ToLe(HANDSHAKE_RESP, 4), ToLe(senderIdx, 4), ToLe(receiverIdx, 4), ephemeral, b16, macs);
    CookieLayout(ToLe(COOKIE_REPLY, 4), ToLe(receiverIdx, 4), b24, macs);
  }

  lemma InitLayout(kind: Bytes, sender: Bytes, ephemeral: Bytes, encryptedStatic: Bytes, encryptedTimestamp: Bytes, macs: Bytes)
    requires |kind| == |sender| == 4 && |ephemeral| == |macs| == 32 && |encryptedStatic| == 48 && |encryptedTimestamp| == 28
    ensures var w := kind + sender + ephemeral + encryptedStatic + encryptedTimestamp + macs;
            && |w| == HANDSHAKE_INIT_SZ && w[0..4] == w[..4] == kind && w[4..8] == sender && w[8..40] == ephemeral
            && w[40..88] == encryptedStatic && w[88..116] == encryptedTimestamp
  {
  }

  lemma ResponseLayout(kind: Bytes, sender: Bytes, receiver: Bytes, ephemeral: Bytes, encryptedNothing: Bytes, macs: Bytes)
    requires |kind| == |sender| == |receiver| == 4 && |ephemeral| == |macs| == 32 && |encryptedNothing| == 16
    ensures var w := kind + sender + receiver + ephemeral + encryptedNothing + macs;
            && |w| == HANDSHAKE_RESP_SZ && w[0..4] == w[..4] == kind && w[4..8] == sender && w[8..12] == receiver
            && w[12..44] == ephemeral && w[44..60] == encryptedNothing
  {
  }

  lemma CookieLayout(kind: Bytes, receiver: Bytes, nonce: Bytes, encryptedCookie: Bytes)
    requires |kind| == |receiver| == 4 && |nonce| == 24 && |encryptedCookie| == 32
    ensures var w := kind + receiver + nonce + encryptedCookie;
            && |w| == COOKIE_REPLY_SZ && w[0..4] == w[..4] == kind && w[4..8] == receiver
            && w[8..32] == nonce && w[32..64] == encryptedCookie
  {
  }

  // -------------------------------------------------------------------------
  // Sealing data
  // -------------------------------------------------------------------------

  /** Keys have no fixed length here, so that laws by which no two inputs are hashed to one key can hold at all. */
  type Key = Bytes

  /** An authenticated cipher with a detached 16-byte tag. */
  datatype Aead = Aead(encrypt: (Key, Bytes, Bytes) -> Bytes, tag: (Key, Bytes, Bytes) -> Bytes,
                       decrypt: (Key, Bytes, Bytes, Bytes) -> Option<Bytes>)

  /** It keeps lengths, and decrypting with the same key, nonce and tag gives the plaintext back. */
  ghost predicate Lawful(c: Aead)
  {
    && (forall k: Key, n: Bytes, p: Bytes :: |c.encrypt(k, n, p)| == |p|)
    && (forall k: Key, n: Bytes, p: Bytes :: |c.tag(k, n, p)| == AEAD_SIZE)
    && (forall k: Key, n: Bytes, p: Bytes :: c.decrypt(k, n, c.encrypt(k, n, p), c.tag(k, n, p)) == Some(p))
    && forall k: Key, n: Bytes, e: Bytes, t: Bytes :: c.decrypt(k, n, e, t).Some? ==> |c.decrypt(k, n, e, t).value| == |e|
  }

  function Zeros(n: nat): (r: Bytes)
    ensures |r| == n
  {
    seq(n, _ => 0)
  }

  function Nonce(counter: U64): Bytes
  {
    Zeros(4) + ToLe(counter, 8)
  }

  /** The nonce of a packet is its counter, in the last eight of twelve bytes. */
  lemma NonceHoldsCounter(n: U64)
    ensures |Nonce(n)| == 12 && Nonce(n)[..4] == [0, 0, 0, 0] && FromLe(Nonce(n)[4..]) == n
  {
    WordSizes();
    LeRoundTrip(n, 8);
    assert Nonce(n)[4..] == ToLe(n, 8);
  }

  lemma NonceIsInjective(m: U64, n: U64)
    ensures Nonce(m) == Nonce(n) <==> m == n
  {
    NonceHoldsCounter(m);
    NonceHoldsCounter(n);
  }

  /** A tag is right under no nonce but the one it was made with. */
  ghost predicate BindsNonce(c: Aead)
  {
    forall k: Key, m: Bytes, n: Bytes, p: Bytes {:trigger c.decrypt(k, m, c.encrypt(k, n, p), c.tag(k, n, p))} ::
      |m| == |n| == 12 && c.decrypt(k, m, c.encrypt(k, n, p), c.tag(k, n, p)).Some? ==> m == n
  }

  /** A packet sealed with one counter does not open with another in its header. */
  lemma AlteredCounterIsRefused(c: Aead, key: Key, receiverIdx: U32, m: U64, n: U64, src: Bytes)
    requires Lawful(c) && BindsNonce(c)
    ensures Opened(c, key, DataMessage(receiverIdx, m, Sealed(c, key, n, src))).Some? <==> m == n
  {
    var p := Padded(src);
    var e, t := c.encrypt(key, Nonce(n), p), c.tag(key, Nonce(n), p);
    assert (e + t)[..|e|] == e && (e + t)[|e|..] == t;
    NonceHoldsCounter(m);
    NonceHoldsCounter(n);
  }

  function PlainTag(n: Bytes): Bytes
    ensures |PlainTag(n)| == AEAD_SIZE
  {
    (n + Zeros(AEAD_SIZE))[..AEAD_SIZE]
  }

  /** A cipher for which the laws hold, though it keeps no secrets. */
  const PLAIN_AEAD: Aead := Aead((k: Key, n: Bytes, p: Bytes) => p, (k: Key, n: Bytes, p: Bytes) => PlainTag(n),
                                 (k: Key, n: Bytes, e: Bytes, t: Bytes) => if t == PlainTag(n) then Some(e) else None)

  lemma CipherLawsCanHold()
    ensures Lawful(PLAIN_AEAD) && BindsNonce(PLAIN_AEAD)
  {
    forall m: Bytes, n: Bytes | |m| == |n| == 12 && PlainTag(m) == PlainTag(n)
      ensures m == n
    {
      assert m == PlainTag(m)[..12] == PlainTag(n)[..12] == n;
    }
  }

  /** The plaintext length on the wire: a multiple of 16 unless that would exceed the MTU. */
  function PaddedLen(len: nat): nat
  {
    var candidate := (len + 15) / 16 * 16;
    if candidate <= MTU then candidate else len
  }

  function Padded(src: Bytes): (r: Bytes)
    ensures |r| == PaddedLen(|src|)
  {
    src + Zeros(PaddedLen(|src|) - |src|)
  }

  /** Padding twice is padding once, and never passes the MTU on its own account. */
  lemma PaddingIsStable(len: nat)
    ensures len <= PaddedLen(len) < len + 16
    ensures PaddedLen(PaddedLen(len)) == PaddedLen(len)
    ensures len <= MTU ==> PaddedLen(len) <= MTU
    ensures len > MTU ==> PaddedLen(len) == len
  {
  }

  /** A packet of at most the MTU is padded with zeros to the next multiple of sixteen, a keepalive not at all. */
  lemma PaddingIsLeast(src: Bytes, len: nat)
    requires |src| <= MTU
    ensures |Padded(src)| % 16 == 0 && (len >= |src| && len % 16 == 0 ==> |Padded(src)| <= len)
    ensures Padded(src)[..|src|] == src && forall i :: |src| <= i < |Padded(src)| ==> Padded(src)[i] == 0
  {
  }

  function Header(kind: U32, receiverIdx: U32, counter: U64): (r: Bytes)
    ensures |r| == DATA_OFFSET
  {
    ToLe(kind, 4) + ToLe(receiverIdx, 4) + ToLe(counter, 8)
  }

  /** The padded packet encrypted, and its tag. */
  function Sealed(c: Aead, key: Key, counter: U64, src: Bytes): Bytes
  {
    c.encrypt(key, Nonce(counter), Padded(src)) + c.tag(key, Nonce(counter), Padded(src))
  }

  lemma SealedLen(c: Aead, key: Key, counter: U64, src: Bytes)
    requires Lawful(c)
    ensures |Sealed(c, key, counter, src)| == PaddedLen(|src|) + AEAD_SIZE
  {
  }

  /** A data packet as a sender formats it. */
  function Formatted(c: Aead, kind: U32, receiverIdx: U32, counter: U64, key: Key, src: Bytes): Bytes
  {
    Header(kind, receiverIdx, counter) + Sealed(c, key, counter, src)
  }

  /** What a receiver makes of the sealed part of a data packet. */
  function Opened(c: Aead, key: Key, data: DataMessage): Option<Bytes>
    requires |data.encapsulated| >= AEAD_SIZE
  {
    var split := |data.encapsulated| - AEAD_SIZE;
    c.decrypt(key, Nonce(data.counter), data.encapsulated[..split], data.encapsulated[split..])
  }

  lemma ThreeFields(x: Bytes, y: Bytes, z: Bytes, rest: Bytes)
    requires |x| == |y| == 4 && |z| == 8
    ensures var src := x + y + z + rest;
            src[0..4] == x && src[4..8] == y && src[8..16] == z && src[16..] == rest
  {
  }

  lemma HeaderParts(kind: U32, receiverIdx: U32, counter: U64, rest: Bytes)
    ensures var src := Header(kind, receiverIdx, counter) + rest;
            Word32(src, 0) == kind && DataOf(src) == DataMessage(receiverIdx, counter, rest)
  {
    WordSizes();
    ThreeFields(ToLe(kind, 4), ToLe(receiverIdx, 4), ToLe(counter, 8), rest);
    LeRoundTrip(kind, 4);
    LeRoundTrip(receiverIdx, 4);
    LeRoundTrip(counter, 8);
  }

  /** What is formatted as data or relayed data is parsed as that, addressed and numbered alike, and opens to the padded plaintext. */
  lemma FormattedParsesAndOpens(c: Aead, kind: U32, receiverIdx: U32, counter: U64, key: Key, src: Bytes)
    requires Lawful(c) && (kind == DATA || kind == RELAY_DATA)
    ensures var r := ParseIncomingPacket(Formatted(c, kind, receiverIdx, counter, key, src));
            && r.Ok? && (if kind == DATA then r.value.Data? else r.value.RelayData?)
            && r.value.data.receiverIdx == receiverIdx && r.value.data.counter == counter
            && Opened(c, key, r.value.data) == Some(Padded(src))
  {
    var p, n := Padded(src), Nonce(counter);
    var e, t := c.encrypt(key, n, p), c.tag(key, n, p);
    HeaderParts(kind, receiverIdx, counter, e + t);
    assert (e + t)[..|e|] == e && (e + t)[|e|..] == t;
  }

  /** An inner packet of at most the MTU fits its wire packet into the MTU and the overhead. */
  lemma FormattedFits(c: Aead, kind: U32, receiverIdx: U32, counter: U64, key: Key, src: Bytes)
    requires Lawful(c)
    ensures |Formatted(c, kind, receiverIdx, counter, key, src)| == PaddedLen(|src|) + PACKET_OVERHEAD
    ensures |src| <= MTU ==> |Formatted(c, kind, receiverIdx, counter, key, src)| <= MTU + PACKET_OVERHEAD
  {
  }
}

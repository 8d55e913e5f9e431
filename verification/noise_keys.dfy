/** The key schedule of the Noise IKpsk2 handshake (WireGuard whitepaper, sections 5.4.2 and 5.4.3), over symbolic primitives. */
module NoiseKeys {
  import opened Wrappers
  import opened Messages

  /** The primitives the handshake is built from. */
  datatype Crypto = Crypto(
    initialChainKey: Bytes, initialChainHash: Bytes,
    hash: (Bytes, Bytes) -> Bytes, hmac: (Bytes, Bytes) -> Bytes,
    publicKey: Bytes -> Bytes, dh: (Bytes, Bytes) -> Bytes,
    seal: (Bytes, Bytes, Bytes) -> Bytes, unseal: (Bytes, Bytes, Bytes) -> Option<Bytes>)

  /** Both ends of a Diffie-Hellman exchange share a secret, and what is sealed opens under the same key and data. */
  ghost predicate Sound(c: Crypto)
  {
    && (forall a: Bytes, b: Bytes :: c.dh(a, c.publicKey(b)) == c.dh(b, c.publicKey(a)))
    && forall k: Bytes, p: Bytes, a: Bytes {:trigger c.seal(k, p, a)} :: c.unseal(k, c.seal(k, p, a), a) == Some(p)
  }

  datatype Params = Params(staticPrivate: Bytes, staticPublic: Bytes, peerStaticPublic: Bytes)

  /** A chaining key and the hash of the transcript so far. */
  datatype Transcript = Transcript(chainingKey: Bytes, hash: Bytes)

  /** The chaining key with `input` mixed in, and the temporary key it came from. */
  function Temp(c: Crypto, chainingKey: Bytes, input: Bytes): Bytes
  {
    c.hmac(chainingKey, input)
  }

  function Mixed(c: Crypto, chainingKey: Bytes, input: Bytes): Bytes
  {
    c.hmac(Temp(c, chainingKey, input), [1])
  }

  function MixedKey(c: Crypto, chainingKey: Bytes, input: Bytes): Bytes
  {
    c.hmac(Temp(c, chainingKey, input), Mixed(c, chainingKey, input) + [2])
  }

  datatype InitMessage = InitMessage(senderIdx: U32, ephemeral: Bytes, encryptedStatic: Bytes, encryptedTimestamp: Bytes)

  datatype ResponseMessage = ResponseMessage(senderIdx: U32, receiverIdx: U32, ephemeral: Bytes, encryptedNothing: Bytes)

  /** A session's indices and keys. */
  datatype SessionKeys = SessionKeys(localIndex: U32, peerIndex: U32, receivingKey: Key, sendingKey: Key)

  datatype NoiseError = InvalidAeadTag | WrongKey | WrongTimestamp | UnexpectedPacket

  // -------------------------------------------------------------------------
  // The initiation
  // -------------------------------------------------------------------------

  /** The transcript once the responder's static key and the initiator's ephemeral key are in. */
  function Opening(c: Crypto, responderStatic: Bytes, ephemeral: Bytes): Transcript
  {
    Transcript(Mixed(c, c.initialChainKey, ephemeral), c.hash(c.hash(c.initialChainHash, responderStatic), ephemeral))
  }

  /** The initiator's message, and the transcript it is left with. */
  function Initiate(c: Crypto, p: Params, ephemeralPrivate: Bytes, localIndex: U32, timestamp: Bytes): (InitMessage, Transcript)
  {
    var ephemeral := c.publicKey(ephemeralPrivate);
    var t := Opening(c, p.peerStaticPublic, ephemeral);
    var shared := c.dh(ephemeralPrivate, p.peerStaticPublic);
    var encryptedStatic := c.seal(MixedKey(c, t.chainingKey, shared), p.staticPublic, t.hash);
    var chainingKey, hash := Mixed(c, t.chainingKey, shared), c.hash(t.hash, encryptedStatic);
    var staticShared := c.dh(p.staticPrivate, p.peerStaticPublic);
    var encryptedTimestamp := c.seal(MixedKey(c, chainingKey, staticShared), timestamp, hash);
    (InitMessage(localIndex, ephemeral, encryptedStatic, encryptedTimestamp),
     Transcript(Mixed(c, chainingKey, staticShared), c.hash(hash, encryptedTimestamp)))
  }

  /** What the responder reads: the timestamp, and its own transcript. */
  function ReadInitiation(c: Crypto, p: Params, m: InitMessage): Result<(Bytes, Transcript), NoiseError>
  {
    var t := Opening(c, p.staticPublic, m.ephemeral);
    var shared := c.dh(p.staticPrivate, m.ephemeral);
    var peerStatic := c.unseal(MixedKey(c, t.chainingKey, shared), m.encryptedStatic, t.hash);
    if peerStatic.None? then Err(InvalidAeadTag)
    else if peerStatic.value != p.peerStaticPublic then Err(WrongKey)
    else
      var chainingKey, hash := Mixed(c, t.chainingKey, shared), c.hash(t.hash, m.encryptedStatic);
      var staticShared := c.dh(p.staticPrivate, p.peerStaticPublic);
      var timestamp := c.unseal(MixedKey(c, chainingKey, staticShared), m.encryptedTimestamp, hash);
      if timestamp.None? then Err(InvalidAeadTag)
      else Ok((timestamp.value, Transcript(Mixed(c, chainingKey, staticShared), c.hash(hash, m.encryptedTimestamp))))
  }

  /** Who an initiation claims to be from, read before the peer is known. */
  function ParseHandshakeAnon(c: Crypto, staticPrivate: Bytes, staticPublic: Bytes, m: InitMessage): Result<Bytes, NoiseError>
  {
    var t := Opening(c, staticPublic, m.ephemeral);
    var peerStatic := c.unseal(MixedKey(c, t.chainingKey, c.dh(staticPrivate, m.ephemeral)), m.encryptedStatic, t.hash);
    if peerStatic.None? then Err(InvalidAeadTag) else Ok(peerStatic.value)
  }

  /** An initiation is accepted by the tunnel of the peer it was found to be from, and by no other. */
  lemma AnonymousReadFindsThePeer(c: Crypto, p: Params, m: InitMessage)
    ensures ReadInitiation(c, p, m).Ok? ==> ParseHandshakeAnon(c, p.staticPrivate, p.staticPublic, m) == Ok(p.peerStaticPublic)
    ensures ReadInitiation(c, p, m) == Err(WrongKey) <==>
              ParseHandshakeAnon(c, p.staticPrivate, p.staticPublic, m).Ok? &&
              ParseHandshakeAnon(c, p.staticPrivate, p.staticPublic, m).value != p.peerStaticPublic
  {
  }

  // -------------------------------------------------------------------------
  // The response
  // -------------------------------------------------------------------------

  datatype Closing = Closing(chainingKey: Bytes, key: Bytes, hash: Bytes)

  /** The last stretch of the schedule, from the two secrets the responder's ephemeral key adds. */
  function Close(c: Crypto, t: Transcript, ephemeral: Bytes, ephemeralShared: Bytes, staticShared: Bytes): Closing
  {
    var hash := c.hash(t.hash, ephemeral);
    var chainingKey := Mixed(c, Mixed(c, Mixed(c, t.chainingKey, ephemeral), ephemeralShared), staticShared);
    var temp := Temp(c, chainingKey, Zeros(32));
    var final := Mixed(c, chainingKey, Zeros(32));
    var temp2 := c.hmac(temp, final + [2]);
    Closing(final, c.hmac(temp, temp2 + [3]), c.hash(hash, temp2))
  }

  function FirstKey(c: Crypto, chainingKey: Bytes): Bytes
  {
    c.hmac(c.hmac(chainingKey, []), [1])
  }

  function SecondKey(c: Crypto, chainingKey: Bytes): Bytes
  {
    c.hmac(c.hmac(chainingKey, []), FirstKey(c, chainingKey) + [2])
  }

  /** The responder's message and session. */
  function Respond(c: Crypto, p: Params, t: Transcript, peerEphemeral: Bytes, peerIndex: U32, ephemeralPrivate: Bytes,
                   localIndex: U32): (ResponseMessage, SessionKeys)
  {
    var ephemeral := c.publicKey(ephemeralPrivate);
    var closing := Close(c, t, ephemeral, c.dh(ephemeralPrivate, peerEphemeral), c.dh(ephemeralPrivate, p.peerStaticPublic));
    (ResponseMessage(localIndex, peerIndex, ephemeral, c.seal(closing.key, [], closing.hash)),
     SessionKeys(localIndex, peerIndex, FirstKey(c, closing.chainingKey), SecondKey(c, closing.chainingKey)))
  }

  /** The initiator's session, if the response is genuine. */
  function ReadResponse(c: Crypto, p: Params, t: Transcript, ephemeralPrivate: Bytes, localIndex: U32, m: ResponseMessage)
    : Result<SessionKeys, NoiseError>
  {
    var closing := Close(c, t, m.ephemeral, c.dh(ephemeralPrivate, m.ephemeral), c.dh(p.staticPrivate, m.ephemeral));
    if c.unseal(closing.key, m.encryptedNothing, closing.hash) == Some([])
    then Ok(SessionKeys(localIndex, m.senderIdx, SecondKey(c, closing.chainingKey), FirstKey(c, closing.chainingKey)))
    else Err(InvalidAeadTag)
  }

  /** Each party holds the other's static key and its own private one. */
  ghost predicate Acquainted(c: Crypto, i: Params, r: Params)
  {
    && i.staticPublic == c.publicKey(i.staticPrivate) == r.peerStaticPublic
    && r.staticPublic == c.publicKey(r.staticPrivate) == i.peerStaticPublic
  }

  /** The responder reads the initiator's timestamp and ends up with the initiator's transcript. */
  lemma InitiationIsRead(c: Crypto, i: Params, r: Params, ephemeralPrivate: Bytes, localIndex: U32, timestamp: Bytes)
    requires Sound(c) && Acquainted(c, i, r)
    ensures var (m, t) := Initiate(c, i, ephemeralPrivate, localIndex, timestamp);
            ReadInitiation(c, r, m) == Ok((timestamp, t)) && m.senderIdx == localIndex
  {
  }

  /** A whole handshake between acquainted parties leaves them with the two ends of one session. */
  lemma MatchingRunsCross(c: Crypto, i: Params, r: Params, ei: Bytes, er: Bytes, indexI: U32, indexR: U32, timestamp: Bytes)
    requires Sound(c) && Acquainted(c, i, r)
    ensures var (m, t) := Initiate(c, i, ei, indexI, timestamp);
            && ReadInitiation(c, r, m).Ok? && ReadInitiation(c, r, m).value.0 == timestamp
            && var (answer, sessionR) := Respond(c, r, ReadInitiation(c, r, m).value.1, m.ephemeral, m.senderIdx, er, indexR);
            var sessionI := ReadResponse(c, i, t, ei, indexI, answer);
            && answer.receiverIdx == indexI
            && sessionI.Ok?
            && sessionI.value.sendingKey == sessionR.receivingKey && sessionI.value.receivingKey == sessionR.sendingKey
            && sessionI.value.localIndex == sessionR.peerIndex == indexI
            && sessionI.value.peerIndex == sessionR.localIndex == indexR
  {
  }
}

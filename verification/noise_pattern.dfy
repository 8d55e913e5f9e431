/**
 The handshake as the Noise Protocol Framework has it (revision 34, sections 5.2, 5.3 and 9): a symmetric state and the
 message patterns of IKpsk2, to which the key schedule in the code is proved equal.
 */
module NoisePattern {
  import opened Messages
  import opened NoiseKeys

  datatype Token = E | S | EE | ES | SE | SS | Psk

  const FIRST: seq<Token> := [E, ES, S, SS]
  const SECOND: seq<Token> := [E, EE, SE, Psk]

  /** The chaining key, the hash of the transcript and the key in force. */
  datatype Symmetric = Symmetric(chainingKey: Bytes, hash: Bytes, key: Bytes)

  /** What one end knows: its own private keys, and the other's public ones once it has them. */
  datatype Party = Party(initiator: bool, staticPrivate: Bytes, staticPublic: Bytes, ephemeral: Bytes, remoteStatic: Bytes,
                         remoteEphemeral: Bytes)

  /** The `n`-th output of the key derivation: each is the keyed hash of the one before and its number. */
  function Output(c: Crypto, secret: Bytes, n: nat): Bytes
    requires 1 <= n < 256
  {
    c.hmac(secret, (if n == 1 then [] else Output(c, secret, n - 1)) + [n])
  }

  function Derived(c: Crypto, chainingKey: Bytes, material: Bytes, n: nat): Bytes
    requires 1 <= n < 256
  {
    Output(c, c.hmac(chainingKey, material), n)
  }

  function MixKey(c: Crypto, s: Symmetric, material: Bytes): Symmetric
  {
    s.(chainingKey := Derived(c, s.chainingKey, material, 1), key := Derived(c, s.chainingKey, material, 2))
  }

  function MixHash(c: Crypto, s: Symmetric, data: Bytes): Symmetric
  {
    s.(hash := c.hash(s.hash, data))
  }

  function MixKeyAndHash(c: Crypto, s: Symmetric, material: Bytes): Symmetric
  {
    MixHash(c, s, Derived(c, s.chainingKey, material, 2))
      .(chainingKey := Derived(c, s.chainingKey, material, 1), key := Derived(c, s.chainingKey, material, 3))
  }

  /** The secret a token stands for; its first letter is the initiator's key, its second the responder's. */
  function Secret(c: Crypto, p: Party, token: Token): Bytes
    requires token.EE? || token.ES? || token.SE? || token.SS?
  {
    match token
    case EE => c.dh(p.ephemeral, p.remoteEphemeral)
    case SS => c.dh(p.staticPrivate, p.remoteStatic)
    case ES => if p.initiator then c.dh(p.ephemeral, p.remoteStatic) else c.dh(p.staticPrivate, p.remoteEphemeral)
    case SE => if p.initiator then c.dh(p.staticPrivate, p.remoteEphemeral) else c.dh(p.ephemeral, p.remoteStatic)
  }

  /** What a token puts on the wire, and the state after it. With a pre-shared key an ephemeral key is mixed in twice. */
  function Written(c: Crypto, p: Party, s: Symmetric, token: Token): (seq<Bytes>, Symmetric)
  {
    match token
    case E =>
      var public := c.publicKey(p.ephemeral);
      ([public], MixKey(c, MixHash(c, s, public), public))
    case S =>
      var sealed := c.seal(s.key, p.staticPublic, s.hash);
      ([sealed], MixHash(c, s, sealed))
    case Psk => ([], MixKeyAndHash(c, s, Zeros(32)))
    case _ => ([], MixKey(c, s, Secret(c, p, token)))
  }

  function WriteMessage(c: Crypto, p: Party, s: Symmetric, tokens: seq<Token>, payload: Bytes): (seq<Bytes>, Symmetric)
    decreases |tokens|
  {
    if tokens == [] then
      var sealed := c.seal(s.key, payload, s.hash);
      ([sealed], MixHash(c, s, sealed))
    else
      var (first, next) := Written(c, p, s, tokens[0]);
      var (rest, last) := WriteMessage(c, p, next, tokens[1..], payload);
      (first + rest, last)
  }

  /** Before the first message the responder's static key is known to both. */
  function Start(c: Crypto, responderStatic: Bytes): Symmetric
  {
    MixHash(c, Symmetric(c.initialChainKey, c.initialChainHash, []), responderStatic)
  }

  /** The keys for the two directions, the initiator's first. */
  function Split(c: Crypto, s: Symmetric): (Bytes, Bytes)
  {
    (Derived(c, s.chainingKey, [], 1), Derived(c, s.chainingKey, [], 2))
  }

  lemma Outputs(c: Crypto, chainingKey: Bytes, material: Bytes)
    ensures Derived(c, chainingKey, material, 1) == Mixed(c, chainingKey, material)
    ensures Derived(c, chainingKey, material, 2) == MixedKey(c, chainingKey, material)
    ensures Derived(c, chainingKey, material, 3)
            == c.hmac(c.hmac(chainingKey, material), MixedKey(c, chainingKey, material) + [3])
  {
    assert [] + [1] == [1];
  }

  /** The code's initiation is the first message of the pattern, and its transcript the pattern's state. */
  lemma {:induction false} InitiationFollowsPattern(c: Crypto, p: Params, ephemeralPrivate: Bytes, localIndex: U32,
                                                    timestamp: Bytes)
    ensures var me := Party(true, p.staticPrivate, p.staticPublic, ephemeralPrivate, p.peerStaticPublic, []);
            var (fields, state) := WriteMessage(c, me, Start(c, p.peerStaticPublic), FIRST, timestamp);
            var (m, t) := Initiate(c, p, ephemeralPrivate, localIndex, timestamp);
            && fields == [m.ephemeral, m.encryptedStatic, m.encryptedTimestamp] && m.senderIdx == localIndex
            && t == Transcript(state.chainingKey, state.hash)
  {
    var me := Party(true, p.staticPrivate, p.staticPublic, ephemeralPrivate, p.peerStaticPublic, []);
    var s0 := Start(c, p.peerStaticPublic);
    var s1 := Written(c, me, s0, E).1;
    var s2 := Written(c, me, s1, ES).1;
    var s3 := Written(c, me, s2, S).1;
    Outputs(c, s0.chainingKey, c.publicKey(ephemeralPrivate));
    Outputs(c, s1.chainingKey, Secret(c, me, ES));
    Outputs(c, s3.chainingKey, Secret(c, me, SS));
    FourTokens(c, me, s0, FIRST, timestamp);
  }

  /** The code's response is the second message of the pattern, and its keys are the ones the pattern splits into. */
  lemma {:induction false} ResponseFollowsPattern(c: Crypto, p: Params, t: Transcript, key: Bytes, peerEphemeral: Bytes,
                                                  peerIndex: U32, ephemeralPrivate: Bytes, localIndex: U32)
    ensures var me := Party(false, p.staticPrivate, p.staticPublic, ephemeralPrivate, p.peerStaticPublic, peerEphemeral);
            var (fields, state) := WriteMessage(c, me, Symmetric(t.chainingKey, t.hash, key), SECOND, []);
            var (m, session) := Respond(c, p, t, peerEphemeral, peerIndex, ephemeralPrivate, localIndex);
            && fields == [m.ephemeral, m.encryptedNothing] && m.senderIdx == localIndex && m.receiverIdx == peerIndex
            && session == SessionKeys(localIndex, peerIndex, Split(c, state).0, Split(c, state).1)
  {
    var me := Party(false, p.staticPrivate, p.staticPublic, ephemeralPrivate, p.peerStaticPublic, peerEphemeral);
    var s0 := Symmetric(t.chainingKey, t.hash, key);
    var s1 := Written(c, me, s0, E).1;
    var s2 := Written(c, me, s1, EE).1;
    var s3 := Written(c, me, s2, SE).1;
    var s4 := Written(c, me, s3, Psk).1;
    Outputs(c, s0.chainingKey, c.publicKey(ephemeralPrivate));
    Outputs(c, s1.chainingKey, Secret(c, me, EE));
    Outputs(c, s2.chainingKey, Secret(c, me, SE));
    Outputs(c, s3.chainingKey, Zeros(32));
    Outputs(c, s4.chainingKey, []);
    FourTokens(c, me, s0, SECOND, []);
  }

  lemma {:induction false} FourTokens(c: Crypto, p: Party, s: Symmetric, tokens: seq<Token>, payload: Bytes)
    requires |tokens| == 4
    ensures var (f1, s1) := Written(c, p, s, tokens[0]);
            var (f2, s2) := Written(c, p, s1, tokens[1]);
            var (f3, s3) := Written(c, p, s2, tokens[2]);
            var (f4, s4) := Written(c, p, s3, tokens[3]);
            var sealed := c.seal(s4.key, payload, s4.hash);
            WriteMessage(c, p, s, tokens, payload) == (f1 + f2 + f3 + f4 + [sealed], MixHash(c, s4, sealed))
  {
    var (f1, s1) := Written(c, p, s, tokens[0]);
    var (f2, s2) := Written(c, p, s1, tokens[1]);
    var (f3, s3) := Written(c, p, s2, tokens[2]);
    var (f4, s4) := Written(c, p, s3, tokens[3]);
    var sealed := c.seal(s4.key, payload, s4.hash);
    var r1, r2, r3 := tokens[1..], tokens[2..], tokens[3..];
    assert r1[1..] == r2 && r2[1..] == r3 && r3[1..] == [];
    assert WriteMessage(c, p, s4, [], payload) == ([sealed], MixHash(c, s4, sealed));
    assert WriteMessage(c, p, s3, r3, payload) == (f4 + [sealed], MixHash(c, s4, sealed));
    assert WriteMessage(c, p, s2, r2, payload) == (f3 + (f4 + [sealed]), MixHash(c, s4, sealed));
    assert WriteMessage(c, p, s1, r1, payload) == (f2 + (f3 + (f4 + [sealed])), MixHash(c, s4, sealed));
    assert f1 + (f2 + (f3 + (f4 + [sealed]))) == f1 + f2 + f3 + f4 + [sealed];
  }
}

/** What the handshake is for: without the secrets of both ends nothing is accepted, and no two runs share a key. */
module NoiseSecrets {
  import opened Wrappers
  import opened Messages
  import opened NoiseKeys

  /** No two inputs are hashed alike, and what opens was sealed under the same key and data. */
  ghost predicate Binding(c: Crypto)
  {
    && (forall k: Bytes, x: Bytes, l: Bytes, y: Bytes {:trigger c.hmac(k, x), c.hmac(l, y)} ::
          c.hmac(k, x) == c.hmac(l, y) ==> k == l && x == y)
    && (forall k: Bytes, x: Bytes, l: Bytes, y: Bytes {:trigger c.hash(k, x), c.hash(l, y)} ::
          c.hash(k, x) == c.hash(l, y) ==> k == l && x == y)
    && (forall k: Bytes, p: Bytes, a: Bytes, l: Bytes, b: Bytes {:trigger c.unseal(l, c.seal(k, p, a), b)} ::
          c.unseal(l, c.seal(k, p, a), b).Some? ==> k == l && a == b)
    && forall k: Bytes, s: Bytes, a: Bytes {:trigger c.unseal(k, s, a)} ::
         c.unseal(k, s, a).Some? ==> s == c.seal(k, c.unseal(k, s, a).value, a)
  }

  /** Its public key belongs to its private one. */
  ghost predicate Paired(c: Crypto, p: Params)
  {
    p.staticPublic == c.publicKey(p.staticPrivate)
  }

  /**
   An initiation is read exactly if it was made for this responder, names the peer, and the secret of the two static keys
   that went into it is the responder's own: a claim to be the peer is worth nothing without the peer's private key.
   */
  lemma InitiationNeedsSecret(c: Crypto, i: Params, r: Params, ephemeralPrivate: Bytes, localIndex: U32, timestamp: Bytes)
    requires Sound(c) && Binding(c) && Paired(c, r)
    ensures var (m, t) := Initiate(c, i, ephemeralPrivate, localIndex, timestamp);
            var read := ReadInitiation(c, r, m);
            && (read.Ok? <==>
                  && i.peerStaticPublic == r.staticPublic && i.staticPublic == r.peerStaticPublic
                  && c.dh(i.staticPrivate, r.staticPublic) == c.dh(r.staticPrivate, r.peerStaticPublic))
            && (read.Ok? ==> read == Ok((timestamp, t)))
  {
  }

  lemma MixedIsInjective(c: Crypto, k: Bytes, x: Bytes, l: Bytes, y: Bytes)
    requires Binding(c) && Mixed(c, k, x) == Mixed(c, l, y)
    ensures k == l && x == y
  {
  }

  lemma SealIsInjective(c: Crypto, k: Bytes, p: Bytes, a: Bytes, l: Bytes, q: Bytes, b: Bytes)
    requires Sound(c) && Binding(c) && c.seal(k, p, a) == c.seal(l, q, b)
    ensures k == l && p == q && a == b
  {
    assert c.unseal(k, c.seal(k, p, a), a) == Some(p) && c.unseal(l, c.seal(l, q, b), b) == Some(q);
  }

  /**
   Whatever an initiation is made of, two that are read with one sealed timestamp agree in all that went into them: the
   ephemeral key, both identities, both secrets and the timestamp. So what is read was sealed under the static secret.
   */
  lemma ReadingBindsAll(c: Crypto, r: Params, m: InitMessage, s: Params, n: InitMessage)
    requires Sound(c) && Binding(c) && ReadInitiation(c, r, m).Ok? && ReadInitiation(c, s, n).Ok?
    requires m.encryptedTimestamp == n.encryptedTimestamp
    ensures m.ephemeral == n.ephemeral && m.encryptedStatic == n.encryptedStatic
    ensures r.staticPublic == s.staticPublic && r.peerStaticPublic == s.peerStaticPublic
    ensures c.dh(r.staticPrivate, m.ephemeral) == c.dh(s.staticPrivate, n.ephemeral)
    ensures c.dh(r.staticPrivate, r.peerStaticPublic) == c.dh(s.staticPrivate, s.peerStaticPublic)
    ensures ReadInitiation(c, r, m) == ReadInitiation(c, s, n)
  {
    var t, u := Opening(c, r.staticPublic, m.ephemeral), Opening(c, s.staticPublic, n.ephemeral);
    var x, y := c.dh(r.staticPrivate, m.ephemeral), c.dh(s.staticPrivate, n.ephemeral);
    var k, l := Mixed(c, t.chainingKey, x), Mixed(c, u.chainingKey, y);
    var xx, yy := c.dh(r.staticPrivate, r.peerStaticPublic), c.dh(s.staticPrivate, s.peerStaticPublic);
    var h, g := c.hash(t.hash, m.encryptedStatic), c.hash(u.hash, n.encryptedStatic);
    SealIsInjective(c, MixedKey(c, k, xx), c.unseal(MixedKey(c, k, xx), m.encryptedTimestamp, h).value, h,
                    MixedKey(c, l, yy), c.unseal(MixedKey(c, l, yy), n.encryptedTimestamp, g).value, g);
    assert Temp(c, k, xx) == Temp(c, l, yy) && k == l && xx == yy && h == g;
    MixedIsInjective(c, t.chainingKey, x, u.chainingKey, y);
    assert c.hash(c.initialChainHash, r.staticPublic) == c.hash(c.initialChainHash, s.staticPublic);
    SealIsInjective(c, MixedKey(c, t.chainingKey, x), r.peerStaticPublic, t.hash,
                    MixedKey(c, u.chainingKey, y), s.peerStaticPublic, u.hash);
  }

  /** What went into an initiation, as both ends compute it. */
  datatype FirstSecrets = FirstSecrets(ephemeral: Bytes, responder: Bytes, es: Bytes, initiator: Bytes, ss: Bytes,
                                       timestamp: Bytes)

  function FirstSecretsOf(c: Crypto, i: Params, ei: Bytes, timestamp: Bytes): FirstSecrets
  {
    FirstSecrets(c.publicKey(ei), i.peerStaticPublic, c.dh(ei, i.peerStaticPublic), i.staticPublic,
                 c.dh(i.staticPrivate, i.peerStaticPublic), timestamp)
  }

  /** Two initiations leave one transcript exactly if the same went into them. */
  lemma TranscriptBindsSecrets(c: Crypto, i: Params, ei: Bytes, index: U32, stamp: Bytes, j: Params, ej: Bytes, jndex: U32,
                               other: Bytes)
    requires Sound(c) && Binding(c)
    ensures Initiate(c, i, ei, index, stamp).1 == Initiate(c, j, ej, jndex, other).1 <==>
            FirstSecretsOf(c, i, ei, stamp) == FirstSecretsOf(c, j, ej, other)
  {
    var (m, t) := Initiate(c, i, ei, index, stamp);
    var (n, u) := Initiate(c, j, ej, jndex, other);
    if t == u {
      var a, b := Opening(c, i.peerStaticPublic, m.ephemeral), Opening(c, j.peerStaticPublic, n.ephemeral);
      var x, y := c.dh(ei, i.peerStaticPublic), c.dh(ej, j.peerStaticPublic);
      MixedIsInjective(c, Mixed(c, a.chainingKey, x), c.dh(i.staticPrivate, i.peerStaticPublic),
                       Mixed(c, b.chainingKey, y), c.dh(j.staticPrivate, j.peerStaticPublic));
      MixedIsInjective(c, a.chainingKey, x, b.chainingKey, y);
      assert m.encryptedTimestamp == n.encryptedTimestamp && m.encryptedStatic == n.encryptedStatic;
      SealIsInjective(c, MixedKey(c, a.chainingKey, x), i.staticPublic, a.hash,
                      MixedKey(c, b.chainingKey, y), j.staticPublic, b.hash);
      assert c.hash(c.initialChainHash, i.peerStaticPublic) == c.hash(c.initialChainHash, j.peerStaticPublic);
      var ki, kj := Mixed(c, a.chainingKey, x), Mixed(c, b.chainingKey, y);
      SealIsInjective(c, MixedKey(c, ki, c.dh(i.staticPrivate, i.peerStaticPublic)), stamp, c.hash(a.hash, m.encryptedStatic),
                      MixedKey(c, kj, c.dh(j.staticPrivate, j.peerStaticPublic)), other, c.hash(b.hash, n.encryptedStatic));
    }
  }

  /** The last stretch of the schedule is injective: one final key means one transcript and the same secrets. */
  lemma CloseBinds(c: Crypto, t: Transcript, e: Bytes, ee: Bytes, se: Bytes, u: Transcript, f: Bytes, ff: Bytes, sf: Bytes)
    requires Binding(c)
    ensures Close(c, t, e, ee, se).chainingKey == Close(c, u, f, ff, sf).chainingKey <==>
            t.chainingKey == u.chainingKey && e == f && ee == ff && se == sf
    ensures Close(c, t, e, ee, se).key == Close(c, u, f, ff, sf).key ==>
            Close(c, t, e, ee, se).chainingKey == Close(c, u, f, ff, sf).chainingKey
  {
    var k1, l1 := Mixed(c, t.chainingKey, e), Mixed(c, u.chainingKey, f);
    var k2, l2 := Mixed(c, k1, ee), Mixed(c, l1, ff);
    var k3, l3 := Mixed(c, k2, se), Mixed(c, l2, sf);
    if Close(c, t, e, ee, se).key == Close(c, u, f, ff, sf).key {
      assert Temp(c, k3, Zeros(32)) == Temp(c, l3, Zeros(32));
    }
    if Close(c, t, e, ee, se).chainingKey == Close(c, u, f, ff, sf).chainingKey {
      MixedIsInjective(c, k3, Zeros(32), l3, Zeros(32));
      MixedIsInjective(c, k2, se, l2, sf);
      MixedIsInjective(c, k1, ee, l1, ff);
      MixedIsInjective(c, t.chainingKey, e, u.chainingKey, f);
    }
  }

  /** A response is read exactly if both ends have one transcript and arrive at the same two secrets. */
  lemma ResponseNeedsSecrets(c: Crypto, i: Params, r: Params, ti: Transcript, tr: Transcript, ei: Bytes, er: Bytes,
                             peerEphemeral: Bytes, indexI: U32, indexR: U32, peerIndex: U32)
    requires Sound(c) && Binding(c)
    ensures var m := Respond(c, r, tr, peerEphemeral, peerIndex, er, indexR).0;
            ReadResponse(c, i, ti, ei, indexI, m).Ok? <==>
              && ti == tr
              && c.dh(ei, c.publicKey(er)) == c.dh(er, peerEphemeral)
              && c.dh(i.staticPrivate, c.publicKey(er)) == c.dh(er, r.peerStaticPublic)
  {
    CloseBinds(c, ti, c.publicKey(er), c.dh(ei, c.publicKey(er)), c.dh(i.staticPrivate, c.publicKey(er)),
               tr, c.publicKey(er), c.dh(er, peerEphemeral), c.dh(er, r.peerStaticPublic));
  }

  /**
   The keys of a session, as the responder has them, are those of another exactly if the ephemeral keys and all four
   Diffie-Hellman secrets are the same; and no key of one direction is ever a key of the other.
   */
  lemma KeysBindSecrets(c: Crypto, i: Params, ei: Bytes, index: U32, stamp: Bytes, r: Params, er: Bytes,
                        j: Params, ej: Bytes, jndex: U32, other: Bytes, s: Params, es: Bytes, localIndex: U32)
    requires Sound(c) && Binding(c)
    ensures var a := Respond(c, r, Initiate(c, i, ei, index, stamp).1, c.publicKey(ei), index, er, localIndex).1;
            var b := Respond(c, s, Initiate(c, j, ej, jndex, other).1, c.publicKey(ej), jndex, es, localIndex).1;
            && (a.receivingKey == b.receivingKey <==> a.sendingKey == b.sendingKey)
            && (a.receivingKey == b.receivingKey <==>
                  && c.publicKey(ei) == c.publicKey(ej) && c.publicKey(er) == c.publicKey(es)
                  && c.dh(ei, i.peerStaticPublic) == c.dh(ej, j.peerStaticPublic)
                  && c.dh(i.staticPrivate, i.peerStaticPublic) == c.dh(j.staticPrivate, j.peerStaticPublic)
                  && c.dh(er, c.publicKey(ei)) == c.dh(es, c.publicKey(ej))
                  && c.dh(er, r.peerStaticPublic) == c.dh(es, s.peerStaticPublic))
            && a.receivingKey != b.sendingKey && a.receivingKey != a.sendingKey
  {
    var t, u := Initiate(c, i, ei, index, stamp).1, Initiate(c, j, ej, jndex, other).1;
    var x := Close(c, t, c.publicKey(er), c.dh(er, c.publicKey(ei)), c.dh(er, r.peerStaticPublic));
    var y := Close(c, u, c.publicKey(es), c.dh(es, c.publicKey(ej)), c.dh(es, s.peerStaticPublic));
    SplitBinds(c, x.chainingKey, y.chainingKey);
    SplitBinds(c, x.chainingKey, x.chainingKey);
    CloseBinds(c, t, c.publicKey(er), c.dh(er, c.publicKey(ei)), c.dh(er, r.peerStaticPublic),
               u, c.publicKey(es), c.dh(es, c.publicKey(ej)), c.dh(es, s.peerStaticPublic));
    FirstHalfBinds(c, i, ei, index, stamp, j, ej, jndex, other);
  }

  lemma SplitBinds(c: Crypto, k: Bytes, l: Bytes)
    requires Binding(c)
    ensures FirstKey(c, k) == FirstKey(c, l) <==> k == l
    ensures SecondKey(c, k) == SecondKey(c, l) <==> k == l
    ensures FirstKey(c, k) != SecondKey(c, l)
  {
    assert (FirstKey(c, l) + [2])[|FirstKey(c, l)|] == 2;
  }

  lemma FirstHalfBinds(c: Crypto, i: Params, ei: Bytes, index: U32, stamp: Bytes, j: Params, ej: Bytes, jndex: U32, other: Bytes)
    requires Binding(c)
    ensures Initiate(c, i, ei, index, stamp).1.chainingKey == Initiate(c, j, ej, jndex, other).1.chainingKey <==>
            && c.publicKey(ei) == c.publicKey(ej)
            && c.dh(ei, i.peerStaticPublic) == c.dh(ej, j.peerStaticPublic)
            && c.dh(i.staticPrivate, i.peerStaticPublic) == c.dh(j.staticPrivate, j.peerStaticPublic)
  {
    if Initiate(c, i, ei, index, stamp).1.chainingKey == Initiate(c, j, ej, jndex, other).1.chainingKey {
      var a, b := Mixed(c, c.initialChainKey, c.publicKey(ei)), Mixed(c, c.initialChainKey, c.publicKey(ej));
      var x, y := c.dh(ei, i.peerStaticPublic), c.dh(ej, j.peerStaticPublic);
      MixedIsInjective(c, Mixed(c, a, x), c.dh(i.staticPrivate, i.peerStaticPublic),
                       Mixed(c, b, y), c.dh(j.staticPrivate, j.peerStaticPublic));
      MixedIsInjective(c, a, x, b, y);
      MixedIsInjective(c, c.initialChainKey, c.publicKey(ei), c.initialChainKey, c.publicKey(ej));
    }
  }

  // -------------------------------------------------------------------------
  // The laws can hold
  // -------------------------------------------------------------------------

  /** Two strings in one, so that both can be told again. */
  function Pair(x: Bytes, y: Bytes): Bytes
  {
    Zeros(|x|) + [1] + x + y
  }

  lemma PairPrefix(x: Bytes, y: Bytes, v: Bytes, w: Bytes)
    requires Pair(x, y) <= Pair(v, w)
    ensures x == v && y <= w
  {
    var p, q := Pair(x, y), Pair(v, w);
    assert p[|x|] == 1 && q[|v|] == 1;
    assert (forall k :: 0 <= k < |x| ==> p[k] == 0) && forall k :: 0 <= k < |v| ==> q[k] == 0;
    assert |x| == |v|;
    forall k | 0 <= k < |x|
      ensures x[k] == v[k]
    {
      assert p[|x| + 1 + k] == x[k] && q[|x| + 1 + k] == v[k];
    }
    forall k | 0 <= k < |y|
      ensures k < |w| && y[k] == w[k]
    {
      assert |p| <= |q| && p[2 * |x| + 1 + k] == y[k] && q[2 * |x| + 1 + k] == w[k];
    }
  }

  lemma PairIsInjective(x: Bytes, y: Bytes, v: Bytes, w: Bytes)
    requires Pair(x, y) == Pair(v, w)
    ensures x == v && y == w
  {
    PairPrefix(x, y, v, w);
    PairPrefix(v, w, x, y);
  }

  function PlainSeal(k: Bytes, p: Bytes, a: Bytes): Bytes
  {
    Pair(Pair(k, a), p)
  }

  function PlainUnseal(k: Bytes, s: Bytes, a: Bytes): Option<Bytes>
  {
    var prefix := Pair(Pair(k, a), []);
    if prefix <= s then Some(s[|prefix|..]) else None
  }

  lemma PlainOpens(k: Bytes, p: Bytes, a: Bytes)
    ensures PlainUnseal(k, PlainSeal(k, p, a), a) == Some(p)
  {
    assert PlainSeal(k, p, a) == Pair(Pair(k, a), []) + p;
  }

  lemma PlainIsSealed(k: Bytes, s: Bytes, a: Bytes)
    requires PlainUnseal(k, s, a).Some?
    ensures s == PlainSeal(k, PlainUnseal(k, s, a).value, a)
  {
    var prefix := Pair(Pair(k, a), []);
    assert s == prefix + s[|prefix|..] == Pair(Pair(k, a), s[|prefix|..]);
  }

  lemma PlainBinds(k: Bytes, p: Bytes, a: Bytes, l: Bytes, b: Bytes)
    requires PlainUnseal(l, PlainSeal(k, p, a), b).Some?
    ensures k == l && a == b
  {
    PairPrefix(Pair(l, b), [], Pair(k, a), p);
    PairIsInjective(l, b, k, a);
  }

  /** Primitives for which the laws hold, though they keep no secrets. */
  const PLAIN: Crypto := Crypto([], [], Pair, Pair, (x: Bytes) => x, (x: Bytes, y: Bytes) => Zeros(|x| + |y|),
                                PlainSeal, PlainUnseal)

  lemma LawsCanHold()
    ensures Sound(PLAIN) && Binding(PLAIN)
  {
    forall k: Bytes, p: Bytes, a: Bytes
      ensures PlainUnseal(k, PlainSeal(k, p, a), a) == Some(p)
    {
      PlainOpens(k, p, a);
    }
    forall k: Bytes, x: Bytes, l: Bytes, y: Bytes | Pair(k, x) == Pair(l, y)
      ensures k == l && x == y
    {
      PairIsInjective(k, x, l, y);
    }
    forall k: Bytes, p: Bytes, a: Bytes, l: Bytes, b: Bytes | PlainUnseal(l, PlainSeal(k, p, a), b).Some?
      ensures k == l && a == b
    {
      PlainBinds(k, p, a, l, b);
    }
    forall k: Bytes, s: Bytes, a: Bytes | PlainUnseal(k, s, a).Some?
      ensures s == PlainSeal(k, PlainUnseal(k, s, a).value, a)
    {
      PlainIsSealed(k, s, a);
    }
  }
}

/** An established session: sealing outgoing data in place, and opening incoming data once only. */
module Sessions {
  import opened Wrappers
  import opened Wire
  import opened Messages
  import opened Buffers
  import RW = ReplayWindow

  datatype ReceiveError = WrongIndex | InvalidCounter | DuplicateCounter | InvalidAeadTag

  /** After a run of counters, this one is still acceptable. */
  ghost predicate Fresh(run: seq<nat>, counter: nat)
  {
    RW.Accepts(run + [counter], |run|)
  }

  /** After a run of counters, this one is so far behind the largest accepted that it is no longer remembered. */
  ghost predicate TooOld(run: seq<nat>, counter: nat)
  {
    counter + RW.N_BITS < RW.After(run).next
  }

  class Session {
    const cipher: Aead
    const receivingIndex: U32
    const sendingIndex: U32
    const receivingKey: Key
    const sendingKey: Key
    var sendingKeyCounter: U64
    const receivingKeyCounter: RW.ReceivingKeyCounterValidator

    ghost predicate Valid()
      reads this, receivingKeyCounter, receivingKeyCounter.bitmap
    {
      && Lawful(cipher) && sendingKeyCounter <= REJECT_AFTER_MESSAGES
      && receivingKeyCounter.Valid() && receivingKeyCounter.Counted()
    }

    constructor (cipher: Aead, localIndex: U32, peerIndex: U32, receivingKey: Key, sendingKey: Key)
      requires Lawful(cipher)
      ensures Valid() && fresh(receivingKeyCounter) && fresh(receivingKeyCounter.bitmap)
      ensures this.cipher == cipher && this.receivingKey == receivingKey && this.sendingKey == sendingKey
      ensures receivingIndex == localIndex && sendingIndex == peerIndex
      ensures sendingKeyCounter == 0 && receivingKeyCounter.run == []
    {
      this.cipher, this.receivingKey, this.sendingKey := cipher, receivingKey, sendingKey;
      receivingIndex, sendingIndex := localIndex, peerIndex;
      sendingKeyCounter := 0;
      receivingKeyCounter := new RW.ReceivingKeyCounterValidator();
    }

    /** Writes a data packet for `src` into `dst` and returns its length, unless the session is exhausted. */
    method FormatPacketDataWithType(kind: U32, src: Bytes, dst: array<Byte>) returns (written: Option<nat>)
      requires Valid() && dst.Length >= DATA_OFFSET + PaddedLen(|src|) + AEAD_SIZE
      modifies this`sendingKeyCounter, dst
      ensures Valid()
      ensures written.None? <==> old(sendingKeyCounter) == REJECT_AFTER_MESSAGES
      ensures written.None? ==> sendingKeyCounter == old(sendingKeyCounter) && dst[..] == old(dst[..])
      ensures written.Some? ==>
                && sendingKeyCounter == old(sendingKeyCounter) + 1
                && dst[..] == Formatted(cipher, kind, sendingIndex, old(sendingKeyCounter), sendingKey, src)
                              + old(dst[..])[DATA_OFFSET + PaddedLen(|src|) + AEAD_SIZE..]
                && written.value == DATA_OFFSET + PaddedLen(|src|) + AEAD_SIZE
    {
      var counter := sendingKeyCounter;
      if counter >= REJECT_AFTER_MESSAGES {
        return None;
      }
      sendingKeyCounter := counter + 1;
      WritePacket(kind, src, dst, counter);
      written := Some(DATA_OFFSET + PaddedLen(|src|) + AEAD_SIZE);
    }

    /** Writes the header and what is sealed behind it. */
    method WritePacket(kind: U32, src: Bytes, dst: array<Byte>, counter: U64)
      requires Lawful(cipher) && dst.Length >= DATA_OFFSET + PaddedLen(|src|) + AEAD_SIZE
      modifies dst
      ensures dst[..] == Formatted(cipher, kind, sendingIndex, counter, sendingKey, src)
                         + old(dst[..])[DATA_OFFSET + PaddedLen(|src|) + AEAD_SIZE..]
      ensures |Formatted(cipher, kind, sendingIndex, counter, sendingKey, src)| == DATA_OFFSET + PaddedLen(|src|) + AEAD_SIZE
    {
      SealedLen(cipher, sendingKey, counter, src);
      HeaderThenRest(dst[..], Header(kind, sendingIndex, counter), Sealed(cipher, sendingKey, counter, src));
      WriteHeader(dst, kind, sendingIndex, counter);
      SealInPlace(dst, src, counter);
    }

    /** Pads `src` in place behind the header, encrypts it there and appends the tag. */
    method SealInPlace(dst: array<Byte>, src: Bytes, counter: U64)
      requires Lawful(cipher) && dst.Length >= DATA_OFFSET + PaddedLen(|src|) + AEAD_SIZE
      modifies dst
      ensures |Sealed(cipher, sendingKey, counter, src)| == PaddedLen(|src|) + AEAD_SIZE
      ensures dst[..] == Overwritten(old(dst[..]), DATA_OFFSET, Sealed(cipher, sendingKey, counter, src))
    {
      SealedLen(cipher, sendingKey, counter, src);
      SealedLayout(dst[..], Padded(src), Sealed(cipher, sendingKey, counter, src));
      PadInPlace(dst, src);
      EncryptInPlace(dst, PaddedLen(|src|), counter, Padded(src));
    }

    /** Encrypts the plaintext behind the header where it stands, and writes the tag behind it. */
    method EncryptInPlace(dst: array<Byte>, len: nat, counter: U64, ghost p: Bytes)
      requires Lawful(cipher) && dst.Length >= DATA_OFFSET + len + AEAD_SIZE
      requires |p| == len && dst[..][DATA_OFFSET..DATA_OFFSET + len] == p
      modifies dst
      ensures var e, t := cipher.encrypt(sendingKey, Nonce(counter), p), cipher.tag(sendingKey, Nonce(counter), p);
              |e + t| == len + AEAD_SIZE && dst[..] == Overwritten(old(dst[..]), DATA_OFFSET, e + t)
    {
      var nonce, plaintext := Nonce(counter), dst[..][DATA_OFFSET..DATA_OFFSET + len];
      var e, t := cipher.encrypt(sendingKey, nonce, plaintext), cipher.tag(sendingKey, nonce, plaintext);
      WrittenInTwo(dst[..], DATA_OFFSET, e, t);
      Write(dst, DATA_OFFSET, e);
      Write(dst, DATA_OFFSET + len, t);
    }

    /** Opens a data packet into `dst` and returns the length of its plaintext. */
    method ReceivePacketData(packet: DataMessage, dst: array<Byte>) returns (r: Result<nat, ReceiveError>)
      requires Valid() && |packet.encapsulated| >= AEAD_SIZE && dst.Length >= |packet.encapsulated|
      modifies dst, receivingKeyCounter, receivingKeyCounter.bitmap
      ensures Valid()
      ensures r.Ok? <==> && packet.receiverIdx == receivingIndex && packet.counter < REJECT_AFTER_MESSAGES
                         && Fresh(old(receivingKeyCounter.run), packet.counter)
                         && Opened(cipher, receivingKey, packet).Some?
      ensures r.Ok? ==> receivingKeyCounter.run == old(receivingKeyCounter.run) + [packet.counter]
      ensures r.Ok? ==> r.value <= dst.Length && Some(dst[..r.value]) == Opened(cipher, receivingKey, packet)
      ensures r.Err? ==> receivingKeyCounter.run == old(receivingKeyCounter.run)
      ensures r == Err(WrongIndex) <==> packet.receiverIdx != receivingIndex
      ensures r == Err(InvalidAeadTag) ==> Opened(cipher, receivingKey, packet).None?
      ensures r == Err(InvalidCounter) <==>
                packet.receiverIdx == receivingIndex &&
                (packet.counter >= REJECT_AFTER_MESSAGES || TooOld(old(receivingKeyCounter.run), packet.counter))
      ensures r == Err(DuplicateCounter) <==>
                && packet.receiverIdx == receivingIndex && packet.counter < REJECT_AFTER_MESSAGES
                && !Fresh(old(receivingKeyCounter.run), packet.counter) && !TooOld(old(receivingKeyCounter.run), packet.counter)
    {
      if packet.receiverIdx != receivingIndex {
        return Err(WrongIndex);
      }
      if packet.counter >= REJECT_AFTER_MESSAGES {
        return Err(InvalidCounter);
      }
      var refused := ReceivingCounterQuickCheck(packet.counter);
      if refused.Some? {
        return Err(refused.value);
      }
      var plain := Decrypt(packet, dst);
      if plain.None? {
        return Err(InvalidAeadTag);
      }
      ReceivingCounterMark(packet.counter);
      return Ok(plain.value);
    }

    /** Why a counter will not be accepted, before anything is spent on decryption. */
    method ReceivingCounterQuickCheck(counter: U64) returns (refused: Option<ReceiveError>)
      requires Valid()
      ensures refused.None? <==> Fresh(receivingKeyCounter.run, counter)
      ensures refused.Some? ==> refused.value == if TooOld(receivingKeyCounter.run, counter) then InvalidCounter
                                                 else DuplicateCounter
    {
      var quick := receivingKeyCounter.WillAccept(counter);
      QuickCheckIsExact(receivingKeyCounter.run, receivingKeyCounter.accepted, receivingKeyCounter.next, counter);
      if quick.Ok? {
        return None;
      }
      return Some(if quick.error == RW.InvalidCounter then InvalidCounter else DuplicateCounter);
    }

    method ReceivingCounterMark(counter: U64)
      requires Valid() && counter < REJECT_AFTER_MESSAGES
      modifies receivingKeyCounter, receivingKeyCounter.bitmap
      ensures Valid() && receivingKeyCounter.run == old(receivingKeyCounter.run) + [counter]
    {
      var marked := receivingKeyCounter.ReceivingCounterMark(counter);
    }

    /** Decrypts into `dst`; the length of the plaintext if the tag is right. */
    method Decrypt(packet: DataMessage, dst: array<Byte>) returns (len: Option<nat>)
      requires Lawful(cipher) && |packet.encapsulated| >= AEAD_SIZE && dst.Length >= |packet.encapsulated|
      modifies dst
      ensures len.None? <==> Opened(cipher, receivingKey, packet).None?
      ensures len.Some? ==> len.value <= dst.Length && Some(dst[..len.value]) == Opened(cipher, receivingKey, packet)
    {
      var split := |packet.encapsulated| - AEAD_SIZE;
      var plain := cipher.decrypt(receivingKey, Nonce(packet.counter), packet.encapsulated[..split],
                                  packet.encapsulated[split..]);
      if plain.None? {
        return None;
      }
      Write(dst, 0, plain.value);
      assert dst[..split] == dst[..][..split] == plain.value;
      len := Some(split);
    }
  }

  method WriteHeader(dst: array<Byte>, kind: U32, receiverIdx: U32, counter: U64)
    requires dst.Length >= DATA_OFFSET
    modifies dst
    ensures dst[..] == Overwritten(old(dst[..]), 0, Header(kind, receiverIdx, counter))
  {
    HeaderLayout(dst[..], ToLe(kind, 4), ToLe(receiverIdx, 4), ToLe(counter, 8));
    Write(dst, 0, ToLe(kind, 4));
    Write(dst, 4, ToLe(receiverIdx, 4));
    Write(dst, 8, ToLe(counter, 8));
  }

  lemma HeaderLayout(bytes: Bytes, x: Bytes, y: Bytes, z: Bytes)
    requires |bytes| >= DATA_OFFSET && |x| == |y| == 4 && |z| == 8
    ensures Overwritten(Overwritten(Overwritten(bytes, 0, x), 4, y), 8, z) == Overwritten(bytes, 0, x + y + z)
  {
  }

  /** A header and what is sealed behind it make up the front of the buffer. */
  lemma HeaderThenRest(bytes: Bytes, header: Bytes, sealed: Bytes)
    requires |header| == DATA_OFFSET && |bytes| >= DATA_OFFSET + |sealed|
    ensures Overwritten(Overwritten(bytes, 0, header), DATA_OFFSET, sealed)
            == header + sealed + bytes[DATA_OFFSET + |sealed|..]
  {
  }

  method PadInPlace(dst: array<Byte>, src: Bytes)
    requires dst.Length >= DATA_OFFSET + PaddedLen(|src|)
    modifies dst
    ensures dst[..] == Overwritten(old(dst[..]), DATA_OFFSET, Padded(src))
  {
    WrittenInTwo(dst[..], DATA_OFFSET, src, Zeros(PaddedLen(|src|) - |src|));
    Write(dst, DATA_OFFSET, src);
    Write(dst, DATA_OFFSET + |src|, Zeros(PaddedLen(|src|) - |src|));
  }

  lemma WrittenInTwo(bytes: Bytes, at: nat, x: Bytes, y: Bytes)
    requires |bytes| >= at + |x| + |y|
    ensures Overwritten(Overwritten(bytes, at, x), at + |x|, y) == Overwritten(bytes, at, x + y)
  {
  }

  /** Writing more over what was just written leaves no trace of it. */
  lemma SealedLayout(bytes: Bytes, p: Bytes, sealed: Bytes)
    requires |bytes| >= DATA_OFFSET + |sealed| && |sealed| >= |p|
    ensures Overwritten(Overwritten(bytes, DATA_OFFSET, p), DATA_OFFSET, sealed) == Overwritten(bytes, DATA_OFFSET, sealed)
    ensures Overwritten(bytes, DATA_OFFSET, p)[DATA_OFFSET..DATA_OFFSET + |p|] == p
  {
  }

  /** What the quick check says is what marking will say. */
  lemma {:induction false} QuickCheckIsExact(run: seq<nat>, accepted: set<nat>, next: nat, counter: nat)
    requires RW.After(run) == RW.History(accepted, next)
    ensures RW.Acceptable(next, accepted, counter) <==> Fresh(run, counter)
  {
  }
}

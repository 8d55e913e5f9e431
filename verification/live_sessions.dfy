/** The sessions of a tunnel's ring, as the objects that seal and open packets, over the life of the tunnel. */
module LiveSessions {
  import opened Wrappers
  import opened Wire
  import opened Messages
  import opened NoiseKeys
  import opened Handshakes
  import opened TunnelLife
  import opened Sessions
  import RW = ReplayWindow

  /** The length of a data packet on the wire. */
  function WireLen(src: Bytes): nat
  {
    DATA_OFFSET + PaddedLen(|src|) + AEAD_SIZE
  }

  /** The objects a session lives in. */
  ghost function Footprint(o: Option<Session>): set<object>
  {
    if o.Some? then {o.value, o.value.receivingKeyCounter, o.value.receivingKeyCounter.bitmap} else {}
  }

  /** No two sessions share an object. */
  ghost predicate Apart(live: seq<Option<Session>>, i: nat, j: nat)
    requires i < |live| && j < |live|
  {
    i != j && live[i].Some? && live[j].Some? ==>
      var s, t := live[i].value, live[j].value;
      && s != t && s.receivingKeyCounter != t.receivingKeyCounter
      && s.receivingKeyCounter.bitmap != t.receivingKeyCounter.bitmap
  }

  ghost predicate AllApart(live: seq<Option<Session>>)
  {
    forall i, j {:trigger Apart(live, i, j)} :: 0 <= i < |live| && 0 <= j < |live| ==> Apart(live, i, j)
  }

  /** The session is the one described, with those counters. */
  ghost predicate Mirrors(o: Option<Session>, slot: Option<Slot>, cipher: Aead)
    reads Footprint(o)
  {
    && (o.Some? <==> slot.Some?)
    && (o.Some? ==>
          var s, x := o.value, slot.value;
          && s.Valid() && s.cipher == cipher
          && s.receivingIndex == x.keys.localIndex && s.sendingIndex == x.keys.peerIndex
          && s.receivingKey == x.keys.receivingKey && s.sendingKey == x.keys.sendingKey
          && s.receivingKeyCounter.run == x.run && s.sendingKeyCounter == x.next)
  }

  twostate predicate Same(o: Option<Session>)
    reads Footprint(o)
  {
    o.Some? ==> unchanged(o.value) && unchanged(o.value.receivingKeyCounter) && unchanged(o.value.receivingKeyCounter.bitmap)
  }

  /** A session seals a packet, and its description moves on with it. */
  method SealWith(session: Session, ghost slot: Slot, kind: U32, src: Bytes, dst: array<Byte>)
    returns (written: Option<nat>, ghost after: Slot)
    requires Mirrors(Some(session), Some(slot), session.cipher) && dst.Length >= WireLen(src)
    modifies session, dst
    ensures Mirrors(Some(session), Some(after), session.cipher)
    ensures written.None? <==> slot.next == REJECT_AFTER_MESSAGES
    ensures written.None? ==> after == slot && dst[..] == old(dst[..])
    ensures written.Some? ==>
              && after == slot.(next := slot.next + 1) && slot.next < REJECT_AFTER_MESSAGES && written.value == WireLen(src)
              && dst[..written.value]
                 == Formatted(session.cipher, kind, slot.keys.peerIndex, slot.next, slot.keys.sendingKey, src)
  {
    written := session.FormatPacketDataWithType(kind, src, dst);
    after := if written.Some? then slot.(next := slot.next + 1) else slot;
  }

  /** A session opens a packet that is for it and has a fresh counter, and its description remembers that. */
  method OpenWith(session: Session, ghost slot: Slot, packet: DataMessage, dst: array<Byte>)
    returns (r: Result<nat, ReceiveError>, ghost after: Slot)
    requires Mirrors(Some(session), Some(slot), session.cipher)
    requires |packet.encapsulated| >= AEAD_SIZE && dst.Length >= |packet.encapsulated|
    modifies session.receivingKeyCounter, session.receivingKeyCounter.bitmap, dst
    ensures Mirrors(Some(session), Some(after), session.cipher)
    ensures r.Ok? <==> && packet.receiverIdx == slot.keys.localIndex && packet.counter < REJECT_AFTER_MESSAGES
                       && Fresh(slot.run, packet.counter)
                       && Opened(session.cipher, slot.keys.receivingKey, packet).Some?
    ensures after == if r.Ok? then slot.(run := slot.run + [packet.counter]) else slot
    ensures r.Ok? ==> r.value <= dst.Length && Some(dst[..r.value]) == Opened(session.cipher, slot.keys.receivingKey, packet)
  {
    r := session.ReceivePacketData(packet, dst);
    after := if r.Ok? then slot.(run := slot.run + [packet.counter]) else slot;
  }

  /** Each live session has its own objects. */
  class Ring {
    const cipher: Aead
    var live: seq<Option<Session>>
    ghost var slots: Slots
    ghost var traffic: Traffic
    /** The objects of all sessions so far. */
    ghost var all: set<Session>
    ghost var validators: set<RW.ReceivingKeyCounterValidator>
    ghost var bitmaps: set<array<RW.BitWord>>

    ghost predicate Owned(o: Option<Session>)
      reads this`all, this`validators, this`bitmaps
    {
      o.Some? ==> o.value in all && o.value.receivingKeyCounter in validators && o.value.receivingKeyCounter.bitmap in bitmaps
    }

    ghost predicate SlotOk(i: nat)
      requires i < |live| && i < |slots|
      reads this`live, this`slots, this`all, this`validators, this`bitmaps, all, validators, bitmaps
    {
      Owned(live[i]) && Mirrors(live[i], slots[i], cipher)
    }

    ghost predicate Stored()
      reads this`live, this`slots, this`all, this`validators, this`bitmaps, all, validators, bitmaps
    {
      && |live| == |slots| == N_SESSIONS && Lawful(cipher)
      && AllApart(live)
      && forall i {:trigger SlotOk(i)} :: 0 <= i < N_SESSIONS ==> SlotOk(i)
    }

    ghost predicate Valid()
      reads this, all, validators, bitmaps
    {
      Stored() && TrafficOk(cipher, traffic) && SlotsOk(traffic, slots)
    }

    /** Only new objects were added. */
    twostate predicate Grown()
      reads this`all, this`validators, this`bitmaps
    {
      && (forall o :: o in all ==> o in old(all) || fresh(o))
      && (forall o :: o in validators ==> o in old(validators) || fresh(o))
      && forall o :: o in bitmaps ==> o in old(bitmaps) || fresh(o)
    }

    constructor (cipher: Aead)
      requires Lawful(cipher)
      ensures Valid() && all == {} && validators == {} && bitmaps == {} && this.cipher == cipher
      ensures slots == [None, None, None] && traffic == NO_TRAFFIC
    {
      this.cipher := cipher;
      live, slots, traffic := [None, None, None], [None, None, None], NO_TRAFFIC;
      all, validators, bitmaps := {}, {}, {};
    }

    /** Puts a fresh session into its slot; what was there goes with its counters. */
    method Open(keys: SessionKeys)
      requires Valid()
      modifies this
      ensures Valid() && Grown()
      ensures slots == old(slots)[keys.localIndex % N_SESSIONS := Some(Slot(|old(traffic).sessions|, keys, [], 0))]
      ensures traffic == AfterOpening(old(traffic), keys)
    {
      OpeningKeeps(cipher, traffic, slots, keys.localIndex % N_SESSIONS, keys);
      var session := NewSession(keys, |traffic.sessions|);
      Replace(keys.localIndex % N_SESSIONS, session, Slot(|traffic.sessions|, keys, [], 0));
      traffic := AfterOpening(traffic, keys);
    }

    method NewSession(keys: SessionKeys, ghost serial: nat) returns (session: Session)
      requires Lawful(cipher)
      ensures fresh(Footprint(Some(session)))
      ensures Mirrors(Some(session), Some(Slot(serial, keys, [], 0)), cipher)
    {
      session := new Session(cipher, keys.localIndex, keys.peerIndex, keys.receivingKey, keys.sendingKey);
    }

    /** A session ends. */
    method End(i: nat)
      requires Valid() && i < N_SESSIONS
      modifies this`live, this`slots
      ensures Valid()
      ensures slots == old(slots)[i := None]
    {
      EndingKeeps(traffic, slots, slots[i := None]);
      live := live[i := None];
      slots := slots[i := None];
      forall j | 0 <= j < N_SESSIONS
        ensures SlotOk(j)
      {
        assert old(SlotOk(j));
      }
      forall j, k | 0 <= j < N_SESSIONS && 0 <= k < N_SESSIONS
        ensures Apart(live, j, k)
      {
        assert old(Apart(live, j, k));
      }
    }

    /** Seals a packet with the session in slot `i`, unless that has used up its counters. */
    method Seal(i: nat, kind: U32, src: Bytes, dst: array<Byte>) returns (written: Option<nat>)
      requires Valid() && i < N_SESSIONS && slots[i].Some? && dst.Length >= WireLen(src)
      modifies this`slots, this`traffic, all, dst
      ensures Valid()
      ensures written.None? <==> old(slots)[i].value.next == REJECT_AFTER_MESSAGES
      ensures written.None? ==> slots == old(slots) && traffic == old(traffic) && dst[..] == old(dst[..])
      ensures written.Some? ==>
                var s := old(slots)[i].value;
                && slots == old(slots)[i := Some(s.(next := s.next + 1))] && traffic == AfterSealing(old(traffic), s)
                && traffic.sealed == old(traffic).sealed + [Sealing(s.serial, s.next)]
                && s.next < REJECT_AFTER_MESSAGES && written.value == WireLen(src)
                && dst[..written.value] == Formatted(cipher, kind, s.keys.peerIndex, s.next, s.keys.sendingKey, src)
    {
      ghost var s := slots[i].value;
      written := SealStored(i, kind, src, dst);
      if written.Some? {
        SealingKeeps(cipher, traffic, old(slots), i);
        traffic := AfterSealing(traffic, s);
      }
    }

    method IsExhausted(i: nat) returns (exhausted: bool)
      requires Valid() && i < N_SESSIONS && slots[i].Some?
      ensures exhausted <==> slots[i].value.next >= REJECT_AFTER_MESSAGES
    {
      assert SlotOk(i);
      exhausted := live[i].value.sendingKeyCounter >= REJECT_AFTER_MESSAGES;
    }

    function IsLive(i: nat): (r: bool)
      requires Valid() && i < N_SESSIONS
      reads this, all, validators, bitmaps
      ensures r <==> slots[i].Some?
    {
      assert SlotOk(i);
      live[i].Some?
    }

    method SealStored(i: nat, kind: U32, src: Bytes, dst: array<Byte>) returns (written: Option<nat>)
      requires Stored() && i < N_SESSIONS && slots[i].Some? && dst.Length >= WireLen(src)
      modifies this`slots, all, dst
      ensures Stored()
      ensures written.None? <==> old(slots)[i].value.next == REJECT_AFTER_MESSAGES
      ensures written.None? ==> slots == old(slots) && dst[..] == old(dst[..])
      ensures written.Some? ==>
                var s := old(slots)[i].value;
                && slots == old(slots)[i := Some(s.(next := s.next + 1))]
                && s.next < REJECT_AFTER_MESSAGES && written.value == WireLen(src)
                && dst[..written.value] == Formatted(cipher, kind, s.keys.peerIndex, s.next, s.keys.sendingKey, src)
    {
      ghost var after;
      written, after := SealOne(i, kind, src, dst);
      Describe(i, after);
    }

    method SealOne(i: nat, kind: U32, src: Bytes, dst: array<Byte>) returns (written: Option<nat>, ghost after: Slot)
      requires Stored() && i < N_SESSIONS && slots[i].Some? && dst.Length >= WireLen(src)
      modifies all, dst
      ensures OthersOk(i) && Owned(live[i]) && Mirrors(live[i], Some(after), cipher)
      ensures var s := slots[i].value;
              && (written.None? <==> s.next == REJECT_AFTER_MESSAGES)
              && (written.None? ==> after == s && dst[..] == old(dst[..]))
              && (written.Some? ==>
                    && after == s.(next := s.next + 1) && s.next < REJECT_AFTER_MESSAGES && written.value == WireLen(src)
                    && dst[..written.value] == Formatted(cipher, kind, s.keys.peerIndex, s.next, s.keys.sendingKey, src))
    {
      assert SlotOk(i);
      written, after := SealWith(live[i].value, slots[i].value, kind, src, dst);
      forall j | 0 <= j < N_SESSIONS && j != i
        ensures Same(live[j])
      {
        assert Apart(live, i, j);
      }
      OthersStay(i);
    }

    /** Opens a data packet with the session in its slot, if it is for that one and its counter is fresh. */
    method Deliver(packet: DataMessage, dst: array<Byte>) returns (r: Result<nat, ReceiveError>)
      requires Valid() && slots[packet.receiverIdx % N_SESSIONS].Some?
      requires |packet.encapsulated| >= AEAD_SIZE && dst.Length >= |packet.encapsulated|
      modifies this`slots, this`traffic, validators, bitmaps, dst
      ensures Valid()
      ensures var s := old(slots)[packet.receiverIdx % N_SESSIONS].value;
              && (r.Ok? <==> && packet.receiverIdx == s.keys.localIndex && packet.counter < REJECT_AFTER_MESSAGES
                             && Fresh(s.run, packet.counter) && Opened(cipher, s.keys.receivingKey, packet).Some?)
              && (r.Ok? ==>
                    && slots == old(slots)[packet.receiverIdx % N_SESSIONS := Some(s.(run := s.run + [packet.counter]))]
                    && traffic == AfterDelivery(old(traffic), s.serial, packet)
                    && traffic.delivered == old(traffic).delivered + [Delivery(s.serial, packet)]
                    && r.value <= dst.Length && Some(dst[..r.value]) == Opened(cipher, s.keys.receivingKey, packet))
      ensures r.Err? ==> slots == old(slots) && traffic == old(traffic)
    {
      var i := packet.receiverIdx % N_SESSIONS;
      ghost var s := slots[i].value;
      r := DeliverStored(i, packet, dst);
      if r.Ok? {
        DeliveryKeeps(cipher, traffic, old(slots), i, packet);
        traffic := AfterDelivery(traffic, s.serial, packet);
      }
    }

    method DeliverStored(i: nat, packet: DataMessage, dst: array<Byte>) returns (r: Result<nat, ReceiveError>)
      requires Stored() && i < N_SESSIONS && slots[i].Some?
      requires |packet.encapsulated| >= AEAD_SIZE && dst.Length >= |packet.encapsulated|
      modifies this`slots, validators, bitmaps, dst
      ensures Stored()
      ensures var s := old(slots)[i].value;
              && (r.Ok? <==> && packet.receiverIdx == s.keys.localIndex && packet.counter < REJECT_AFTER_MESSAGES
                             && Fresh(s.run, packet.counter) && Opened(cipher, s.keys.receivingKey, packet).Some?)
              && (r.Ok? ==>
                    && slots == old(slots)[i := Some(s.(run := s.run + [packet.counter]))]
                    && r.value <= dst.Length && Some(dst[..r.value]) == Opened(cipher, s.keys.receivingKey, packet))
      ensures r.Err? ==> slots == old(slots)
    {
      assert SlotOk(i);
      ghost var after;
      r, after := OpenWith(live[i].value, slots[i].value, packet, dst);
      forall j | 0 <= j < N_SESSIONS && j != i
        ensures Same(live[j])
      {
        assert Apart(live, i, j);
      }
      OthersStay(i);
      Describe(i, after);
    }

    /** What did not happen to a session's own objects did not happen to the session. */
    twostate lemma OthersStay(i: nat)
      requires i < N_SESSIONS && old(Stored()) && |live| == |slots| == N_SESSIONS
      requires old(all) <= all && old(validators) <= validators && old(bitmaps) <= bitmaps
      requires forall j {:trigger old(SlotOk(j))} :: 0 <= j < N_SESSIONS && j != i ==>
                 live[j] == old(live)[j] && slots[j] == old(slots)[j] && Same(old(live)[j])
      ensures OthersOk(i)
    {
      forall j | 0 <= j < N_SESSIONS && j != i
        ensures SlotOk(j)
      {
        assert old(SlotOk(j)) && Same(live[j]);
      }
    }

    /** All other sessions are as described. */
    ghost predicate OthersOk(i: nat)
      requires |live| == |slots| == N_SESSIONS
      reads this`live, this`slots, this`all, this`validators, this`bitmaps, all, validators, bitmaps
    {
      forall j {:trigger SlotOk(j)} :: 0 <= j < N_SESSIONS && j != i ==> SlotOk(j)
    }

    /** One session's description moves on with it. */
    ghost method Describe(i: nat, after: Slot)
      requires |live| == |slots| == N_SESSIONS && Lawful(cipher) && i < N_SESSIONS && OthersOk(i) && AllApart(live)
      requires Owned(live[i]) && Mirrors(live[i], Some(after), cipher)
      modifies this`slots
      ensures Stored() && slots == old(slots)[i := Some(after)]
    {
      slots := slots[i := Some(after)];
      forall j | 0 <= j < N_SESSIONS
        ensures SlotOk(j)
      {
        assert j != i ==> old(SlotOk(j));
      }
    }

    method Replace(i: nat, session: Session, ghost slot: Slot)
      requires Stored() && i < N_SESSIONS && Mirrors(Some(session), Some(slot), cipher)
      requires session !in all && session.receivingKeyCounter !in validators && session.receivingKeyCounter.bitmap !in bitmaps
      modifies this`live, this`slots, this`all, this`validators, this`bitmaps
      ensures Stored() && slots == old(slots)[i := Some(slot)]
      ensures all == old(all) + {session} && validators == old(validators) + {session.receivingKeyCounter}
      ensures bitmaps == old(bitmaps) + {session.receivingKeyCounter.bitmap}
    {
      NewIsApart(i, session);
      live := live[i := Some(session)];
      all, validators := all + {session}, validators + {session.receivingKeyCounter};
      bitmaps := bitmaps + {session.receivingKeyCounter.bitmap};
      forall j | 0 <= j < N_SESSIONS && j != i
        ensures Same(old(live)[j])
      {
        assert old(SlotOk(j));
      }
      OthersStay(i);
      Describe(i, slot);
    }

    lemma NewIsApart(i: nat, session: Session)
      requires Stored() && i < N_SESSIONS
      requires session !in all && session.receivingKeyCounter !in validators && session.receivingKeyCounter.bitmap !in bitmaps
      ensures AllApart(live[i := Some(session)])
    {
      var more := live[i := Some(session)];
      forall j, k {:trigger Apart(more, j, k)} | 0 <= j < N_SESSIONS && 0 <= k < N_SESSIONS
        ensures Apart(more, j, k)
      {
        assert SlotOk(j) && SlotOk(k) && Apart(live, j, k);
      }
    }
  }
}

/**
 A whole tunnel: its handshake, ring and timers, the sessions in the ring with their counters, and the queue of packets
 that wait for one.
 */
module LiveTunnels {
  import opened Wrappers
  import opened Wire
  import opened Messages
  import opened NoiseKeys
  import opened Handshakes
  import opened TunnelTimers
  import opened TunnelLife
  import opened LiveSessions
  import opened WaitingPackets
  import IpFraming
  import P = Pool
  import RW = ReplayWindow
  import SR = SessionRing
  import TQ = TunnelQueue

  function KeysOf(slot: Option<Slot>): Option<SessionKeys>
  {
    if slot.Some? then Some(slot.value.keys) else None
  }

  /** The ring holds these sessions. */
  ghost predicate Matches(sessions: seq<Option<SessionKeys>>, slots: Slots)
  {
    && |sessions| == |slots| == N_SESSIONS
    && forall i :: 0 <= i < N_SESSIONS ==> sessions[i] == KeysOf(slots[i])
  }

  class LiveTunnel {
    const tunnel: SR.Tunnel
    const ring: Ring
    const waiting: WaitingQueue

    /** The sessions are those of the ring the tunnel goes by. */
    ghost predicate InOrder()
      reads this, tunnel, tunnel.handshake, ring, ring.all, ring.validators, ring.bitmaps
    {
      tunnel.InOrder() && ring.Valid() && Matches(tunnel.sessions, ring.slots)
    }

    ghost predicate Valid()
      reads this, tunnel, tunnel.handshake, ring, ring.all, ring.validators, ring.bitmaps
    {
      InOrder() && tunnel.TimerView().Ok()
    }

    /** The current session is live and has counters left. */
    ghost predicate Ready()
      reads this, tunnel`current, ring`slots
    {
      |ring.slots| == N_SESSIONS && CanSeal(ring.slots, tunnel.current)
    }

    /** What sealing a packet with the current session leaves. */
    ghost function Sealing(kind: U32, src: Bytes): AfterSeal
      requires Ready()
      reads this, tunnel`current, ring`slots, ring`traffic
    {
      SealedBy(ring.cipher, kind, src, ring.slots, ring.traffic, tunnel.current)
    }

    /** What sealing a packet into the buffer has left. */
    ghost function Sealed(src: Bytes, dst: array<Byte>): AfterSeal
      requires dst.Length >= WireLen(src)
      reads this, ring`slots, ring`traffic, dst
    {
      AfterSeal(ring.slots, ring.traffic, dst[..WireLen(src)])
    }

    constructor (cipher: Aead, crypto: Crypto, params: Params, peerIndex: nat, keepalive: Option<nat>, ghost pool: P.PacketPool)
      requires Lawful(cipher) && peerIndex < 0x100_0000 && pool.Valid()
      ensures Valid() && fresh(tunnel) && fresh(tunnel.handshake) && fresh(ring) && tunnel.clock == 0 && waiting.time == 0
      ensures tunnel.handshake.crypto == crypto && tunnel.handshake.params == params && ring.cipher == cipher
      ensures ring.all == {} && ring.validators == {} && ring.bitmaps == {} && ring.traffic == NO_TRAFFIC
      ensures waiting.Valid(pool) && fresh(waiting) && fresh(waiting.queue) && waiting.log == NO_LOG
    {
      tunnel := new SR.Tunnel(crypto, params, peerIndex, keepalive);
      ring := new Ring(cipher);
      waiting := new WaitingQueue(pool);
    }

    /** Over the tunnel's whole life no packet is delivered twice, if none opens under two sessions of one index. */
    lemma DeliversOnce(i: nat, j: nat)
      requires Valid() && Separate(ring.cipher, ring.traffic.sessions) && i < j < |ring.traffic.delivered|
      ensures ring.traffic.delivered[i].message != ring.traffic.delivered[j].message
    {
      NeverDeliveredTwice(ring.cipher, ring.traffic, i, j);
    }

    /** Over the tunnel's whole life packets that had to wait are sealed once each, in the order they came. */
    lemma SealsInOrder(pool: P.PacketPool, i: nat, j: nat)
      requires waiting.Valid(pool) && i < j < |waiting.log.sealed|
      ensures waiting.log.sealed[i] < waiting.log.sealed[j] < |waiting.log.packets|
    {
      SealedOnceInOrder(waiting.log, TQ.Packets(pool.slots, waiting.queue.chain), waiting.time, i, j);
    }

    /** Answers an initiation; its session takes the slot of its index. */
    method HandleHandshakeInit(m: InitMessage, ephemeralPrivate: Bytes, now: nat) returns (r: Result<ResponseMessage, NoiseError>)
      requires Valid() && tunnel.clock <= now
      requires ReadInitiation(tunnel.handshake.crypto, tunnel.handshake.params, m).Ok? ==>
                 |ReadInitiation(tunnel.handshake.crypto, tunnel.handshake.params, m).value.0| == TIMESTAMP_LEN
      modifies tunnel, tunnel.handshake, ring
      ensures Valid() && old(tunnel.clock) <= tunnel.clock <= now
      ensures ring.Grown()
      ensures var answer := old(tunnel.handshake.Answer(m, ephemeralPrivate));
              if answer.Err? then r == Err(answer.error)
              else r == Ok(answer.value.0) && |tunnel.sessions| == N_SESSIONS
                   && tunnel.sessions[tunnel.current % N_SESSIONS] == Some(answer.value.1)
      ensures r.Ok? ==> tunnel.current == r.value.senderIdx
      ensures r.Ok? ==> Began(old(ring.slots), old(ring.traffic), ring.slots, ring.traffic, tunnel.current)
      ensures r.Err? ==> ring.slots == old(ring.slots) && ring.traffic == old(ring.traffic)
    {
      r := AnswerInit(m, ephemeralPrivate, now);
      if r.Ok? {
        OpenCurrent();
      }
    }

    method AnswerInit(m: InitMessage, ephemeralPrivate: Bytes, now: nat) returns (r: Result<ResponseMessage, NoiseError>)
      requires Valid() && tunnel.clock <= now
      requires ReadInitiation(tunnel.handshake.crypto, tunnel.handshake.params, m).Ok? ==>
                 |ReadInitiation(tunnel.handshake.crypto, tunnel.handshake.params, m).value.0| == TIMESTAMP_LEN
      modifies tunnel, tunnel.handshake
      ensures tunnel.Valid() && ring.Valid() && old(tunnel.clock) <= tunnel.clock <= now
      ensures var answer := old(tunnel.handshake.Answer(m, ephemeralPrivate));
              if answer.Err? then r == Err(answer.error)
              else r == Ok(answer.value.0) && |tunnel.sessions| == N_SESSIONS
                   && tunnel.sessions[tunnel.current % N_SESSIONS] == Some(answer.value.1)
      ensures r.Ok? ==> tunnel.current == r.value.senderIdx && NewAt(ring.slots, tunnel.sessions, tunnel.current)
      ensures r.Err? ==> Valid()
    {
      r := tunnel.HandleHandshakeInit(m, ephemeralPrivate, now);
    }

    /** Puts the session the tunnel has just established into the ring. */
    method OpenCurrent()
      requires tunnel.Valid() && ring.Valid() && NewAt(ring.slots, tunnel.sessions, tunnel.current)
      modifies ring
      ensures Valid()
      ensures ring.Grown()
      ensures Began(old(ring.slots), old(ring.traffic), ring.slots, ring.traffic, tunnel.current)
    {
      ring.Open(tunnel.sessions[tunnel.current % N_SESSIONS].value);
    }

    /** Completes a handshake of ours, and seals a keepalive with the new session. */
    method HandleHandshakeResponse(m: ResponseMessage, dst: array<Byte>, now: nat) returns (r: Result<nat, NoiseError>)
      requires Valid() && tunnel.clock <= now && dst.Length >= WireLen([])
      modifies tunnel, tunnel.handshake, ring, ring.all, dst
      ensures Valid() && old(tunnel.clock) <= tunnel.clock <= now
      ensures ring.Grown()
      ensures var completed := old(tunnel.handshake.Completed(m));
              if completed.Err? then r == Err(completed.error)
              else r.Ok? && |tunnel.sessions| == N_SESSIONS
                   && tunnel.sessions[tunnel.current % N_SESSIONS] == Some(completed.value)
      ensures r.Ok? ==> tunnel.current == m.receiverIdx && r.value == WireLen([])
      ensures r.Ok? ==> BeganAndSealed(ring.cipher, old(ring.slots), old(ring.traffic), ring.slots, ring.traffic, tunnel.current,
                                       dst[..r.value])
      ensures r.Err? ==> ring.slots == old(ring.slots) && ring.traffic == old(ring.traffic)
    {
      var session := AcceptResponse(m, now);
      if session.Err? {
        return Err(session.error);
      }
      OpenAndSeal(dst);
      return Ok(WireLen([]));
    }

    method AcceptResponse(m: ResponseMessage, now: nat) returns (r: Result<SessionKeys, NoiseError>)
      requires Valid() && tunnel.clock <= now
      modifies tunnel, tunnel.handshake
      ensures tunnel.Valid() && ring.Valid() && old(tunnel.clock) <= tunnel.clock <= now
      ensures r == old(tunnel.handshake.Completed(m))
      ensures r.Ok? ==> |tunnel.sessions| == N_SESSIONS && tunnel.sessions[tunnel.current % N_SESSIONS] == Some(r.value)
      ensures r.Ok? ==> tunnel.current == m.receiverIdx && NewAt(ring.slots, tunnel.sessions, tunnel.current)
      ensures r.Err? ==> Valid()
    {
      r := tunnel.HandleHandshakeResponse(m, now);
    }

    method OpenAndSeal(dst: array<Byte>)
      requires tunnel.Valid() && ring.Valid() && NewAt(ring.slots, tunnel.sessions, tunnel.current)
      requires dst.Length >= WireLen([])
      modifies ring, ring.all, dst
      ensures Valid()
      ensures ring.Grown()
      ensures BeganAndSealed(ring.cipher, old(ring.slots), old(ring.traffic), ring.slots, ring.traffic, tunnel.current,
                             dst[..WireLen([])])
    {
      OpenCurrent();
      ghost var all, validators, bitmaps := ring.all, ring.validators, ring.bitmaps;
      var done := SealCurrent(DATA, [], dst);
      assert ring.all == all && ring.validators == validators && ring.bitmaps == bitmaps;
    }

    /** Seals a packet with the current session, if that is live and has counters left. */
    method SealCurrent(kind: U32, src: Bytes, dst: array<Byte>) returns (sealed: bool)
      requires ring.Valid() && Matches(tunnel.sessions, ring.slots) && dst.Length >= WireLen(src)
      modifies ring`slots, ring`traffic, ring.all, dst
      ensures ring.Valid() && Matches(tunnel.sessions, ring.slots)
      ensures sealed <==> old(Ready())
      ensures sealed ==> Sealed(src, dst) == old(Sealing(kind, src))
      ensures !sealed ==> ring.slots == old(ring.slots) && ring.traffic == old(ring.traffic) && dst[..] == old(dst[..])
    {
      var i := tunnel.current % N_SESSIONS;
      if !ring.IsLive(i) {
        return false;
      }
      var written := ring.Seal(i, kind, src, dst);
      return written.Some?;
    }

    /** Sealing leaves the packets that wait alone. */
    method SealWhileWaiting(ghost pool: P.PacketPool, kind: U32, src: Bytes, dst: array<Byte>)
      returns (sealed: bool)
      requires waiting.Valid(pool)
      requires ring.Valid() && Matches(tunnel.sessions, ring.slots) && dst.Length >= WireLen(src)
      modifies ring`slots, ring`traffic, ring.all, dst
      ensures ring.Valid() && Matches(tunnel.sessions, ring.slots)
      ensures tunnel.current == old(tunnel.current)
      ensures sealed <==> old(Ready())
      ensures sealed ==> Sealed(src, dst) == old(Sealing(kind, src))
      ensures !sealed ==> ring.slots == old(ring.slots) && ring.traffic == old(ring.traffic) && dst[..] == old(dst[..])
      ensures waiting.Valid(pool) && waiting.log == old(waiting.log) && waiting.time == old(waiting.time)
    {
      sealed := SealCurrent(kind, src, dst);
    }

    /** Seals a packet or, without a session that can, queues it and starts a handshake unless one is in progress. */
    method Encapsulate(pool: P.PacketPool, kind: U32, src: Bytes, dst: array<Byte>, ephemeralPrivate: Bytes, timestamp: Bytes,
                       now: nat)
      returns (sealed: bool, initiation: Option<InitMessage>)
      requires InOrder() && waiting.Valid(pool) && tunnel.clock <= now && waiting.time <= now
      requires (kind == DATA || kind == RELAY_DATA) && dst.Length >= WireLen(src)
      modifies tunnel`timers, tunnel`wantHandshake, tunnel`wantKeepalive, tunnel`sendInitialKeepalive, tunnel`clock,
               tunnel.handshake, ring`slots, ring`traffic, ring.all, waiting`log, waiting`time, waiting.queue, pool, dst
      ensures InOrder() && (old(tunnel.TimerView()).Ok() ==> tunnel.TimerView().Ok()) && waiting.Valid(pool)
      ensures old(tunnel.clock) <= tunnel.clock <= now && old(waiting.time) <= waiting.time <= now
      ensures tunnel.current == old(tunnel.current)
      ensures sealed <==> old(Ready())
      ensures initiation.Some? <==> !sealed && !old(tunnel.handshake.IsInProgress())
      ensures initiation.Some? ==> initiation.value == old(tunnel.handshake.NextInitiation(ephemeralPrivate, timestamp))
      ensures tunnel.TimerView() == old(tunnel.TimerView()).Encapsulated(src != [], now, sealed)
      ensures sealed ==> waiting.log == old(waiting.log) && Sealed(src, dst) == old(Sealing(kind, src))
      ensures !sealed ==>
                && ring.slots == old(ring.slots) && ring.traffic == old(ring.traffic)
                && Waits(old(waiting.log), waiting.log, TQ.Packet(now, kind, src))
                && (|waiting.log.waiting| < TQ.MAX_PENDING_PACKETS && pool.HasRoom(|src|) ==>
                      waiting.log == Pushed(Swept(old(waiting.log), now), TQ.Packet(now, kind, src)))
    {
      sealed := Usable();
      if sealed {
        SealAndTick(pool, kind, src, dst, ephemeralPrivate, timestamp, now);
        initiation := None;
      } else {
        initiation := QueueAndStart(pool, kind, src, ephemeralPrivate, timestamp, now);
      }
    }

    method SealAndTick(ghost pool: P.PacketPool, kind: U32, src: Bytes, dst: array<Byte>, ephemeralPrivate: Bytes,
                       timestamp: Bytes, now: nat)
      requires InOrder() && waiting.Valid(pool) && tunnel.clock <= now
      requires Ready() && dst.Length >= WireLen(src)
      modifies tunnel`timers, tunnel`wantHandshake, tunnel`wantKeepalive, tunnel`sendInitialKeepalive, tunnel`clock,
               tunnel.handshake, ring`slots, ring`traffic, ring.all, dst
      ensures InOrder() && (old(tunnel.TimerView()).Ok() ==> tunnel.TimerView().Ok()) && old(tunnel.clock) <= tunnel.clock <= now
      ensures tunnel.current == old(tunnel.current)
      ensures tunnel.TimerView() == old(tunnel.TimerView()).Encapsulated(src != [], now, true)
      ensures Sealed(src, dst) == old(Sealing(kind, src))
      ensures waiting.Valid(pool) && waiting.log == old(waiting.log) && waiting.time == old(waiting.time)
    {
      var sealed := SealWhileWaiting(pool, kind, src, dst);
      TunnelStays();
      var initiation := TickEncapsulated(pool, src, false, ephemeralPrivate, timestamp, now);
    }

    method QueueAndStart(pool: P.PacketPool, kind: U32, src: Bytes, ephemeralPrivate: Bytes, timestamp: Bytes, now: nat)
      returns (initiation: Option<InitMessage>)
      requires InOrder() && waiting.Valid(pool) && tunnel.clock <= now && waiting.time <= now
      requires (kind == DATA || kind == RELAY_DATA) && !Ready()
      modifies tunnel`timers, tunnel`wantHandshake, tunnel`wantKeepalive, tunnel`sendInitialKeepalive, tunnel`clock,
               tunnel.handshake, waiting`log, waiting`time, waiting.queue, pool
      ensures InOrder() && (old(tunnel.TimerView()).Ok() ==> tunnel.TimerView().Ok()) && waiting.Valid(pool)
      ensures old(tunnel.clock) <= tunnel.clock <= now && waiting.time == now
      ensures tunnel.current == old(tunnel.current)
      ensures initiation.Some? <==> !old(tunnel.handshake.IsInProgress())
      ensures initiation.Some? ==> initiation.value == old(tunnel.handshake.NextInitiation(ephemeralPrivate, timestamp))
      ensures tunnel.TimerView() == old(tunnel.TimerView()).Encapsulated(src != [], now, false)
      ensures Waits(old(waiting.log), waiting.log, TQ.Packet(now, kind, src))
      ensures |waiting.log.waiting| < TQ.MAX_PENDING_PACKETS && pool.HasRoom(|src|) ==>
                waiting.log == Pushed(Swept(old(waiting.log), now), TQ.Packet(now, kind, src))
    {
      Enqueue(pool, kind, src, now);
      TunnelStays();
      initiation := TickEncapsulated(pool, src, true, ephemeralPrivate, timestamp, now);
    }

    method TickEncapsulated(ghost pool: P.PacketPool, src: Bytes, exhausted: bool, ephemeralPrivate: Bytes, timestamp: Bytes,
                            now: nat)
      returns (initiation: Option<InitMessage>)
      requires InOrder() && waiting.Valid(pool) && tunnel.clock <= now && (!exhausted ==> tunnel.Usable(false))
      modifies tunnel`timers, tunnel`wantHandshake, tunnel`wantKeepalive, tunnel`sendInitialKeepalive, tunnel`clock,
               tunnel.handshake
      ensures InOrder() && (old(tunnel.TimerView()).Ok() ==> tunnel.TimerView().Ok()) && old(tunnel.clock) <= tunnel.clock <= now
      ensures tunnel.current == old(tunnel.current)
      ensures initiation.Some? <==> exhausted && !old(tunnel.handshake.IsInProgress())
      ensures initiation.Some? ==> initiation.value == old(tunnel.handshake.NextInitiation(ephemeralPrivate, timestamp))
      ensures tunnel.TimerView() == old(tunnel.TimerView()).Encapsulated(src != [], now, !exhausted) && waiting.Valid(pool)
    {
      var e := tunnel.Encapsulate(src, exhausted, ephemeralPrivate, timestamp, now);
      initiation := if e.Queued? then e.initiation else None;
    }

    method Enqueue(pool: P.PacketPool, kind: U32, src: Bytes, now: nat)
      requires waiting.Valid(pool) && waiting.time <= now && (kind == DATA || kind == RELAY_DATA)
      modifies waiting`log, waiting`time, waiting.queue, pool
      ensures waiting.Valid(pool) && waiting.time == now
      ensures Waits(old(waiting.log), waiting.log, TQ.Packet(now, kind, src))
      ensures |waiting.log.waiting| < TQ.MAX_PENDING_PACKETS && pool.HasRoom(|src|) ==>
                waiting.log == Pushed(Swept(old(waiting.log), now), TQ.Packet(now, kind, src))
    {
      waiting.Enqueue(pool, kind, src, now);
    }

    /** Opens a data packet with the session it is for and cuts off its padding. */
    method HandleData(packet: DataMessage, dst: array<Byte>) returns (r: Result<IpFraming.TunnResult, SR.DataError>)
      requires Valid() && |packet.encapsulated| >= AEAD_SIZE && dst.Length >= |packet.encapsulated|
      modifies tunnel`timers, tunnel`wantHandshake, tunnel`wantKeepalive, tunnel`current, ring`slots, ring`traffic,
               ring.validators, ring.bitmaps, dst
      ensures Valid()
      ensures r.Ok? <==> old(ring.slots)[packet.receiverIdx % N_SESSIONS].Some? &&
                         Opens(ring.cipher, old(ring.slots)[packet.receiverIdx % N_SESSIONS].value, packet)
      ensures r.Ok? ==>
                var s := old(ring.slots)[packet.receiverIdx % N_SESSIONS].value;
                && ring.slots == old(ring.slots)[packet.receiverIdx % N_SESSIONS := Some(s.(run := s.run + [packet.counter]))]
                && ring.traffic == AfterDelivery(old(ring.traffic), s.serial, packet)
                && r.value == IpFraming.Validated(Opened(ring.cipher, s.keys.receivingKey, packet).value)
                && tunnel.TimerView() == old(tunnel.TimerView()).PacketReceived(!r.value.Done? && !r.value.Rejected?)
      ensures r.Err? ==> && ring.slots == old(ring.slots) && ring.traffic == old(ring.traffic)
                         && tunnel.TimerView() == old(tunnel.TimerView())
    {
      var plain := OpenPacket(packet, dst);
      TunnelStays();
      r := TakeIn(packet.receiverIdx, plain);
    }

    method TakeIn(receiverIdx: U32, plain: Option<Bytes>) returns (r: Result<IpFraming.TunnResult, SR.DataError>)
      requires Valid()
      requires plain.Some? ==> tunnel.SessionFor(receiverIdx).Some?
      modifies tunnel`timers, tunnel`wantHandshake, tunnel`wantKeepalive, tunnel`current
      ensures Valid() && (r.Ok? <==> plain.Some?)
      ensures r.Ok? ==> && r.value == IpFraming.Validated(plain.value)
                        && tunnel.TimerView() == old(tunnel.TimerView()).PacketReceived(!r.value.Done? && !r.value.Rejected?)
      ensures r.Err? ==> tunnel.TimerView() == old(tunnel.TimerView())
    {
      r := tunnel.HandleData(receiverIdx, plain);
    }

    method OpenPacket(packet: DataMessage, dst: array<Byte>) returns (plain: Option<Bytes>)
      requires ring.Valid() && Matches(tunnel.sessions, ring.slots)
      requires |packet.encapsulated| >= AEAD_SIZE && dst.Length >= |packet.encapsulated|
      modifies ring`slots, ring`traffic, ring.validators, ring.bitmaps, dst
      ensures ring.Valid() && Matches(tunnel.sessions, ring.slots)
      ensures plain.Some? <==> old(ring.slots)[packet.receiverIdx % N_SESSIONS].Some? &&
                               Opens(ring.cipher, old(ring.slots)[packet.receiverIdx % N_SESSIONS].value, packet)
      ensures plain.Some? ==>
                var s := old(ring.slots)[packet.receiverIdx % N_SESSIONS].value;
                && plain == Opened(ring.cipher, s.keys.receivingKey, packet)
                && ring.slots == old(ring.slots)[packet.receiverIdx % N_SESSIONS := Some(s.(run := s.run + [packet.counter]))]
                && ring.traffic == AfterDelivery(old(ring.traffic), s.serial, packet)
      ensures plain.Some? ==> && tunnel.sessions[packet.receiverIdx % N_SESSIONS].Some?
                              && tunnel.sessions[packet.receiverIdx % N_SESSIONS].value.localIndex == packet.receiverIdx
      ensures plain.None? ==> ring.slots == old(ring.slots) && ring.traffic == old(ring.traffic)
    {
      var i := packet.receiverIdx % N_SESSIONS;
      if !ring.IsLive(i) {
        return None;
      }
      ghost var s := ring.slots[i].value;
      var opens := ring.Deliver(packet, dst);
      if opens.Err? {
        return None;
      }
      return Some(dst[..opens.value]);
    }

    /** What did not happen to the tunnel leaves it in order. */
    twostate lemma TunnelStays()
      requires unchanged(tunnel) && unchanged(tunnel.handshake) && old(tunnel.InOrder())
      ensures tunnel.InOrder() && tunnel.TimerView() == old(tunnel.TimerView())
    {
    }

    /** Seals the oldest packet that waits, if the current session can. */
    method Flush(pool: P.PacketPool, dst: array<Byte>) returns (sent: Option<TQ.Packet>)
      requires Valid() && waiting.Valid(pool) && Fits(waiting.log, dst.Length)
      modifies tunnel`timers, tunnel`wantHandshake, tunnel`wantKeepalive, ring`slots, ring`traffic, ring.all, waiting`log,
               waiting.queue, pool, dst
      ensures sent.Some? <==> old(waiting.log).waiting != [] && old(Ready())
      ensures sent.Some? ==>
                && FirstSent(old(waiting.log), waiting.log, sent.value) && WireLen(sent.value.data) <= dst.Length
                && Sealed(sent.value.data, dst) == old(Sealing(sent.value.packetType, sent.value.data))
                && tunnel.TimerView() == old(tunnel.TimerView()).PacketSent(sent.value.data != [])
      ensures sent.None? ==> && waiting.log == old(waiting.log) && ring.slots == old(ring.slots)
                             && ring.traffic == old(ring.traffic) && tunnel.TimerView() == old(tunnel.TimerView())
      ensures Valid() && waiting.Valid(pool)
    {
      sent := SealFirst(pool, dst);
      TunnelStays();
      if sent.Some? {
        TickSent(pool, sent.value.data != []);
      }
    }

    /** Keepalives do not count as data. */
    method TickSent(ghost pool: P.PacketPool, data: bool)
      requires InOrder() && waiting.Valid(pool)
      modifies tunnel`timers, tunnel`wantHandshake, tunnel`wantKeepalive
      ensures InOrder() && (old(tunnel.TimerView()).Ok() ==> tunnel.TimerView().Ok()) && waiting.Valid(pool)
      ensures tunnel.TimerView() == old(tunnel.TimerView()).PacketSent(data)
    {
      tunnel.TickPacketSent(data);
    }

    method SealFirst(pool: P.PacketPool, dst: array<Byte>) returns (sent: Option<TQ.Packet>)
      requires ring.Valid() && Matches(tunnel.sessions, ring.slots) && waiting.Valid(pool) && Fits(waiting.log, dst.Length)
      modifies ring`slots, ring`traffic, ring.all, waiting`log, waiting.queue, pool, dst
      ensures ring.Valid() && Matches(tunnel.sessions, ring.slots)
      ensures waiting.Valid(pool)
      ensures sent.Some? <==> old(waiting.log).waiting != [] && old(Ready())
      ensures sent.Some? ==>
                && FirstSent(old(waiting.log), waiting.log, sent.value) && WireLen(sent.value.data) <= dst.Length
                && Sealed(sent.value.data, dst) == old(Sealing(sent.value.packetType, sent.value.data))
      ensures sent.None? ==> waiting.log == old(waiting.log) && ring.slots == old(ring.slots) && ring.traffic == old(ring.traffic)
    {
      var usable := Usable();
      sent := TakeFirst(pool, usable);
      if sent.Some? {
        var done := SealWhileWaiting(pool, sent.value.packetType, sent.value.data, dst);
      }
    }

    method TakeFirst(pool: P.PacketPool, usable: bool) returns (sent: Option<TQ.Packet>)
      requires waiting.Valid(pool)
      modifies waiting`log, waiting.queue, pool
      ensures waiting.Valid(pool)
      ensures sent.Some? <==> usable && old(waiting.log).waiting != []
      ensures sent.Some? ==> FirstSent(old(waiting.log), waiting.log, sent.value)
      ensures sent.None? ==> waiting.log == old(waiting.log)
    {
      sent := waiting.TakeFirst(pool, usable);
    }

    /**
     Looks at the clock: sessions that are too old end, and what is due is decided on and done. A tunnel that gives up
     clears the packets that wait.
     */
    method UpdateTimers(pool: P.PacketPool, now: nat, later: nat, at: nat, dst: array<Byte>, ephemeralPrivate: Bytes,
                        timestamp: Bytes)
      returns (action: Action, ghost kept: Slots)
      requires Valid() && waiting.Valid(pool) && tunnel.clock <= now <= later <= at && waiting.time <= at
      requires dst.Length >= WireLen([])
      modifies tunnel, tunnel.handshake, ring`live, ring`slots, ring`traffic, ring.all, waiting`log, waiting`time,
               waiting.queue, pool, dst
      ensures EndedBy(old(ring.slots), old(tunnel.sessionTimers), kept, now) && tunnel.current == old(tunnel.current)
      ensures action == old(tunnel.TimerView()).(current := now).Decision(later)
      ensures tunnel.TimerView() == old(tunnel.TimerView()).Next(Look(now, later, at, CanSeal(kept, tunnel.current)))
      ensures action == SendKeepalive && CanSeal(kept, tunnel.current) ==>
                && waiting.log == old(waiting.log)
                && Sealed([], dst) == SealedBy(ring.cipher, DATA, [], kept, old(ring.traffic), tunnel.current)
      ensures action == SendKeepalive && !CanSeal(kept, tunnel.current) ==>
                && ring.slots == kept && ring.traffic == old(ring.traffic)
                && Waits(old(waiting.log), waiting.log, TQ.Packet(at, DATA, []))
      ensures action != SendKeepalive ==>
                && ring.slots == kept && ring.traffic == old(ring.traffic)
                && waiting.log == if action == ConnectionExpired && !old(tunnel.handshake.state.Expired?)
                               then ClearedAway(old(waiting.log)) else old(waiting.log)
      ensures now <= tunnel.clock <= at && old(waiting.time) <= waiting.time <= at
      ensures Valid() && waiting.Valid(pool)
    {
      ghost var before := tunnel.TimerView();
      action := Check(pool, now, later);
      kept := ring.slots;
      LookIsOk(before, now, later, at, CanSeal(kept, tunnel.current));
      Act(pool, action, dst, ephemeralPrivate, timestamp, at, CanSeal(kept, tunnel.current));
    }

    /** Does what is due. */
    method Act(pool: P.PacketPool, action: Action, dst: array<Byte>, ephemeralPrivate: Bytes, timestamp: Bytes, at: nat,
               ghost usable: bool)
      requires usable == Ready()
      requires InOrder() && waiting.Valid(pool) && tunnel.clock <= at && waiting.time <= at && dst.Length >= WireLen([])
      modifies tunnel`timers, tunnel`wantHandshake, tunnel`wantKeepalive, tunnel`sendInitialKeepalive, tunnel`clock,
               tunnel.handshake, ring`slots, ring`traffic, ring.all, waiting`log, waiting`time, waiting.queue, pool, dst
      ensures tunnel.TimerView() == old(tunnel.TimerView()).Acted(action, at, usable)
      ensures tunnel.current == old(tunnel.current)
      ensures action == SendKeepalive && usable ==>
                waiting.log == old(waiting.log) && Sealed([], dst) == old(Sealing(DATA, []))
      ensures action == SendKeepalive && !usable ==>
                && ring.slots == old(ring.slots) && ring.traffic == old(ring.traffic)
                && Waits(old(waiting.log), waiting.log, TQ.Packet(at, DATA, []))
      ensures action != SendKeepalive ==>
                ring.slots == old(ring.slots) && ring.traffic == old(ring.traffic) && waiting.log == old(waiting.log)
      ensures old(tunnel.clock) <= tunnel.clock <= at && old(waiting.time) <= waiting.time <= at
      ensures InOrder() && waiting.Valid(pool)
    {
      if action == InitiateHandshake {
        Initiate(pool, ephemeralPrivate, timestamp, at);
      } else if action == SendKeepalive {
        Keepalive(pool, dst, ephemeralPrivate, timestamp, at, usable);
      }
    }

    method Keepalive(pool: P.PacketPool, dst: array<Byte>, ephemeralPrivate: Bytes, timestamp: Bytes, at: nat,
                     ghost usable: bool)
      requires usable == Ready()
      requires InOrder() && waiting.Valid(pool) && tunnel.clock <= at && waiting.time <= at && dst.Length >= WireLen([])
      modifies tunnel`timers, tunnel`wantHandshake, tunnel`wantKeepalive, tunnel`sendInitialKeepalive, tunnel`clock,
               tunnel.handshake, ring`slots, ring`traffic, ring.all, waiting`log, waiting`time, waiting.queue, pool, dst
      ensures tunnel.TimerView() == old(tunnel.TimerView()).Encapsulated(false, at, usable)
      ensures tunnel.current == old(tunnel.current)
      ensures usable ==> waiting.log == old(waiting.log) && Sealed([], dst) == old(Sealing(DATA, []))
      ensures !usable ==>
                && ring.slots == old(ring.slots) && ring.traffic == old(ring.traffic)
                && Waits(old(waiting.log), waiting.log, TQ.Packet(at, DATA, []))
      ensures old(tunnel.clock) <= tunnel.clock <= at && old(waiting.time) <= waiting.time <= at
      ensures InOrder() && waiting.Valid(pool)
    {
      var sealed, initiation := Encapsulate(pool, DATA, [], dst, ephemeralPrivate, timestamp, at);
    }

    method Initiate(ghost pool: P.PacketPool, ephemeralPrivate: Bytes, timestamp: Bytes, at: nat)
      requires InOrder() && waiting.Valid(pool) && tunnel.clock <= at
      modifies tunnel`timers, tunnel`wantHandshake, tunnel`wantKeepalive, tunnel`sendInitialKeepalive, tunnel`clock,
               tunnel.handshake
      ensures tunnel.TimerView() == old(tunnel.TimerView()).Initiated(true, at)
      ensures old(tunnel.clock) <= tunnel.clock <= at && tunnel.current == old(tunnel.current)
      ensures InOrder() && waiting.Valid(pool)
    {
      var initiation := tunnel.FormatHandshakeInitiation(true, ephemeralPrivate, timestamp, at);
    }

    method Check(pool: P.PacketPool, now: nat, later: nat) returns (action: Action)
      requires Valid() && waiting.Valid(pool) && tunnel.clock <= now
      modifies tunnel, tunnel.handshake, ring`live, ring`slots, waiting`log, waiting.queue, pool
      ensures EndedBy(old(ring.slots), old(tunnel.sessionTimers), ring.slots, now) && tunnel.current == old(tunnel.current)
      ensures action == old(tunnel.TimerView()).(current := now).Decision(later)
      ensures tunnel.TimerView() == old(tunnel.TimerView()).(current := now).After() && tunnel.clock == now
      ensures waiting.log == if action.ConnectionExpired? && !old(tunnel.handshake.state.Expired?)
                             then ClearedAway(old(waiting.log)) else old(waiting.log)
      ensures InOrder() && waiting.Valid(pool)
    {
      var wasExpired := tunnel.handshake.state.Expired?;
      action := CheckTimers(pool, now, later);
      Follow(pool, old(tunnel.sessionTimers), now, action.ConnectionExpired? && !wasExpired);
    }

    /** Sessions and queue follow what the tunnel has decided. */
    method Follow(pool: P.PacketPool, ghost timers: seq<nat>, ghost now: nat, givesUp: bool)
      requires tunnel.InOrder() && ring.Valid() && waiting.Valid(pool) && AreLeft(tunnel.sessions, ring.slots, timers, now)
      modifies ring`live, ring`slots, waiting`log, waiting.queue, pool
      ensures EndedBy(old(ring.slots), timers, ring.slots, now)
      ensures waiting.log == if givesUp then ClearedAway(old(waiting.log)) else old(waiting.log)
      ensures tunnel.TimerView() == old(tunnel.TimerView())
      ensures tunnel.current == old(tunnel.current) && tunnel.clock == old(tunnel.clock)
      ensures InOrder() && waiting.Valid(pool)
    {
      EndAged(pool, timers, now);
      ClearIf(pool, givesUp);
    }

    method CheckTimers(ghost pool: P.PacketPool, now: nat, later: nat) returns (action: Action)
      requires InOrder() && waiting.Valid(pool) && tunnel.clock <= now
      modifies tunnel, tunnel.handshake
      ensures action == old(tunnel.TimerView()).(current := now).Decision(later) && tunnel.current == old(tunnel.current)
      ensures tunnel.TimerView() == old(tunnel.TimerView()).(current := now).After() && tunnel.clock == now
      ensures AreLeft(tunnel.sessions, ring.slots, old(tunnel.sessionTimers), now)
      ensures tunnel.InOrder() && ring.Valid() && waiting.Valid(pool)
    {
      action := tunnel.CheckTimers(now, later);
    }

    /** The sessions the tunnel has dropped end. */
    method EndAged(ghost pool: P.PacketPool, ghost timers: seq<nat>, ghost now: nat)
      requires tunnel.InOrder() && ring.Valid() && waiting.Valid(pool) && AreLeft(tunnel.sessions, ring.slots, timers, now)
      modifies ring`live, ring`slots
      ensures InOrder() && waiting.Valid(pool) && EndedBy(old(ring.slots), timers, ring.slots, now)
    {
      for i := 0 to N_SESSIONS
        invariant ring.Valid() && |ring.slots| == N_SESSIONS
        invariant forall k :: 0 <= k < N_SESSIONS ==>
                    ring.slots[k] == if k < i && now > timers[k] + REJECT_AFTER_TIME then None else old(ring.slots)[k]
      {
        if tunnel.sessions[i].None? {
          ring.End(i);
        }
      }
    }

    method ClearIf(pool: P.PacketPool, givesUp: bool)
      requires InOrder() && waiting.Valid(pool)
      modifies waiting`log, waiting.queue, pool
      ensures waiting.log == if givesUp then ClearedAway(old(waiting.log)) else old(waiting.log)
      ensures InOrder() && waiting.Valid(pool)
    {
      if givesUp {
        waiting.ClearQueue(pool);
      }
    }

    method Usable() returns (usable: bool)
      requires ring.Valid()
      ensures usable <==> Ready()
    {
      var i := tunnel.current % N_SESSIONS;
      if !ring.IsLive(i) {
        return false;
      }
      var exhausted := ring.IsExhausted(i);
      usable := !exhausted;
    }
  }

  /** The current session is live and has counters left. */
  ghost predicate CanSeal(slots: Slots, current: nat)
    requires |slots| == N_SESSIONS
  {
    slots[current % N_SESSIONS].Some? && slots[current % N_SESSIONS].value.next < REJECT_AFTER_MESSAGES
  }

  /** The sessions that are left once those timed at more than 180 s have ended. */
  ghost predicate EndedBy(slots: Slots, timers: seq<nat>, kept: Slots, now: nat)
  {
    && |slots| == |timers| == |kept| == N_SESSIONS
    && forall i :: 0 <= i < N_SESSIONS ==> kept[i] == if now > timers[i] + REJECT_AFTER_TIME then None else slots[i]
  }

  ghost predicate AreLeft(sessions: seq<Option<SessionKeys>>, slots: Slots, timers: seq<nat>, now: nat)
  {
    && |slots| == |timers| == |sessions| == N_SESSIONS
    && forall i :: 0 <= i < N_SESSIONS ==> sessions[i] == if now > timers[i] + REJECT_AFTER_TIME then None else KeysOf(slots[i])
  }

  /** What sealing leaves: the sessions, all traffic so far, and what was written. */
  datatype AfterSeal = AfterSeal(slots: Slots, traffic: Traffic, written: Bytes)

  /** The current session seals a packet with its next counter. */
  ghost function SealedBy(c: Aead, kind: U32, src: Bytes, slots: Slots, t: Traffic, current: nat): AfterSeal
    requires |slots| == N_SESSIONS && CanSeal(slots, current)
  {
    var s := slots[current % N_SESSIONS].value;
    AfterSeal(slots[current % N_SESSIONS := Some(s.(next := s.next + 1))], AfterSealing(t, s),
              Formatted(c, kind, s.keys.peerIndex, s.next, s.keys.sendingKey, src))
  }

  /** A fresh session was put in its slot and sealed an empty packet. */
  ghost predicate BeganAndSealed(c: Aead, slots: Slots, t: Traffic, after: Slots, u: Traffic, index: nat, written: Bytes)
  {
    exists middle: Slots, v: Traffic ::
      Began(slots, t, middle, v, index) && CanSeal(middle, index) &&
      AfterSeal(after, u, written) == SealedBy(c, DATA, [], middle, v, index)
  }

  /** The packet waits, or was turned away, and those that waited too long are gone. */
  ghost predicate Waits(log: Log, after: Log, p: TQ.Packet)
  {
    if |p.data| > MAX_PACKET_SIZE then after == log
    else && (forall i :: 0 <= i < |log.waiting| ==> log.waiting[i] < |log.packets|)
         && (after == Swept(log, p.queuedAt) || after == Pushed(Swept(log, p.queuedAt), p))
  }

  /** The oldest packet that waited was taken from the queue. */
  ghost predicate FirstSent(log: Log, after: Log, p: TQ.Packet)
  {
    && log.waiting != [] && after == SentFirst(log) && log.waiting[0] < |log.packets| && log.packets[log.waiting[0]] == p
    && (p.packetType == DATA || p.packetType == RELAY_DATA)
  }

  /** There is room to seal the oldest packet that waits. */
  ghost predicate Fits(log: Log, room: nat)
  {
    log.waiting != [] && log.waiting[0] < |log.packets| ==> room >= WireLen(log.packets[log.waiting[0]].data)
  }

  /** The session of that index is new, and the rest is as before. */
  ghost predicate NewAt(slots: Slots, sessions: seq<Option<SessionKeys>>, index: nat)
  {
    && |slots| == |sessions| == N_SESSIONS
    && sessions[index % N_SESSIONS].Some? && sessions[index % N_SESSIONS].value.localIndex == index
    && forall i :: 0 <= i < N_SESSIONS && i != index % N_SESSIONS ==> sessions[i] == KeysOf(slots[i])
  }

  /** The packet is for this session, its counter is fresh, and it opens. */
  ghost predicate Opens(c: Aead, s: Slot, packet: DataMessage)
    requires |packet.encapsulated| >= AEAD_SIZE
  {
    && packet.receiverIdx == s.keys.localIndex && packet.counter < REJECT_AFTER_MESSAGES
    && RW.Accepts(s.run + [packet.counter], |s.run|) && Opened(c, s.keys.receivingKey, packet).Some?
  }

  /** A fresh session of that index was put in its slot. */
  ghost predicate Began(slots: Slots, t: Traffic, after: Slots, u: Traffic, index: nat)
  {
    && |slots| == |after| == N_SESSIONS && after[index % N_SESSIONS].Some?
    && var s := after[index % N_SESSIONS].value;
    && s == Slot(|t.sessions|, s.keys, [], 0) && s.keys.localIndex == index
    && after == slots[index % N_SESSIONS := Some(s)] && u == AfterOpening(t, s.keys)
  }
}

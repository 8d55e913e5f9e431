/** The queue of packets that wait for a session, with a record of what becomes of each. */
module WaitingPackets {
  import opened Wrappers
  import opened Wire
  import opened Messages
  import opened TunnelLife
  import opened Pool
  import TQ = TunnelQueue

  class WaitingQueue {
    const queue: TQ.Tunn
    ghost var log: Log
    /** When the queue was last looked at. */
    ghost var time: nat

    constructor (ghost pool: PacketPool)
      requires pool.Valid()
      ensures Valid(pool) && fresh(queue) && log == NO_LOG && time == 0 && queue.Q() == TQ.View(None, None, 0, [])
    {
      queue := new TQ.Tunn();
      log, time := NO_LOG, 0;
      new;
      assert TQ.Packets(pool.slots, queue.chain) == [];
    }

    /** What waits in the queue is what the log says. */
    ghost predicate Valid(pool: PacketPool)
      reads this, queue, pool
    {
      && pool.Valid() && TQ.Queued(pool.slots, queue.Q())
      && LogOk(log, TQ.Packets(pool.slots, queue.chain), time)
    }

    /** What the queue does to the pool is its own affair. */
    twostate predicate OwnStep(pool: PacketPool)
      reads queue, pool
    {
      TQ.OwnStep(old(pool.slots), old(queue.Q()), pool.slots, queue.Q())
    }

    /** Puts a packet in the queue, or turns it away. */
    method Enqueue(pool: PacketPool, kind: U32, src: Bytes, now: nat)
      requires Valid(pool) && time <= now && (kind == DATA || kind == RELAY_DATA)
      modifies this`log, this`time, queue, pool
      ensures Valid(pool) && OwnStep(pool) && time == now
      ensures |src| > MAX_PACKET_SIZE ==> log == old(log)
      ensures |src| <= MAX_PACKET_SIZE ==>
                log == Swept(old(log), now) || log == Pushed(Swept(old(log), now), TQ.Packet(now, kind, src))
      // it is turned away only while the queue is full or the pool has no room for it
      ensures |src| <= MAX_PACKET_SIZE && |log.waiting| < TQ.MAX_PENDING_PACKETS && pool.HasRoom(|src|) ==>
                log == Pushed(Swept(old(log), now), TQ.Packet(now, kind, src))
    {
      ghost var ps := TQ.Packets(pool.slots, queue.chain);
      queue.QueuePacket(pool, kind, src, now);
      LaterKeeps(log, ps, time, now);
      SweepingKeeps(log, ps, time, now);
      if |src| <= MAX_PACKET_SIZE {
        log := Swept(log, now);
        if TQ.Packets(pool.slots, queue.chain) != TQ.Fresh(ps, now) {
          PushingKeeps(log, TQ.Fresh(ps, now), now, TQ.Packet(now, kind, src));
          log := Pushed(log, TQ.Packet(now, kind, src));
        }
      }
      time := now;
    }

    /** Drops what has waited too long. */
    method DropExpired(pool: PacketPool, now: nat)
      requires Valid(pool) && time <= now
      modifies this`log, this`time, queue, pool
      ensures Valid(pool) && OwnStep(pool) && time == now && log == Swept(old(log), now)
    {
      SweepingKeeps(log, TQ.Packets(pool.slots, queue.chain), time, now);
      var dropped := queue.DropExpiredQueuedPackets(pool, now);
      log, time := Swept(log, now), now;
    }

    /** What another tunnel does to the pool leaves this queue as it is. */
    twostate lemma OtherStepKeeps(pool: PacketPool, q: TQ.View, q': TQ.View)
      requires old(Valid(pool)) && pool.Valid() && unchanged(this) && unchanged(queue)
      requires TQ.OwnStep(old(pool.slots), q, pool.slots, q') && TQ.Disjoint(q.chain, queue.chain)
      ensures Valid(pool) && TQ.Disjoint(q'.chain, queue.chain)
    {
      TQ.OthersKept(old(pool.slots), q, pool.slots, q', queue.Q());
    }

    /** Clears the queue. */
    method ClearQueue(pool: PacketPool)
      requires Valid(pool)
      modifies this`log, queue, pool
      ensures Valid(pool) && OwnStep(pool) && log == ClearedAway(old(log))
    {
      ClearingKeeps(log, TQ.Packets(pool.slots, queue.chain), time);
      queue.ClearPacketQueue(pool);
      log := ClearedAway(log);
      assert TQ.Packets(pool.slots, queue.chain) == [];
    }

    /** Takes the oldest packet, if it can be sealed. */
    method TakeFirst(pool: PacketPool, usable: bool) returns (sent: Option<TQ.Packet>)
      requires Valid(pool)
      modifies this`log, queue, pool
      ensures Valid(pool) && OwnStep(pool)
      ensures sent.Some? <==> usable && old(log).waiting != []
      ensures sent.None? ==> log == old(log)
      ensures sent.Some? ==>
                && log == SentFirst(old(log)) && old(log).packets[old(log).waiting[0]] == sent.value
                && (sent.value.packetType == DATA || sent.value.packetType == RELAY_DATA)
    {
      ghost var ps := TQ.Packets(pool.slots, queue.chain);
      sent := queue.FlushQueuedPacket(pool, usable);
      if sent.Some? {
        SendingKeeps(log, sent.value, TQ.Packets(pool.slots, queue.chain), time);
        assert log.packets[log.waiting[0]] in log.packets;
        log := SentFirst(log);
      }
    }
  }
}

/** All tunnels of a device and the one pool they share: every interleaving of their queue operations. */
module SharedQueues {
  import opened Wrappers
  import opened Wire
  import opened Pool
  import opened TunnelQueue

  // -------------------------------------------------------------------------
  // All queues as values
  // -------------------------------------------------------------------------

  ghost predicate Apart(qs: seq<View>, i: nat, j: nat)
    requires i < |qs| && j < |qs|
  {
    i != j ==> Disjoint(qs[i].chain, qs[j].chain)
  }

  /** Every queue is intact and no descriptor is in two queues. */
  ghost predicate AllQueued(slots: Slots, qs: seq<View>)
  {
    && (forall i {:trigger qs[i]} :: 0 <= i < |qs| ==> Queued(slots, qs[i]))
    && (forall i, j {:trigger Apart(qs, i, j)} :: 0 <= i < |qs| && 0 <= j < |qs| ==> Apart(qs, i, j))
  }

  ghost predicate InSomeQueue(qs: seq<View>, h: PacketHandle)
  {
    exists i :: 0 <= i < |qs| && h in qs[i].chain
  }

  /** Every live descriptor is waiting in some queue: no packet is ever lost in the pool. */
  ghost predicate NothingLost(slots: Slots, qs: seq<View>)
  {
    forall h: nat {:trigger Live(slots, h)} :: Live(slots, h) ==> InSomeQueue(qs, h)
  }

  /** A step of one tunnel keeps all queues intact and apart, and the packets of the other tunnels. */
  lemma StepKeepsAll(before: Slots, qs: seq<View>, i: nat, after: Slots, q: View)
    requires AllQueued(before, qs) && i < |qs| && OwnStep(before, qs[i], after, q)
    ensures AllQueued(after, qs[i := q])
    ensures forall j :: 0 <= j < |qs| && j != i ==> Packets(after, qs[j].chain) == Packets(before, qs[j].chain)
  {
    var qs' := qs[i := q];
    forall j | 0 <= j < |qs| && j != i
      ensures Queued(after, qs[j]) && Disjoint(q.chain, qs[j].chain)
      ensures Packets(after, qs[j].chain) == Packets(before, qs[j].chain)
    {
      assert Apart(qs, i, j);
      OthersKept(before, qs[i], after, q, qs[j]);
    }
    forall j, k | 0 <= j < |qs'| && 0 <= k < |qs'|
      ensures Apart(qs', j, k)
    {
      assert Apart(qs, j, k);
    }
  }

  lemma StepLosesNothing(before: Slots, qs: seq<View>, i: nat, after: Slots, q: View)
    requires AllQueued(before, qs) && i < |qs| && OwnStep(before, qs[i], after, q) && NothingLost(before, qs)
    ensures NothingLost(after, qs[i := q])
  {
    var qs' := qs[i := q];
    forall h: nat | Live(after, h)
      ensures InSomeQueue(qs', h)
    {
      if h in q.chain {
        assert h in qs'[i].chain;
      } else {
        assert Live(before, h);
        var j :| 0 <= j < |qs| && h in qs[j].chain;
        assert h in qs'[j].chain;
      }
    }
  }

  lemma StepKeepsDevice(before: Slots, qs: seq<View>, i: nat, after: Slots, q: View, qs': seq<View>)
    requires AllQueued(before, qs) && NothingLost(before, qs) && i < |qs| && OwnStep(before, qs[i], after, q)
    requires |qs'| == |qs| && qs'[i] == q && forall j :: 0 <= j < |qs| && j != i ==> qs'[j] == qs[j]
    ensures AllQueued(after, qs') && NothingLost(after, qs')
    ensures forall j :: 0 <= j < |qs| && j != i ==> Packets(after, qs[j].chain) == Packets(before, qs[j].chain)
  {
    StepKeepsAll(before, qs, i, after, q);
    StepLosesNothing(before, qs, i, after, q);
    assert qs' == qs[i := q];
  }

  /** The queues that are left when a peer is removed; its tunnel goes without giving anything back. */
  function WithoutQueue(qs: seq<View>, i: nat): (r: seq<View>)
    requires i < |qs|
    ensures |r| == |qs| - 1
    ensures forall j :: 0 <= j < |r| ==> r[j] == qs[Skipping(i, j)]
  {
    qs[..i] + qs[i + 1..]
  }

  function Skipping(i: nat, j: nat): nat
  {
    if j < i then j else j + 1
  }

  /** Removing a peer keeps the other queues intact and apart. */
  lemma RemovalKeepsQueues(slots: Slots, qs: seq<View>, i: nat)
    requires AllQueued(slots, qs) && i < |qs|
    ensures AllQueued(slots, WithoutQueue(qs, i))
  {
    var rest := WithoutQueue(qs, i);
    forall j, k | 0 <= j < |rest| && 0 <= k < |rest|
      ensures Apart(rest, j, k)
    {
      assert Apart(qs, Skipping(i, j), Skipping(i, k));
    }
  }

  /** Removing a peer strands slots of the pool exactly if packets were waiting for it. */
  lemma RemovalLosesWhatWaits(slots: Slots, qs: seq<View>, i: nat)
    requires AllQueued(slots, qs) && NothingLost(slots, qs) && i < |qs|
    ensures NothingLost(slots, WithoutQueue(qs, i)) <==> qs[i].chain == []
  {
    if qs[i].chain == [] {
      forall h: nat | Live(slots, h)
        ensures InSomeQueue(WithoutQueue(qs, i), h)
      {
        StillInSomeQueue(qs, i, h);
      }
    } else {
      var h := qs[i].chain[0];
      assert Queued(slots, qs[i]) && Live(slots, h);
      InNoOtherQueue(slots, qs, i, h);
    }
  }

  lemma StillInSomeQueue(qs: seq<View>, i: nat, h: PacketHandle)
    requires InSomeQueue(qs, h) && i < |qs| && h !in qs[i].chain
    ensures InSomeQueue(WithoutQueue(qs, i), h)
  {
    var j :| 0 <= j < |qs| && h in qs[j].chain;
    var k := if j < i then j else j - 1;
    assert WithoutQueue(qs, i)[k] == qs[j];
  }

  lemma InNoOtherQueue(slots: Slots, qs: seq<View>, i: nat, h: PacketHandle)
    requires AllQueued(slots, qs) && i < |qs| && h in qs[i].chain
    ensures !InSomeQueue(WithoutQueue(qs, i), h)
  {
    forall j | 0 <= j < |qs| - 1
      ensures h !in WithoutQueue(qs, i)[j].chain
    {
      assert Apart(qs, i, Skipping(i, j));
    }
  }

  /** How many of the packets waiting in several queues have expired. */
  function ExpiredCount(queues: seq<seq<Packet>>, now: nat): nat
  {
    if queues == [] then 0
    else var n := |queues| - 1; ExpiredCount(queues[..n], now) + |queues[n]| - |Fresh(queues[n], now)|
  }

  lemma {:induction false} ExpiredCountIsZero(queues: seq<seq<Packet>>, now: nat)
    ensures ExpiredCount(queues, now) == 0 <==> forall i :: 0 <= i < |queues| ==> Fresh(queues[i], now) == queues[i]
  {
    if queues != [] {
      var n := |queues| - 1;
      ExpiredCountIsZero(queues[..n], now);
      NothingExpired(queues[n], now);
      assert forall i :: 0 <= i < n ==> queues[..n][i] == queues[i];
    }
  }

  lemma {:induction false} NothingExpired(ps: seq<Packet>, now: nat)
    ensures |Fresh(ps, now)| == |ps| ==> Fresh(ps, now) == ps
  {
    if ps != [] {
      NothingExpired(ps[1..], now);
    }
  }

  // -------------------------------------------------------------------------
  // The shared state
  // -------------------------------------------------------------------------

  class Device {
    const pool: PacketPool
    const tunnels: seq<Tunn>

    /** A device with a new pool; its tunnels have nothing queued. */
    constructor (capacity: nat, bytes: nat, tunnels: seq<Tunn>)
      requires forall i, j :: 0 <= i < j < |tunnels| ==> tunnels[i] != tunnels[j]
      requires forall i :: 0 <= i < |tunnels| ==> tunnels[i].Q() == View(None, None, 0, [])
      ensures Valid() && this.tunnels == tunnels && fresh(pool)
    {
      this.tunnels := tunnels;
      pool := new PacketPool(capacity, bytes);
    }

    ghost function Views(): seq<View>
      reads tunnels
    {
      seq(|tunnels|, i requires 0 <= i < |tunnels| reads tunnels => tunnels[i].Q())
    }

    ghost predicate Valid()
      reads pool, tunnels
    {
      && (forall i, j :: 0 <= i < j < |tunnels| ==> tunnels[i] != tunnels[j])
      && pool.Valid()
      && AllQueued(pool.slots, Views())
      && NothingLost(pool.slots, Views())
    }

    /** What is waiting for one tunnel, oldest first. */
    ghost function Waiting(i: nat): seq<Packet>
      requires i < |tunnels|
      reads pool, tunnels
    {
      Packets(pool.slots, tunnels[i].chain)
    }

    ghost function AllWaiting(): seq<seq<Packet>>
      reads pool, tunnels
    {
      seq(|tunnels|, i requires 0 <= i < |tunnels| reads pool, tunnels => Waiting(i))
    }

    method Queue(i: nat, packetType: nat, packet: seq<Byte>, now: nat)
      requires Valid() && i < |tunnels|
      modifies pool, tunnels[i]
      ensures Valid()
      ensures |packet| > MAX_PACKET_SIZE ==> Waiting(i) == old(Waiting(i))
      ensures |packet| <= MAX_PACKET_SIZE ==>
                Waiting(i) == Fresh(old(Waiting(i)), now) ||
                Waiting(i) == Fresh(old(Waiting(i)), now) + [Packet(now, packetType, packet)]
      ensures |packet| <= MAX_PACKET_SIZE && |Waiting(i)| < MAX_PENDING_PACKETS && pool.HasRoom(|packet|) ==>
                Waiting(i) != Fresh(old(Waiting(i)), now)
      ensures |Waiting(i)| <= MAX_PENDING_PACKETS
      ensures forall j :: 0 <= j < |tunnels| && j != i ==> Waiting(j) == old(Waiting(j))
    {
      assert Views()[i] == tunnels[i].Q();
      tunnels[i].QueuePacket(pool, packetType, packet, now);
      Stepped(old(pool.slots), old(Views()), i);
    }

    method Flush(i: nat, usable: bool) returns (sent: Option<Packet>)
      requires Valid() && i < |tunnels|
      modifies pool, tunnels[i]
      ensures Valid()
      ensures sent.Some? <==> usable && old(Waiting(i)) != []
      ensures sent.Some? ==> [sent.value] + Waiting(i) == old(Waiting(i))
      ensures sent.None? ==> Waiting(i) == old(Waiting(i)) && pool.slots == old(pool.slots)
      ensures forall j :: 0 <= j < |tunnels| && j != i ==> Waiting(j) == old(Waiting(j))
    {
      assert Views()[i] == tunnels[i].Q();
      sent := FlushTunnel(i, usable);
      Stepped(old(pool.slots), old(Views()), i);
    }

    method FlushTunnel(i: nat, usable: bool) returns (sent: Option<Packet>)
      requires i < |tunnels| && pool.Valid() && Queued(pool.slots, tunnels[i].Q())
      modifies pool, tunnels[i]
      ensures pool.Valid() && OwnStep(old(pool.slots), old(tunnels[i].Q()), pool.slots, tunnels[i].Q())
      ensures sent.Some? <==> usable && old(Waiting(i)) != []
      ensures sent.Some? ==> [sent.value] + Waiting(i) == old(Waiting(i))
      ensures sent.None? ==> Waiting(i) == old(Waiting(i)) && pool.slots == old(pool.slots)
    {
      sent := tunnels[i].FlushQueuedPacket(pool, usable);
      assert |old(Waiting(i))| == |old(tunnels[i].chain)|;
    }

    method Clear(i: nat)
      requires Valid() && i < |tunnels|
      modifies pool, tunnels[i]
      ensures Valid() && Waiting(i) == []
      ensures forall j :: 0 <= j < |tunnels| && j != i ==> Waiting(j) == old(Waiting(j))
    {
      assert Views()[i] == tunnels[i].Q();
      tunnels[i].ClearPacketQueue(pool);
      Stepped(old(pool.slots), old(Views()), i);
    }

    lemma Stepped(before: Slots, qs: seq<View>, i: nat)
      requires i < |tunnels| && |qs| == |tunnels|
      requires AllQueued(before, qs) && NothingLost(before, qs)
      requires OwnStep(before, qs[i], pool.slots, tunnels[i].Q())
      requires forall j :: 0 <= j < |tunnels| && j != i ==> tunnels[j].Q() == qs[j]
      ensures AllQueued(pool.slots, Views()) && NothingLost(pool.slots, Views())
      ensures forall j :: 0 <= j < |tunnels| && j != i ==> Packets(pool.slots, tunnels[j].chain) == Packets(before, qs[j].chain)
    {
      StepKeepsDevice(before, qs, i, pool.slots, tunnels[i].Q(), Views());
      forall j | 0 <= j < |tunnels| && j != i
        ensures Packets(pool.slots, tunnels[j].chain) == Packets(before, qs[j].chain)
      {
        assert tunnels[j].Q() == qs[j];
      }
    }

    /** Drops the expired packets of every tunnel, and counts them. */
    method DropExpiredPacketQueues(now: nat) returns (dropped: nat)
      requires Valid()
      modifies pool, tunnels
      ensures Valid()
      ensures forall j :: 0 <= j < |tunnels| ==> Waiting(j) == Fresh(old(Waiting(j)), now)
      ensures dropped == ExpiredCount(old(AllWaiting()), now)
    {
      dropped := 0;
      ghost var before := AllWaiting();
      for i := 0 to |tunnels|
        invariant Valid()
        invariant dropped == ExpiredCount(before[..i], now)
        invariant forall j :: 0 <= j < |tunnels| ==> Waiting(j) == if j < i then Fresh(old(Waiting(j)), now) else old(Waiting(j))
      {
        var n := DropOne(i, now);
        dropped := dropped + n;
        assert before[..i + 1][..i] == before[..i] && before[i] == old(Waiting(i));
      }
      assert before[..|tunnels|] == before;
    }

    method DropOne(i: nat, now: nat) returns (dropped: nat)
      requires Valid() && i < |tunnels|
      modifies pool, tunnels[i]
      ensures Valid() && Waiting(i) == Fresh(old(Waiting(i)), now)
      ensures dropped == |old(Waiting(i))| - |Waiting(i)|
      ensures forall j :: 0 <= j < |tunnels| && j != i ==> Waiting(j) == old(Waiting(j))
    {
      assert Views()[i] == tunnels[i].Q();
      dropped := tunnels[i].DropExpiredQueuedPackets(pool, now);
      Stepped(old(pool.slots), old(Views()), i);
    }
  }
}

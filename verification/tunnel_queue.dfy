/**
 The pending-packet queues of the tunnels: intrusive lists threaded through the shared pool, each
 of which stands for a bounded FIFO sequence of packets.
 */
module TunnelQueue {
  import opened Wrappers
  import opened Wire
  import opened Pool

  const MAX_PENDING_PACKETS: nat := 8
  /** How long an outbound packet may wait for a session. */
  const PENDING_PACKET_TTL: nat := 30_000_000_000

  datatype Packet = Packet(queuedAt: nat, packetType: nat, data: seq<Byte>)

  function PacketOf(slot: PacketSlot): Packet
  {
    Packet(slot.queuedAt, slot.packetType, slot.data)
  }

  // -------------------------------------------------------------------------
  // A queue as a value
  // -------------------------------------------------------------------------

  /** The three fields of a queue and the chain of descriptors they describe. */
  datatype View = View(head: Option<PacketHandle>, tail: Option<PacketHandle>, len: nat, chain: seq<PacketHandle>)

  function LastOf(chain: seq<PacketHandle>): Option<PacketHandle>
  {
    if chain == [] then None else Some(chain[|chain| - 1])
  }

  ghost predicate Queued(slots: Slots, q: View)
  {
    IsChain(slots, q.head, q.chain) && q.tail == LastOf(q.chain) && q.len == |q.chain| <= MAX_PENDING_PACKETS
  }

  /** The packet a descriptor holds. */
  function PacketAt(slots: Slots, h: PacketHandle): Packet
  {
    if Live(slots, h) then PacketOf(slots[h].value) else Packet(0, 0, [])
  }

  /** The packets of a chain, oldest first. */
  function Packets(slots: Slots, chain: seq<PacketHandle>): (ps: seq<Packet>)
    ensures |ps| == |chain|
    ensures forall i :: 0 <= i < |chain| ==> ps[i] == PacketAt(slots, chain[i])
  {
    seq(|chain|, i requires 0 <= i < |chain| => PacketAt(slots, chain[i]))
  }

  predicate Expired(p: Packet, now: nat)
  {
    now >= p.queuedAt + PENDING_PACKET_TTL
  }

  /** The packets that are not expired, in order. */
  function Fresh(ps: seq<Packet>, now: nat): (r: seq<Packet>)
    ensures |r| <= |ps|
  {
    if ps == [] then [] else (if Expired(ps[0], now) then [] else [ps[0]]) + Fresh(ps[1..], now)
  }

  /** What is fresh has waited less than thirty seconds, and nothing that has is lost. */
  lemma {:induction false} FreshIsYoung(ps: seq<Packet>, now: nat)
    ensures forall p :: p in Fresh(ps, now) <==> p in ps && now < p.queuedAt + 30_000_000_000
  {
    if ps != [] {
      FreshIsYoung(ps[1..], now);
      assert ps == [ps[0]] + ps[1..];
    }
  }

  // -------------------------------------------------------------------------
  // One tunnel's step does not disturb the others
  // -------------------------------------------------------------------------

  ghost predicate Disjoint(a: seq<PacketHandle>, b: seq<PacketHandle>)
  {
    forall h :: h in a ==> h !in b
  }

  /** What a step on queue `q` may do to the pool: use its own descriptors and unused ones. */
  ghost predicate OwnStep(before: Slots, q: View, after: Slots, q': View)
  {
    && Queued(after, q')
    && Untouched(before, after, q.chain)
    && (forall h :: h in q'.chain ==> h in q.chain || !Live(before, h))
    && NoLeak(before, q.chain, after, q'.chain)
  }

  /** Every descriptor that is live afterwards is queued here, or was live before outside this queue. */
  ghost predicate NoLeak(before: Slots, chain: seq<PacketHandle>, after: Slots, chain': seq<PacketHandle>)
  {
    forall h: nat {:trigger Live(after, h)} :: Live(after, h) ==> h in chain' || (Live(before, h) && h !in chain)
  }

  /** Any other queue stays intact, keeps its packets and stays disjoint. */
  lemma OthersKept(before: Slots, q: View, after: Slots, q': View, other: View)
    requires OwnStep(before, q, after, q') && Queued(before, other) && Disjoint(q.chain, other.chain)
    ensures Queued(after, other) && Disjoint(q'.chain, other.chain)
    ensures Packets(after, other.chain) == Packets(before, other.chain)
  {
    ChainIsLive(before, other.head, other.chain);
    forall h | h in other.chain
      ensures SameAt(before, after, h) && h !in q'.chain
    {
      assert h !in q.chain && SameAt(before, after, h);
    }
    ChainFrame(before, after, other.head, other.chain);
    PacketsFrame(before, after, other.chain);
  }

  lemma PacketsFrame(before: Slots, after: Slots, chain: seq<PacketHandle>)
    requires forall h :: h in chain ==> Live(before, h) && SameAt(before, after, h)
    ensures Packets(after, chain) == Packets(before, chain)
  {
  }

  // -------------------------------------------------------------------------
  // The edits of a chain
  // -------------------------------------------------------------------------

  function WithNext(slots: Slots, h: PacketHandle, next: Option<PacketHandle>): Slots
    requires Live(slots, h)
  {
    slots[h := Some(slots[h].value.(next := next))]
  }

  /** Linking a live descriptor with no successor behind the last one of a chain. */
  lemma {:induction false} AppendLink(slots: Slots, head: Option<PacketHandle>, chain: seq<PacketHandle>, h: PacketHandle)
    requires chain != [] && IsChain(slots, head, chain)
    requires Live(slots, h) && slots[h].value.next == None && h !in chain
    ensures Live(slots, chain[|chain| - 1])
    ensures IsChain(WithNext(slots, chain[|chain| - 1], Some(h)), head, chain + [h])
    decreases chain
  {
    var c := chain[0];
    assert (chain + [h])[1..] == chain[1..] + [h];
    if |chain| == 1 {
      assert chain == [c];
      assert IsChain(WithNext(slots, c, Some(h)), Some(h), [h]);
    } else {
      AppendLink(slots, slots[c].value.next, chain[1..], h);
      assert chain[1..][|chain| - 2] == chain[|chain| - 1];
    }
  }

  /** Linking a live descriptor in front of a chain. */
  lemma {:induction false} PrependLink(slots: Slots, chain: seq<PacketHandle>, h: PacketHandle)
    requires IsChain(slots, HeadOf(chain), chain) && Live(slots, h) && h !in chain
    ensures IsChain(WithNext(slots, h, HeadOf(chain)), Some(h), [h] + chain)
  {
    var after := WithNext(slots, h, HeadOf(chain));
    ChainIsLive(slots, HeadOf(chain), chain);
    ChainFrame(slots, after, HeadOf(chain), chain);
    assert ([h] + chain)[1..] == chain;
  }

  /** Routing a chain around one of its elements and emptying that descriptor. */
  function Unlinked(slots: Slots, prev: Option<PacketHandle>, h: PacketHandle, next: Option<PacketHandle>): Slots
    requires Live(slots, h) && (prev.Some? ==> Live(slots, prev.value))
  {
    (if prev.None? then slots else WithNext(slots, prev.value, next))[h := None]
  }

  lemma {:induction false} UnlinkMiddle(slots: Slots, head: Option<PacketHandle>, kept: seq<PacketHandle>,
                                        h: PacketHandle, rest: seq<PacketHandle>)
    requires IsChain(slots, head, kept + [h] + rest)
    ensures Live(slots, h) && slots[h].value.next == HeadOf(rest) && h !in kept && h !in rest
    ensures kept != [] ==> Live(slots, kept[|kept| - 1])
    ensures IsChain(Unlinked(slots, LastOf(kept), h, HeadOf(rest)), if kept == [] then HeadOf(rest) else head, kept + rest)
    decreases kept
  {
    var all := kept + [h] + rest;
    if kept == [] {
      assert all == [h] + rest && all[1..] == rest && kept + rest == rest;
      ChainIsLive(slots, head, all);
      ChainFrame(slots, Unlinked(slots, None, h, HeadOf(rest)), HeadOf(rest), rest);
    } else {
      var k, more := kept[0], kept[1..];
      assert all[1..] == more + [h] + rest && (kept + rest)[1..] == more + rest && (kept + rest)[0] == k;
      UnlinkMiddle(slots, slots[k].value.next, more, h, rest);
      NotInPart(k, more, h, rest);
      if more == [] {
        assert kept == [k];
        UnlinkSecond(slots, k, h, rest);
      } else {
        assert more[|more| - 1] == kept[|kept| - 1];
      }
    }
  }

  /** Where a walk along the chain goes next. */
  lemma {:induction false} NextIsHeadOfRest(slots: Slots, head: Option<PacketHandle>, kept: seq<PacketHandle>,
                                            h: PacketHandle, rest: seq<PacketHandle>)
    requires IsChain(slots, head, kept + [h] + rest)
    ensures Live(slots, h) && slots[h].value.next == HeadOf(rest) && h !in kept && h !in rest
    ensures kept != [] ==> Live(slots, kept[|kept| - 1])
  {
    UnlinkMiddle(slots, head, kept, h, rest);
  }

  lemma NotInPart(k: PacketHandle, more: seq<PacketHandle>, h: PacketHandle, rest: seq<PacketHandle>)
    requires k !in more + [h] + rest
    ensures k !in more + rest && k != h && k !in more && k !in rest
  {
  }

  lemma {:induction false} UnlinkSecond(slots: Slots, k: PacketHandle, h: PacketHandle, rest: seq<PacketHandle>)
    requires IsChain(slots, Some(k), [k] + [h] + rest)
    ensures Live(slots, k) && Live(slots, h)
    ensures IsChain(Unlinked(slots, Some(k), h, HeadOf(rest)), Some(k), [k] + rest)
  {
    var all := [k] + [h] + rest;
    assert all[1..] == [h] + rest && ([h] + rest)[1..] == rest;
    assert IsChain(slots, slots[k].value.next, [h] + rest);
    assert IsChain(slots, slots[h].value.next, rest);
    assert k !in [h] + rest && h in [h] + rest;
    var after := Unlinked(slots, Some(k), h, HeadOf(rest));
    ChainIsLive(slots, Some(k), all);
    ChainFrame(slots, after, HeadOf(rest), rest);
    assert ([k] + rest)[1..] == rest;
  }

  /** The descriptors of a chain whose packets are not expired, in order. */
  function FreshChain(slots: Slots, chain: seq<PacketHandle>, now: nat): seq<PacketHandle>
  {
    if chain == [] then []
    else (if Expired(PacketAt(slots, chain[0]), now) then [] else [chain[0]]) + FreshChain(slots, chain[1..], now)
  }

  lemma {:induction false} FreshChainHoldsFresh(slots: Slots, chain: seq<PacketHandle>, now: nat)
    ensures Packets(slots, FreshChain(slots, chain, now)) == Fresh(Packets(slots, chain), now)
  {
    if chain != [] {
      FreshChainHoldsFresh(slots, chain[1..], now);
      var ps := Packets(slots, chain);
      assert ps[1..] == Packets(slots, chain[1..]) && ps[0] == PacketAt(slots, chain[0]);
    }
  }

  /** A queued descriptor belongs to the chain that was there before and still holds its packet. */
  ghost predicate SamePacket(before: Slots, all: seq<PacketHandle>, slots: Slots, h: PacketHandle)
  {
    h in all && PacketAt(slots, h) == PacketAt(before, h)
  }

  /** Half-way through dropping: `kept` has been looked at, `rest` has not. */
  ghost predicate Sweeping(before: Slots, all: seq<PacketHandle>, slots: Slots, kept: seq<PacketHandle>,
                           rest: seq<PacketHandle>, now: nat)
  {
    && FreshChain(before, all, now) == kept + FreshChain(before, rest, now)
    && (forall h {:trigger SamePacket(before, all, slots, h)} :: h in kept || h in rest ==> SamePacket(before, all, slots, h))
    && Untouched(before, slots, all)
    && NoLeak(before, all, slots, kept + rest)
  }

  lemma SweepKeep(before: Slots, all: seq<PacketHandle>, slots: Slots, kept: seq<PacketHandle>, rest: seq<PacketHandle>, now: nat)
    requires rest != [] && Sweeping(before, all, slots, kept, rest, now) && !Expired(PacketAt(slots, rest[0]), now)
    ensures Sweeping(before, all, slots, kept + [rest[0]], rest[1..], now)
  {
    assert rest[0] in rest && SamePacket(before, all, slots, rest[0]);
    var later := FreshChain(before, rest[1..], now);
    assert kept + ([rest[0]] + later) == kept + [rest[0]] + later;
    assert kept + [rest[0]] + rest[1..] == kept + rest;
  }

  lemma SweepDrop(before: Slots, all: seq<PacketHandle>, slots: Slots, kept: seq<PacketHandle>, rest: seq<PacketHandle>, now: nat)
    requires rest != [] && Sweeping(before, all, slots, kept, rest, now) && Expired(PacketAt(slots, rest[0]), now)
    requires Live(slots, rest[0]) && (kept != [] ==> Live(slots, kept[|kept| - 1]))
    requires rest[0] !in kept && rest[0] !in rest[1..]
    ensures Sweeping(before, all, Unlinked(slots, LastOf(kept), rest[0], HeadOf(rest[1..])), kept, rest[1..], now)
  {
    assert rest[0] in rest && SamePacket(before, all, slots, rest[0]);
    var after := Unlinked(slots, LastOf(kept), rest[0], HeadOf(rest[1..]));
    forall g | g in kept || g in rest[1..]
      ensures SamePacket(before, all, after, g)
    {
      assert SamePacket(before, all, slots, g);
    }
    forall g: nat | g !in all
      ensures SameAt(before, after, g)
    {
      assert SameAt(before, slots, g);
      assert kept != [] ==> SamePacket(before, all, slots, kept[|kept| - 1]);
    }
    forall g: nat | Live(after, g)
      ensures g in kept + rest[1..] || (Live(before, g) && g !in all)
    {
      assert Live(slots, g) && g != rest[0];
      assert g in kept + rest ==> g in kept || g in rest[1..];
    }
  }

  lemma UpdateTwice(slots: Slots, h: nat, x: Option<PacketSlot>, y: Option<PacketSlot>)
    requires h < |slots|
    ensures slots[h := x][h := y] == slots[h := y]
  {
  }

  lemma {:induction false} Swept(before: Slots, all: seq<PacketHandle>, slots: Slots, kept: seq<PacketHandle>, now: nat)
    requires Sweeping(before, all, slots, kept, [], now)
    ensures Packets(slots, kept) == Fresh(Packets(before, all), now)
    ensures forall h :: h in kept ==> h in all
    ensures NoLeak(before, all, slots, kept)
  {
    assert kept + [] == kept;
    FreshChainHoldsFresh(before, all, now);
    forall i | 0 <= i < |kept|
      ensures PacketAt(slots, kept[i]) == PacketAt(before, kept[i])
    {
      assert SamePacket(before, all, slots, kept[i]);
    }
    assert Packets(slots, kept) == Packets(before, kept);
    forall h | h in kept
      ensures h in all
    {
      assert SamePacket(before, all, slots, h);
    }
  }

  // -------------------------------------------------------------------------
  // The queue of one tunnel
  // -------------------------------------------------------------------------

  class Tunn {
    var packetQueueHead: Option<PacketHandle>
    var packetQueueTail: Option<PacketHandle>
    var packetQueueLen: nat
    ghost var chain: seq<PacketHandle>

    ghost function Q(): View
      reads this
    {
      View(packetQueueHead, packetQueueTail, packetQueueLen, chain)
    }

    constructor ()
      ensures Q() == View(None, None, 0, [])
    {
      packetQueueHead, packetQueueTail, packetQueueLen, chain := None, None, 0, [];
    }

    /** Drops exactly the packets that have waited too long; the others keep their order. */
    method DropExpiredQueuedPackets(pool: PacketPool, now: nat) returns (dropped: nat)
      requires pool.Valid() && Queued(pool.slots, Q())
      modifies this, pool
      ensures pool.Valid() && OwnStep(old(pool.slots), old(Q()), pool.slots, Q())
      ensures Packets(pool.slots, chain) == Fresh(old(Packets(pool.slots, chain)), now)
      ensures dropped + |chain| == |old(chain)|
    {
      dropped := SweepQueue(pool, now);
      Swept(old(pool.slots), old(chain), pool.slots, chain, now);
    }

    /** Goes through the queue from its head, unlinking what has expired. */
    method SweepQueue(pool: PacketPool, now: nat) returns (dropped: nat)
      requires pool.Valid() && Queued(pool.slots, Q())
      modifies this, pool
      ensures pool.Valid() && Queued(pool.slots, Q()) && dropped + |chain| == |old(chain)|
      ensures Sweeping(old(pool.slots), old(chain), pool.slots, chain, [], now)
    {
      dropped := 0;
      var prev: Option<PacketHandle> := None;
      var current := packetQueueHead;
      ghost var slots, all := pool.slots, chain;
      ghost var kept: seq<PacketHandle>, rest := [], chain;
      while current.Some?
        invariant pool.Valid() && Queued(pool.slots, Q())
        invariant chain == kept + rest && dropped + |chain| == |all|
        invariant prev == LastOf(kept) && current == HeadOf(rest)
        invariant Sweeping(slots, all, pool.slots, kept, rest, now)
        decreases |rest|
      {
        var handle := current.value;
        var expired, next;
        expired, next, kept, rest := DropIfExpired(pool, prev, handle, now, slots, all, kept, rest);
        if expired {
          dropped := dropped + 1;
        } else {
          prev := Some(handle);
        }
        current := next;
      }
      assert rest == [] && chain == kept;
    }

    /** Looks at one descriptor of the queue, drops it if its packet has expired, and says where to go on. */
    method DropIfExpired(pool: PacketPool, prev: Option<PacketHandle>, handle: PacketHandle, now: nat,
                         ghost slots: Slots, ghost all: seq<PacketHandle>, ghost kept: seq<PacketHandle>,
                         ghost rest: seq<PacketHandle>)
      returns (expired: bool, next: Option<PacketHandle>, ghost keptNow: seq<PacketHandle>, ghost restNow: seq<PacketHandle>)
      requires pool.Valid() && Queued(pool.slots, Q()) && chain == kept + rest
      requires prev == LastOf(kept) && Some(handle) == HeadOf(rest)
      requires Sweeping(slots, all, pool.slots, kept, rest, now)
      modifies this, pool
      ensures pool.Valid() && Queued(pool.slots, Q()) && next == HeadOf(restNow) && chain == keptNow + restNow
      ensures (if expired then prev else Some(handle)) == LastOf(keptNow)
      ensures |restNow| + 1 == |rest| && |chain| == |old(chain)| - if expired then 1 else 0
      ensures Sweeping(slots, all, pool.slots, keptNow, restNow, now)
    {
      assert rest == [handle] + rest[1..] && chain == kept + [handle] + rest[1..];
      NextIsHeadOfRest(pool.slots, packetQueueHead, kept, handle, rest[1..]);
      next := pool.slots[handle].value.next;
      expired := now >= pool.slots[handle].value.queuedAt + PENDING_PACKET_TTL;
      if expired {
        SweepDrop(slots, all, pool.slots, kept, rest, now);
        Unlink(pool, prev, handle, next, kept, rest[1..]);
        keptNow, restNow := kept, rest[1..];
      } else {
        SweepKeep(slots, all, pool.slots, kept, rest, now);
        keptNow, restNow := kept + [handle], rest[1..];
      }
    }

    /** Unlinks one descriptor of the queue and frees it. */
    method Unlink(pool: PacketPool, prev: Option<PacketHandle>, handle: PacketHandle, next: Option<PacketHandle>,
                  ghost kept: seq<PacketHandle>, ghost rest: seq<PacketHandle>)
      requires pool.Valid() && Queued(pool.slots, Q()) && chain == kept + [handle] + rest
      requires prev == LastOf(kept) && next == HeadOf(rest)
      requires Live(pool.slots, handle) && (prev.Some? ==> Live(pool.slots, prev.value))
      modifies this, pool
      ensures pool.Valid() && Queued(pool.slots, Q()) && chain == kept + rest
      ensures pool.slots == Unlinked(old(pool.slots), prev, handle, next)
    {
      UnlinkMiddle(pool.slots, packetQueueHead, kept, handle, rest);
      if prev.Some? {
        pool.SetNext(prev.value, next);
      } else {
        packetQueueHead := next;
      }
      if packetQueueTail == Some(handle) {
        packetQueueTail := prev;
      }
      UpdateTwice(pool.slots, handle, Some(pool.slots[handle].value.(next := None)), None);
      pool.SetNext(handle, None);
      pool.Free(handle);
      packetQueueLen := packetQueueLen - 1;
      LastAfter(kept, handle, rest);
      chain := kept + rest;
    }

    /** Puts a packet at the back of the queue, unless the queue or the pool is full. */
    method QueuePacket(pool: PacketPool, packetType: nat, packet: seq<Byte>, now: nat)
      requires pool.Valid() && Queued(pool.slots, Q())
      modifies this, pool
      ensures pool.Valid() && OwnStep(old(pool.slots), old(Q()), pool.slots, Q())
      ensures |packet| > MAX_PACKET_SIZE ==> Packets(pool.slots, chain) == old(Packets(pool.slots, chain))
      ensures |packet| <= MAX_PACKET_SIZE ==>
                var waiting := Fresh(old(Packets(pool.slots, chain)), now);
                Packets(pool.slots, chain) == waiting ||
                (|waiting| < MAX_PENDING_PACKETS && Packets(pool.slots, chain) == waiting + [Packet(now, packetType, packet)])
      // it is turned away only while the queue is full or the pool has no room for it
      ensures |packet| <= MAX_PACKET_SIZE && |Packets(pool.slots, chain)| < MAX_PENDING_PACKETS && pool.HasRoom(|packet|) ==>
                Packets(pool.slots, chain) != Fresh(old(Packets(pool.slots, chain)), now)
    {
      if |packet| > MAX_PACKET_SIZE {
        ChainIsLive(pool.slots, packetQueueHead, chain);
        return;
      }
      var dropped := DropExpiredQueuedPackets(pool, now);
      if packetQueueLen >= MAX_PENDING_PACKETS {
        return;
      }
      ghost var mid := pool.slots;
      ChainIsLive(mid, packetQueueHead, chain);
      var handle := pool.Alloc(packetType, packet, now);
      if handle.None? {
        return;
      }
      forall h | h in chain
        ensures SameAt(mid, pool.slots, h)
      {
      }
      ChainFrame(mid, pool.slots, packetQueueHead, chain);
      PacketsFrame(mid, pool.slots, chain);
      ghost var stored := pool.slots;
      Append(pool, handle.value);
      StoredStep(old(pool.slots), old(chain), mid, stored, pool.slots, chain, handle.value);
    }

    /** Links a freshly stored packet behind the last one. */
    method Append(pool: PacketPool, handle: PacketHandle)
      requires pool.Valid() && Queued(pool.slots, Q()) && packetQueueLen < MAX_PENDING_PACKETS
      requires Live(pool.slots, handle) && pool.slots[handle].value.next == None && handle !in chain
      modifies this, pool
      ensures pool.Valid() && Queued(pool.slots, Q()) && chain == old(chain) + [handle]
      ensures Untouched(old(pool.slots), pool.slots, old(chain))
      ensures forall h: nat :: Live(pool.slots, h) <==> Live(old(pool.slots), h)
      ensures Packets(pool.slots, chain) == old(Packets(pool.slots, chain)) + [old(PacketAt(pool.slots, handle))]
    {
      if packetQueueTail.Some? {
        AppendLink(pool.slots, packetQueueHead, chain, handle);
        pool.SetNext(packetQueueTail.value, Some(handle));
      } else {
        packetQueueHead := Some(handle);
      }
      packetQueueTail := Some(handle);
      packetQueueLen := packetQueueLen + 1;
      chain := chain + [handle];
    }

    /** Takes the oldest packet out of the queue; its descriptor stays live. */
    method DequeuePacket(pool: PacketPool) returns (handle: Option<PacketHandle>)
      requires pool.Valid() && Queued(pool.slots, Q())
      modifies this, pool
      ensures pool.Valid() && Queued(pool.slots, Q()) && pool.usedBytes == old(pool.usedBytes)
      ensures handle == HeadOf(old(chain))
      ensures handle.None? ==> pool.slots == old(pool.slots) && Q() == old(Q())
      ensures handle.Some? ==> chain == old(chain)[1..] && handle.value !in chain && Live(old(pool.slots), handle.value)
      ensures handle.Some? ==> pool.slots == WithNext(old(pool.slots), handle.value, None)
      ensures handle.Some? ==> packetQueueHead == old(pool.slots)[handle.value].value.next
    {
      handle := packetQueueHead;
      if handle.Some? {
        ghost var slots := pool.slots;
        ChainIsLive(slots, packetQueueHead, chain);
        var next := pool.TakeNext(handle.value);
        ChainFrame(slots, pool.slots, next, chain[1..]);
        packetQueueHead := next;
        if next.None? {
          packetQueueTail := None;
        }
        packetQueueLen := packetQueueLen - 1;
        chain := chain[1..];
      }
    }

    /** Puts a live descriptor back at the front of the queue; frees it if the queue has filled up meanwhile. */
    method RequeuePacket(pool: PacketPool, handle: PacketHandle)
      requires pool.Valid() && Queued(pool.slots, Q()) && Live(pool.slots, handle) && handle !in chain
      modifies this, pool
      ensures pool.Valid() && Queued(pool.slots, Q())
      ensures old(packetQueueLen) < MAX_PENDING_PACKETS ==>
                chain == [handle] + old(chain) && pool.slots == WithNext(old(pool.slots), handle, old(packetQueueHead))
      ensures old(packetQueueLen) >= MAX_PENDING_PACKETS ==>
                chain == old(chain) && pool.slots == old(pool.slots)[handle := None]
    {
      if packetQueueLen >= MAX_PENDING_PACKETS {
        ghost var slots := pool.slots;
        pool.Free(handle);
        ChainFrame(slots, pool.slots, packetQueueHead, chain);
        return;
      }
      PrependLink(pool.slots, chain, handle);
      pool.SetNext(handle, packetQueueHead);
      packetQueueHead := Some(handle);
      if packetQueueTail.None? {
        packetQueueTail := Some(handle);
      }
      packetQueueLen := packetQueueLen + 1;
      chain := [handle] + chain;
    }

    /**
     Sends the oldest packet if the current session accepts it (`usable`); otherwise pool and queue
     are left exactly as they were.
     */
    method FlushQueuedPacket(pool: PacketPool, usable: bool) returns (sent: Option<Packet>)
      requires pool.Valid() && Queued(pool.slots, Q())
      modifies this, pool
      ensures pool.Valid() && OwnStep(old(pool.slots), old(Q()), pool.slots, Q())
      ensures sent.Some? <==> usable && old(chain) != []
      ensures sent.Some? ==> [sent.value] + Packets(pool.slots, chain) == old(Packets(pool.slots, chain))
      ensures sent.None? ==> pool.slots == old(pool.slots) && Q() == old(Q())
    {
      var handle := DequeuePacket(pool);
      if handle.None? {
        return None;
      }
      var packet := PacketOf(pool.slots[handle.value].value);
      if usable {
        SentStep(old(pool.slots), packetQueueHead, handle.value, chain);
        SentLeaksNothing(old(pool.slots), handle.value, chain);
        pool.Free(handle.value);
        assert old(chain) == [handle.value] + chain;
        return Some(packet);
      }
      RelinkUndoes(old(pool.slots), handle.value);
      RequeuePacket(pool, handle.value);
      assert chain == old(chain) && pool.slots == old(pool.slots);
      return None;
    }

    /** Frees every queued packet. */
    method ClearPacketQueue(pool: PacketPool)
      requires pool.Valid() && Queued(pool.slots, Q())
      modifies this, pool
      ensures pool.Valid() && OwnStep(old(pool.slots), old(Q()), pool.slots, Q())
      ensures chain == []
    {
      ghost var freed := chain;
      ChainIsLive(pool.slots, packetQueueHead, chain);
      pool.FreeChain(packetQueueHead, freed);
      packetQueueHead := None;
      packetQueueTail := None;
      packetQueueLen := 0;
      chain := [];
    }
  }

  /** Detaching the first descriptor of a queue and emptying it. */
  lemma {:induction false} SentStep(before: Slots, head: Option<PacketHandle>, h: PacketHandle, rest: seq<PacketHandle>)
    requires Live(before, h) && h !in rest && IsChain(WithNext(before, h, None), head, rest)
    ensures IsChain(WithNext(before, h, None)[h := None], head, rest)
    ensures Untouched(before, WithNext(before, h, None)[h := None], [h] + rest)
    ensures Packets(before, [h] + rest) == [PacketAt(before, h)] + Packets(WithNext(before, h, None)[h := None], rest)
  {
    var detached := WithNext(before, h, None);
    var after := detached[h := None];
    ChainIsLive(detached, head, rest);
    forall g | g in rest
      ensures SameAt(detached, after, g) && Live(before, g) && SameAt(before, after, g)
    {
    }
    ChainFrame(detached, after, head, rest);
    PacketsFrame(before, after, rest);
    assert forall g: nat :: g !in [h] + rest ==> g != h && SameAt(before, after, g);
    assert ([h] + rest)[1..] == rest;
  }

  lemma SentLeaksNothing(before: Slots, h: PacketHandle, rest: seq<PacketHandle>)
    requires Live(before, h)
    ensures NoLeak(before, [h] + rest, WithNext(before, h, None)[h := None], rest)
  {
  }

  /** Detaching a descriptor and linking it to its old successor again changes nothing. */
  lemma RelinkUndoes(slots: Slots, h: PacketHandle)
    requires Live(slots, h)
    ensures WithNext(WithNext(slots, h, None), h, slots[h].value.next) == slots
  {
  }

  /** Dropping, storing and appending together touch the queue's own and unused descriptors only. */
  lemma StoredStep(before: Slots, owned: seq<PacketHandle>, mid: Slots, stored: Slots, after: Slots,
                   chain: seq<PacketHandle>, h: PacketHandle)
    requires Untouched(before, mid, owned) && Untouched(mid, stored, []) && !Live(mid, h)
    requires chain != [] && chain[|chain| - 1] == h && Untouched(stored, after, chain[..|chain| - 1])
    requires forall g :: g in chain[..|chain| - 1] ==> g in owned || !Live(before, g)
    requires NoLeak(before, owned, mid, chain[..|chain| - 1])
    requires forall g: nat :: Live(after, g) ==> g == h || Live(mid, g)
    ensures Untouched(before, after, owned) && NoLeak(before, owned, after, chain)
    ensures forall g :: g in chain ==> g in owned || !Live(before, g)
  {
    forall g: nat | g !in owned
      ensures SameAt(before, after, g)
    {
      assert SameAt(before, mid, g) && SameAt(mid, stored, g);
      if g !in chain[..|chain| - 1] {
        assert SameAt(stored, after, g);
      }
    }
    assert SameAt(before, mid, h) || h in owned;
    assert forall g :: g in chain ==> g in chain[..|chain| - 1] || g == h;
  }

  lemma LastAfter(kept: seq<PacketHandle>, h: PacketHandle, rest: seq<PacketHandle>)
    requires h !in rest
    ensures LastOf(kept + rest) == if LastOf(kept + [h] + rest) == Some(h) then LastOf(kept) else LastOf(kept + [h] + rest)
  {
  }
}

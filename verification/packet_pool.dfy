/**
 The packet pool shared by all tunnels of a device: a growable table of packet descriptors with a
 free list and a byte budget. A descriptor's `next` field links it into one tunnel's queue.
 */
module Pool {
  import opened Wrappers
  import opened Wire

  /** Opaque handle: an index into the descriptor table. */
  type PacketHandle = nat

  datatype PacketSlot = PacketSlot(next: Option<PacketHandle>, queuedAt: nat, packetType: nat, data: seq<Byte>)

  type Slots = seq<Option<PacketSlot>>

  // -------------------------------------------------------------------------
  // Accounting
  // -------------------------------------------------------------------------

  predicate Live(slots: Slots, h: PacketHandle)
  {
    h < |slots| && slots[h].Some?
  }

  function SlotBytes(slot: Option<PacketSlot>): nat
  {
    if slot.Some? then |slot.value.data| else 0
  }

  /** Payload bytes of all live descriptors. */
  function LiveBytes(slots: Slots): nat
  {
    if slots == [] then 0 else LiveBytes(slots[..|slots| - 1]) + SlotBytes(slots[|slots| - 1])
  }

  lemma {:induction false} LiveBytesUpdate(slots: Slots, h: nat, slot: Option<PacketSlot>)
    requires h < |slots|
    ensures LiveBytes(slots[h := slot]) + SlotBytes(slots[h]) == LiveBytes(slots) + SlotBytes(slot)
  {
    var updated := slots[h := slot];
    if h == |slots| - 1 {
      assert updated[..|slots| - 1] == slots[..|slots| - 1];
    } else {
      LiveBytesUpdate(slots[..|slots| - 1], h, slot);
      assert updated[..|slots| - 1] == slots[..|slots| - 1][h := slot];
    }
  }

  lemma {:induction false} LiveBytesPush(slots: Slots, slot: Option<PacketSlot>)
    ensures LiveBytes(slots + [slot]) == LiveBytes(slots) + SlotBytes(slot)
  {
  }

  /** The bytes of a live descriptor count, and with it gone those of the others. */
  lemma {:induction false} LiveBytesCount(slots: Slots, h: nat)
    requires h < |slots| && slots[h].Some?
    ensures LiveBytes(slots) == |slots[h].value.data| + LiveBytes(slots[h := None])
  {
    LiveBytesUpdate(slots, h, None);
  }

  lemma {:induction false} NothingLive(slots: Slots)
    requires forall h :: 0 <= h < |slots| ==> !Live(slots, h)
    ensures LiveBytes(slots) == 0
  {
    if slots != [] {
      var n := |slots| - 1;
      assert forall h :: 0 <= h < n ==> !Live(slots, h) && slots[..n][h] == slots[h];
      assert !Live(slots, n);
      NothingLive(slots[..n]);
    }
  }

  /** The free list enumerates exactly the empty descriptors, without repetition. */
  ghost predicate FreeListOk(slots: Slots, free: seq<nat>)
  {
    && (forall i :: 0 <= i < |free| ==> free[i] < |slots| && slots[free[i]].None?)
    && (forall i, j :: 0 <= i < j < |free| ==> free[i] != free[j])
    && (forall h :: 0 <= h < |slots| && slots[h].None? ==> h in free)
  }

  /** Every one of the `n` descriptors is in use. */
  ghost predicate Exhausted(slots: Slots, n: nat)
  {
    forall h :: 0 <= h < n ==> Live(slots, h)
  }

  lemma ExhaustedIff(slots: Slots, free: seq<nat>, n: nat)
    requires FreeListOk(slots, free) && |slots| <= n
    ensures Exhausted(slots, n) <==> free == [] && |slots| == n
  {
    if free != [] {
      assert !Live(slots, free[0]);
    } else if |slots| < n {
      assert !Live(slots, |slots|);
    }
  }

  // -------------------------------------------------------------------------
  // Chains of descriptors
  // -------------------------------------------------------------------------

  function HeadOf(chain: seq<PacketHandle>): Option<PacketHandle>
  {
    if chain == [] then None else Some(chain[0])
  }

  /** Following `next` from `head` visits exactly `chain`, a list of distinct live descriptors. */
  ghost predicate IsChain(slots: Slots, head: Option<PacketHandle>, chain: seq<PacketHandle>)
    decreases chain
  {
    && head == HeadOf(chain)
    && (chain != [] ==>
          Live(slots, chain[0]) && chain[0] !in chain[1..] && IsChain(slots, slots[chain[0]].value.next, chain[1..]))
  }

  lemma {:induction false} ChainIsLive(slots: Slots, head: Option<PacketHandle>, chain: seq<PacketHandle>)
    requires IsChain(slots, head, chain)
    ensures forall h :: h in chain ==> Live(slots, h)
    decreases chain
  {
    if chain != [] {
      ChainIsLive(slots, slots[chain[0]].value.next, chain[1..]);
      assert forall h :: h in chain ==> h == chain[0] || h in chain[1..];
    }
  }

  /** A live descriptor is the same before and after. */
  ghost predicate SameAt(before: Slots, after: Slots, h: PacketHandle)
  {
    Live(before, h) ==> h < |after| && after[h] == before[h]
  }

  /** Live descriptors outside `owned` are the same before and after. */
  ghost predicate Untouched(before: Slots, after: Slots, owned: seq<PacketHandle>)
  {
    forall h: nat {:trigger SameAt(before, after, h)} :: h !in owned ==> SameAt(before, after, h)
  }

  /** A chain depends on its own descriptors only. */
  lemma {:induction false} ChainFrame(slots: Slots, after: Slots, head: Option<PacketHandle>, chain: seq<PacketHandle>)
    requires IsChain(slots, head, chain)
    requires forall h {:trigger SameAt(slots, after, h)} :: h in chain ==> SameAt(slots, after, h)
    ensures IsChain(after, head, chain)
    decreases chain
  {
    if chain != [] {
      assert SameAt(slots, after, chain[0]);
      assert forall h :: h in chain[1..] ==> h in chain;
      ChainFrame(slots, after, slots[chain[0]].value.next, chain[1..]);
    }
  }

  class PacketPool {
    /** Upper bound of the descriptor table. */
    const capacity: nat
    /** Budget for queued payload bytes. */
    const bytes: nat
    var slots: Slots
    var free: seq<nat>
    var usedBytes: nat

    ghost predicate Valid()
      reads this
    {
      && |slots| <= capacity
      && usedBytes == LiveBytes(slots) <= bytes
      && FreeListOk(slots, free)
    }

    constructor (capacity: nat, bytes: nat)
      ensures Valid() && this.capacity == capacity && this.bytes == bytes && slots == []
    {
      this.capacity := capacity;
      this.bytes := bytes;
      slots, free, usedBytes := [], [], 0;
    }

    /** Whether a packet of `len` bytes still fits. */
    ghost predicate HasRoom(len: nat)
      reads this
    {
      len <= MAX_PACKET_SIZE && LiveBytes(slots) + len <= bytes && !Exhausted(slots, capacity)
    }

    /** Stores a packet in an unused descriptor, exactly if there is room for it. */
    method Alloc(packetType: nat, packet: seq<Byte>, queuedAt: nat) returns (r: Option<PacketHandle>)
      requires Valid()
      modifies this
      ensures Valid()
      ensures r.Some? <==> old(HasRoom(|packet|))
      ensures r.None? ==> slots == old(slots)
      ensures r.Some? ==> !Live(old(slots), r.value) && Live(slots, r.value)
      ensures r.Some? ==> slots[r.value] == Some(PacketSlot(None, queuedAt, packetType, packet))
      ensures Untouched(old(slots), slots, [])
      ensures r.Some? ==> forall h: nat :: Live(slots, h) ==> h == r.value || Live(old(slots), h)
    {
      if |packet| > MAX_PACKET_SIZE || usedBytes + |packet| > bytes {
        return None;
      }
      ExhaustedIff(slots, free, capacity);
      var handle := FreeSlot();
      if handle.None? {
        return None;
      }
      var slot := PacketSlot(None, queuedAt, packetType, packet);
      var h := handle.value;
      if h == |slots| {
        LiveBytesPush(slots, Some(slot));
        slots := slots + [Some(slot)];
      } else {
        LiveBytesUpdate(slots, h, Some(slot));
        slots := slots[h := Some(slot)];
      }
      usedBytes := usedBytes + |packet|;
      return handle;
    }

    /** Takes an unused descriptor: the most recently freed one, or a new one at the end of the table. */
    method FreeSlot() returns (r: Option<PacketHandle>)
      requires Valid()
      modifies this`free
      ensures r.None? <==> old(free) == [] && |slots| >= capacity
      ensures r.None? ==> free == old(free)
      ensures r.Some? ==> !Live(slots, r.value) && r.value <= |slots| && r.value < capacity
      ensures r.Some? ==> (forall i :: 0 <= i < |free| ==> free[i] < |slots| && slots[free[i]].None? && free[i] != r.value)
      ensures r.Some? ==> (forall i, j :: 0 <= i < j < |free| ==> free[i] != free[j])
      ensures r.Some? ==> (forall h :: 0 <= h < |slots| && slots[h].None? && h != r.value ==> h in free)
    {
      if free != [] {
        var h := free[|free| - 1];
        assert forall g :: g in free && g != h ==> g in free[..|free| - 1];
        free := free[..|free| - 1];
        return Some(h);
      }
      return if |slots| < capacity then Some(|slots|) else None;
    }

    /** Empties a live descriptor. */
    method Free(handle: PacketHandle)
      requires Valid() && Live(slots, handle)
      modifies this
      ensures Valid() && slots == old(slots)[handle := None]
    {
      LiveBytesUpdate(slots, handle, None);
      usedBytes := usedBytes - |slots[handle].value.data|;
      slots := slots[handle := None];
      free := free + [handle];
    }

    method SetNext(handle: PacketHandle, next: Option<PacketHandle>)
      requires Valid() && Live(slots, handle)
      modifies this
      ensures Valid() && slots == old(slots)[handle := Some(old(slots)[handle].value.(next := next))]
      ensures usedBytes == old(usedBytes)
    {
      LiveBytesUpdate(slots, handle, Some(slots[handle].value.(next := next)));
      slots := slots[handle := Some(slots[handle].value.(next := next))];
    }

    method TakeNext(handle: PacketHandle) returns (next: Option<PacketHandle>)
      requires Valid() && Live(slots, handle)
      modifies this
      ensures Valid() && slots == old(slots)[handle := Some(old(slots)[handle].value.(next := None))]
      ensures next == old(slots)[handle].value.next && usedBytes == old(usedBytes)
    {
      next := slots[handle].value.next;
      SetNext(handle, None);
    }

    /** Empties every descriptor of a chain and no other. */
    method FreeChain(head: Option<PacketHandle>, ghost chain: seq<PacketHandle>)
      requires Valid() && IsChain(slots, head, chain)
      modifies this
      ensures Valid() && |slots| == |old(slots)|
      ensures forall h :: 0 <= h < |slots| ==> slots[h] == if h in chain then None else old(slots)[h]
    {
      var rest := head;
      ghost var todo := chain;
      ChainIsLive(slots, head, chain);
      while rest.Some?
        invariant Valid() && IsChain(slots, rest, todo) && |slots| == |old(slots)|
        invariant forall h :: h in todo ==> h in chain
        invariant forall h :: 0 <= h < |slots| ==>
                    slots[h] == if h in chain && h !in todo then None else old(slots)[h]
        decreases |todo|
      {
        var handle := rest.value;
        ghost var before := slots;
        rest := TakeNext(handle);
        Free(handle);
        ChainFrame(before, slots, rest, todo[1..]);
        todo := todo[1..];
      }
    }
  }
}

/**
 The packet pool of builds without a heap: a fixed number of descriptors over one byte arena, in
 which a packet is placed at the first gap that is large enough.
 */
module ArenaPool {
  import opened Wrappers
  import opened Wire

  datatype PacketSlot = PacketSlot(offset: nat, len: nat, queuedAt: nat, packetType: nat, used: bool)

  const EMPTY_SLOT := PacketSlot(0, 0, 0, 0, false)

  /** The region `start .. start + len` meets the region of a used slot. */
  predicate Conflicts(slot: PacketSlot, start: nat, len: nat)
  {
    slot.used && start < slot.offset + slot.len && start + len > slot.offset
  }

  /** A packet of `len` bytes can be placed at `start`. */
  predicate Fits(slots: seq<PacketSlot>, bytes: nat, start: nat, len: nat)
  {
    start + len <= bytes && forall i :: 0 <= i < |slots| ==> !Conflicts(slots[i], start, len)
  }

  /** A packet that is not empty can be placed exactly where its bytes lie in the arena and in no used region. */
  lemma FitsWhereFree(slots: seq<PacketSlot>, bytes: nat, start: nat, len: nat)
    requires len > 0
    ensures Fits(slots, bytes, start, len) ==> AllFree(slots, bytes, start, len)
    ensures (forall i :: 0 <= i < |slots| && slots[i].used ==> slots[i].len > 0) ==>
              (Fits(slots, bytes, start, len) <==> AllFree(slots, bytes, start, len))
  {
    if AllFree(slots, bytes, start, len) {
      assert FreeAt(slots, bytes, start + len - 1);
      forall i | 0 <= i < |slots| && slots[i].used && slots[i].len > 0
        ensures !Conflicts(slots[i], start, len)
      {
        assert FreeAt(slots, bytes, start);
        assert start <= slots[i].offset < start + len ==> FreeAt(slots, bytes, slots[i].offset);
      }
    }
  }

  ghost predicate AllFree(slots: seq<PacketSlot>, bytes: nat, start: nat, len: nat)
  {
    forall b: nat :: start <= b < start + len ==> FreeAt(slots, bytes, b)
  }

  ghost predicate FreeAt(slots: seq<PacketSlot>, bytes: nat, b: nat)
  {
    b < bytes && forall i :: 0 <= i < |slots| && slots[i].used ==> !(slots[i].offset <= b < slots[i].offset + slots[i].len)
  }

  /** Every used region lies in the arena, and no two of them share a byte. */
  ghost predicate Placed(slots: seq<PacketSlot>, bytes: nat)
  {
    && (forall i :: 0 <= i < |slots| && slots[i].used ==> slots[i].offset + slots[i].len <= bytes)
    && (forall i, j :: 0 <= i < |slots| && 0 <= j < |slots| && i != j && slots[j].used ==>
          !Conflicts(slots[i], slots[j].offset, slots[j].len))
  }

  /** If a placement meets a slot, so does every later one up to the end of that slot. */
  lemma NoFitBeforeEnd(slots: seq<PacketSlot>, bytes: nat, i: nat, start: nat, len: nat, t: nat)
    requires i < |slots| && Conflicts(slots[i], start, len)
    requires start <= t < slots[i].offset + slots[i].len
    ensures !Fits(slots, bytes, t, len)
  {
  }

  class PacketPool {
    const bytes: nat
    const slots: array<PacketSlot>
    const arena: array<Byte>

    ghost predicate Valid()
      reads slots
    {
      slots as object != arena && arena.Length == bytes && Placed(slots[..], bytes)
    }

    /** The payload of a used descriptor. */
    ghost function Data(h: nat): seq<Byte>
      requires Valid() && h < slots.Length && slots[h].used
      reads slots, arena
    {
      arena[slots[h].offset..slots[h].offset + slots[h].len]
    }

    constructor (n: nat, bytes: nat)
      ensures Valid() && this.bytes == bytes && slots.Length == n
      ensures forall h :: 0 <= h < n ==> !slots[h].used
      ensures fresh(slots) && fresh(arena)
    {
      this.bytes := bytes;
      slots := new PacketSlot[n](_ => EMPTY_SLOT);
      arena := new Byte[bytes](_ => 0);
    }

    /** First fit: the smallest offset at which the packet can be placed, or nothing if there is none. */
    method FindGap(len: nat) returns (gap: Option<nat>)
      requires Valid()
      ensures gap.Some? ==> Fits(slots[..], bytes, gap.value, len)
      ensures gap.Some? ==> forall t :: 0 <= t < gap.value ==> !Fits(slots[..], bytes, t, len)
      ensures gap.None? ==> forall t: nat :: !Fits(slots[..], bytes, t, len)
    {
      var start := 0;
      while true
        invariant start <= bytes
        invariant forall t :: 0 <= t < start ==> !Fits(slots[..], bytes, t, len)
        decreases bytes - start
      {
        if start + len > bytes {
          return None;
        }
        var nextStart: Option<nat> := None;
        var i := 0;
        while i < slots.Length
          invariant i <= slots.Length && nextStart == None
          invariant forall k :: 0 <= k < i ==> !Conflicts(slots[k], start, len)
        {
          if slots[i].used && start < slots[i].offset + slots[i].len && start + len > slots[i].offset {
            nextStart := Some(slots[i].offset + slots[i].len);
            break;
          }
          i := i + 1;
        }
        if nextStart.None? {
          return Some(start);
        }
        forall t | start <= t < nextStart.value
          ensures !Fits(slots[..], bytes, t, len)
        {
          NoFitBeforeEnd(slots[..], bytes, i, start, len, t);
        }
        start := nextStart.value;
      }
    }

    method FreeSlot() returns (h: Option<nat>)
      ensures h.Some? ==> h.value < slots.Length && !slots[h.value].used
      ensures h.None? ==> forall i :: 0 <= i < slots.Length ==> slots[i].used
    {
      for i := 0 to slots.Length
        invariant forall k :: 0 <= k < i ==> slots[k].used
      {
        if !slots[i].used {
          return Some(i);
        }
      }
      return None;
    }

    /**
     Stores a packet if a descriptor is unused and some gap is large enough; every packet already
     stored keeps its descriptor and its bytes.
     */
    method Alloc(packetType: nat, packet: seq<Byte>, queuedAt: nat) returns (r: Option<nat>)
      requires Valid()
      modifies slots, arena
      ensures Valid()
      ensures r.Some? <==> |packet| <= MAX_PACKET_SIZE && (exists h :: 0 <= h < slots.Length && !old(slots[h].used))
                           && exists t: nat :: Fits(old(slots[..]), bytes, t, |packet|)
      ensures r.None? ==> slots[..] == old(slots[..]) && arena[..] == old(arena[..])
      ensures r.Some? ==> r.value < slots.Length && !old(slots[..])[r.value].used && slots[r.value].used
      ensures r.Some? ==> slots[r.value].queuedAt == queuedAt && slots[r.value].packetType == packetType
      ensures r.Some? ==> Data(r.value) == packet
      ensures forall h :: 0 <= h < slots.Length && old(slots[h].used) ==> slots[h] == old(slots[h]) && Data(h) == old(Data(h))
    {
      if |packet| > MAX_PACKET_SIZE || |packet| > bytes {
        return None;
      }
      var handle := FreeSlot();
      if handle.None? {
        return None;
      }
      var gap := FindGap(|packet|);
      if gap.None? {
        return None;
      }
      var h, offset := handle.value, gap.value;
      CopyIn(offset, packet);
      slots[h] := PacketSlot(offset, |packet|, queuedAt, packetType, true);
      PlacedAfter(old(slots[..]), bytes, h, slots[h]);
      assert slots[..] == old(slots[..])[h := slots[h]];
      assert Data(h) == packet;
      return handle;
    }

    method CopyIn(offset: nat, packet: seq<Byte>)
      requires offset + |packet| <= arena.Length
      modifies arena
      ensures arena[offset..offset + |packet|] == packet
      ensures forall k :: 0 <= k < arena.Length && !(offset <= k < offset + |packet|) ==> arena[k] == old(arena[k])
    {
      forall k | 0 <= k < |packet| {
        arena[offset + k] := packet[k];
      }
    }

    /** Empties a descriptor; its bytes become a gap and nothing else changes. */
    method Free(h: nat)
      requires Valid() && h < slots.Length
      modifies slots
      ensures Valid() && slots[..] == old(slots[..])[h := slots[h]] && !slots[h].used
      ensures forall g :: 0 <= g < slots.Length && g != h && old(slots[g].used) ==> Data(g) == old(Data(g))
    {
      slots[h] := PacketSlot(0, 0, slots[h].queuedAt, slots[h].packetType, false);
    }
  }

  /** Placing a packet where it fits keeps all regions apart. */
  lemma PlacedAfter(slots: seq<PacketSlot>, bytes: nat, h: nat, slot: PacketSlot)
    requires Placed(slots, bytes) && h < |slots| && !slots[h].used && slot.used
    requires Fits(slots, bytes, slot.offset, slot.len)
    ensures Placed(slots[h := slot], bytes)
  {
  }
}

/**
 What happens to packets over the life of a tunnel, as values: which were sealed and delivered by which session, and what
 became of those that had to wait.
 */
module TunnelLife {
  import opened Wrappers
  import opened Wire
  import opened Messages
  import opened NoiseKeys
  import RW = ReplayWindow
  import TQ = TunnelQueue

  // -------------------------------------------------------------------------
  // What sessions seal and deliver
  // -------------------------------------------------------------------------

  /** A packet that was decrypted, by the session of that number. */
  datatype Delivery = Delivery(serial: nat, message: DataMessage)

  /** A packet that was sealed. */
  datatype Sealing = Sealing(serial: nat, counter: nat)

  /** A live session: its number, its keys, the counters presented to it and the next one it uses. */
  datatype Slot = Slot(serial: nat, keys: SessionKeys, run: seq<nat>, next: nat)

  type Slots = seq<Option<Slot>>

  /** The sessions opened so far, and all packets that went through them. */
  datatype Traffic = Traffic(sessions: seq<SessionKeys>, delivered: seq<Delivery>, sealed: seq<Sealing>)

  /** The counters that were accepted from among those presented. */
  ghost function AcceptedOf(run: seq<nat>): set<nat>
  {
    RW.After(run).accepted
  }

  /** Each delivery was by a session opened, which the packet was for and opened under. */
  ghost predicate Genuine(c: Aead, t: Traffic, d: Delivery)
  {
    && d.serial < |t.sessions| && d.message.receiverIdx == t.sessions[d.serial].localIndex
    && |d.message.encapsulated| >= AEAD_SIZE
    && Opened(c, t.sessions[d.serial].receivingKey, d.message).Some?
  }

  /** A live session remembers what it has sealed and delivered. */
  ghost predicate Remembers(t: Traffic, s: Slot)
  {
    && s.serial < |t.sessions| && t.sessions[s.serial] == s.keys
    && (forall d {:trigger d in t.delivered} :: d in t.delivered && d.serial == s.serial ==>
          d.message.counter in AcceptedOf(s.run))
    && (forall x {:trigger x in t.sealed} :: x in t.sealed && x.serial == s.serial ==> x.counter < s.next)
  }

  ghost predicate SlotsOk(t: Traffic, slots: Slots)
  {
    && (forall i {:trigger slots[i]} :: 0 <= i < |slots| && slots[i].Some? ==> Remembers(t, slots[i].value))
    && forall i, j :: 0 <= i < j < |slots| && slots[i].Some? && slots[j].Some? ==> slots[i].value.serial != slots[j].value.serial
  }

  /** No session delivers or uses a counter twice. */
  ghost predicate TrafficOk(c: Aead, t: Traffic)
  {
    && (forall d :: d in t.delivered ==> Genuine(c, t, d))
    && (forall i, j :: 0 <= i < j < |t.delivered| ==>
          t.delivered[i].serial != t.delivered[j].serial || t.delivered[i].message.counter != t.delivered[j].message.counter)
    && (forall x :: x in t.sealed ==> x.serial < |t.sessions| && x.counter < REJECT_AFTER_MESSAGES)
    && forall i, j :: 0 <= i < j < |t.sealed| ==> t.sealed[i] != t.sealed[j]
  }

  const NO_TRAFFIC: Traffic := Traffic([], [], [])

  /** A session is opened in a slot; what was there before is gone. */
  function AfterOpening(t: Traffic, keys: SessionKeys): Traffic
  {
    t.(sessions := t.sessions + [keys])
  }

  lemma OpeningKeeps(c: Aead, t: Traffic, slots: Slots, i: nat, keys: SessionKeys)
    requires TrafficOk(c, t) && SlotsOk(t, slots) && i < |slots|
    ensures TrafficOk(c, AfterOpening(t, keys))
    ensures SlotsOk(AfterOpening(t, keys), slots[i := Some(Slot(|t.sessions|, keys, [], 0))])
  {
    var u := AfterOpening(t, keys);
    forall d | d in u.delivered
      ensures Genuine(c, u, d)
    {
      assert Genuine(c, t, d);
    }
    var after := slots[i := Some(Slot(|t.sessions|, keys, [], 0))];
    forall j | 0 <= j < |after| && after[j].Some?
      ensures Remembers(u, after[j].value)
    {
      if j != i {
        assert Remembers(t, slots[j].value);
      } else {
        forall d | d in u.delivered
          ensures d.serial != |t.sessions|
        {
          assert Genuine(c, t, d);
        }
      }
    }
    forall j | 0 <= j < |after| && j != i && after[j].Some?
      ensures after[j].value.serial != |t.sessions|
    {
      assert Remembers(t, slots[j].value);
    }
  }

  /** Sessions that end are forgotten. */
  lemma EndingKeeps(t: Traffic, slots: Slots, after: Slots)
    requires SlotsOk(t, slots) && |after| == |slots|
    requires forall i :: 0 <= i < |slots| ==> after[i] == slots[i] || after[i] == None
    ensures SlotsOk(t, after)
  {
    forall i | 0 <= i < |after| && after[i].Some?
      ensures Remembers(t, after[i].value)
    {
      assert Remembers(t, slots[i].value);
    }
  }

  function AfterDelivery(t: Traffic, serial: nat, message: DataMessage): Traffic
  {
    t.(delivered := t.delivered + [Delivery(serial, message)])
  }

  /** A fresh counter has not been delivered by this session, and is remembered from then on. */
  lemma DeliveryKeeps(c: Aead, t: Traffic, slots: Slots, i: nat, message: DataMessage)
    requires TrafficOk(c, t) && SlotsOk(t, slots) && i < |slots| && slots[i].Some?
    requires message.receiverIdx == slots[i].value.keys.localIndex
    requires |message.encapsulated| >= AEAD_SIZE && Opened(c, slots[i].value.keys.receivingKey, message).Some?
    requires RW.Accepts(slots[i].value.run + [message.counter], |slots[i].value.run|)
    ensures var s := slots[i].value;
            && TrafficOk(c, AfterDelivery(t, s.serial, message))
            && SlotsOk(AfterDelivery(t, s.serial, message), slots[i := Some(s.(run := s.run + [message.counter]))])
  {
    var s := slots[i].value;
    assert Remembers(t, s);
    RW.AfterExtended(s.run, message.counter);
    DeliveredOnce(c, t, s, message);
    DeliveryIsRemembered(t, s, message);
    forall j | 0 <= j < |slots| && j != i && slots[j].Some?
      ensures Remembers(AfterDelivery(t, s.serial, message), slots[j].value)
    {
      assert Remembers(t, slots[j].value);
      DeliveryElsewhere(t, slots[j].value, s.serial, message);
    }
    OneMovesOn(t, AfterDelivery(t, s.serial, message), slots, i, s.(run := s.run + [message.counter]));
  }

  lemma OneMovesOn(t: Traffic, u: Traffic, slots: Slots, i: nat, s: Slot)
    requires SlotsOk(t, slots) && i < |slots| && slots[i].Some? && slots[i].value.serial == s.serial
    requires Remembers(u, s)
    requires forall j :: 0 <= j < |slots| && j != i && slots[j].Some? ==> Remembers(u, slots[j].value)
    ensures SlotsOk(u, slots[i := Some(s)])
  {
    var after := slots[i := Some(s)];
    forall j {:trigger after[j]} | 0 <= j < |after| && after[j].Some?
      ensures Remembers(u, after[j].value)
    {
      assert j != i ==> after[j] == slots[j];
    }
  }

  lemma DeliveryIsRemembered(t: Traffic, s: Slot, message: DataMessage)
    requires Remembers(t, s)
    requires AcceptedOf(s.run + [message.counter]) == AcceptedOf(s.run) + {message.counter}
    ensures Remembers(AfterDelivery(t, s.serial, message), s.(run := s.run + [message.counter]))
  {
  }

  lemma DeliveryElsewhere(t: Traffic, s: Slot, serial: nat, message: DataMessage)
    requires Remembers(t, s) && s.serial != serial
    ensures Remembers(AfterDelivery(t, serial, message), s)
  {
  }

  lemma DeliveredOnce(c: Aead, t: Traffic, s: Slot, message: DataMessage)
    requires TrafficOk(c, t) && Remembers(t, s) && message.counter !in AcceptedOf(s.run)
    requires message.receiverIdx == s.keys.localIndex
    requires |message.encapsulated| >= AEAD_SIZE && Opened(c, s.keys.receivingKey, message).Some?
    ensures TrafficOk(c, AfterDelivery(t, s.serial, message))
  {
    var u := AfterDelivery(t, s.serial, message);
    forall d | d in u.delivered
      ensures Genuine(c, u, d)
    {
      assert d in t.delivered ==> Genuine(c, t, d);
    }
    forall k | 0 <= k < |t.delivered|
      ensures t.delivered[k].serial != s.serial || t.delivered[k].message.counter != message.counter
    {
      assert t.delivered[k] in t.delivered;
    }
  }

  function AfterSealing(t: Traffic, s: Slot): Traffic
  {
    t.(sealed := t.sealed + [Sealing(s.serial, s.next)])
  }

  lemma SealingKeeps(c: Aead, t: Traffic, slots: Slots, i: nat)
    requires TrafficOk(c, t) && SlotsOk(t, slots) && i < |slots| && slots[i].Some?
    requires slots[i].value.next < REJECT_AFTER_MESSAGES
    ensures var s := slots[i].value;
            TrafficOk(c, AfterSealing(t, s)) && SlotsOk(AfterSealing(t, s), slots[i := Some(s.(next := s.next + 1))])
  {
    var s := slots[i].value;
    var u := AfterSealing(t, s);
    assert Remembers(t, s);
    forall d | d in u.delivered
      ensures Genuine(c, u, d)
    {
      assert Genuine(c, t, d);
    }
    forall k | 0 <= k < |t.sealed|
      ensures t.sealed[k] != Sealing(s.serial, s.next)
    {
      assert t.sealed[k] in t.sealed;
    }
    var after := slots[i := Some(s.(next := s.next + 1))];
    forall j | 0 <= j < |after| && after[j].Some?
      ensures Remembers(u, after[j].value)
    {
      assert Remembers(t, slots[j].value);
    }
  }

  /**
   A packet delivered twice in the life of a tunnel was delivered by two different sessions of one index, and opens under
   the keys of both: whatever is replayed, and however sessions replace one another in the ring.
   */
  lemma TwiceMeansTwoKeys(c: Aead, t: Traffic, i: nat, j: nat)
    requires TrafficOk(c, t) && i < j < |t.delivered| && t.delivered[i].message == t.delivered[j].message
    ensures var a, b := t.delivered[i].serial, t.delivered[j].serial;
            var m := t.delivered[i].message;
            && a != b && a < |t.sessions| && b < |t.sessions| && t.sessions[a].localIndex == t.sessions[b].localIndex
            && |m.encapsulated| >= AEAD_SIZE
            && Opened(c, t.sessions[a].receivingKey, m).Some? && Opened(c, t.sessions[b].receivingKey, m).Some?
  {
    assert t.delivered[i] in t.delivered && t.delivered[j] in t.delivered;
  }

  /** No two packets of a session are ever sealed under one nonce. */
  lemma NoncesDiffer(c: Aead, t: Traffic, i: nat, j: nat)
    requires TrafficOk(c, t) && i < j < |t.sealed| && t.sealed[i].serial == t.sealed[j].serial
    ensures t.sealed[i].counter < REJECT_AFTER_MESSAGES && t.sealed[j].counter < REJECT_AFTER_MESSAGES
    ensures Nonce(t.sealed[i].counter) != Nonce(t.sealed[j].counter)
  {
    assert t.sealed[i] in t.sealed && t.sealed[j] in t.sealed;
    NonceIsInjective(t.sealed[i].counter, t.sealed[j].counter);
  }

  /** No packet opens under the keys of two of these sessions that have one index. */
  ghost predicate Separate(c: Aead, sessions: seq<SessionKeys>)
  {
    forall a, b, m: DataMessage ::
      0 <= a < b < |sessions| && sessions[a].localIndex == sessions[b].localIndex &&
      |m.encapsulated| >= AEAD_SIZE && Opened(c, sessions[a].receivingKey, m).Some? ==>
        Opened(c, sessions[b].receivingKey, m).None?
  }

  /** With keys that tell sessions apart, no packet is ever delivered twice. */
  lemma NeverDeliveredTwice(c: Aead, t: Traffic, i: nat, j: nat)
    requires TrafficOk(c, t) && Separate(c, t.sessions) && i < j < |t.delivered|
    ensures t.delivered[i].message != t.delivered[j].message
  {
    if t.delivered[i].message == t.delivered[j].message {
      TwiceMeansTwoKeys(c, t, i, j);
    }
  }

  // -------------------------------------------------------------------------
  // What becomes of packets that have to wait
  // -------------------------------------------------------------------------

  /** All packets ever queued, by number, and what became of each. */
  datatype Log = Log(packets: seq<TQ.Packet>, waiting: seq<nat>, sealed: seq<nat>, expired: set<nat>, cleared: set<nat>)

  const NO_LOG: Log := Log([], [], [], {}, {})

  ghost predicate Increasing(s: seq<nat>)
  {
    forall i, j :: 0 <= i < j < |s| ==> s[i] < s[j]
  }

  /** The numbers in the queue stand for the packets that are in it. */
  ghost predicate StandFor(packets: seq<TQ.Packet>, waiting: seq<nat>, ps: seq<TQ.Packet>)
  {
    |waiting| == |ps| && forall i :: 0 <= i < |ps| ==> waiting[i] < |packets| && packets[waiting[i]] == ps[i]
  }

  /**
   Every packet that was queued is still waiting, or was sealed once, or waited too long, or was cleared away; those
   sealed and those waiting are in the order in which they came.
   */
  ghost predicate LogOk(log: Log, ps: seq<TQ.Packet>, clock: nat)
  {
    && StandFor(log.packets, log.waiting, ps)
    && Increasing(log.sealed + log.waiting)
    && (forall p :: p in log.packets ==> p.packetType == DATA || p.packetType == RELAY_DATA)
    && (forall n :: n in log.sealed ==> n < |log.packets|)
    && (forall n :: n in log.expired ==> n < |log.packets| && TQ.Expired(log.packets[n], clock))
    && (forall n: nat :: n < |log.packets| <==> n in log.sealed || n in log.waiting || n in log.expired || n in log.cleared)
    && (forall n :: n in log.expired || n in log.cleared ==> n !in log.sealed && n !in log.waiting)
    && log.expired !! log.cleared
  }

  /** The numbers of the packets that are not expired. */
  function FreshOf(packets: seq<TQ.Packet>, waiting: seq<nat>, now: nat): (r: seq<nat>)
    requires forall i :: 0 <= i < |waiting| ==> waiting[i] < |packets|
    ensures forall n :: n in r <==> n in waiting && !TQ.Expired(packets[n], now)
  {
    if waiting == [] then []
    else (if TQ.Expired(packets[waiting[0]], now) then [] else [waiting[0]]) + FreshOf(packets, waiting[1..], now)
  }

  lemma {:induction false} FreshStandFor(packets: seq<TQ.Packet>, waiting: seq<nat>, ps: seq<TQ.Packet>, now: nat)
    requires StandFor(packets, waiting, ps)
    ensures StandFor(packets, FreshOf(packets, waiting, now), TQ.Fresh(ps, now))
  {
    if waiting != [] {
      FreshStandFor(packets, waiting[1..], ps[1..], now);
      if TQ.Expired(ps[0], now) {
        assert FreshOf(packets, waiting, now) == FreshOf(packets, waiting[1..], now);
      } else {
        OneMoreStandsFor(packets, waiting[0], FreshOf(packets, waiting[1..], now), TQ.Fresh(ps[1..], now));
      }
    }
  }

  lemma OneMoreStandsFor(packets: seq<TQ.Packet>, n: nat, waiting: seq<nat>, ps: seq<TQ.Packet>)
    requires StandFor(packets, waiting, ps) && n < |packets|
    ensures StandFor(packets, [n] + waiting, [packets[n]] + ps)
  {
  }

  lemma {:induction false} FreshIsIncreasing(packets: seq<TQ.Packet>, before: seq<nat>, waiting: seq<nat>, now: nat)
    requires forall i :: 0 <= i < |waiting| ==> waiting[i] < |packets|
    requires Increasing(before + waiting)
    ensures Increasing(before + FreshOf(packets, waiting, now))
    decreases |waiting|
  {
    if waiting != [] {
      var n, rest := waiting[0], waiting[1..];
      assert before + waiting == (before + [n]) + rest;
      if TQ.Expired(packets[n], now) {
        OneLess(before, n, rest);
        FreshIsIncreasing(packets, before, rest, now);
        assert FreshOf(packets, waiting, now) == FreshOf(packets, rest, now);
      } else {
        FreshIsIncreasing(packets, before + [n], rest, now);
        assert before + ([n] + FreshOf(packets, rest, now)) == (before + [n]) + FreshOf(packets, rest, now);
      }
    }
  }

  lemma OneLess(before: seq<nat>, n: nat, rest: seq<nat>)
    requires Increasing(before + [n] + rest)
    ensures Increasing(before + rest)
  {
    var s, t := before + [n] + rest, before + rest;
    forall i, j | 0 <= i < j < |t|
      ensures t[i] < t[j]
    {
      assert t[i] == s[if i < |before| then i else i + 1] && t[j] == s[if j < |before| then j else j + 1];
    }
  }

  /** Packets that have waited too long are dropped. */
  function Swept(log: Log, now: nat): Log
    requires forall i :: 0 <= i < |log.waiting| ==> log.waiting[i] < |log.packets|
  {
    log.(waiting := FreshOf(log.packets, log.waiting, now),
         expired := log.expired + set n | n in log.waiting && TQ.Expired(log.packets[n], now))
  }

  lemma {:induction false} SweepingKeeps(log: Log, ps: seq<TQ.Packet>, clock: nat, now: nat)
    requires LogOk(log, ps, clock) && clock <= now
    ensures LogOk(Swept(log, now), TQ.Fresh(ps, now), now)
  {
    FreshStandFor(log.packets, log.waiting, ps, now);
    FreshIsIncreasing(log.packets, log.sealed, log.waiting, now);
    WaitingIsNotSealed(log.sealed, log.waiting);
  }

  lemma WaitingIsNotSealed(sealed: seq<nat>, waiting: seq<nat>)
    requires Increasing(sealed + waiting)
    ensures forall n :: n in waiting ==> n !in sealed
  {
    forall i, j | 0 <= i < |sealed| && 0 <= j < |waiting|
      ensures sealed[i] != waiting[j]
    {
      assert (sealed + waiting)[i] < (sealed + waiting)[|sealed| + j];
    }
  }

  function Pushed(log: Log, p: TQ.Packet): Log
  {
    log.(packets := log.packets + [p], waiting := log.waiting + [|log.packets|])
  }

  lemma PushingKeeps(log: Log, ps: seq<TQ.Packet>, clock: nat, p: TQ.Packet)
    requires LogOk(log, ps, clock) && (p.packetType == DATA || p.packetType == RELAY_DATA)
    ensures LogOk(Pushed(log, p), ps + [p], clock)
  {
    var after := Pushed(log, p);
    assert after.sealed + after.waiting == log.sealed + log.waiting + [|log.packets|];
    forall i | 0 <= i < |log.sealed + log.waiting|
      ensures (log.sealed + log.waiting)[i] < |log.packets|
    {
      assert (log.sealed + log.waiting)[i] in log.sealed || (log.sealed + log.waiting)[i] in log.waiting;
    }
    forall n: nat
      ensures n < |after.packets| <==>
                n in after.sealed || n in after.waiting || n in after.expired || n in after.cleared
    {
      assert n in after.waiting <==> n in log.waiting || n == |log.packets|;
    }
  }

  /** The oldest packet is sealed. */
  function SentFirst(log: Log): Log
    requires log.waiting != []
  {
    log.(waiting := log.waiting[1..], sealed := log.sealed + [log.waiting[0]])
  }

  lemma SendingKeeps(log: Log, first: TQ.Packet, rest: seq<TQ.Packet>, clock: nat)
    requires LogOk(log, [first] + rest, clock)
    ensures log.waiting != [] && log.packets[log.waiting[0]] == first
    ensures LogOk(SentFirst(log), rest, clock)
  {
    var after := SentFirst(log);
    assert after.sealed + after.waiting == log.sealed + log.waiting;
    forall n: nat
      ensures n in log.sealed || n in log.waiting <==> n in after.sealed || n in after.waiting
    {
      assert log.waiting == [log.waiting[0]] + log.waiting[1..];
    }
    forall i | 0 <= i < |rest|
      ensures after.waiting[i] < |log.packets| && log.packets[after.waiting[i]] == rest[i]
    {
      assert ([first] + rest)[i + 1] == rest[i];
    }
  }

  function ClearedAway(log: Log): Log
  {
    log.(waiting := [], cleared := log.cleared + set n | n in log.waiting)
  }

  lemma ClearingKeeps(log: Log, ps: seq<TQ.Packet>, clock: nat)
    requires LogOk(log, ps, clock)
    ensures LogOk(ClearedAway(log), [], clock)
  {
    WaitingIsNotSealed(log.sealed, log.waiting);
    var s, t := log.sealed + log.waiting, log.sealed + [];
    forall i, j | 0 <= i < j < |t|
      ensures t[i] < t[j]
    {
      assert t[i] == s[i] && t[j] == s[j];
    }
  }

  lemma LaterKeeps(log: Log, ps: seq<TQ.Packet>, clock: nat, now: nat)
    requires LogOk(log, ps, clock) && clock <= now
    ensures LogOk(log, ps, now)
  {
  }

  /** No packet that waited is sealed twice, and none before one that came earlier. */
  lemma SealedOnceInOrder(log: Log, ps: seq<TQ.Packet>, clock: nat, i: nat, j: nat)
    requires LogOk(log, ps, clock) && i < j < |log.sealed|
    ensures log.sealed[i] < log.sealed[j] < |log.packets|
  {
    assert (log.sealed + log.waiting)[i] < (log.sealed + log.waiting)[j];
    assert log.sealed[j] in log.sealed;
  }
}

/** One peer's handshakes: two initiations may be in flight, and each is answered at most once. */
module Handshakes {
  import opened Wrappers
  import opened Messages
  import opened NoiseKeys

  /** A TAI64N timestamp: seconds and nanoseconds. */
  datatype Tai64N = Tai64N(secs: nat, nano: nat)
  {
    predicate After(other: Tai64N)
    {
      secs > other.secs || (secs == other.secs && nano > other.nano)
    }
  }

  function FromBe(bytes: Bytes): nat
  {
    if bytes == [] then 0 else 256 * FromBe(bytes[..|bytes| - 1]) + bytes[|bytes| - 1]
  }

  const TIMESTAMP_LEN: nat := 12

  /** How many sessions a tunnel keeps, each in the slot of its index. */
  const N_SESSIONS: nat := 3

  function ParseTimestamp(bytes: Bytes): Tai64N
    requires |bytes| == TIMESTAMP_LEN
  {
    Tai64N(FromBe(bytes[..8]), FromBe(bytes[8..]))
  }

  /** The first string has the larger byte where the two first differ. */
  ghost predicate Above(a: Bytes, b: Bytes)
    requires |a| == |b|
  {
    exists k :: AboveAt(a, b, k)
  }

  ghost predicate AboveAt(a: Bytes, b: Bytes, k: int)
    requires |a| == |b|
  {
    0 <= k < |a| && a[..k] == b[..k] && a[k] > b[k]
  }

  lemma AboveByLast(a: Bytes, b: Bytes)
    requires |a| == |b| > 0
    ensures var n := |a| - 1; Above(a, b) <==> Above(a[..n], b[..n]) || (a[..n] == b[..n] && a[n] > b[n])
  {
    var n := |a| - 1;
    var x, y := a[..n], b[..n];
    forall k | 0 <= k < n
      ensures AboveAt(a, b, k) <==> AboveAt(x, y, k)
    {
      assert a[..k] == x[..k] && b[..k] == y[..k];
    }
    assert AboveAt(a, b, n) <==> x == y && a[n] > b[n];
  }

  lemma {:induction false} BigEndianOrder(a: Bytes, b: Bytes)
    requires |a| == |b|
    ensures FromBe(a) > FromBe(b) <==> Above(a, b)
    ensures FromBe(a) == FromBe(b) <==> a == b
  {
    if a != [] {
      var n := |a| - 1;
      BigEndianOrder(a[..n], b[..n]);
      AboveByLast(a, b);
      assert a == a[..n] + [a[n]] && b == b[..n] + [b[n]];
    }
  }

  /** One timestamp is after another exactly if it is so byte by byte, from the front. */
  lemma AfterIsBytewise(a: Bytes, b: Bytes)
    requires |a| == |b| == TIMESTAMP_LEN
    ensures ParseTimestamp(a).After(ParseTimestamp(b)) <==> Above(a, b)
  {
    BigEndianOrder(a[..8], b[..8]);
    BigEndianOrder(a[8..], b[8..]);
    AboveInHalves(a, b, 8);
  }

  lemma AboveInHalves(a: Bytes, b: Bytes, m: nat)
    requires m <= |a| == |b|
    ensures Above(a, b) <==> Above(a[..m], b[..m]) || (a[..m] == b[..m] && Above(a[m..], b[m..]))
  {
    forall k | 0 <= k < m
      ensures AboveAt(a, b, k) <==> AboveAt(a[..m], b[..m], k)
    {
      assert a[..m][..k] == a[..k] && b[..m][..k] == b[..k];
    }
    forall k | m <= k < |a|
      ensures AboveAt(a, b, k) <==> a[..m] == b[..m] && AboveAt(a[m..], b[m..], k - m)
    {
      assert a[..k] == a[..m] + a[m..][..k - m] && b[..k] == b[..m] + b[m..][..k - m];
    }
    if k :| AboveAt(a[m..], b[m..], k) && a[..m] == b[..m] {
      assert AboveAt(a, b, m + k);
    }
  }

  /** The local index after `index`: the peer's 24 bits stay, the session's 8 bits go round. */
  function NextIndex(index: U32): (r: U32)
    ensures r / 256 == index / 256 && r % 256 == (index % 256 + 1) % 256
  {
    index / 256 * 256 + (index % 256 + 1) % 256
  }

  datatype InitSentState = InitSentState(localIndex: U32, transcript: Transcript, ephemeralPrivate: Bytes, timeSent: nat)

  datatype HandshakeState =
    | NoHandshake
    | InitSent(sent: InitSentState)
    | InitReceived(transcript: Transcript, peerEphemeralPublic: Bytes, peerIndex: U32)
    | Expired

  /** What a response may answer. */
  function Awaited(state: HandshakeState, receiverIdx: U32): Option<InitSentState>
  {
    if state.InitSent? && state.sent.localIndex == receiverIdx then Some(state.sent) else None
  }

  class Handshake {
    const crypto: Crypto
    const params: Params
    const peerIndex: nat
    var nextLocalIndex: U32
    var previous: HandshakeState
    var state: HandshakeState
    var lastHandshakeTimestamp: Tai64N
    /** Every initiation sent so far, and which of them were answered. */
    ghost var sent: seq<InitSentState>
    ghost var answered: set<nat>
    /** The number of the initiation in each of the two slots. */
    ghost var current: nat
    ghost var former: nat
    /** The timestamps of the initiations accepted so far. */
    ghost var accepted: seq<Tai64N>

    ghost predicate Valid()
      reads this
    {
      && nextLocalIndex / 256 == peerIndex && !state.InitReceived?
      && Waiting(state, current, sent, answered) && Waiting(previous, former, sent, answered)
      && (state.InitSent? ==> nextLocalIndex == NextIndex(state.sent.localIndex))
      && (state.InitSent? && previous.InitSent? ==>
            current != former && state.sent.localIndex == NextIndex(previous.sent.localIndex))
      && (forall i :: i in answered ==> i < |sent|)
      && (forall i :: 0 <= i < |sent| ==> sent[i].localIndex / 256 == peerIndex)
      && Increasing(accepted)
      && lastHandshakeTimestamp == if accepted == [] then Tai64N(0, 0) else accepted[|accepted| - 1]
    }

    constructor (crypto: Crypto, params: Params, peerIndex: nat)
      requires peerIndex < 0x100_0000
      ensures Valid() && sent == [] && answered == {} && accepted == []
      ensures state == previous == NoHandshake && !IsInProgress() && nextLocalIndex == peerIndex * 256
      ensures this.crypto == crypto && this.params == params && this.peerIndex == peerIndex
    {
      this.crypto, this.params, this.peerIndex := crypto, params, peerIndex;
      nextLocalIndex := peerIndex * 256;
      previous, state := NoHandshake, NoHandshake;
      lastHandshakeTimestamp := Tai64N(0, 0);
      sent, answered, current, former, accepted := [], {}, 0, 0, [];
    }

    /** The index for a new session; it keeps the peer's 24 bits. */
    method AllocateLocalIndex() returns (index: U32)
      modifies this`nextLocalIndex
      ensures index == old(nextLocalIndex) && nextLocalIndex == NextIndex(index)
    {
      index := nextLocalIndex;
      nextLocalIndex := index / 256 * 256 + (index % 256 + 1) % 256;
    }

    predicate IsInProgress()
      reads this
    {
      !(state.NoHandshake? || state.Expired?)
    }

    /** When the initiation in flight was sent. */
    function Timer(): Option<nat>
      reads this
    {
      if state.InitSent? then Some(state.sent.timeSent) else None
    }

    /** The initiation sent next. */
    ghost function NextInitiation(ephemeralPrivate: Bytes, timestamp: Bytes): InitMessage
      reads this
    {
      Initiate(crypto, params, ephemeralPrivate, nextLocalIndex, timestamp).0
    }

    /** What an initiation gets for an answer: nothing unless it is genuine and newer than all before. */
    ghost function Answer(m: InitMessage, ephemeralPrivate: Bytes): Result<(ResponseMessage, SessionKeys), NoiseError>
      requires ReadInitiation(crypto, params, m).Ok? ==> |ReadInitiation(crypto, params, m).value.0| == TIMESTAMP_LEN
      reads this
    {
      var read := ReadInitiation(crypto, params, m);
      if read.Err? then Err(read.error)
      else if !ParseTimestamp(read.value.0).After(lastHandshakeTimestamp) then Err(WrongTimestamp)
      else Ok(Respond(crypto, params, read.value.1, m.ephemeral, m.senderIdx, ephemeralPrivate, nextLocalIndex))
    }

    /** The session a response completes, if it answers an initiation in flight. */
    ghost function Completed(m: ResponseMessage): Result<SessionKeys, NoiseError>
      reads this
    {
      var s := if Awaited(state, m.receiverIdx).Some? then Awaited(state, m.receiverIdx) else Awaited(previous, m.receiverIdx);
      if s.None? then Err(UnexpectedPacket)
      else ReadResponse(crypto, params, s.value.transcript, s.value.ephemeralPrivate, s.value.localIndex, m)
    }

    method SetExpired()
      requires Valid()
      modifies this`previous, this`state
      ensures Valid() && previous == Expired && state == Expired && !IsInProgress()
    {
      previous, state := Expired, Expired;
    }

    /** Starts a handshake; the one in flight stays answerable in the second slot. */
    method FormatHandshakeInitiation(ephemeralPrivate: Bytes, timestamp: Bytes, now: nat) returns (m: InitMessage)
      requires Valid()
      modifies this`nextLocalIndex, this`previous, this`state, this`sent, this`current, this`former
      ensures Valid()
      ensures m == old(NextInitiation(ephemeralPrivate, timestamp))
      ensures m == Initiate(crypto, params, ephemeralPrivate, m.senderIdx, timestamp).0
      ensures m.senderIdx == old(nextLocalIndex) && m.senderIdx / 256 == peerIndex
      ensures previous == old(state) && former == old(current) && state.InitSent? && IsInProgress() && Timer() == Some(now)
      ensures state.sent.localIndex == m.senderIdx && state.sent.ephemeralPrivate == ephemeralPrivate
      ensures state.sent.transcript == Initiate(crypto, params, ephemeralPrivate, m.senderIdx, timestamp).1
      ensures sent == old(sent) + [state.sent] && current == |old(sent)|
    {
      var localIndex := AllocateLocalIndex();
      var (message, transcript) := Initiate(crypto, params, ephemeralPrivate, localIndex, timestamp);
      previous, former := state, current;
      var s := InitSentState(localIndex, transcript, ephemeralPrivate, now);
      state := InitSent(s);
      sent, current := sent + [s], |sent|;
      return message;
    }

    /** Accepts an initiation newer than all before and answers it. */
    method ReceiveHandshakeInitialization(m: InitMessage, ephemeralPrivate: Bytes)
      returns (r: Result<(ResponseMessage, SessionKeys), NoiseError>)
      requires Valid()
      requires ReadInitiation(crypto, params, m).Ok? ==> |ReadInitiation(crypto, params, m).value.0| == TIMESTAMP_LEN
      modifies this`nextLocalIndex, this`previous, this`state, this`lastHandshakeTimestamp, this`accepted, this`former
      ensures Valid()
      ensures var read := ReadInitiation(crypto, params, m);
              r == if read.Err? then Err(read.error)
                   else if !ParseTimestamp(read.value.0).After(old(lastHandshakeTimestamp)) then Err(WrongTimestamp)
                   else Ok(Respond(crypto, params, read.value.1, m.ephemeral, m.senderIdx, ephemeralPrivate, old(nextLocalIndex)))
      ensures r == old(Answer(m, ephemeralPrivate))
      ensures r.Ok? ==> previous == old(state) && state == NoHandshake && nextLocalIndex == NextIndex(old(nextLocalIndex))
      ensures r.Ok? ==> accepted == old(accepted) + [ParseTimestamp(ReadInitiation(crypto, params, m).value.0)]
      ensures r.Err? ==> previous == old(previous) && state == old(state) && former == old(former) &&
                         accepted == old(accepted) && nextLocalIndex == old(nextLocalIndex)
    {
      var read := ReadInitiation(crypto, params, m);
      if read.Err? {
        return Err(read.error);
      }
      var timestamp := ParseTimestamp(read.value.0);
      if !timestamp.After(lastHandshakeTimestamp) {
        return Err(WrongTimestamp);
      }
      var response, session := AcceptInitiation(read.value.1, m.ephemeral, m.senderIdx, timestamp, ephemeralPrivate);
      return Ok((response, session));
    }

    /** Takes a genuine initiation in and answers it; an initiation of ours in flight moves to the second slot. */
    method AcceptInitiation(transcript: Transcript, ephemeral: Bytes, senderIdx: U32, timestamp: Tai64N, ephemeralPrivate: Bytes)
      returns (response: ResponseMessage, session: SessionKeys)
      requires Valid() && timestamp.After(lastHandshakeTimestamp)
      modifies this`nextLocalIndex, this`previous, this`state, this`lastHandshakeTimestamp, this`accepted, this`former
      ensures Valid()
      ensures (response, session) == Respond(crypto, params, transcript, ephemeral, senderIdx, ephemeralPrivate, old(nextLocalIndex))
      ensures previous == old(state) && state == NoHandshake && nextLocalIndex == NextIndex(old(nextLocalIndex))
      ensures accepted == old(accepted) + [timestamp]
    {
      lastHandshakeTimestamp := timestamp;
      accepted := accepted + [timestamp];
      previous, former := state, current;
      state := InitReceived(transcript, ephemeral, senderIdx);
      response, session := FormatHandshakeResponse(ephemeralPrivate);
    }

    method FormatHandshakeResponse(ephemeralPrivate: Bytes) returns (response: ResponseMessage, session: SessionKeys)
      requires state.InitReceived?
      modifies this`nextLocalIndex, this`state
      ensures state == NoHandshake && nextLocalIndex == NextIndex(old(nextLocalIndex))
      ensures var s := old(state);
              (response, session) == Respond(crypto, params, s.transcript, s.peerEphemeralPublic, s.peerIndex,
                                             ephemeralPrivate, old(nextLocalIndex))
    {
      var s := state;
      state := NoHandshake;
      var localIndex := AllocateLocalIndex();
      var r := Respond(crypto, params, s.transcript, s.peerEphemeralPublic, s.peerIndex, ephemeralPrivate, localIndex);
      return r.0, r.1;
    }

    /** Completes whichever initiation a response answers; that one is then answered for good. */
    method ReceiveHandshakeResponse(m: ResponseMessage) returns (r: Result<SessionKeys, NoiseError>)
      requires Valid()
      modifies this`previous, this`state, this`answered
      ensures Valid()
      ensures var s, q := old(state), old(previous);
              r == if s.InitSent? && s.sent.localIndex == m.receiverIdx
                   then ReadResponse(crypto, params, s.sent.transcript, s.sent.ephemeralPrivate, m.receiverIdx, m)
                   else if q.InitSent? && q.sent.localIndex == m.receiverIdx
                   then ReadResponse(crypto, params, q.sent.transcript, q.sent.ephemeralPrivate, m.receiverIdx, m)
                   else Err(UnexpectedPacket)
      ensures r == old(Completed(m))
      ensures r.Err? ==> state == old(state) && previous == old(previous) && answered == old(answered)
      ensures r.Ok? ==>
                exists i :: 0 <= i < |sent| && i !in old(answered) && answered == old(answered) + {i} &&
                            sent[i].localIndex == m.receiverIdx == r.value.localIndex
      ensures r.Ok? ==>
                if Awaited(old(state), m.receiverIdx).Some? then state == NoHandshake && previous == old(previous)
                else state == old(state) && previous == NoHandshake
    {
      var s := Awaited(state, m.receiverIdx);
      if s.None? {
        s := Awaited(previous, m.receiverIdx);
      }
      if s.None? {
        return Err(UnexpectedPacket);
      }
      r := ReadResponse(crypto, params, s.value.transcript, s.value.ephemeralPrivate, s.value.localIndex, m);
      if r.Err? {
        return;
      }
      if Awaited(state, m.receiverIdx).Some? {
        answered := answered + {current};
        state := NoHandshake;
      } else {
        answered := answered + {former};
        previous := NoHandshake;
      }
    }
  }

  /** An initiation still in a slot was sent and has not been answered. */
  ghost predicate Waiting(state: HandshakeState, n: nat, sent: seq<InitSentState>, answered: set<nat>)
  {
    state.InitSent? ==> n < |sent| && sent[n] == state.sent && n !in answered
  }

  /** Replayed and outdated initiations were refused. */
  ghost predicate Increasing(timestamps: seq<Tai64N>)
  {
    forall i {:trigger timestamps[i]} :: 0 <= i < |timestamps| - 1 ==> timestamps[i + 1].After(timestamps[i])
  }

  /** No initiation is accepted twice, however they are replayed. */
  lemma {:induction false} AcceptedOnce(timestamps: seq<Tai64N>, i: nat, j: nat)
    requires Increasing(timestamps) && i < j < |timestamps|
    ensures timestamps[j].After(timestamps[i]) && timestamps[i] != timestamps[j]
  {
    assert timestamps[j - 1 + 1].After(timestamps[j - 1]);
    if i < j - 1 {
      AcceptedOnce(timestamps, i, j - 1);
    }
  }

  /**
   Consecutive sessions go to different slots of a ring of three except exactly where the session byte wraps, and a
   session and the next but one always do.
   */
  lemma NextSlot(index: U32)
    ensures NextIndex(index) % 3 == index % 3 <==> index % 256 == 255
    ensures NextIndex(NextIndex(index)) % 3 != index % 3
  {
    NextTwo(index);
    SameSlot(index, NextIndex(index), 1, if index % 256 == 255 then 1 else 0);
    SameSlot(index, NextIndex(NextIndex(index)), 2, if index % 256 >= 254 then 1 else 0);
  }

  /** The local index after `k` more were taken. */
  function IndexAfter(index: U32, k: nat): (r: U32)
  {
    if k == 0 then index else NextIndex(IndexAfter(index, k - 1))
  }

  lemma {:induction false} IndexAfterIs(index: U32, k: nat)
    ensures IndexAfter(index, k) / 256 == index / 256 && IndexAfter(index, k) % 256 == (index % 256 + k) % 256
  {
    if k > 0 {
      IndexAfterIs(index, k - 1);
      RoundAgain(index % 256 + k - 1);
    }
  }

  lemma {:induction false} IndexAfterAdds(index: U32, k: nat, l: nat)
    ensures IndexAfter(IndexAfter(index, k), l) == IndexAfter(index, k + l)
  {
    if l > 0 {
      IndexAfterAdds(index, k, l - 1);
    }
  }

  lemma RoundAgain(x: nat)
    ensures (x % 256 + 1) % 256 == (x + 1) % 256
  {
  }

  /** Whether an index and the one `k` later fall into the same slot of three; see `SlotAfter`. */
  predicate SharesSlot(index: U32, k: nat)
  {
    k % 3 == (index % 256 + k) / 256 % 3
  }

  /**
   Two local indices `k` apart fall into the same slot of three exactly if `k` and the number of times the session byte
   has gone round in between leave the same remainder, as 256 leaves the remainder 1.
   */
  lemma {:induction false} SlotAfter(index: U32, k: nat)
    ensures IndexAfter(index, k) % 3 == index % 3 <==> SharesSlot(index, k)
  {
    IndexAfterIs(index, k);
    SameSlot(index, IndexAfter(index, k), k, (index % 256 + k) / 256);
  }

  lemma SameSlot(x: nat, y: nat, k: nat, rounds: nat)
    requires y + 256 * rounds == x + k
    ensures y % 3 == x % 3 <==> k % 3 == rounds % 3
  {
  }

  lemma NextTwo(index: U32)
    ensures NextIndex(index) == if index % 256 == 255 then index - 255 else index + 1
    ensures NextIndex(NextIndex(index)) == if index % 256 >= 254 then index - 254 else index + 2
  {
  }
}

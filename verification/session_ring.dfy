/** The tunnel's ring of sessions, and what each operation does to it, to the handshake and to the timers. */
module SessionRing {
  import opened Wrappers
  import opened Messages
  import opened NoiseKeys
  import opened Handshakes
  import opened TunnelTimers
  import IpFraming

  /** When each event last happened, counted from the start of the tunnel. */
  type Timers = TimerName -> nat

  /** A packet sealed by the current session, or queued, with the initiation sent for it if none was in flight. */
  datatype Encapsulation = Sealed(session: SessionKeys) | Queued(initiation: Option<InitMessage>)

  datatype DataError = NoCurrentSession | WrongIndex | Refused

  class Tunnel {
    const handshake: Handshake
    var sessions: seq<Option<SessionKeys>>
    var current: nat
    var timers: Timers
    var sessionTimers: seq<nat>
    var isInitiator: bool
    var wantKeepalive: bool
    var wantHandshake: bool
    var sendInitialKeepalive: bool
    var persistentKeepalive: nat
    var hasCookie: bool
    /** The real time, and when each session was really established. */
    ghost var clock: nat
    ghost var establishedAt: seq<nat>

    /** Ring, timers and handshake are each in order. */
    ghost predicate InOrder()
      reads this, handshake
    {
      && handshake.Valid() && TimersOk(timers, clock)
      && RingOk(sessions, sessionTimers, establishedAt, current, timers(TimeCurrent), clock, handshake.peerIndex)
    }

    ghost predicate Valid()
      reads this, handshake
    {
      InOrder() && TimerView().Ok()
    }

    function TimerView(): View
      reads this, handshake
    {
      View(timers(TimeCurrent), timers(TimeSessionEstablished), timers(TimeLastHandshakeStarted),
           timers(TimeLastPacketReceived), timers(TimeLastPacketSent), timers(TimeLastDataPacketReceived),
           timers(TimeLastDataPacketSent), timers(TimePersistentKeepalive), persistentKeepalive, isInitiator,
           wantHandshake, wantKeepalive, sendInitialKeepalive, handshake.Timer(), handshake.state.Expired?)
    }

    /** Whether the current session can seal another packet. */
    predicate Usable(exhausted: bool)
      requires |sessions| == N_SESSIONS
      reads this
    {
      sessions[current % N_SESSIONS].Some? && !exhausted
    }

    constructor (crypto: Crypto, params: Params, peerIndex: nat, keepalive: Option<nat>)
      requires peerIndex < 0x100_0000
      ensures Valid() && fresh(handshake) && clock == 0
      ensures handshake.crypto == crypto && handshake.params == params && handshake.peerIndex == peerIndex
      ensures handshake.sent == [] && handshake.answered == {} && handshake.accepted == []
      ensures sessions == [None, None, None] && sessionTimers == establishedAt == [0, 0, 0] && current == 0 && !hasCookie
      // all timers at zero, nothing wanted but the first persistent keepalive
      ensures var interval := if keepalive.Some? then keepalive.value else 0;
              TimerView() == View(0, 0, 0, 0, 0, 0, 0, 0, interval, false, false, false, interval > 0, None, false)
    {
      handshake := new Handshake(crypto, params, peerIndex);
      sessions := [None, None, None];
      current := 0;
      timers := _ => 0;
      sessionTimers := [0, 0, 0];
      isInitiator, wantKeepalive, wantHandshake, hasCookie := false, false, false, false;
      persistentKeepalive := if keepalive.Some? then keepalive.value else 0;
      sendInitialKeepalive := keepalive.Some? && keepalive.value > 0;
      clock, establishedAt := 0, [0, 0, 0];
    }

    method TimerTick(name: TimerName)
      requires TimersOk(timers, clock)
      modifies this`timers, this`wantKeepalive, this`wantHandshake
      ensures TimersOk(timers, clock) && timers(name) == timers(TimeCurrent) == old(timers)(TimeCurrent)
      ensures TimerView() == old(TimerView()).Ticked(name)
    {
      match name {
        case TimeLastPacketReceived =>
          wantKeepalive := true;
          wantHandshake := false;
        case TimeLastPacketSent =>
          wantHandshake := true;
          wantKeepalive := false;
        case _ =>
      }
      timers := Ticked(timers, name);
    }

    method TimerTickSessionEstablished(initiator: bool, index: nat)
      requires TimersOk(timers, clock) && |sessionTimers| == N_SESSIONS
      modifies this`timers, this`wantKeepalive, this`wantHandshake, this`sessionTimers, this`isInitiator
      ensures TimersOk(timers, clock) && timers(TimeCurrent) == old(timers)(TimeCurrent)
      ensures sessionTimers == old(sessionTimers)[index % N_SESSIONS := timers(TimeCurrent)]
      ensures TimerView() == old(TimerView()).Ticked(TimeSessionEstablished).(isInitiator := initiator)
    {
      TimerTick(TimeSessionEstablished);
      sessionTimers := sessionTimers[index % N_SESSIONS := timers(TimeCurrent)];
      isInitiator := initiator;
    }

    /**
     Moves on to the session of `index`, if that is not to leave a newer one: whichever of the two was established
     later becomes or stays current, the new one if they are of one age or there is no current session.
     */
    method SetCurrentSession(index: nat)
      requires |sessions| == |sessionTimers| == N_SESSIONS
      modifies this`current
      ensures current == if sessions[old(current) % N_SESSIONS].None? ||
                            sessionTimers[index % N_SESSIONS] >= sessionTimers[old(current) % N_SESSIONS]
                         then index else old(current)
      ensures sessions[index % N_SESSIONS].Some? && NewestIsCurrent(sessions, sessionTimers, old(current)) ==>
                NewestIsCurrent(sessions, sessionTimers, current)
    {
      if current == index {
        return;
      }
      if sessions[current % N_SESSIONS].None? ||
         sessionTimers[index % N_SESSIONS] >= sessionTimers[current % N_SESSIONS] {
        current := index;
      }
    }

    /** Puts a fresh session into the ring, timed from now, and makes it the current one. */
    method Establish(session: SessionKeys, initiator: bool, now: nat)
      requires InOrder() && clock <= now && session.localIndex / 256 == handshake.peerIndex
      modifies this
      ensures InOrder() && clock == now && current == session.localIndex
      ensures sessions == old(sessions)[session.localIndex % N_SESSIONS := Some(session)]
      ensures establishedAt == old(establishedAt)[session.localIndex % N_SESSIONS := now]
      ensures sessionTimers == old(sessionTimers)[session.localIndex % N_SESSIONS := timers(TimeCurrent)]
      ensures TimerView() == old(TimerView()).Opened(initiator, true)
    {
      StoreSession(session, now);
      EstablishTimers(initiator, if initiator then session.localIndex % N_SESSIONS else session.localIndex);
      LatestTakesOver(sessionTimers, timers(TimeCurrent), session.localIndex, current);
      SetCurrentSession(session.localIndex);
    }

    /** Establishes the session of a handshake just completed, with the initiation it answered no longer in flight. */
    method Open(session: SessionKeys, initiator: bool, ghost keeps: bool, now: nat, ghost before: View)
      requires InOrder() && clock <= now && session.localIndex / 256 == handshake.peerIndex
      requires before.Ok()
      requires TimerView() == before.(initSentAt := if keeps then before.initSentAt else None, expired := keeps && before.expired)
      modifies this
      ensures Valid() && clock == now && current == session.localIndex
      ensures sessions == old(sessions)[session.localIndex % N_SESSIONS := Some(session)]
      ensures establishedAt == old(establishedAt)[session.localIndex % N_SESSIONS := now]
      ensures TimerView() == before.Opened(initiator, keeps)
    {
      OpeningIsOk(before, initiator, keeps);
      Establish(session, initiator, now);
    }

    method StoreSession(session: SessionKeys, now: nat)
      requires InOrder() && clock <= now && session.localIndex / 256 == handshake.peerIndex
      modifies this`sessions, this`establishedAt, this`clock
      ensures sessions == old(sessions)[session.localIndex % N_SESSIONS := Some(session)]
      ensures establishedAt == old(establishedAt)[session.localIndex % N_SESSIONS := now] && clock == now
      ensures RingOk(sessions, sessionTimers[session.localIndex % N_SESSIONS := timers(TimeCurrent)], establishedAt,
                     session.localIndex, timers(TimeCurrent), clock, handshake.peerIndex)
    {
      RingTakesIn(sessions, sessionTimers, establishedAt, current, timers(TimeCurrent), clock, handshake.peerIndex, now, session);
      sessions := sessions[session.localIndex % N_SESSIONS := Some(session)];
      establishedAt := establishedAt[session.localIndex % N_SESSIONS := now];
      clock := now;
    }

    method EstablishTimers(initiator: bool, index: nat)
      requires TimersOk(timers, clock) && |sessionTimers| == N_SESSIONS
      modifies this`timers, this`wantKeepalive, this`wantHandshake, this`sessionTimers, this`isInitiator
      ensures TimersOk(timers, clock) && timers(TimeCurrent) == old(timers)(TimeCurrent)
      ensures TimerView() == old(TimerView()).Opened(initiator, true)
      ensures sessionTimers == old(sessionTimers)[index % N_SESSIONS := timers(TimeCurrent)]
    {
      TimerTick(TimeLastPacketReceived);
      if !initiator {
        TimerTick(TimeLastPacketSent);
      }
      TimerTickSessionEstablished(initiator, index);
    }

    /** Answers an initiation; the session it opens is at once the current one. */
    method HandleHandshakeInit(m: InitMessage, ephemeralPrivate: Bytes, now: nat) returns (r: Result<ResponseMessage, NoiseError>)
      requires Valid() && clock <= now
      requires ReadInitiation(handshake.crypto, handshake.params, m).Ok? ==>
                 |ReadInitiation(handshake.crypto, handshake.params, m).value.0| == TIMESTAMP_LEN
      modifies this, handshake
      ensures Valid() && clock == if r.Ok? then now else old(clock)
      ensures var answer := old(handshake.Answer(m, ephemeralPrivate));
              if answer.Err? then r == Err(answer.error)
              else r == Ok(answer.value.0) && sessions[current % N_SESSIONS] == Some(answer.value.1)
      ensures r.Ok? ==>
                && current == r.value.senderIdx == old(handshake.nextLocalIndex)
                && sessions[current % N_SESSIONS].Some? && sessions[current % N_SESSIONS].value.localIndex == current
                && sessions == old(sessions)[current % N_SESSIONS := sessions[current % N_SESSIONS]]
                && establishedAt == old(establishedAt)[current % N_SESSIONS := now]
                && TimerView() == old(TimerView()).Opened(false, false)
                && handshake.accepted == old(handshake.accepted) + [handshake.lastHandshakeTimestamp]
      ensures r.Err? ==>
                && sessions == old(sessions) && current == old(current) && establishedAt == old(establishedAt)
                && TimerView() == old(TimerView()) && handshake.accepted == old(handshake.accepted)
    {
      ghost var before := TimerView();
      var received := ReceiveInit(m, ephemeralPrivate);
      if received.Err? {
        return Err(received.error);
      }
      var (response, session) := received.value;
      Open(session, false, false, now, before);
      return Ok(response);
    }

    method ReceiveInit(m: InitMessage, ephemeralPrivate: Bytes) returns (r: Result<(ResponseMessage, SessionKeys), NoiseError>)
      requires handshake.Valid()
      requires ReadInitiation(handshake.crypto, handshake.params, m).Ok? ==>
                 |ReadInitiation(handshake.crypto, handshake.params, m).value.0| == TIMESTAMP_LEN
      modifies handshake
      ensures handshake.Valid() && r == old(handshake.Answer(m, ephemeralPrivate))
      ensures r.Ok? ==>
                && r.value.0.senderIdx == r.value.1.localIndex == old(handshake.nextLocalIndex)
                && r.value.1.localIndex / 256 == handshake.peerIndex && handshake.state == NoHandshake
                && handshake.accepted == old(handshake.accepted) + [handshake.lastHandshakeTimestamp]
      ensures r.Err? ==> handshake.state == old(handshake.state) && handshake.accepted == old(handshake.accepted)
    {
      r := handshake.ReceiveHandshakeInitialization(m, ephemeralPrivate);
    }

    /** Completes a handshake of ours; the session it opens is at once the current one. */
    method HandleHandshakeResponse(m: ResponseMessage, now: nat) returns (r: Result<SessionKeys, NoiseError>)
      requires Valid() && clock <= now
      modifies this, handshake
      ensures Valid() && clock == if r.Ok? then now else old(clock)
      ensures r == old(handshake.Completed(m))
      ensures r.Ok? ==>
                && current == r.value.localIndex == m.receiverIdx && r.value.peerIndex == m.senderIdx
                && sessions == old(sessions)[current % N_SESSIONS := Some(r.value)]
                && establishedAt == old(establishedAt)[current % N_SESSIONS := now]
                && TimerView() == old(TimerView()).Opened(true, old(Awaited(handshake.state, m.receiverIdx).None?))
                && exists i :: i !in old(handshake.answered) && handshake.answered == old(handshake.answered) + {i}
      ensures r.Err? ==>
                && sessions == old(sessions) && current == old(current) && establishedAt == old(establishedAt)
                && TimerView() == old(TimerView()) && handshake.answered == old(handshake.answered)
    {
      ghost var before, keeps := TimerView(), Awaited(handshake.state, m.receiverIdx).None?;
      r := ReceiveResponse(m);
      if r.Ok? {
        Open(r.value, true, keeps, now, before);
      }
    }

    method ReceiveResponse(m: ResponseMessage) returns (r: Result<SessionKeys, NoiseError>)
      requires handshake.Valid()
      modifies handshake
      ensures handshake.Valid() && r == old(handshake.Completed(m))
      ensures r.Ok? ==>
                && r.value.localIndex == m.receiverIdx && r.value.peerIndex == m.senderIdx
                && r.value.localIndex / 256 == handshake.peerIndex
                && handshake.state == (if old(Awaited(handshake.state, m.receiverIdx)).Some? then NoHandshake else old(handshake.state))
                && exists i :: i !in old(handshake.answered) && handshake.answered == old(handshake.answered) + {i}
      ensures r.Err? ==> handshake.state == old(handshake.state) && handshake.answered == old(handshake.answered)
    {
      r := handshake.ReceiveHandshakeResponse(m);
    }

    /** Starts a handshake, or with `forceResend` starts it over; retries are timed from the first attempt. */
    method FormatHandshakeInitiation(forceResend: bool, ephemeralPrivate: Bytes, timestamp: Bytes, now: nat)
      returns (m: Option<InitMessage>)
      requires InOrder() && clock <= now
      modifies this`timers, this`wantHandshake, this`wantKeepalive, this`sendInitialKeepalive, this`clock, handshake
      ensures InOrder() && (old(Valid()) ==> Valid()) && clock == if m.Some? then now else old(clock)
      ensures m.None? <==> old(handshake.IsInProgress()) && !forceResend
      ensures TimerView() == old(TimerView()).Initiated(forceResend, now)
      ensures m.None? ==> handshake.state == old(handshake.state)
      ensures m.Some? ==> handshake.previous == old(handshake.state) && m.value.senderIdx == handshake.state.sent.localIndex
      ensures m.Some? ==> m.value == old(handshake.NextInitiation(ephemeralPrivate, timestamp))
      ensures handshake.answered == old(handshake.answered) && handshake.accepted == old(handshake.accepted)
    {
      ghost var before := TimerView();
      if handshake.IsInProgress() && !forceResend {
        return None;
      }
      if before.Ok() {
        InitiationIsOk(before, forceResend, now);
      }
      ClearExpired(now);
      var message := SendInitiation(ephemeralPrivate, timestamp, now);
      return Some(message);
    }

    /** A tunnel that has given up starts over with its timers cleared. */
    method ClearExpired(now: nat)
      requires InOrder() && clock <= now
      modifies this`timers, this`wantHandshake, this`wantKeepalive, this`sendInitialKeepalive, this`clock
      ensures InOrder() && clock == now
      ensures TimerView() == if handshake.state.Expired? then old(TimerView()).Cleared(now) else old(TimerView())
    {
      RingLater(sessions, sessionTimers, establishedAt, current, timers(TimeCurrent), clock,
                if handshake.state.Expired? then now else timers(TimeCurrent), now, handshake.peerIndex);
      if handshake.state.Expired? {
        ClearTimers(now);
      }
      clock := now;
    }

    method SendInitiation(ephemeralPrivate: Bytes, timestamp: Bytes, now: nat) returns (message: InitMessage)
      requires InOrder()
      modifies this`timers, this`wantHandshake, this`wantKeepalive, handshake
      ensures InOrder()
      ensures TimerView() == old(TimerView()).InitiationSent(now)
      ensures handshake.previous == old(handshake.state) && message.senderIdx == handshake.state.sent.localIndex
      ensures message == old(handshake.NextInitiation(ephemeralPrivate, timestamp))
      ensures handshake.answered == old(handshake.answered) && handshake.accepted == old(handshake.accepted)
    {
      var startingNewHandshake := !handshake.IsInProgress();
      message := handshake.FormatHandshakeInitiation(ephemeralPrivate, timestamp, now);
      TickInitiation(startingNewHandshake);
    }

    method TickInitiation(starting: bool)
      requires TimersOk(timers, clock)
      modifies this`timers, this`wantKeepalive, this`wantHandshake
      ensures TimersOk(timers, clock) && timers(TimeCurrent) == old(timers)(TimeCurrent)
      ensures var v := old(TimerView());
              TimerView() == (if starting then v.Ticked(TimeLastHandshakeStarted) else v).Ticked(TimeLastPacketSent)
    {
      if starting {
        TimerTick(TimeLastHandshakeStarted);
      }
      TimerTick(TimeLastPacketSent);
    }

    /**
     Seals a packet with the current session, unless that has used up its counters; otherwise the packet is queued and
     a handshake started, if none is in progress. An empty packet is a keepalive.
     */
    method Encapsulate(src: Bytes, exhausted: bool, ephemeralPrivate: Bytes, timestamp: Bytes, now: nat)
      returns (r: Encapsulation)
      requires InOrder() && clock <= now
      modifies this`timers, this`wantHandshake, this`wantKeepalive, this`sendInitialKeepalive, this`clock, handshake
      ensures InOrder() && (old(Valid()) ==> Valid()) && old(clock) <= clock <= now
      ensures r.Sealed? <==> sessions[current % N_SESSIONS].Some? && !exhausted
      ensures r.Sealed? ==> Some(r.session) == sessions[current % N_SESSIONS] && handshake.state == old(handshake.state)
      ensures r.Queued? ==>
                r.initiation == if old(handshake.IsInProgress()) then None
                                else Some(old(handshake.NextInitiation(ephemeralPrivate, timestamp)))
      ensures TimerView() == old(TimerView()).Encapsulated(src != [], now, Usable(exhausted))
      ensures handshake.answered == old(handshake.answered) && handshake.accepted == old(handshake.accepted)
    {
      var session := sessions[current % N_SESSIONS];
      if session.Some? && !exhausted {
        TickPacketSent(src != []);
        return Sealed(session.value);
      }
      var initiation := FormatHandshakeInitiation(false, ephemeralPrivate, timestamp, now);
      return Queued(initiation);
    }

    /** Keepalives do not count as data. */
    method TickPacketSent(data: bool)
      requires InOrder()
      modifies this`timers, this`wantHandshake, this`wantKeepalive
      ensures InOrder() && TimerView() == old(TimerView()).PacketSent(data) && (old(TimerView()).Ok() ==> TimerView().Ok())
    {
      TimerTick(TimeLastPacketSent);
      if data {
        TimerTick(TimeLastDataPacketSent);
      }
    }

    method TickPacketReceived()
      requires InOrder()
      modifies this`timers, this`wantHandshake, this`wantKeepalive
      ensures InOrder() && TimerView() == old(TimerView()).PacketReceived(false) && (old(TimerView()).Ok() ==> TimerView().Ok())
    {
      TimerTick(TimeLastPacketReceived);
    }

    /** The live session a data packet is for. */
    function SessionFor(receiverIdx: U32): (r: Option<SessionKeys>)
      requires InOrder()
      reads this, handshake
      ensures r.Some? <==> exists i :: 0 <= i < N_SESSIONS && sessions[i].Some? && sessions[i].value.localIndex == receiverIdx
      ensures r.Some? ==> r.value.localIndex == receiverIdx && receiverIdx / 256 == handshake.peerIndex
    {
      var s := sessions[receiverIdx % N_SESSIONS];
      if s.Some? && s.value.localIndex == receiverIdx then s else None
    }

    /** No session in the slot, one of another index there, or one that does not open the packet. */
    function WhyRefused(receiverIdx: U32): DataError
      requires |sessions| == N_SESSIONS
      reads this
    {
      var s := sessions[receiverIdx % N_SESSIONS];
      if s.None? then NoCurrentSession else if s.value.localIndex != receiverIdx then WrongIndex else Refused
    }

    /** Decrypts a data packet; `plain` is what the session it is for makes of it. */
    method DecryptRawData(receiverIdx: U32, plain: Option<Bytes>) returns (r: Result<Bytes, DataError>)
      requires Valid()
      modifies this`timers, this`wantHandshake, this`wantKeepalive, this`current
      ensures Valid()
      ensures r.Ok? <==> SessionFor(receiverIdx).Some? && plain.Some?
      ensures r.Err? ==> r.error == WhyRefused(receiverIdx)
      ensures r.Ok? ==> Some(r.value) == plain && TimerView() == old(TimerView()).PacketReceived(false)
      ensures r.Ok? ==> sessionTimers[current % N_SESSIONS] == sessionTimers[old(current) % N_SESSIONS]
      ensures r.Ok? ==>
                current == if sessionTimers[receiverIdx % N_SESSIONS] >= sessionTimers[old(current) % N_SESSIONS]
                           then receiverIdx else old(current)
      ensures r.Err? ==> TimerView() == old(TimerView()) && current == old(current)
    {
      var session := sessions[receiverIdx % N_SESSIONS];
      if session.None? {
        return Err(NoCurrentSession);
      }
      if session.value.localIndex != receiverIdx {
        return Err(WrongIndex);
      }
      if plain.None? {
        return Err(Refused);
      }
      SetCurrentSession(receiverIdx);
      TickPacketReceived();
      return Ok(plain.value);
    }

    /** Decrypts a data packet and cuts off its padding; only a packet that is delivered counts as data. */
    method HandleData(receiverIdx: U32, plain: Option<Bytes>) returns (r: Result<IpFraming.TunnResult, DataError>)
      requires Valid()
      modifies this`timers, this`wantHandshake, this`wantKeepalive, this`current
      ensures Valid()
      ensures r.Ok? <==> SessionFor(receiverIdx).Some? && plain.Some?
      ensures r.Ok? ==> && r.value == IpFraming.Validated(plain.value)
                        && TimerView() == old(TimerView()).PacketReceived(!r.value.Done? && !r.value.Rejected?)
                        && sessionTimers[current % N_SESSIONS] == sessionTimers[old(current) % N_SESSIONS]
                        && current == if sessionTimers[receiverIdx % N_SESSIONS] >= sessionTimers[old(current) % N_SESSIONS]
                                      then receiverIdx else old(current)
      ensures r.Err? ==> TimerView() == old(TimerView()) && current == old(current)
      ensures r.Err? ==> r.error == WhyRefused(receiverIdx)
    {
      var plaintext := DecryptRawData(receiverIdx, plain);
      if plaintext.Err? {
        return Err(plaintext.error);
      }
      var packet := Deliver(plaintext.value);
      return Ok(packet);
    }

    method Deliver(plain: Bytes) returns (packet: IpFraming.TunnResult)
      requires Valid() && wantKeepalive
      modifies this`timers, this`wantHandshake, this`wantKeepalive
      ensures Valid() && packet == IpFraming.Validated(plain)
      ensures TimerView() == if packet.Done? || packet.Rejected? then old(TimerView())
                             else old(TimerView()).Ticked(TimeLastDataPacketReceived)
    {
      packet := IpFraming.ValidateDecapsulatedPacket(plain);
      if !packet.Done? && !packet.Rejected? {
        TimerTick(TimeLastDataPacketReceived);
      }
    }

    /** Takes in a cookie, if the reply is genuine. */
    method HandleCookieReply(genuine: bool)
      requires Valid()
      modifies this`timers, this`wantHandshake, this`wantKeepalive, this`hasCookie
      ensures Valid() && hasCookie == (genuine || old(hasCookie))
      ensures TimerView() == if genuine then old(TimerView()).PacketReceived(false) else old(TimerView())
      ensures genuine ==> timers(TimeCookieReceived) == timers(TimeCurrent)
    {
      if genuine {
        hasCookie := true;
        TickPacketReceived();
        TimerTick(TimeCookieReceived);
      }
    }

    method SetPersistentKeepalive(keepalive: Option<nat>)
      requires Valid()
      modifies this`persistentKeepalive, this`sendInitialKeepalive
      ensures Valid()
      ensures TimerView() == old(TimerView()).Next(Configure(if keepalive.Some? then keepalive.value else 0))
    {
      NextIsOk(TimerView(), Configure(if keepalive.Some? then keepalive.value else 0), 0);
      persistentKeepalive := if keepalive.Some? then keepalive.value else 0;
      sendInitialKeepalive := persistentKeepalive > 0;
    }

    /** Ends every session timed at more than 180 s. */
    method UpdateSessionTimers(timeNow: nat)
      requires |sessions| == N_SESSIONS && TimedBy(sessionTimers, timeNow)
      modifies this`sessions, this`sessionTimers
      ensures Aged(old(sessions), old(sessionTimers), sessions, sessionTimers, timeNow)
    {
      for i := 0 to N_SESSIONS
        invariant |sessions| == |sessionTimers| == N_SESSIONS
        invariant forall k :: 0 <= k < i ==>
                    if timeNow - old(sessionTimers)[k] > REJECT_AFTER_TIME
                    then sessions[k] == None && sessionTimers[k] == timeNow
                    else sessions[k] == old(sessions)[k] && sessionTimers[k] == old(sessionTimers)[k]
        invariant forall k :: i <= k < N_SESSIONS ==> sessions[k] == old(sessions)[k] && sessionTimers[k] == old(sessionTimers)[k]
      {
        if Since(timeNow, sessionTimers[i]) > REJECT_AFTER_TIME {
          sessions := sessions[i := None];
          sessionTimers := sessionTimers[i := timeNow];
        }
      }
    }

    /** Sets every timer to the same moment. */
    method ClearTimers(now: nat)
      requires TimersOk(timers, clock) && clock <= now
      modifies this`timers, this`wantHandshake, this`wantKeepalive, this`sendInitialKeepalive, this`clock
      ensures TimersOk(timers, clock) && clock == now && timers(TimeCurrent) == now
      ensures TimerView() == old(TimerView()).Cleared(now)
    {
      clock := now;
      timers := _ => now;
      wantHandshake, wantKeepalive := false, false;
      sendInitialKeepalive := persistentKeepalive > 0;
    }

    /**
     Looks at the clock: old sessions end, and what is due is decided on, with a `later` reading for an initiation in
     flight, and done. A handshake is sent, or started, at `at`.
     */
    method UpdateTimers(now: nat, later: nat, at: nat, exhausted: bool, ephemeralPrivate: Bytes, timestamp: Bytes)
      returns (action: Action, initiation: Option<InitMessage>)
      requires Valid() && clock <= now <= later <= at
      modifies this, handshake
      ensures Valid() && now <= clock <= at
      ensures NoneTooOld(sessions, establishedAt, now)
      ensures Aged(old(sessions), old(sessionTimers), sessions, sessionTimers, now)
      ensures establishedAt == old(establishedAt) && current == old(current)
      ensures TimerView() == old(TimerView()).Next(Look(now, later, at, Usable(exhausted)))
      ensures action == old(TimerView()).(current := now).Decision(later)
      ensures hasCookie == (old(hasCookie) &&
                            (old(handshake.state.Expired?) || now < old(timers)(TimeCookieReceived) + COOKIE_EXPIRATION_TIME))
      ensures initiation.Some? <==> action == InitiateHandshake || (action == SendKeepalive && !Usable(exhausted))
      ensures initiation.Some? ==> initiation.value == old(handshake.NextInitiation(ephemeralPrivate, timestamp))
      ensures handshake.answered == old(handshake.answered) && handshake.accepted == old(handshake.accepted)
    {
      LookIsOk(TimerView(), now, later, at, true);
      LookIsOk(TimerView(), now, later, at, false);
      action := CheckTimers(now, later);
      initiation := Act(action, at, exhausted, ephemeralPrivate, timestamp);
    }

    method Act(action: Action, at: nat, exhausted: bool, ephemeralPrivate: Bytes, timestamp: Bytes)
      returns (initiation: Option<InitMessage>)
      requires InOrder() && clock <= at
      modifies this`timers, this`wantHandshake, this`wantKeepalive, this`sendInitialKeepalive, this`clock, handshake
      ensures InOrder() && old(clock) <= clock <= at
      ensures TimerView() == old(TimerView()).Acted(action, at, Usable(exhausted))
      ensures action == InitiateHandshake ==> initiation.Some?
      ensures initiation.Some? ==> initiation.value == old(handshake.NextInitiation(ephemeralPrivate, timestamp))
      ensures action == SendKeepalive ==> (initiation.Some? <==> !Usable(exhausted) && !old(handshake.IsInProgress()))
      ensures action == Idle || action == ConnectionExpired ==> initiation.None?
      ensures handshake.answered == old(handshake.answered) && handshake.accepted == old(handshake.accepted)
    {
      match action
      case InitiateHandshake =>
        initiation := FormatHandshakeInitiation(true, ephemeralPrivate, timestamp, at);
      case SendKeepalive =>
        var r := Encapsulate([], exhausted, ephemeralPrivate, timestamp, at);
        initiation := if r.Queued? then r.initiation else None;
      case _ =>
        initiation := None;
    }

    /** Looks at the clock: old sessions end, and whatever is due is decided on. */
    method CheckTimers(now: nat, later: nat) returns (action: Action)
      requires InOrder() && clock <= now
      modifies this, handshake
      ensures InOrder() && clock == now
      ensures NoneTooOld(sessions, establishedAt, now)
      ensures Aged(old(sessions), old(sessionTimers), sessions, sessionTimers, now)
      ensures establishedAt == old(establishedAt) && current == old(current)
      ensures var v := old(TimerView()).(current := now);
              v.Past() && action == v.Decision(later) && TimerView() == v.After()
      ensures hasCookie == (old(hasCookie) &&
                            (old(handshake.state.Expired?) || now < old(timers)(TimeCookieReceived) + COOKIE_EXPIRATION_TIME))
      ensures handshake.answered == old(handshake.answered) && handshake.accepted == old(handshake.accepted)
      ensures handshake.nextLocalIndex == old(handshake.nextLocalIndex)
    {
      StartUpdate(now);
      RingAges(old(sessions), old(sessionTimers), sessions, sessionTimers, establishedAt, current, old(timers)(TimeCurrent),
               old(clock), now, handshake.peerIndex);
      action := Decide(now, later);
    }

    /** Reads the clock and ends what is too old. */
    method StartUpdate(now: nat)
      requires TimersOk(timers, clock) && TimedBy(sessionTimers, timers(TimeCurrent)) && |sessions| == N_SESSIONS
      requires clock <= now
      modifies this`timers, this`clock, this`sessions, this`sessionTimers
      ensures TimersOk(timers, now) && clock == timers(TimeCurrent) == now
      ensures timers(TimeCookieReceived) == old(timers)(TimeCookieReceived)
      ensures TimerView() == old(TimerView()).(current := now)
      ensures Aged(old(sessions), old(sessionTimers), sessions, sessionTimers, now)
    {
      ReadClock(now);
      UpdateSessionTimers(now);
    }

    method ReadClock(now: nat)
      requires TimersOk(timers, clock) && clock <= now
      modifies this`timers, this`clock
      ensures TimersOk(timers, now) && clock == timers(TimeCurrent) == now
      ensures timers(TimeCookieReceived) == old(timers)(TimeCookieReceived)
      ensures TimerView() == old(TimerView()).(current := now)
    {
      clock := now;
      timers := Started(timers, now);
    }

    /** Decides what is due at the time just read. */
    method Decide(now: nat, later: nat) returns (action: Action)
      requires handshake.Valid() && TimersOk(timers, clock) && timers(TimeCurrent) == now == clock
      modifies this`timers, this`wantHandshake, this`wantKeepalive, this`sendInitialKeepalive, this`hasCookie, this`clock, handshake
      ensures handshake.Valid() && TimersOk(timers, clock) && timers(TimeCurrent) == now == clock
      ensures old(TimerView()).Past() && action == old(TimerView()).Decision(later) && TimerView() == old(TimerView()).After()
      ensures hasCookie == (old(hasCookie) &&
                            (old(handshake.state.Expired?) || now < old(timers)(TimeCookieReceived) + COOKIE_EXPIRATION_TIME))
      ensures handshake.answered == old(handshake.answered) && handshake.accepted == old(handshake.accepted)
      ensures handshake.nextLocalIndex == old(handshake.nextLocalIndex)
    {
      if handshake.state.Expired? {
        return ConnectionExpired;
      }
      if hasCookie && Since(now, timers(TimeCookieReceived)) >= COOKIE_EXPIRATION_TIME {
        hasCookie := false;
      }
      var established := timers(TimeSessionEstablished);
      if Since(now, established) >= REJECT_AFTER_TIME * 3 {
        Expire(now);
        return ConnectionExpired;
      }
      var initSentAt := handshake.Timer();
      if initSentAt.Some? {
        if Since(now, timers(TimeLastHandshakeStarted)) >= REKEY_ATTEMPT_TIME {
          Expire(now);
          return ConnectionExpired;
        }
        return if later >= initSentAt.value + REKEY_TIMEOUT then InitiateHandshake else Idle;
      }
      action := DecideWithoutHandshake(now, later);
    }

    method Expire(now: nat)
      requires handshake.Valid() && TimersOk(timers, clock) && clock <= now
      modifies this`timers, this`wantHandshake, this`wantKeepalive, this`sendInitialKeepalive, this`clock, handshake
      ensures TimersOk(timers, clock) && clock == now && timers(TimeCurrent) == now
      ensures handshake.Valid()
      ensures TimerView() == old(TimerView()).Cleared(now).(initSentAt := None, expired := true)
      ensures handshake.answered == old(handshake.answered) && handshake.accepted == old(handshake.accepted)
      ensures handshake.nextLocalIndex == old(handshake.nextLocalIndex)
    {
      handshake.SetExpired();
      ClearTimers(now);
    }

    /** What is due while no handshake is in flight. */
    method DecideWithoutHandshake(now: nat, ghost later: nat) returns (action: Action)
      requires TimersOk(timers, clock) && timers(TimeCurrent) == now
      requires TimerView().Past() && !TimerView().Dead() && TimerView().initSentAt.None?
      modifies this`timers, this`wantHandshake, this`wantKeepalive, this`sendInitialKeepalive
      ensures action == old(TimerView()).Decision(later) && TimerView() == old(TimerView()).After()
      ensures TimersOk(timers, clock) && timers(TimeCurrent) == now
    {
      var handshakeRequired := HandshakeRequired(now);
      if handshakeRequired {
        return InitiateHandshake;
      }
      var keepaliveRequired := KeepaliveRequired(now);
      return if keepaliveRequired then SendKeepalive else Idle;
    }

    method HandshakeRequired(now: nat) returns (required: bool)
      requires timers(TimeCurrent) == now && TimerView().Past() && TimerView().initSentAt.None?
      modifies this`wantHandshake
      ensures required == old(TimerView()).HandshakeWanted()
      ensures var v := old(TimerView());
              TimerView() == v.(wantHandshake := v.wantHandshake && !v.Unanswered())
    {
      var established, received := timers(TimeSessionEstablished), timers(TimeLastPacketReceived);
      var dataReceived, dataSent := timers(TimeLastDataPacketReceived), timers(TimeLastDataPacketSent);
      required := false;
      if isInitiator {
        if established < dataSent && Since(now, established) >= REKEY_AFTER_TIME {
          required := true;
        }
        if established < dataReceived &&
           Since(now, established) >= REJECT_AFTER_TIME - KEEPALIVE_TIMEOUT - REKEY_TIMEOUT {
          required := true;
        }
      }
      if dataSent > received && Since(now, received) >= KEEPALIVE_TIMEOUT + REKEY_TIMEOUT {
        if wantHandshake {
          required := true;
        }
        wantHandshake := false;
      }
    }

    method KeepaliveRequired(now: nat) returns (required: bool)
      requires TimersOk(timers, clock) && timers(TimeCurrent) == now && TimerView().Past()
      modifies this`timers, this`wantKeepalive, this`wantHandshake, this`sendInitialKeepalive
      ensures TimersOk(timers, clock) && timers(TimeCurrent) == now
      ensures var v := old(TimerView());
              && required == ((v.Unacknowledged() && v.wantKeepalive) || v.PersistentDue())
              && TimerView() == v.(wantKeepalive := v.wantKeepalive && !v.Unacknowledged(),
                                   sendInitialKeepalive := v.sendInitialKeepalive && v.persistentKeepalive == 0,
                                   persistentSent := if v.PersistentDue() then v.current else v.persistentSent)
    {
      var sent, dataReceived := timers(TimeLastPacketSent), timers(TimeLastDataPacketReceived);
      required := false;
      if dataReceived > sent && Since(now, sent) >= KEEPALIVE_TIMEOUT {
        if wantKeepalive {
          required := true;
        }
        wantKeepalive := false;
      }
      var persistent := PersistentRequired(now);
      required := required || persistent;
    }

    method PersistentRequired(now: nat) returns (required: bool)
      requires TimersOk(timers, clock) && timers(TimeCurrent) == now && TimerView().Past()
      modifies this`timers, this`wantKeepalive, this`wantHandshake, this`sendInitialKeepalive
      ensures TimersOk(timers, clock) && timers(TimeCurrent) == now
      ensures var v := old(TimerView());
              && required == v.PersistentDue()
              && TimerView() == v.(sendInitialKeepalive := v.sendInitialKeepalive && v.persistentKeepalive == 0,
                                   persistentSent := if v.PersistentDue() then v.current else v.persistentSent)
    {
      if persistentKeepalive == 0 {
        return false;
      }
      required := sendInitialKeepalive || Since(now, timers(TimePersistentKeepalive)) >= persistentKeepalive * SECOND;
      sendInitialKeepalive := false;
      if required {
        TimerTick(TimePersistentKeepalive);
      }
    }
  }

  function Ticked(timers: Timers, name: TimerName): Timers
  {
    t => if t == name then timers(TimeCurrent) else timers(t)
  }

  function Started(timers: Timers, now: nat): Timers
  {
    t => if t == TimeCurrent then now else timers(t)
  }

  /** Every timer reads a past moment, and the tunnel's own idea of the time does not run ahead. */
  ghost predicate TimersOk(timers: Timers, clock: nat)
  {
    timers(TimeCurrent) <= clock && forall t :: timers(t) <= timers(TimeCurrent)
  }

  ghost predicate TimedBy(sessionTimers: seq<nat>, current: nat)
  {
    |sessionTimers| == N_SESSIONS && forall i :: 0 <= i < N_SESSIONS ==> sessionTimers[i] <= current
  }

  /** If any session is live, the current one is, and none was established later. */
  ghost predicate NewestIsCurrent(sessions: seq<Option<SessionKeys>>, sessionTimers: seq<nat>, current: nat)
  {
    && |sessions| == |sessionTimers| == N_SESSIONS
    && forall i :: 0 <= i < N_SESSIONS && sessions[i].Some? ==>
         sessions[current % N_SESSIONS].Some? && sessionTimers[i] <= sessionTimers[current % N_SESSIONS]
  }

  /** The ring after the sessions timed at more than 180 s have ended. */
  ghost predicate Aged(before: seq<Option<SessionKeys>>, timersBefore: seq<nat>, after: seq<Option<SessionKeys>>,
                       timersAfter: seq<nat>, now: nat)
  {
    && |before| == |timersBefore| == |after| == |timersAfter| == N_SESSIONS
    && forall i :: 0 <= i < N_SESSIONS ==>
         if now > timersBefore[i] + REJECT_AFTER_TIME then after[i] == None && timersAfter[i] == now
         else after[i] == before[i] && timersAfter[i] == timersBefore[i]
  }

  /** No live session is older than 180 s. */
  ghost predicate NoneTooOld(sessions: seq<Option<SessionKeys>>, establishedAt: seq<nat>, now: nat)
  {
    && |sessions| == |establishedAt| == N_SESSIONS
    && forall i :: 0 <= i < N_SESSIONS && sessions[i].Some? ==> now <= establishedAt[i] + REJECT_AFTER_TIME
  }

  /** Live sessions sit in the slot of their index, belong to the peer, and are timed from no later than they began. */
  ghost predicate InSlots(sessions: seq<Option<SessionKeys>>, sessionTimers: seq<nat>, establishedAt: seq<nat>, clock: nat,
                          peerIndex: nat)
  {
    && |sessions| == |establishedAt| == |sessionTimers| == N_SESSIONS
    && forall i :: 0 <= i < N_SESSIONS && sessions[i].Some? ==>
         && sessions[i].value.localIndex % N_SESSIONS == i
         && sessions[i].value.localIndex / 256 == peerIndex
         && sessionTimers[i] <= establishedAt[i] <= clock
  }

  ghost predicate RingOk(sessions: seq<Option<SessionKeys>>, sessionTimers: seq<nat>, establishedAt: seq<nat>, current: nat,
                         time: nat, clock: nat, peerIndex: nat)
  {
    && TimedBy(sessionTimers, time) && InSlots(sessions, sessionTimers, establishedAt, clock, peerIndex)
    && NewestIsCurrent(sessions, sessionTimers, current)
  }

  lemma RingTakesIn(sessions: seq<Option<SessionKeys>>, sessionTimers: seq<nat>, establishedAt: seq<nat>, current: nat,
                    time: nat, clock: nat, peerIndex: nat, now: nat, session: SessionKeys)
    requires RingOk(sessions, sessionTimers, establishedAt, current, time, clock, peerIndex)
    requires time <= clock <= now && session.localIndex / 256 == peerIndex
    ensures var slot := session.localIndex % N_SESSIONS;
            RingOk(sessions[slot := Some(session)], sessionTimers[slot := time], establishedAt[slot := now],
                   session.localIndex, time, now, peerIndex)
  {
  }

  lemma LatestTakesOver(sessionTimers: seq<nat>, time: nat, index: nat, current: nat)
    requires TimedBy(sessionTimers, time) && sessionTimers[index % N_SESSIONS] == time
    ensures sessionTimers[current % N_SESSIONS] <= sessionTimers[index % N_SESSIONS]
  {
  }

  /** Dropping every session timed at more than 180 s leaves none that is really older than that. */
  lemma RingAges(before: seq<Option<SessionKeys>>, timersBefore: seq<nat>, sessions: seq<Option<SessionKeys>>,
                 sessionTimers: seq<nat>, establishedAt: seq<nat>, current: nat, time: nat, clock: nat, now: nat,
                 peerIndex: nat)
    requires RingOk(before, timersBefore, establishedAt, current, time, clock, peerIndex) && time <= clock <= now
    requires Aged(before, timersBefore, sessions, sessionTimers, now)
    ensures RingOk(sessions, sessionTimers, establishedAt, current, now, now, peerIndex)
    ensures NoneTooOld(sessions, establishedAt, now)
  {
    NewestAges(before, timersBefore, sessions, sessionTimers, current, now);
  }

  /** The current session outlives the others. */
  lemma NewestAges(before: seq<Option<SessionKeys>>, timersBefore: seq<nat>, sessions: seq<Option<SessionKeys>>,
                   sessionTimers: seq<nat>, current: nat, now: nat)
    requires NewestIsCurrent(before, timersBefore, current)
    requires Aged(before, timersBefore, sessions, sessionTimers, now)
    ensures NewestIsCurrent(sessions, sessionTimers, current)
  {
  }

  /**
   A session opened `k` indices after an earlier one's replaces that one exactly if `k` and the number of times the
   session byte went round leave the same remainder by three. Every initiation takes an index, answered or not, so two in
   a row that go unanswered are enough to replace the last session; the byte need not go round.
   */
  lemma {:induction false} WhenASessionIsEvicted(sessions: seq<Option<SessionKeys>>, earlier: SessionKeys,
                                                 session: SessionKeys, k: nat)
    requires |sessions| == N_SESSIONS && Holds(sessions, earlier) && session != earlier
    requires session.localIndex == IndexAfter(earlier.localIndex, k)
    ensures !Holds(sessions[session.localIndex % N_SESSIONS := Some(session)], earlier) <==> SharesSlot(earlier.localIndex, k)
  {
    SlotAfter(earlier.localIndex, k);
  }

  predicate Holds(sessions: seq<Option<SessionKeys>>, session: SessionKeys)
    requires |sessions| == N_SESSIONS
  {
    sessions[session.localIndex % N_SESSIONS] == Some(session)
  }

  /** The three most recent sessions are all retained exactly if no two of them share a slot. */
  lemma WhenThreeAreRetained(sessions: seq<Option<SessionKeys>>, a: SessionKeys, b: SessionKeys, c: SessionKeys, k: nat, l: nat)
    requires |sessions| == N_SESSIONS && a != b && a != c && b != c
    requires b.localIndex == IndexAfter(a.localIndex, k) && c.localIndex == IndexAfter(b.localIndex, l)
    ensures var after := sessions[a.localIndex % N_SESSIONS := Some(a)][b.localIndex % N_SESSIONS := Some(b)]
                                 [c.localIndex % N_SESSIONS := Some(c)];
            Holds(after, a) && Holds(after, b) && Holds(after, c) <==>
              !SharesSlot(a.localIndex, k) && !SharesSlot(b.localIndex, l) && !SharesSlot(a.localIndex, k + l)
  {
    SlotAfter(a.localIndex, k);
    SlotAfter(b.localIndex, l);
    IndexAfterAdds(a.localIndex, k, l);
    SlotAfter(a.localIndex, k + l);
  }

  /** With two indices in between the last session goes and an older one stays, though the byte has not gone round. */
  lemma AnOlderOneMayOutliveTheLast(older: SessionKeys, last: SessionKeys, session: SessionKeys)
    requires older.localIndex == 3 && last.localIndex == 4 && session.localIndex == 7
    ensures session.localIndex == IndexAfter(last.localIndex, 3)
    ensures [Some(older), Some(last), None][session.localIndex % N_SESSIONS := Some(session)]
            == [Some(older), Some(session), None]
  {
    ThreeAfterFour();
  }

  lemma ThreeAfterFour()
    ensures IndexAfter(4, 3) == 7
  {
    assert IndexAfter(4, 1) == NextIndex(IndexAfter(4, 0)) == 5;
    assert IndexAfter(4, 2) == NextIndex(IndexAfter(4, 1)) == 6;
  }

  lemma RingLater(sessions: seq<Option<SessionKeys>>, sessionTimers: seq<nat>, establishedAt: seq<nat>, current: nat,
                  time: nat, clock: nat, later: nat, now: nat, peerIndex: nat)
    requires RingOk(sessions, sessionTimers, establishedAt, current, time, clock, peerIndex)
    requires time <= later && clock <= now
    ensures RingOk(sessions, sessionTimers, establishedAt, current, later, now, peerIndex)
  {
  }
}

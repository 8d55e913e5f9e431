/** The timers of a tunnel: what is due when, what each event does to them, and what holds over every run of events. */
module TunnelTimers {
  import opened Wrappers

  // durations in nanoseconds
  const REKEY_AFTER_TIME: nat := 120_000_000_000
  const REJECT_AFTER_TIME: nat := 180_000_000_000
  const REKEY_ATTEMPT_TIME: nat := 90_000_000_000
  const REKEY_TIMEOUT: nat := 5_000_000_000
  const KEEPALIVE_TIMEOUT: nat := 10_000_000_000
  const COOKIE_EXPIRATION_TIME: nat := 120_000_000_000
  const SECOND: nat := 1_000_000_000

  datatype TimerName =
    | TimeCurrent
    | TimeSessionEstablished
    | TimeLastHandshakeStarted
    | TimeLastPacketReceived
    | TimeLastPacketSent
    | TimeLastDataPacketReceived
    | TimeLastDataPacketSent
    | TimeCookieReceived
    | TimePersistentKeepalive

  datatype Action = Idle | ConnectionExpired | InitiateHandshake | SendKeepalive

  /** A difference of times, which the original may not let go below zero. */
  function Since(now: nat, past: nat): nat
    requires past <= now
  {
    now - past
  }

  /**
   What happens to a tunnel. A look reads the clock a second time, `later`, to see how long ago an initiation in flight was
   sent. `at` is when an initiation is sent, if one is; `usable` says whether the current session can still seal a packet.
   An `Opening` keeps the initiation in flight if it was the one before that was answered.
   */
  datatype Event =
    | Look(now: nat, later: nat, at: nat, usable: bool)
    | Send(data: bool, at: nat, usable: bool)
    | Receive(data: bool)
    | Opening(initiator: bool, keeps: bool)
    | Configure(keepalive: nat)

  /** The timers, flags and peer state a decision depends on. */
  datatype View = View(
    current: nat, established: nat, handshakeStarted: nat, received: nat, sent: nat, dataReceived: nat, dataSent: nat,
    persistentSent: nat, persistentKeepalive: nat, isInitiator: bool, wantHandshake: bool, wantKeepalive: bool,
    sendInitialKeepalive: bool, initSentAt: Option<nat>, expired: bool)
  {
    /** No event lies in the future. */
    predicate Past()
    {
      && established <= current && handshakeStarted <= current && received <= current && sent <= current
      && dataReceived <= current && dataSent <= current && persistentSent <= current
    }

    predicate Dead()
      requires Past()
    {
      || expired || Since(current, established) >= 3 * REJECT_AFTER_TIME
      || (initSentAt.Some? && Since(current, handshakeStarted) >= REKEY_ATTEMPT_TIME)
    }

    predicate Unanswered()
      requires Past()
    {
      dataSent > received && Since(current, received) >= KEEPALIVE_TIMEOUT + REKEY_TIMEOUT
    }

    predicate HandshakeWanted()
      requires Past()
    {
      || (isInitiator && established < dataSent && Since(current, established) >= REKEY_AFTER_TIME)
      || (isInitiator && established < dataReceived &&
          Since(current, established) >= REJECT_AFTER_TIME - KEEPALIVE_TIMEOUT - REKEY_TIMEOUT)
      || (Unanswered() && wantHandshake)
    }

    predicate HandshakeDue(later: nat)
      requires Past()
    {
      if initSentAt.Some? then later >= initSentAt.value + REKEY_TIMEOUT else HandshakeWanted()
    }

    predicate Unacknowledged()
      requires Past()
    {
      dataReceived > sent && Since(current, sent) >= KEEPALIVE_TIMEOUT
    }

    predicate PersistentDue()
      requires Past()
    {
      persistentKeepalive > 0 &&
      (sendInitialKeepalive || Since(current, persistentSent) >= persistentKeepalive * SECOND)
    }

    function Decision(later: nat): Action
      requires Past()
    {
      if Dead() then ConnectionExpired
      else if HandshakeDue(later) then InitiateHandshake
      else if initSentAt.None? && ((Unacknowledged() && wantKeepalive) || PersistentDue()) then SendKeepalive
      else Idle
    }

    /** Every timer set to the same moment. */
    function Cleared(now: nat): View
    {
      this.(current := now, established := now, handshakeStarted := now, received := now, sent := now,
            dataReceived := now, dataSent := now, persistentSent := now, wantHandshake := false, wantKeepalive := false,
            sendInitialKeepalive := persistentKeepalive > 0)
    }

    /** How deciding leaves the timers and flags: what was due is not due again at once. */
    function After(): View
      requires Past()
    {
      if expired then this
      else if Dead() then Cleared(current).(initSentAt := None, expired := true)
      else if initSentAt.Some? then this
      else
        var answered := this.(wantHandshake := wantHandshake && !Unanswered());
        if HandshakeWanted() then answered
        else answered.(wantKeepalive := wantKeepalive && !Unacknowledged(),
                       sendInitialKeepalive := sendInitialKeepalive && persistentKeepalive == 0,
                       persistentSent := if PersistentDue() then current else persistentSent)
    }

    /** A timer set to the time last read; packets going either way change what is wanted. */
    function Ticked(name: TimerName): View
    {
      match name
      case TimeSessionEstablished => this.(established := current)
      case TimeLastHandshakeStarted => this.(handshakeStarted := current)
      case TimeLastPacketReceived => this.(received := current, wantHandshake := false, wantKeepalive := true)
      case TimeLastPacketSent => this.(sent := current, wantHandshake := true, wantKeepalive := false)
      case TimeLastDataPacketReceived => this.(dataReceived := current)
      case TimeLastDataPacketSent => this.(dataSent := current)
      case TimePersistentKeepalive => this.(persistentSent := current)
      case _ => this
    }

    function PacketSent(data: bool): View
    {
      this.(sent := current, dataSent := if data then current else dataSent, wantHandshake := true, wantKeepalive := false)
    }

    function PacketReceived(data: bool): View
    {
      this.(received := current, dataReceived := if data then current else dataReceived,
            wantHandshake := false, wantKeepalive := true)
    }

    /** An initiation is sent now; retries keep the time of the first. */
    function InitiationSent(at: nat): View
    {
      this.(handshakeStarted := if initSentAt.Some? then handshakeStarted else current, sent := current,
            wantHandshake := true, wantKeepalive := false, initSentAt := Some(at), expired := false)
    }

    /** An initiation is sent unless one is in flight and not to be sent over. */
    function Initiated(forceResend: bool, at: nat): View
    {
      if initSentAt.Some? && !forceResend then this
      else (if expired then Cleared(at) else this).InitiationSent(at)
    }

    /** A packet is sealed by the current session, or waits for the one it starts a handshake for. */
    function Encapsulated(data: bool, at: nat, usable: bool): View
    {
      if usable then PacketSent(data) else Initiated(false, at)
    }

    /** A session opens; that counts as a packet received, and for the responder as one sent. */
    function Opened(initiator: bool, keeps: bool): View
    {
      var v := PacketReceived(false);
      (if initiator then v else v.PacketSent(false)).(
        established := current, isInitiator := initiator,
        initSentAt := if keeps then initSentAt else None, expired := keeps && expired)
    }

    /** What was decided on is done. */
    function Acted(action: Action, at: nat, usable: bool): View
    {
      match action
      case InitiateHandshake => Initiated(true, at)
      case SendKeepalive => Encapsulated(false, at, usable)
      case _ => this
    }

    function LookedAt(now: nat, later: nat, at: nat, usable: bool): View
      requires Past() && current <= now
    {
      var v := this.(current := now);
      v.After().Acted(v.Decision(later), at, usable)
    }

    /** Events follow one another in time, and looks at the clock are at most `d` apart. */
    predicate Possible(e: Event, d: nat)
    {
      match e
      case Look(now, later, at, _) => current <= now <= current + d && now <= later <= at
      case Send(_, at, _) => current <= at
      case _ => true
    }

    function Next(e: Event): View
      requires Past() && (e.Look? ==> current <= e.now)
    {
      match e
      case Look(now, later, at, usable) => LookedAt(now, later, at, usable)
      case Send(data, at, usable) => Encapsulated(data, at, usable)
      case Receive(data) => PacketReceived(data)
      case Opening(initiator, keeps) => Opened(initiator, keeps)
      case Configure(keepalive) => this.(persistentKeepalive := keepalive, sendInitialKeepalive := keepalive > 0)
    }

    /** An initiation is in flight, or the tunnel has given up until there is something to send. */
    predicate Settled()
    {
      initSentAt.Some? || expired
    }

    /** While nothing is in flight, unanswered data leaves a handshake wanted, and unacknowledged data a keepalive. */
    predicate Armed()
    {
      && (!Settled() && dataSent > received ==> wantHandshake)
      && (!Settled() && dataReceived > sent ==> wantKeepalive)
    }

    /** What every event keeps; in particular nothing that should have ended is still going on. */
    predicate Ok()
    {
      && Past() && Armed() && !(expired && initSentAt.Some?) && (Dead() ==> expired)
      && (initSentAt.Some? ==> current < initSentAt.value + REKEY_TIMEOUT)
    }
  }

  predicate Stepped(v: View, e: Event, d: nat, w: View)
  {
    v.Past() && v.Possible(e, d) && w == v.Next(e)
  }

  /** A run of a tunnel, with a look at the clock every `d`. */
  ghost predicate Run(vs: seq<View>, es: seq<Event>, d: nat)
  {
    && |vs| == |es| + 1 && vs[0].Ok()
    && forall i {:trigger es[i]} :: 0 <= i < |es| ==> Stepped(vs[i], es[i], d, vs[i + 1])
  }

  /** Every event keeps the timers in order and the flags armed. */
  lemma NextIsOk(v: View, e: Event, d: nat)
    requires v.Ok() && v.Possible(e, d)
    ensures v.Next(e).Ok() && v.current <= v.Next(e).current
  {
    match e
    case Look(now, later, at, usable) => LookIsOk(v, now, later, at, usable);
    case Send(data, at, usable) => if usable { PacketIsOk(v, data); } else { InitiationIsOk(v, false, at); }
    case Receive(data) => PacketIsOk(v, data);
    case Opening(initiator, keeps) => OpeningIsOk(v, initiator, keeps);
    case Configure(keepalive) =>
  }

  lemma OpeningIsOk(v: View, initiator: bool, keeps: bool)
    requires v.Ok()
    ensures v.Opened(initiator, keeps).Ok()
    ensures v.(initSentAt := if keeps then v.initSentAt else None, expired := keeps && v.expired).Opened(initiator, true)
            == v.Opened(initiator, keeps)
  {
  }

  lemma PacketIsOk(v: View, data: bool)
    requires v.Ok()
    ensures v.PacketSent(data).Ok() && v.PacketReceived(data).Ok()
  {
  }

  lemma InitiationIsOk(v: View, forceResend: bool, at: nat)
    requires v.Past() && !(v.expired && v.initSentAt.Some?) && v.current <= at
    requires v.initSentAt.Some? && !forceResend ==> v.current < v.initSentAt.value + REKEY_TIMEOUT
    requires v.Dead() ==> v.expired
    ensures v.Initiated(forceResend, at).Ok() && v.current <= v.Initiated(forceResend, at).current
    ensures !v.expired ==> v.current == v.Initiated(forceResend, at).current
  {
  }

  lemma LookIsOk(v: View, now: nat, later: nat, at: nat, usable: bool)
    requires v.Ok() && v.current <= now <= later <= at
    ensures v.LookedAt(now, later, at, usable).Ok() && v.LookedAt(now, later, at, usable).current == now
  {
    var looked := v.(current := now);
    match looked.Decision(later)
    case InitiateHandshake => InitiationIsOk(looked.After(), true, at);
    case SendKeepalive => KeepaliveIsOk(looked, later, at, usable);
    case ConnectionExpired =>
    case Idle => IdleIsOk(looked, later);
  }

  lemma KeepaliveIsOk(v: View, later: nat, at: nat, usable: bool)
    requires v.Past() && v.Armed() && v.Decision(later) == SendKeepalive && v.current <= at
    ensures v.After().Encapsulated(false, at, usable).Ok() && v.After().Encapsulated(false, at, usable).current == v.current
  {
    assert v.After().Past() && !v.After().Settled();
    if usable {
      assert v.After().dataSent > v.After().received ==> v.wantHandshake;
    } else {
      InitiationIsOk(v.After(), false, at);
    }
  }

  lemma IdleIsOk(v: View, later: nat)
    requires v.Past() && v.Armed() && v.Decision(later) == Idle && v.current <= later
    ensures v.After().Ok() && v.After().current == v.current
  {
  }

  /**
   What a look decides, in seconds. A tunnel has given up, or does so 90 s into an attempt or 540 s after its last session.
   An initiation in flight is sent again after 5 s. Else the initiator renews a session that has sent data at 120 s, or
   received data at 165 s; either end answers silence of 15 s with an initiation, and data with a keepalive after 10 s.
   */
  lemma LookDecides(v: View, now: nat, later: nat)
    requires v.Ok() && v.current <= now <= later
    ensures var decision := v.(current := now).Decision(later);
            if v.expired || now >= v.established + 540 * SECOND || (v.initSentAt.Some? && now >= v.handshakeStarted + 90 * SECOND)
            then decision == ConnectionExpired
            else if v.initSentAt.Some? then
              decision == if later >= v.initSentAt.value + 5 * SECOND then InitiateHandshake else Idle
            else if (v.isInitiator && v.dataSent > v.established && now >= v.established + 120 * SECOND)
                 || (v.isInitiator && v.dataReceived > v.established && now >= v.established + 165 * SECOND)
                 || (v.dataSent > v.received && now >= v.received + 15 * SECOND)
            then decision == InitiateHandshake
            else if (v.dataReceived > v.sent && now >= v.sent + 10 * SECOND)
                 || (v.persistentKeepalive > 0 &&
                     (v.sendInitialKeepalive || now >= v.persistentSent + v.persistentKeepalive * SECOND))
            then decision == SendKeepalive
            else decision == Idle
  {
  }

  /** The timers never run ahead of the clock, in any run. */
  lemma {:induction false} RunIsOk(vs: seq<View>, es: seq<Event>, d: nat, i: nat)
    requires Run(vs, es, d) && i < |vs|
    ensures vs[i].Ok()
  {
    if i > 0 {
      RunIsOk(vs, es, d, i - 1);
      assert Stepped(vs[i - 1], es[i - 1], d, vs[i]);
      NextIsOk(vs[i - 1], es[i - 1], d);
    }
  }

  /** The age at which the initiator of a session renews it, if what it carried calls for that. */
  predicate RenewedAt(v: View, age: nat)
  {
    v.isInitiator &&
    ((age == REKEY_AFTER_TIME && v.dataSent > v.established) ||
     (age == REJECT_AFTER_TIME - KEEPALIVE_TIMEOUT - REKEY_TIMEOUT && v.dataReceived > v.established))
  }

  /** At step `j` an initiation is in flight, the connection has been given up, or a session has been opened. */
  ghost predicate RenewsAt(vs: seq<View>, es: seq<Event>, k: nat, j: int)
    requires |vs| == |es| + 1
  {
    k <= j < |vs| && (vs[j].Settled() || (k < j && es[j - 1].Opening?))
  }

  /**
   An initiator's session that has carried data since it was established is renewed in time: an initiation is in flight
   no later than the first look at or after its age for that, unless the connection was given up or another session
   opened before. With looks at most 15 s apart that is before the session is rejected.
   */
  lemma {:induction false} InitiatorRenewsInTime(vs: seq<View>, es: seq<Event>, d: nat, k: nat, age: nat)
    requires Run(vs, es, d) && k < |vs| && RenewedAt(vs[k], age)
    requires vs[k].current < vs[k].established + age <= vs[|es|].current
    ensures exists j :: RenewsAt(vs, es, k, j) && vs[j].current < vs[k].established + age + d &&
              (d <= KEEPALIVE_TIMEOUT + REKEY_TIMEOUT ==> vs[j].current < vs[k].established + REJECT_AFTER_TIME)
    decreases |vs| - k
  {
    RunIsOk(vs, es, d, k);
    if vs[k].Settled() {
      assert RenewsAt(vs, es, k, k);
    } else {
      assert Stepped(vs[k], es[k], d, vs[k + 1]);
      RenewalStep(vs[k], es[k], d, vs[k + 1], age);
      if vs[k + 1].Settled() || es[k].Opening? {
        assert RenewsAt(vs, es, k, k + 1);
      } else {
        InitiatorRenewsInTime(vs, es, d, k + 1, age);
        var j :| RenewsAt(vs, es, k + 1, j) && vs[j].current < vs[k].established + age + d;
        assert RenewsAt(vs, es, k, j);
      }
    }
  }

  lemma RenewalStep(v: View, e: Event, d: nat, w: View, age: nat)
    requires v.Ok() && !v.Settled() && RenewedAt(v, age) && v.current < v.established + age && Stepped(v, e, d, w)
    ensures w.current <= v.current + d
    ensures w.Settled() || e.Opening? ||
            (RenewedAt(w, age) && w.established == v.established && w.current < v.established + age)
  {
    match e
    case Look(now, later, at, usable) =>
      var looked := v.(current := now);
      assert now >= v.established + age ==> looked.Dead() || looked.HandshakeDue(later);
    case _ =>
  }

  /** The moment from which an initiation in flight is given up. */
  function GivenUpAt(v: View): nat
  {
    if v.handshakeStarted + REKEY_ATTEMPT_TIME <= v.established + 3 * REJECT_AFTER_TIME
    then v.handshakeStarted + REKEY_ATTEMPT_TIME else v.established + 3 * REJECT_AFTER_TIME
  }

  /** What an unanswered initiation does at one event before it is given up. */
  ghost predicate Retried(v: View, e: Event, d: nat, w: View)
  {
    if !e.Look? then w.initSentAt == v.initSentAt
    else if e.now >= GivenUpAt(v) then w.expired && w.current == e.now
    else if w.initSentAt == v.initSentAt then w.initSentAt.Some? && e.now < w.initSentAt.value + REKEY_TIMEOUT
    else
      && w.initSentAt == Some(e.at) && v.initSentAt.Some?
      && v.initSentAt.value + REKEY_TIMEOUT <= e.later && e.now < v.initSentAt.value + REKEY_TIMEOUT + d
  }

  /** No session opens from here on. */
  ghost predicate NoneOpens(es: seq<Event>, k: nat)
  {
    forall i :: k <= i < |es| ==> !es[i].Opening?
  }

  /**
   While no session opens, an initiation stays in flight, and is sent again no sooner than 5 s after it was last sent and
   at a look less than 5 s + d after that, up to the first look at or after 90 s from its first attempt (or 540 s from the
   last session), which ends it.
   */
  lemma {:induction false} RetriedThenGivenUp(vs: seq<View>, es: seq<Event>, d: nat, k: nat, i: nat)
    requires Run(vs, es, d) && k <= i < |vs| && vs[k].initSentAt.Some? && NoneOpens(es, k)
    requires vs[i].current < GivenUpAt(vs[k])
    ensures vs[i].initSentAt.Some? && GivenUpAt(vs[i]) == GivenUpAt(vs[k])
    ensures i < |es| ==> Retried(vs[i], es[i], d, vs[i + 1])
    decreases i
  {
    RunIsOk(vs, es, d, i);
    if i > k {
      RunIsOk(vs, es, d, i - 1);
      assert Stepped(vs[i - 1], es[i - 1], d, vs[i]);
      NextIsOk(vs[i - 1], es[i - 1], d);
      RetriedThenGivenUp(vs, es, d, k, i - 1);
      WaitingStep(vs[i - 1], es[i - 1], d, vs[i]);
    }
    if i < |es| {
      assert Stepped(vs[i], es[i], d, vs[i + 1]);
      WaitingStep(vs[i], es[i], d, vs[i + 1]);
    }
  }

  lemma WaitingStep(v: View, e: Event, d: nat, w: View)
    requires v.Ok() && v.initSentAt.Some? && !e.Opening? && Stepped(v, e, d, w)
    ensures Retried(v, e, d, w) && w.current <= v.current + d
    ensures w.current < GivenUpAt(v) || !e.Look? ==> w.initSentAt.Some? && GivenUpAt(w) == GivenUpAt(v)
  {
  }

  /** So an unanswered initiation is given up at one particular look, less than `d` after its time. */
  lemma {:induction false} GivenUpInTime(vs: seq<View>, es: seq<Event>, d: nat, k: nat)
    requires Run(vs, es, d) && k < |vs| && vs[k].initSentAt.Some? && NoneOpens(es, k)
    requires GivenUpAt(vs[k]) <= vs[|es|].current
    ensures exists j {:trigger es[j]} :: k <= j < |es| && es[j].Look? && vs[j + 1].expired &&
              vs[j].current < GivenUpAt(vs[k]) <= vs[j + 1].current < GivenUpAt(vs[k]) + d
    decreases |vs| - k
  {
    RunIsOk(vs, es, d, k);
    assert Stepped(vs[k], es[k], d, vs[k + 1]);
    WaitingStep(vs[k], es[k], d, vs[k + 1]);
    if vs[k + 1].current < GivenUpAt(vs[k]) {
      GivenUpInTime(vs, es, d, k + 1);
    }
  }

  /**
   A packet that has to be queued starts the attempt anew exactly if no initiation is in flight, be it that there was none
   or that it has been given up; while one is in flight, queueing changes nothing, and the 90 s go on.
   */
  lemma WhenQueueingRestarts(v: View, data: bool, at: nat)
    requires v.Ok() && v.current <= at
    ensures var w := v.Next(Send(data, at, false));
            if v.initSentAt.None? then
              && w.initSentAt == Some(at) && w.handshakeStarted == w.current
              && GivenUpAt(w) > w.current && (v.expired ==> GivenUpAt(w) == at + REKEY_ATTEMPT_TIME)
            else w == v
  {
    InitiationIsOk(v, false, at);
  }

  /** A packet queued 60 s into an attempt does not keep it from being given up after 90 s. */
  lemma QueueingDoesNotReset(v: View)
    requires v.Ok() && !v.expired && v.current == 60 * SECOND
    requires v.initSentAt == Some(59 * SECOND) && v.handshakeStarted == 0 && v.established == 0
    ensures var w := v.Next(Send(true, 61 * SECOND, false));
            w == v && w.Next(Look(90 * SECOND, 90 * SECOND, 90 * SECOND, false)).expired
  {
  }

  /** At step `j` the silence has been noticed, or has ended. */
  ghost predicate NoticedAt(vs: seq<View>, es: seq<Event>, k: nat, j: int)
    requires |vs| == |es| + 1
  {
    k <= j < |vs| && (vs[j].Settled() || (k < j && (es[j - 1].Receive? || es[j - 1].Opening?)))
  }

  /**
   Data that gets no answer is noticed: by the first look at or after any `deadline` at least 15 s from the last packet
   received, an initiation is in flight, unless a packet arrived, a session opened or the connection was given up.
   */
  lemma {:induction false} SilenceIsNoticed(vs: seq<View>, es: seq<Event>, d: nat, k: nat, deadline: nat)
    requires Run(vs, es, d) && k < |vs| && vs[k].dataSent > vs[k].received
    requires vs[k].received + KEEPALIVE_TIMEOUT + REKEY_TIMEOUT <= deadline
    requires vs[k].current < deadline <= vs[|es|].current
    ensures exists j :: NoticedAt(vs, es, k, j) && vs[j].current < deadline + d
    decreases |vs| - k
  {
    RunIsOk(vs, es, d, k);
    if vs[k].Settled() {
      assert NoticedAt(vs, es, k, k);
    } else {
      assert Stepped(vs[k], es[k], d, vs[k + 1]);
      SilenceStep(vs[k], es[k], d, vs[k + 1]);
      if vs[k + 1].Settled() || es[k].Receive? || es[k].Opening? {
        assert NoticedAt(vs, es, k, k + 1);
      } else {
        SilenceIsNoticed(vs, es, d, k + 1, deadline);
        var j :| NoticedAt(vs, es, k + 1, j) && vs[j].current < deadline + d;
        assert NoticedAt(vs, es, k, j);
      }
    }
  }

  lemma SilenceStep(v: View, e: Event, d: nat, w: View)
    requires v.Ok() && !v.Settled() && v.dataSent > v.received && Stepped(v, e, d, w)
    ensures w.current <= v.current + d
    ensures w.Settled() || e.Receive? || e.Opening? ||
            (w.received == v.received && w.dataSent > w.received &&
             (w.current == v.current || w.current < w.received + KEEPALIVE_TIMEOUT + REKEY_TIMEOUT))
  {
    match e
    case Look(now, later, at, usable) => SilenceLook(v, now, later, at, usable);
    case _ =>
  }

  lemma SilenceLook(v: View, now: nat, later: nat, at: nat, usable: bool)
    requires v.Ok() && !v.Settled() && v.dataSent > v.received && v.current <= now <= later <= at
    ensures var w := v.LookedAt(now, later, at, usable);
            w.current == now && (w.Settled() ||
            (w.received == v.received && w.dataSent > w.received &&
             (w.current == v.current || w.current < w.received + KEEPALIVE_TIMEOUT + REKEY_TIMEOUT)))
  {
    var looked := v.(current := now);
    match looked.Decision(later)
    case InitiateHandshake =>
    case SendKeepalive =>
    case ConnectionExpired =>
    case Idle =>
  }

  /** At step `j` something has been sent since step `k`, or an initiation is in flight or given up. */
  ghost predicate AcknowledgedAt(vs: seq<View>, k: nat, j: int)
  {
    k <= j < |vs| && (vs[j].Settled() || vs[j].sent > vs[k].sent)
  }

  /**
   Data received is acknowledged: by the first look at or after any `deadline` at least 10 s from the last packet sent,
   a packet has been sent, if only a keepalive, unless an initiation is in flight or the connection was given up.
   */
  lemma {:induction false} DataIsAcknowledged(vs: seq<View>, es: seq<Event>, d: nat, k: nat, deadline: nat)
    requires Run(vs, es, d) && k < |vs| && vs[k].dataReceived > vs[k].sent
    requires vs[k].sent + KEEPALIVE_TIMEOUT <= deadline && vs[k].current < deadline <= vs[|es|].current
    ensures exists j :: AcknowledgedAt(vs, k, j) && vs[j].current < deadline + d
    decreases |vs| - k
  {
    RunIsOk(vs, es, d, k);
    if vs[k].Settled() {
      assert AcknowledgedAt(vs, k, k);
    } else {
      assert Stepped(vs[k], es[k], d, vs[k + 1]);
      AcknowledgingStep(vs[k], es[k], d, vs[k + 1]);
      if vs[k + 1].Settled() || vs[k + 1].sent > vs[k].sent {
        assert AcknowledgedAt(vs, k, k + 1);
      } else {
        DataIsAcknowledged(vs, es, d, k + 1, deadline);
        var j :| AcknowledgedAt(vs, k + 1, j) && vs[j].current < deadline + d;
        assert AcknowledgedAt(vs, k, j);
      }
    }
  }

  lemma AcknowledgingStep(v: View, e: Event, d: nat, w: View)
    requires v.Ok() && !v.Settled() && v.dataReceived > v.sent && Stepped(v, e, d, w)
    ensures w.current <= v.current + d
    ensures w.Settled() || w.sent > v.sent ||
            (w.sent == v.sent && w.dataReceived > w.sent &&
             (w.current == v.current || w.current < w.sent + KEEPALIVE_TIMEOUT))
  {
    match e
    case Look(now, later, at, usable) => AcknowledgingLook(v, now, later, at, usable);
    case _ =>
  }

  lemma AcknowledgingLook(v: View, now: nat, later: nat, at: nat, usable: bool)
    requires v.Ok() && !v.Settled() && v.dataReceived > v.sent && v.current <= now <= later <= at
    ensures var w := v.LookedAt(now, later, at, usable);
            w.current == now && (w.Settled() || w.sent > v.sent ||
            (w.sent == v.sent && w.dataReceived > w.sent &&
             (w.current == v.current || w.current < w.sent + KEEPALIVE_TIMEOUT)))
  {
    var looked := v.(current := now);
    match looked.Decision(later)
    case InitiateHandshake =>
    case SendKeepalive =>
    case ConnectionExpired =>
    case Idle =>
  }

  /** By `deadline` a persistent keepalive is called for: the first at once, and then each an interval after the last. */
  predicate KeepaliveBy(v: View, deadline: nat)
  {
    v.persistentKeepalive > 0 && (v.sendInitialKeepalive || v.persistentSent + v.persistentKeepalive * SECOND <= deadline)
  }

  /** At step `j` a look has just sent a persistent keepalive, the setting was changed, or nothing can be sent. */
  ghost predicate KeptAliveAt(vs: seq<View>, es: seq<Event>, k: nat, j: int)
    requires |vs| == |es| + 1
  {
    && k <= j < |vs|
    && (vs[j].Settled() ||
        (k < j && (es[j - 1].Configure? || (es[j - 1].Look? && vs[j].sent == vs[j].persistentSent == vs[j].current))))
  }

  /**
   With a persistent keepalive a packet goes out by the first look at or after any `deadline` by which one is called for,
   unless the setting is changed, an initiation is in flight or the connection was given up.
   */
  lemma {:induction false} PersistentKeepaliveIsSent(vs: seq<View>, es: seq<Event>, d: nat, k: nat, deadline: nat)
    requires Run(vs, es, d) && k < |vs| && KeepaliveBy(vs[k], deadline)
    requires vs[k].current < deadline <= vs[|es|].current
    ensures exists j :: KeptAliveAt(vs, es, k, j) && vs[j].current < deadline + d
    decreases |vs| - k
  {
    RunIsOk(vs, es, d, k);
    if vs[k].Settled() {
      assert KeptAliveAt(vs, es, k, k);
    } else {
      assert Stepped(vs[k], es[k], d, vs[k + 1]);
      KeepaliveStep(vs[k], es[k], d, vs[k + 1], deadline);
      if vs[k + 1].current < deadline && !vs[k + 1].Settled() && !es[k].Configure? && KeepaliveBy(vs[k + 1], deadline) {
        PersistentKeepaliveIsSent(vs, es, d, k + 1, deadline);
        var j :| KeptAliveAt(vs, es, k + 1, j) && vs[j].current < deadline + d;
        assert KeptAliveAt(vs, es, k, j);
      } else {
        assert KeptAliveAt(vs, es, k, k + 1);
      }
    }
  }

  lemma KeepaliveStep(v: View, e: Event, d: nat, w: View, deadline: nat)
    requires v.Ok() && !v.Settled() && Stepped(v, e, d, w) && KeepaliveBy(v, deadline) && v.current < deadline
    ensures w.current <= v.current + d
    ensures || w.Settled() || e.Configure? || (e.Look? && w.sent == w.persistentSent == w.current)
            || (KeepaliveBy(w, deadline) && w.current < deadline)
  {
    match e
    case Look(now, later, at, usable) => KeepaliveLook(v, now, later, at, usable, deadline);
    case _ =>
  }

  lemma KeepaliveLook(v: View, now: nat, later: nat, at: nat, usable: bool, deadline: nat)
    requires v.Ok() && !v.Settled() && v.current <= now <= later <= at && KeepaliveBy(v, deadline)
    ensures var w := v.LookedAt(now, later, at, usable);
            && w.current == now
            && (w.Settled() || w.sent == w.persistentSent == w.current || (KeepaliveBy(w, deadline) && w.current < deadline))
  {
    var looked := v.(current := now);
    match looked.Decision(later)
    case InitiateHandshake =>
    case SendKeepalive =>
    case ConnectionExpired =>
    case Idle =>
  }

  /** Whatever keepalive a look at the timers calls for, the next look at the same moment does not. */
  lemma KeepaliveOnce(v: View, later: nat, again: nat)
    requires v.Past() && v.Decision(later) == SendKeepalive
    ensures v.After().Past() && v.After().Decision(again) == Idle
  {
    var w := v.After();
    assert w.persistentKeepalive > 0 ==> Since(w.current, w.persistentSent) < w.persistentKeepalive * SECOND;
  }
}

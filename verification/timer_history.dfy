/** What the timers of a tunnel tell: when each kind of event last happened, in every run. */
module TimerHistory {
  import opened Wrappers
  import opened TunnelTimers

  /** The kinds of event that are timed. */
  datatype Mark = PacketIn | PacketOut | DataIn | DataOut | SessionBegun | AttemptBegun | KeepaliveCalledFor

  function TimeOf(v: View, m: Mark): nat
  {
    match m
    case PacketIn => v.received
    case PacketOut => v.sent
    case DataIn => v.dataReceived
    case DataOut => v.dataSent
    case SessionBegun => v.established
    case AttemptBegun => v.handshakeStarted
    case KeepaliveCalledFor => v.persistentSent
  }

  /** What a look decides; other events decide nothing. */
  function DecisionAt(v: View, e: Event): Action
    requires v.Past() && (e.Look? ==> v.current <= e.now)
  {
    if e.Look? then v.(current := e.now).Decision(e.later) else Idle
  }

  /** An initiation goes out: a look calls for one, or what is to be sent has no session and none is in flight. */
  predicate Initiates(v: View, e: Event)
    requires v.Past() && (e.Look? ==> v.current <= e.now)
  {
    || DecisionAt(v, e) == InitiateHandshake
    || (v.initSentAt.None? && (DecisionAt(v, e) == SendKeepalive || e.Send?) && !e.usable)
  }

  /** Whether an event is of a kind. */
  predicate Marks(v: View, e: Event, m: Mark)
    requires v.Past() && (e.Look? ==> v.current <= e.now)
  {
    match m
    case PacketIn => e.Receive? || e.Opening?
    case PacketOut =>
      Initiates(v, e) || DecisionAt(v, e) == SendKeepalive || (e.Send? && e.usable) || (e.Opening? && !e.initiator)
    case DataIn => e.Receive? && e.data
    case DataOut => e.Send? && e.data && e.usable
    case SessionBegun => e.Opening?
    case AttemptBegun => v.initSentAt.None? && Initiates(v, e)
    case KeepaliveCalledFor =>
      DecisionAt(v, e) == SendKeepalive && v.persistentKeepalive > 0 &&
      (v.sendInitialKeepalive || e.now >= v.persistentSent + v.persistentKeepalive * SECOND)
  }

  /** The tunnel gives up, or begins again after it did. */
  predicate StartsOver(v: View, e: Event)
    requires v.Past() && (e.Look? ==> v.current <= e.now)
  {
    (DecisionAt(v, e) == ConnectionExpired && !v.expired) || (e.Send? && !e.usable && v.expired)
  }

  /** Only a look reads the clock, and a tunnel that begins again. */
  predicate ClockMoves(v: View, e: Event, w: View)
  {
    w.current == match e
                 case Look(now, _, _, _) => now
                 case Send(_, at, usable) => if v.expired && !usable then at else v.current
                 case _ => v.current
  }

  /** An event sets the timers of its kind to now; so does starting over with all of them. */
  predicate IsTimed(v: View, e: Event, w: View, m: Mark)
    requires v.Past() && (e.Look? ==> v.current <= e.now)
  {
    TimeOf(w, m) == if Marks(v, e, m) || StartsOver(v, e) then w.current else TimeOf(v, m)
  }

  predicate AllTimed(v: View, e: Event, w: View)
    requires v.Past() && (e.Look? ==> v.current <= e.now)
  {
    && IsTimed(v, e, w, PacketIn) && IsTimed(v, e, w, PacketOut) && IsTimed(v, e, w, DataIn) && IsTimed(v, e, w, DataOut)
    && IsTimed(v, e, w, SessionBegun) && IsTimed(v, e, w, AttemptBegun) && IsTimed(v, e, w, KeepaliveCalledFor)
  }

  /** A handshake is wanted once a packet has gone out, a keepalive once one has come in, and the one ends the other. */
  predicate IsWanted(v: View, e: Event, w: View)
    requires v.Past() && (e.Look? ==> v.current <= e.now)
  {
    if Marks(v, e, PacketOut) then w.wantHandshake && !w.wantKeepalive
    else if Marks(v, e, PacketIn) then !w.wantHandshake && w.wantKeepalive
    else if StartsOver(v, e) then !w.wantHandshake && !w.wantKeepalive
    else w.wantHandshake == v.wantHandshake && w.wantKeepalive == v.wantKeepalive
  }

  /** An initiation is in flight from when it goes out until a session opens or the tunnel gives up. */
  predicate IsInFlight(v: View, e: Event, w: View)
    requires v.Past() && (e.Look? ==> v.current <= e.now)
  {
    && w.isInitiator == (if e.Opening? then e.initiator else v.isInitiator)
    && if Initiates(v, e) then w.initSentAt == Some(e.at) && !w.expired
       else if e.Opening? then w.initSentAt == (if e.keeps then v.initSentAt else None) && w.expired == (e.keeps && v.expired)
       else if StartsOver(v, e) then w.initSentAt == None && w.expired
       else w.initSentAt == v.initSentAt && w.expired == v.expired
  }

  /** A persistent keepalive is as configured, and called for at once when it is set or the timers start over. */
  predicate IsConfigured(v: View, e: Event, w: View)
    requires v.Past() && (e.Look? ==> v.current <= e.now)
  {
    && w.persistentKeepalive == (if e.Configure? then e.keepalive else v.persistentKeepalive)
    && w.sendInitialKeepalive == if e.Configure? || StartsOver(v, e) then w.persistentKeepalive > 0
                                 else v.sendInitialKeepalive && !Marks(v, e, KeepaliveCalledFor)
  }

  predicate Recorded(v: View, e: Event, w: View)
    requires v.Past() && (e.Look? ==> v.current <= e.now)
  {
    ClockMoves(v, e, w) && AllTimed(v, e, w) && IsWanted(v, e, w) && IsInFlight(v, e, w) && IsConfigured(v, e, w)
  }

  /** What every event does to the timers, the flags and the initiation in flight. */
  lemma StepIsRecorded(v: View, e: Event, d: nat, w: View)
    requires v.Ok() && Stepped(v, e, d, w)
    ensures Recorded(v, e, w)
  {
    match e
    case Look(_, _, _, _) =>
      match DecisionAt(v, e) {
        case InitiateHandshake => InitiatingLook(v, e, w);
        case SendKeepalive => KeepaliveLook(v, e, w);
        case ConnectionExpired => LastLook(v, e, w);
        case Idle => IdleLook(v, e, w);
      }
    case Send(_, _, _) => SendIsRecorded(v, e, w);
    case Receive(_) =>
    case Opening(_, _) =>
    case Configure(_) =>
  }

  ghost predicate Looks(v: View, e: Event, w: View, action: Action)
  {
    && e.Look? && v.Ok() && v.current <= e.now <= e.later <= e.at && w == v.LookedAt(e.now, e.later, e.at, e.usable)
    && DecisionAt(v, e) == action
  }

  lemma InitiatingLook(v: View, e: Event, w: View)
    requires Looks(v, e, w, InitiateHandshake)
    ensures Recorded(v, e, w)
  {
    var looked := v.(current := e.now);
    assert looked.After().(wantHandshake := looked.wantHandshake) == looked;
  }

  lemma KeepaliveLook(v: View, e: Event, w: View)
    requires Looks(v, e, w, SendKeepalive)
    ensures Recorded(v, e, w)
  {
  }

  lemma LastLook(v: View, e: Event, w: View)
    requires Looks(v, e, w, ConnectionExpired)
    ensures Recorded(v, e, w)
  {
  }

  lemma IdleLook(v: View, e: Event, w: View)
    requires Looks(v, e, w, Idle)
    ensures Recorded(v, e, w) && w == v.(current := e.now)
  {
  }

  lemma SendIsRecorded(v: View, e: Event, w: View)
    requires e.Send? && v.Ok() && v.current <= e.at && w == v.Next(e)
    ensures Recorded(v, e, w)
  {
  }

  /** When an event of this kind last happened before step `n`, counting from when the timers last started over. */
  ghost function LastAt(vs: seq<View>, es: seq<Event>, d: nat, n: nat, m: Mark): nat
    requires Run(vs, es, d) && n <= |es|
  {
    if n == 0 then TimeOf(vs[0], m)
    else
      assert Stepped(vs[n - 1], es[n - 1], d, vs[n]);
      if Marks(vs[n - 1], es[n - 1], m) || StartsOver(vs[n - 1], es[n - 1]) then vs[n].current
      else LastAt(vs, es, d, n - 1, m)
  }

  /** In every run each timer is the moment of the last event of its kind. */
  lemma {:induction false} TimersTellHistory(vs: seq<View>, es: seq<Event>, d: nat, n: nat, m: Mark)
    requires Run(vs, es, d) && n <= |es|
    ensures TimeOf(vs[n], m) == LastAt(vs, es, d, n, m)
  {
    if n > 0 {
      RunIsOk(vs, es, d, n - 1);
      TimersTellHistory(vs, es, d, n - 1, m);
      assert Stepped(vs[n - 1], es[n - 1], d, vs[n]);
      StepIsRecorded(vs[n - 1], es[n - 1], d, vs[n]);
      assert IsTimed(vs[n - 1], es[n - 1], vs[n], m);
    }
  }
}

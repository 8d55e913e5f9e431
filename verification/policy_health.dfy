/** Health history of a single route: suspicion that failures raise and that successes and time lower. */
module RouteHealth {
  import opened Wrappers

  const POLICY_FAILURE_SCORE: int := 4
  const UNHEALTHY_SCORE_DELTA: int := 2
  const HEALTHY_SCORE_DELTA: int := 1
  const POLICY_FAILURE_DECAY_INTERVAL: nat := 600_000_000_000

  datatype PolicyState = Unknown | Healthy | Suspect | Failed

  datatype PolicyHealth = PolicyHealth(suspicion: int, consecutiveFailures: nat, lastSuccess: Option<nat>,
                                       lastFailure: Option<nat>, state: PolicyState)
  {
    /** Disqualified as a failover or recovery target. */
    predicate IsFailed()
    {
      suspicion >= POLICY_FAILURE_SCORE || state == Failed
    }

    /** What holds of every route at every time up to `clock`. */
    ghost predicate Ok(clock: nat)
    {
      && 0 <= suspicion <= POLICY_FAILURE_SCORE
      && (state == Failed <==> suspicion == POLICY_FAILURE_SCORE)
      && (suspicion > 0 ==> lastFailure.Some?)
      && (lastFailure.Some? ==> lastFailure.value <= clock)
      && (lastSuccess.Some? ==> lastSuccess.value <= clock)
      && consecutiveFailures <= 255
    }
  }

  const NEW_HEALTH := PolicyHealth(0, 0, None, None, Unknown)

  function SaturatingSub(a: nat, b: nat): nat
  {
    if a >= b then a - b else 0
  }

  /** A sample that saw return traffic. */
  function RecordSuccess(h: PolicyHealth, now: nat): (r: PolicyHealth)
    requires h.Ok(now)
    ensures r.Ok(now) && !r.IsFailed()
  {
    h.(suspicion := if h.suspicion - HEALTHY_SCORE_DELTA > 0 then h.suspicion - HEALTHY_SCORE_DELTA else 0,
       consecutiveFailures := 0, lastSuccess := Some(now), state := Healthy)
  }

  /** An unanswered outbound sample. */
  function RecordFailure(h: PolicyHealth, now: nat): (r: PolicyHealth)
    requires h.Ok(now)
    ensures r.Ok(now)
  {
    var suspicion := if h.suspicion + UNHEALTHY_SCORE_DELTA < POLICY_FAILURE_SCORE
      then h.suspicion + UNHEALTHY_SCORE_DELTA else POLICY_FAILURE_SCORE;
    h.(suspicion := suspicion,
       consecutiveFailures := if h.consecutiveFailures < 255 then h.consecutiveFailures + 1 else 255,
       lastFailure := Some(now),
       state := if suspicion >= POLICY_FAILURE_SCORE then Failed else Suspect)
  }

  /** How many suspicion steps have been sat out by `now`: one per full interval since the anchor. */
  function StepsShed(h: PolicyHealth, now: nat): int
    requires h.lastFailure.Some?
  {
    var elapsed := SaturatingSub(now, h.lastFailure.value) / POLICY_FAILURE_DECAY_INTERVAL;
    if elapsed < h.suspicion then elapsed else h.suspicion
  }

  /** The health after ageing up to `now`. */
  function Decayed(h: PolicyHealth, now: nat): PolicyHealth
  {
    if h.lastFailure.None? || h.suspicion <= 0 then h
    else
      var suspicion := h.suspicion - StepsShed(h, now);
      if suspicion == 0 then h.(suspicion := 0, lastFailure := None, state := Unknown)
      else h.(suspicion := suspicion,
              lastFailure := Some(h.lastFailure.value + StepsShed(h, now) * POLICY_FAILURE_DECAY_INTERVAL),
              state := if suspicion >= POLICY_FAILURE_SCORE then Failed else Suspect)
  }

  /** Ages the suspicion of a route that has not failed recently, one step at a time. */
  method Decay(h: PolicyHealth, now: nat) returns (r: PolicyHealth)
    requires h.Ok(now)
    ensures r == Decayed(h, now)
  {
    if h.lastFailure.None? || h.suspicion == 0 {
      return h;
    }
    var anchor := h.lastFailure.value;
    var suspicion := h.suspicion;
    ghost var steps := 0;
    while suspicion > 0 && SaturatingSub(now, anchor) >= POLICY_FAILURE_DECAY_INTERVAL
      invariant 0 <= steps && suspicion == h.suspicion - steps >= 0
      invariant anchor == h.lastFailure.value + steps * POLICY_FAILURE_DECAY_INTERVAL
      invariant anchor <= now
      decreases suspicion
    {
      suspicion := if suspicion - HEALTHY_SCORE_DELTA > 0 then suspicion - HEALTHY_SCORE_DELTA else 0;
      anchor := anchor + POLICY_FAILURE_DECAY_INTERVAL;
      steps := steps + 1;
    }
    if suspicion == 0 {
      r := h.(suspicion := 0, lastFailure := None, state := Unknown);
    } else {
      r := h.(suspicion := suspicion, lastFailure := Some(anchor),
              state := if suspicion >= POLICY_FAILURE_SCORE then Failed else Suspect);
    }
  }

  /** Ageing does not depend on how often it is done: stopping over at `t1` leads to the same health at `t2`. */
  lemma DecayIgnoresCadence(h: PolicyHealth, t1: nat, t2: nat)
    requires h.Ok(t1) && t1 <= t2
    ensures Decayed(Decayed(h, t1), t2) == Decayed(h, t2)
  {
  }

  /** An idle route stays failed for less than one interval after its last failure. */
  lemma NotFailedForever(h: PolicyHealth, now: nat)
    requires h.Ok(now)
    ensures Decayed(h, now).IsFailed() <==>
            h.IsFailed() && now < h.lastFailure.value + POLICY_FAILURE_DECAY_INTERVAL
  {
  }

  /** A route that was not under suspicion fails at the second unanswered sample in a row, one that was at the first. */
  lemma FailsAtTheSecond(h: PolicyHealth, now: nat, later: nat)
    requires h.Ok(now) && now <= later < now + 600_000_000_000
    ensures RecordFailure(h, now).IsFailed() <==> h.suspicion >= 2
    ensures RecordFailure(Decayed(RecordFailure(h, now), later), later).IsFailed()
    ensures RecordFailure(h, now).lastFailure == Some(now) && RecordFailure(h, now).lastSuccess == h.lastSuccess
  {
  }

  /** Return traffic takes one step of suspicion away, ends a failure, and is remembered. */
  lemma SuccessClears(h: PolicyHealth, now: nat)
    requires h.Ok(now)
    ensures var r := RecordSuccess(h, now);
            && r.suspicion == (if h.suspicion > 0 then h.suspicion - 1 else 0) && !r.IsFailed()
            && r.lastSuccess == Some(now) && r.lastFailure == h.lastFailure && r.consecutiveFailures == 0
  {
  }

  /** Suspicion fades by one step for every ten full minutes since the last failure. */
  lemma SuspicionFades(h: PolicyHealth, k: nat, now: nat)
    requires h.Ok(now) && h.suspicion > 0
    requires h.lastFailure.value + k * 600_000_000_000 <= now < h.lastFailure.value + (k + 1) * 600_000_000_000
    ensures Decayed(h, now).suspicion == if k < h.suspicion then h.suspicion - k else 0
    ensures Decayed(h, now).lastSuccess == h.lastSuccess
  {
    FullIntervals(now - h.lastFailure.value, k);
  }

  lemma FullIntervals(t: nat, k: nat)
    requires k * 600_000_000_000 <= t < (k + 1) * 600_000_000_000
    ensures t / POLICY_FAILURE_DECAY_INTERVAL == k
  {
  }
}

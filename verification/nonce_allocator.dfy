/**
 The sending side of a session's counters: any number of senders reserve nonces concurrently
 with a load / weak compare-exchange loop on one atomic counter.
 */
module NonceAllocator {
  import opened Wire

  type Sender = nat

  datatype Event = Emitted(sender: Sender, nonce: nat) | Refused(sender: Sender)

  /** The shared counter, the value each sender inside the loop has loaded, and what came out so far. */
  datatype State = State(counter: nat, loaded: map<Sender, nat>, events: seq<Event>)

  datatype Action =
    | Load(sender: Sender)
    | CompareExchange(sender: Sender, spuriousFailure: bool)

  const INITIAL := State(0, map[], [])

  /** One atomic step of one sender. */
  function Step(s: State, a: Action): State
    requires Enabled(s, a)
  {
    match a
    case Load(t) =>
      if s.counter >= REJECT_AFTER_MESSAGES then s.(events := s.events + [Refused(t)])
      else s.(loaded := s.loaded[t := s.counter])
    case CompareExchange(t, spuriousFailure) =>
      var current := s.loaded[t];
      if s.counter == current && !spuriousFailure then
        State(current + 1, s.loaded - {t}, s.events + [Emitted(t, current)])
      else s.(loaded := s.loaded - {t})
  }

  /** A sender that holds a loaded value goes on to its compare-exchange; any other one may load. */
  predicate Enabled(s: State, a: Action)
  {
    if a.Load? then a.sender !in s.loaded else a.sender in s.loaded
  }

  /** Every interleaving of any number of senders. */
  ghost predicate Run(states: seq<State>, actions: seq<Action>)
  {
    && |states| == |actions| + 1
    && states[0] == INITIAL
    && forall i :: 0 <= i < |actions| ==> Enabled(states[i], actions[i]) && states[i + 1] == Step(states[i], actions[i])
  }

  /** The nonces sent so far, in the order of their reservation. */
  function Nonces(events: seq<Event>): seq<nat>
  {
    if events == [] then []
    else
      var before, last := Nonces(events[..|events| - 1]), events[|events| - 1];
      if last.Emitted? then before + [last.nonce] else before
  }

  ghost predicate Inv(s: State)
  {
    && s.counter <= REJECT_AFTER_MESSAGES
    && (forall t :: t in s.loaded ==> s.loaded[t] < REJECT_AFTER_MESSAGES && s.loaded[t] <= s.counter)
    && Nonces(s.events) == seq(s.counter, i => i)
  }

  lemma StepKeepsInv(s: State, a: Action)
    requires Inv(s) && Enabled(s, a)
    ensures Inv(Step(s, a))
  {
  }

  lemma {:induction false} RunKeepsInv(states: seq<State>, actions: seq<Action>, i: nat)
    requires Run(states, actions) && i < |states|
    ensures Inv(states[i])
  {
    if i > 0 {
      RunKeepsInv(states, actions, i - 1);
      StepKeepsInv(states[i - 1], actions[i - 1]);
    }
  }

  /**
   In every interleaving, spurious failures included, the emitted nonces are 0, 1, 2, ... without gap
   or repetition, and all of them lie below the limit.
   */
  lemma NoncesAreUnique(states: seq<State>, actions: seq<Action>, n: nat)
    requires Run(states, actions) && n < |states|
    ensures var nonces := Nonces(states[n].events);
            |nonces| <= REJECT_AFTER_MESSAGES && forall i :: 0 <= i < |nonces| ==> nonces[i] == i
  {
    RunKeepsInv(states, actions, n);
  }

  /** Once the limit is reached nothing is emitted any more, even by senders that were inside the loop. */
  lemma {:induction false} ExhaustedForGood(states: seq<State>, actions: seq<Action>, i: nat, j: nat)
    requires Run(states, actions) && i <= j < |states|
    requires states[i].counter >= REJECT_AFTER_MESSAGES
    ensures states[j].counter == REJECT_AFTER_MESSAGES
    ensures Nonces(states[j].events) == Nonces(states[i].events)
  {
    RunKeepsInv(states, actions, j);
    if i < j {
      ExhaustedForGood(states, actions, i, j - 1);
      RunKeepsInv(states, actions, j - 1);
    }
    RunKeepsInv(states, actions, i);
  }

  /** A sender that starts after the limit was reached is refused. */
  lemma RefusedAfterLimit(states: seq<State>, actions: seq<Action>, i: nat, j: nat)
    requires Run(states, actions) && i <= j < |actions| && actions[j].Load?
    requires states[i].counter >= REJECT_AFTER_MESSAGES
    ensures states[j + 1].events == states[j].events + [Refused(actions[j].sender)]
  {
    ExhaustedForGood(states, actions, i, j);
  }

  lemma {:induction false} LoadedStays(states: seq<State>, actions: seq<Action>, t: Sender, i: nat, j: nat)
    requires Run(states, actions) && i < j <= |actions|
    requires actions[i] == Load(t) && states[i].counter < REJECT_AFTER_MESSAGES
    requires forall k :: i < k < j ==> actions[k].sender != t
    ensures t in states[j].loaded && states[j].loaded[t] == states[i].counter
    decreases j
  {
    if j == i + 1 {
      assert Enabled(states[i], actions[i]) && states[j] == Step(states[i], actions[i]);
    } else {
      LoadedStays(states, actions, t, i, j - 1);
      assert states[j - 1 + 1] == Step(states[j - 1], actions[j - 1]);
    }
  }

  /** A sender sends, with the nonce it loaded, exactly if nobody has sent since and the exchange does not fail for nothing. */
  lemma SendsUndisturbed(states: seq<State>, actions: seq<Action>, t: Sender, spuriousFailure: bool, i: nat, j: nat)
    requires Run(states, actions) && i < j < |actions|
    requires actions[i] == Load(t) && states[i].counter < REJECT_AFTER_MESSAGES
    requires actions[j] == CompareExchange(t, spuriousFailure) && forall k :: i < k < j ==> actions[k].sender != t
    ensures var sends := states[j].counter == states[i].counter && !spuriousFailure;
            && states[j + 1].events == states[j].events + (if sends then [Emitted(t, states[i].counter)] else [])
            && states[j + 1].counter == states[j].counter + (if sends then 1 else 0)
  {
    LoadedStays(states, actions, t, i, j);
  }

  /** Runs that send any number of nonces up to the limit. */
  lemma {:induction false} AnyNumberIsSent(n: nat) returns (states: seq<State>, actions: seq<Action>)
    requires n <= REJECT_AFTER_MESSAGES
    ensures Run(states, actions) && states[|actions|].counter == n && states[|actions|].loaded == map[]
    ensures |Nonces(states[|actions|].events)| == n
  {
    if n == 0 {
      states, actions := [INITIAL], [];
    } else {
      states, actions := AnyNumberIsSent(n - 1);
      states, actions := Extended(states, actions, Load(0));
      states, actions := Extended(states, actions, CompareExchange(0, false));
      RunKeepsInv(states, actions, |actions|);
    }
  }

  lemma Extended(states: seq<State>, actions: seq<Action>, a: Action) returns (longer: seq<State>, done: seq<Action>)
    requires Run(states, actions) && Enabled(states[|actions|], a)
    ensures Run(longer, done) && |done| == |actions| + 1 && longer[|done|] == Step(states[|actions|], a)
  {
    longer, done := states + [Step(states[|actions|], a)], actions + [a];
  }
}

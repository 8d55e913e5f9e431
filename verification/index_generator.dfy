/**
 The peer-index generator: any number of callers draw 24-bit indices concurrently, each reserving a
 draw and then advancing the shared register in a load / weak compare-exchange loop.
 */
module IndexGenerator {
  import opened Lfsr
  import opened LfsrPeriod

  type Caller = nat

  /** A caller inside `new_index` has reserved its draw, and then loaded a register state. */
  datatype Phase = Reserved | Loaded(current: bv32)

  /** The atomics, what each caller inside `new_index` is at, the draws so far and the seed they started from. */
  datatype State = State(lfsr: bv32, remaining: nat, mask: bv32, callers: map<Caller, Phase>,
                         issued: seq<bv32>, refused: nat, seed: bv32)

  datatype Action =
    | Initialize(seed: bv32, mask: bv32)
    | Reserve(caller: Caller)
    | Load(caller: Caller)
    | CompareExchange(caller: Caller, spuriousFailure: bool)

  const INITIAL := State(0, PERIOD, 0, map[], [], 0, 0)

  function Mask(x: bv32, mask: bv32): bv32
  {
    (x ^ mask) & 0x00ff_ffff
  }

  lemma MaskIsInjective(x: bv32, y: bv32, mask: bv32)
    requires Small(x) && Small(y) && Small(mask) && Mask(x, mask) == Mask(y, mask)
    ensures x == y
  {
  }

  lemma NeverMax(current: bv32, mask: bv32)
    requires Small(current) && current != 0 && Small(mask)
    ensures Small(current - 1) && Mask(current - 1, mask) != LFSR_MAX ^ mask
  {
  }

  lemma Predecessors(a: bv32, b: bv32)
    requires a - 1 == b - 1
    ensures a == b
  {
  }

  /** The index handed out for a register state. */
  function Output(current: bv32, mask: bv32): bv32
  {
    var index := Mask(current - 1, mask);
    if index == 0 then LFSR_MAX ^ mask else index
  }

  lemma OutputIsAnIndex(current: bv32, mask: bv32)
    requires Small(current) && current != 0 && Small(mask)
    ensures 0 < Output(current, mask) <= LFSR_MAX
  {
  }

  /** Replacing zero by something that does not occur keeps values apart. */
  lemma ReplacedZeroIsInjective(x: bv32, y: bv32, z: bv32)
    requires x != z && y != z && (if x == 0 then z else x) == (if y == 0 then z else y)
    ensures x == y
  {
  }

  lemma SameMasked(a: bv32, b: bv32, mask: bv32)
    requires Small(a) && Small(b) && a != 0 && b != 0 && Small(mask) && Output(a, mask) == Output(b, mask)
    ensures Mask(a - 1, mask) == Mask(b - 1, mask)
  {
    NeverMax(a, mask);
    NeverMax(b, mask);
    ReplacedZeroIsInjective(Mask(a - 1, mask), Mask(b - 1, mask), LFSR_MAX ^ mask);
  }

  /** The mask and the replacement for zero keep different states apart. */
  lemma OutputIsInjective(a: bv32, b: bv32, mask: bv32)
    requires Small(a) && Small(b) && a != 0 && b != 0 && Small(mask) && Output(a, mask) == Output(b, mask)
    ensures a == b
  {
    SameMasked(a, b, mask);
    NeverMax(a, mask);
    NeverMax(b, mask);
    MaskIsInjective(a - 1, b - 1, mask);
    Predecessors(a, b);
  }

  /** Seeds and masks are drawn non-zero; no index is drawn before initialization. */
  predicate Enabled(s: State, a: Action)
  {
    match a
    case Initialize(seed, mask) => 0 < seed <= LFSR_MAX && 0 < mask <= LFSR_MAX
    case Reserve(c) => s.lfsr != 0 && c !in s.callers
    case Load(c) => c in s.callers && s.callers[c].Reserved?
    case CompareExchange(c, _) => c in s.callers && s.callers[c].Loaded?
  }

  /** One atomic step. */
  function Next(s: State, a: Action): State
    requires Enabled(s, a)
  {
    match a
    case Initialize(seed, mask) => if s.lfsr != 0 then s else s.(lfsr := seed, mask := mask, seed := seed)
    case Reserve(c) =>
      if s.remaining == 0 then s.(refused := s.refused + 1)
      else s.(remaining := s.remaining - 1, callers := s.callers[c := Reserved])
    case Load(c) => s.(callers := s.callers[c := Loaded(s.lfsr)])
    case CompareExchange(c, spuriousFailure) =>
      var current := s.callers[c].current;
      if s.lfsr == current && !spuriousFailure then
        s.(lfsr := Step(current), callers := s.callers - {c}, issued := s.issued + [Output(current, s.mask)])
      else s.(callers := s.callers[c := Reserved])
  }

  ghost predicate Run(states: seq<State>, actions: seq<Action>)
  {
    && |states| == |actions| + 1
    && states[0] == INITIAL
    && forall i :: 0 <= i < |actions| ==> Enabled(states[i], actions[i]) && states[i + 1] == Next(states[i], actions[i])
  }

  /** Every draw that was reserved is issued or under way. */
  ghost predicate Counted(s: State)
  {
    |s.issued| + |s.callers| + s.remaining == PERIOD
  }

  /** The register has moved once for every index issued. */
  ghost predicate InStep(s: State)
  {
    && Small(s.seed) && s.seed != 0 && Small(s.mask)
    && s.lfsr == Steps(s.seed, |s.issued|)
    && forall i :: 0 <= i < |s.issued| ==> s.issued[i] == Output(Steps(s.seed, i), s.mask)
  }

  ghost predicate Inv(s: State)
  {
    Counted(s) && if s.lfsr == 0 then s == INITIAL else InStep(s)
  }

  lemma NextKeepsCount(s: State, a: Action)
    requires Counted(s) && Enabled(s, a)
    ensures Counted(Next(s, a))
  {
  }

  lemma IssueKeepsStep(s: State, t: State)
    requires InStep(s) && t.seed == s.seed && t.mask == s.mask && t.lfsr == Step(s.lfsr)
    requires t.issued == s.issued + [Output(s.lfsr, s.mask)]
    ensures InStep(t) && t.lfsr != 0
  {
    NextOfSteps(s.seed, |s.issued|);
  }

  lemma OthersKeepStep(s: State, t: State)
    requires InStep(s) && t.(remaining := s.remaining, callers := s.callers, refused := s.refused) == s
    ensures InStep(t)
  {
  }

  lemma NextKeepsStep(s: State, a: Action)
    requires InStep(s) && Enabled(s, a) && s.lfsr != 0
    ensures InStep(Next(s, a)) && Next(s, a).lfsr != 0
  {
    var t := Next(s, a);
    if t.issued != s.issued {
      IssueKeepsStep(s, t);
    } else {
      OthersKeepStep(s, t);
    }
  }

  lemma NextKeepsInv(s: State, a: Action)
    requires Inv(s) && Enabled(s, a)
    ensures Inv(Next(s, a))
  {
    NextKeepsCount(s, a);
    if s.lfsr != 0 {
      NextKeepsStep(s, a);
    }
  }

  lemma {:induction false} RunKeepsInv(states: seq<State>, actions: seq<Action>, i: nat)
    requires Run(states, actions) && i < |states|
    ensures Inv(states[i])
  {
    if i > 0 {
      RunKeepsInv(states, actions, i - 1);
      NextKeepsInv(states[i - 1], actions[i - 1]);
    }
  }

  /**
   In every interleaving of any number of callers, from any seed and mask, all indices handed out are pairwise
   distinct, non-zero and fit 24 bits.
   */
  lemma IndicesAreUnique(states: seq<State>, actions: seq<Action>, n: nat, i: nat, j: nat)
    requires Run(states, actions) && n < |states| && i < j < |states[n].issued|
    ensures var issued := states[n].issued;
            issued[i] != issued[j] && 0 < issued[i] <= LFSR_MAX && 0 < issued[j] <= LFSR_MAX
  {
    RunKeepsInv(states, actions, n);
    var s := states[n];
    StepsStay(s.seed, i);
    StepsStay(s.seed, j);
    StatesAreDistinct(s.seed, i, j);
    OutputIsAnIndex(Steps(s.seed, i), s.mask);
    OutputIsAnIndex(Steps(s.seed, j), s.mask);
    if s.issued[i] == s.issued[j] {
      OutputIsInjective(Steps(s.seed, i), Steps(s.seed, j), s.mask);
    }
  }

  /** Every reserved draw ends in an index: a draw is refused only when all 2^24 - 1 have been reserved. */
  lemma AllDrawsArePermitted(states: seq<State>, actions: seq<Action>, n: nat)
    requires Run(states, actions) && n < |actions| && actions[n].Reserve?
    ensures states[n + 1].refused == states[n].refused <==> |states[n].issued| + |states[n].callers| < PERIOD
  {
    RunIsCounted(states, actions, n);
    RefusedWhenSpent(states[n], actions[n]);
  }

  lemma RunIsCounted(states: seq<State>, actions: seq<Action>, n: nat)
    requires Run(states, actions) && n < |states|
    ensures Counted(states[n])
  {
    RunKeepsInv(states, actions, n);
  }

  lemma RefusedWhenSpent(s: State, a: Action)
    requires Counted(s) && Enabled(s, a) && a.Reserve?
    ensures Next(s, a).refused == s.refused <==> |s.issued| + |s.callers| < PERIOD
  {
  }

  lemma OtherStepLeaves(s: State, a: Action, c: Caller)
    requires Enabled(s, a) && c in s.callers && (a.Initialize? || a.caller != c)
    ensures c in Next(s, a).callers && Next(s, a).callers[c] == s.callers[c]
  {
    match a
    case Initialize(_, _) =>
    case Reserve(_) =>
    case Load(_) =>
    case CompareExchange(other, _) =>
      var t := Next(s, a);
      assert t.callers == s.callers - {other} || t.callers == s.callers[other := Reserved];
  }

  lemma LoadIsKept(s: State, c: Caller)
    requires Enabled(s, Load(c))
    ensures c in Next(s, Load(c)).callers && Next(s, Load(c)).callers[c] == Loaded(s.lfsr)
  {
  }

  lemma {:induction false} LoadedStays(states: seq<State>, actions: seq<Action>, c: Caller, i: nat, j: nat)
    requires Run(states, actions) && i < j <= |actions| && actions[i] == Load(c)
    requires forall k :: i < k < j ==> actions[k].Initialize? || actions[k].caller != c
    ensures c in states[j].callers && states[j].callers[c] == Loaded(states[i].lfsr)
    decreases j
  {
    var n := j - 1;
    assert Enabled(states[n], actions[n]) && states[n + 1] == Next(states[n], actions[n]);
    if n == i {
      LoadIsKept(states[i], c);
    } else {
      LoadedStays(states, actions, c, i, n);
      OtherStepLeaves(states[n], actions[n], c);
    }
  }

  /** A caller gets the index of the state it loaded exactly if nobody has drawn since and the exchange does not fail for nothing. */
  lemma DrawsUndisturbed(states: seq<State>, actions: seq<Action>, c: Caller, spuriousFailure: bool, i: nat, j: nat)
    requires Run(states, actions) && i < j < |actions| && actions[i] == Load(c)
    requires actions[j] == CompareExchange(c, spuriousFailure)
    requires forall k :: i < k < j ==> actions[k].Initialize? || actions[k].caller != c
    ensures var draws := states[j].lfsr == states[i].lfsr && !spuriousFailure;
            && states[j + 1].issued == states[j].issued + (if draws then [Output(states[i].lfsr, states[j].mask)] else [])
            && (c in states[j + 1].callers <==> !draws)
  {
    LoadedStays(states, actions, c, i, j);
  }

  /** Runs that draw any number of indices, up to all there are. */
  lemma {:induction false} AnyNumberIsDrawn(n: nat, seed: bv32, mask: bv32)
    returns (states: seq<State>, actions: seq<Action>)
    requires n <= PERIOD && 0 < seed <= LFSR_MAX && 0 < mask <= LFSR_MAX
    ensures Run(states, actions)
    ensures var s := states[|actions|];
            |s.issued| == n && s.callers == map[] && s.lfsr != 0 && s.mask == mask && s.refused == 0
  {
    if n == 0 {
      states, actions := Extended([INITIAL], [], Initialize(seed, mask));
    } else {
      states, actions := AnyNumberIsDrawn(n - 1, seed, mask);
      RunKeepsInv(states, actions, |actions|);
      states, actions := Extended(states, actions, Reserve(0));
      states, actions := Extended(states, actions, Load(0));
      states, actions := Extended(states, actions, CompareExchange(0, false));
      RunKeepsInv(states, actions, |actions|);
    }
  }

  lemma Extended(states: seq<State>, actions: seq<Action>, a: Action) returns (longer: seq<State>, done: seq<Action>)
    requires Run(states, actions) && Enabled(states[|actions|], a)
    ensures Run(longer, done) && |done| == |actions| + 1 && longer[|done|] == Next(states[|actions|], a)
  {
    longer, done := states + [Next(states[|actions|], a)], actions + [a];
  }
}

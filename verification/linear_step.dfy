/** Values that add without carry and a linear step on them: polynomials in the step commute. */
module LinearStep {
  datatype Space<!G> = Space(add: (G, G) -> G, zero: G, step: G -> G)

  ghost predicate Associates<G(!new)>(s: Space<G>)
  {
    forall x, y, z :: s.add(s.add(x, y), z) == s.add(x, s.add(y, z))
  }

  ghost predicate Commutes<G(!new)>(s: Space<G>)
  {
    forall x, y :: s.add(x, y) == s.add(y, x)
  }

  ghost predicate StepAdds<G(!new)>(s: Space<G>)
  {
    forall x, y :: s.step(s.add(x, y)) == s.add(s.step(x), s.step(y))
  }

  ghost predicate Linear<G(!new)>(s: Space<G>)
  {
    Associates(s) && Commutes(s) && StepAdds(s) && s.step(s.zero) == s.zero && forall x :: s.add(x, s.zero) == x
  }

  /** The polynomial with coefficients `p`, lowest first, in the step, applied to `b`. */
  ghost function Act<G>(s: Space<G>, p: seq<bool>, b: G): G
  {
    if p == [] then s.zero
    else if p[0] then s.add(b, Act(s, p[1..], s.step(b)))
    else Act(s, p[1..], s.step(b))
  }

  lemma Interchange<G(!new)>(s: Space<G>, a: G, b: G, c: G, d: G)
    requires Linear(s)
    ensures s.add(s.add(a, b), s.add(c, d)) == s.add(s.add(a, c), s.add(b, d))
  {
  }

  lemma {:induction false} ActAdds<G(!new)>(s: Space<G>, p: seq<bool>, x: G, y: G)
    requires Linear(s)
    ensures Act(s, p, s.add(x, y)) == s.add(Act(s, p, x), Act(s, p, y))
  {
    if p != [] {
      ActAdds(s, p[1..], s.step(x), s.step(y));
      Interchange(s, x, y, Act(s, p[1..], s.step(x)), Act(s, p[1..], s.step(y)));
    }
  }

  lemma {:induction false} ActSteps<G(!new)>(s: Space<G>, p: seq<bool>, b: G)
    requires Linear(s)
    ensures Act(s, p, s.step(b)) == s.step(Act(s, p, b))
  {
    if p != [] {
      ActSteps(s, p[1..], s.step(b));
    }
  }

  lemma {:induction false} ActZero<G(!new)>(s: Space<G>, p: seq<bool>)
    requires Linear(s)
    ensures Act(s, p, s.zero) == s.zero
  {
    if p != [] {
      ActZero(s, p[1..]);
    }
  }

  lemma {:induction false} ActCommutes<G(!new)>(s: Space<G>, p: seq<bool>, q: seq<bool>, b: G)
    requires Linear(s)
    ensures Act(s, p, Act(s, q, b)) == Act(s, q, Act(s, p, b))
  {
    if p == [] {
      ActZero(s, q);
    } else {
      ActSteps(s, q, b);
      ActCommutes(s, p[1..], q, s.step(b));
      ActAdds(s, q, b, Act(s, p[1..], s.step(b)));
    }
  }
}

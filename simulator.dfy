/** `dfa_accepts` of DFA.py: one pass over the input from the start state,
    with the two outcomes of a missing transition. */
module Simulator {
  import opened DfaModel

  /** Where a walk over the transition map ends: in a state after the
      whole input, or at the first (state, character) key that is absent. */
  datatype Walk<S, C> = Reached(state: S) | Stuck(state: S, character: C)

  /** One lookup in the transition map. */
  function Step<S(==, !new), C(==, !new)>(t: map<(S, C), S>, q: S, c: C): (r: Walk<S, C>)
    ensures r.Reached? <==> (q, c) in t
    ensures r.Stuck? ==> r == Stuck(q, c)
  {
    if (q, c) in t then Reached(t[(q, c)]) else Stuck(q, c)
  }

  /** The walk from `s` over `w`, defined on prefixes: the walk over `w`
      extends the walk over all but its last character by one lookup. */
  function Run<S(==, !new), C(==, !new)>(t: map<(S, C), S>, s: S, w: seq<C>): (r: Walk<S, C>)
    ensures w == [] ==> r == Reached(s)
    ensures r.Stuck? ==> (r.state, r.character) !in t
    decreases |w|
  {
    if w == [] then Reached(s)
    else
      match Run(t, s, w[..|w| - 1])
      case Stuck(q, c) => Stuck(q, c)
      case Reached(q) => Step(t, q, w[|w| - 1])
  }

  /** What `dfa_accepts` returns or raises for input `w`. */
  function Verdict<S(==, !new), C(==, !new)>(dfa: Dfa<S, C>, w: seq<C>): (r: Result<bool, InvalidDfa<S, C>>)
    ensures r.Err? ==> r.error.UndefinedTransition? && r.error.character in dfa.alphabet
  {
    match Run(dfa.transitions, dfa.startState, w)
    case Reached(q) => Ok(q in dfa.finalStates)
    case Stuck(q, c) =>
      if c in dfa.alphabet then Err(UndefinedTransition(q, c)) else Ok(false)
  }

  /** An independent reference: the transition map folded over `w` from the
      front, `None` as soon as a lookup fails. */
  function Delta<S(==, !new), C(==, !new)>(t: map<(S, C), S>, s: S, w: seq<C>): (r: Option<S>)
    ensures w == [] ==> r == Some(s)
    decreases |w|
  {
    if w == [] then Some(s)
    else if (s, w[0]) in t then Delta(t, t[(s, w[0])], w[1..])
    else None
  }

  /** The walk over `[c] + w` is one lookup followed by the walk over `w`. */
  lemma {:induction false} RunCons<S(!new), C(!new)>(t: map<(S, C), S>, s: S, c: C, w: seq<C>)
    ensures Run(t, s, [c] + w) == match Step(t, s, c)
                                  case Reached(q) => Run(t, q, w)
                                  case Stuck(q, d) => Stuck(q, d)
    decreases |w|
  {
    if w == [] {
      assert ([c] + w)[..0] == [];
    } else {
      var u := [c] + w;
      assert u[..|u| - 1] == [c] + w[..|w| - 1];
      RunCons(t, s, c, w[..|w| - 1]);
    }
  }

  /** The prefix-defined walk and the front-first fold agree: the walk
      reaches a state exactly when every lookup succeeds, and it is the
      state the fold reaches. */
  lemma {:induction false} RunIsDelta<S(!new), C(!new)>(t: map<(S, C), S>, s: S, w: seq<C>)
    ensures Run(t, s, w).Reached? <==> Delta(t, s, w).Some?
    ensures Run(t, s, w).Reached? ==> Run(t, s, w).state == Delta(t, s, w).value
    decreases |w|
  {
    if w != [] {
      assert w == [w[0]] + w[1..];
      RunCons(t, s, w[0], w[1..]);
      if (s, w[0]) in t {
        RunIsDelta(t, t[(s, w[0])], w[1..]);
      }
    }
  }

  /** Once a walk is stuck on a prefix, it is stuck at the same key on
      every extension: later characters are never looked at. */
  lemma {:induction false} StuckPersists<S(!new), C(!new)>(t: map<(S, C), S>, s: S, w: seq<C>, n: nat)
    requires n <= |w|
    requires Run(t, s, w[..n]).Stuck?
    ensures Run(t, s, w) == Run(t, s, w[..n])
    decreases |w| - n
  {
    if n < |w| {
      assert w[..|w| - 1][..n] == w[..n];
      StuckPersists(t, s, w[..|w| - 1], n);
    } else {
      assert w[..n] == w;
    }
  }

  /** A walk is stuck at key (q, c) exactly when some position i holds c,
      the walk over the first i characters reaches q, and (q, c) is absent. */
  lemma {:induction false} StuckAtFirstMissingKey<S(!new), C(!new)>(t: map<(S, C), S>, s: S, w: seq<C>, q: S, c: C)
    ensures Run(t, s, w) == Stuck(q, c) <==>
            exists i :: 0 <= i < |w| && Run(t, s, w[..i]) == Reached(q) && w[i] == c && (q, c) !in t
    decreases |w|
  {
    if w == [] {
      return;
    }
    var n := |w| - 1;
    var u := w[..n];
    assert w[..n] == u;
    StuckAtFirstMissingKey(t, s, u, q, c);
    if Run(t, s, w) == Stuck(q, c) {
      if Run(t, s, u).Stuck? {
        var i :| 0 <= i < |u| && Run(t, s, u[..i]) == Reached(q) && u[i] == c && (q, c) !in t;
        assert u[..i] == w[..i];
      } else {
        assert Run(t, s, w[..n]) == Reached(q) && w[n] == c && (q, c) !in t;
      }
    } else {
      forall i | 0 <= i < |w| && Run(t, s, w[..i]) == Reached(q) && w[i] == c
        ensures (q, c) in t
      {
        if i < n {
          assert u[..i] == w[..i];
        }
      }
    }
  }

  /** `dfa_accepts`: the current state after `i` characters is the walk over
      the first `i` characters; a missing key on a character outside the
      alphabet rejects, one on a character inside it raises. */
  method Accepts<S(==, !new), C(==, !new)>(dfa: Dfa<S, C>, input: seq<C>) returns (r: Result<bool, InvalidDfa<S, C>>)
    ensures r == Verdict(dfa, input)
    ensures input == [] ==> r == Ok(dfa.startState in dfa.finalStates)
    ensures r.Err? ==> r.error.UndefinedTransition? && r.error.character in dfa.alphabet
                       && (r.error.state, r.error.character) !in dfa.transitions
  {
    var current := dfa.startState;
    var i := 0;
    while i < |input|
      invariant 0 <= i <= |input|
      invariant Run(dfa.transitions, dfa.startState, input[..i]) == Reached(current)
    {
      var c := input[i];
      assert input[..i + 1][..i] == input[..i];
      if (current, c) !in dfa.transitions {
        StuckPersists(dfa.transitions, dfa.startState, input, i + 1);
        if c !in dfa.alphabet {
          return Ok(false);
        }
        return Err(UndefinedTransition(current, c));
      }
      current := dfa.transitions[(current, c)];
      i := i + 1;
    }
    assert input[..i] == input;
    return Ok(current in dfa.finalStates);
  }

  /** When every lookup succeeds, the answer is whether the folded state is
      accepting. */
  lemma AcceptsFoldedState<S(!new), C(!new)>(dfa: Dfa<S, C>, w: seq<C>)
    ensures Delta(dfa.transitions, dfa.startState, w).Some? ==>
            Verdict(dfa, w) == Ok(Delta(dfa.transitions, dfa.startState, w).value in dfa.finalStates)
  {
    RunIsDelta(dfa.transitions, dfa.startState, w);
  }

  /** At the first absent key (q, w[i]): a character outside the alphabet
      gives a plain reject, one inside it gives the error naming (q, w[i]);
      in both cases the characters after position i do not matter. */
  lemma MissingKeyOutcome<S(!new), C(!new)>(dfa: Dfa<S, C>, w: seq<C>, i: nat, q: S)
    requires i < |w|
    requires Run(dfa.transitions, dfa.startState, w[..i]) == Reached(q)
    requires (q, w[i]) !in dfa.transitions
    ensures w[i] !in dfa.alphabet ==> Verdict(dfa, w) == Ok(false)
    ensures w[i] in dfa.alphabet ==> Verdict(dfa, w) == Err(UndefinedTransition(q, w[i]))
    ensures Verdict(dfa, w) == Verdict(dfa, w[..i + 1])
  {
    var t := dfa.transitions;
    assert w[..i + 1][..i] == w[..i];
    StuckPersists(t, dfa.startState, w, i + 1);
  }
}

/** What validation guarantees about simulation, and what it does not:
    the totality check of DFA.py examines only the states that are the
    source of some transition. */
module Guarantees {
  import opened DfaModel
  import opened Validator
  import opened Simulator

  /** In a well-formed DFA a key is present exactly when its state is a
      transition source and its character is in the alphabet; in
      particular a character outside the alphabet always misses. */
  lemma StepDefinedness<S(!new), C(!new)>(dfa: Dfa<S, C>, q: S, c: C)
    requires WellFormed(dfa)
    ensures (q, c) in dfa.transitions <==> q in Sources(dfa.transitions) && c in dfa.alphabet
    ensures c !in dfa.alphabet ==> (q, c) !in dfa.transitions
  {
  }

  /** Every state a walk passes through in a well-formed DFA is a state of
      the DFA, and so is the state at which it gets stuck. */
  lemma {:induction false} RunStaysInStates<S(!new), C(!new)>(dfa: Dfa<S, C>, w: seq<C>)
    requires dfa.startState in dfa.states && TargetsInStates(dfa.transitions, dfa.states)
    ensures Run(dfa.transitions, dfa.startState, w).state in dfa.states
    decreases |w|
  {
    if w != [] {
      RunStaysInStates(dfa, w[..|w| - 1]);
    }
  }

  /** A character outside the alphabet anywhere in the input makes a DFA
      whose keys use only alphabet characters (check 3 of `validate_dfa`)
      reject it or raise, never accept. */
  lemma UnknownCharacterNeverAccepted<S(!new), C(!new)>(dfa: Dfa<S, C>, w: seq<C>, i: nat)
    requires KeysUseAlphabet(dfa.transitions, dfa.alphabet)
    requires i < |w| && w[i] !in dfa.alphabet
    ensures Verdict(dfa, w) != Ok(true)
    ensures Run(dfa.transitions, dfa.startState, w).Stuck?
  {
  }

  /** If every source state is total (check 6 of `validate_dfa`) and every
      state the walk looks up a character in is a transition source, the
      simulation never raises: it consumes the whole input or rejects at a
      character outside the alphabet. The state after the last character is
      never looked up, so it need not be a source. */
  lemma SourcesReachedNeverRaise<S(!new), C(!new)>(dfa: Dfa<S, C>, w: seq<C>)
    requires SourcesTotal(dfa.transitions, dfa.alphabet)
    requires forall i | 0 <= i < |w| :: Run(dfa.transitions, dfa.startState, w[..i]).state in Sources(dfa.transitions)
    ensures Verdict(dfa, w).Ok?
    ensures Run(dfa.transitions, dfa.startState, w).Stuck? ==> Verdict(dfa, w) == Ok(false)
  {
    var t := dfa.transitions;
    var walk := Run(t, dfa.startState, w);
    if walk.Stuck? {
      StuckAtFirstMissingKey(t, dfa.startState, w, walk.state, walk.character);
      var i :| 0 <= i < |w| && Run(t, dfa.startState, w[..i]) == Reached(walk.state)
                && w[i] == walk.character && (walk.state, walk.character) !in t;
      assert walk.character !in CharsOf(t, walk.state);
    }
  }

  /** A DFA that passes validation and whose every state is complete never
      raises: an input over the alphabet is consumed to the state the
      transition map folds it to, and any other input is rejected. */
  lemma CompleteNeverRaises<S(!new), C(!new)>(dfa: Dfa<S, C>, w: seq<C>)
    requires WellFormed(dfa) && Complete(dfa)
    ensures Verdict(dfa, w).Ok?
    ensures (forall i | 0 <= i < |w| :: w[i] in dfa.alphabet) ==>
              Delta(dfa.transitions, dfa.startState, w).Some? &&
              Verdict(dfa, w) == Ok(Delta(dfa.transitions, dfa.startState, w).value in dfa.finalStates)
    ensures (exists i | 0 <= i < |w| :: w[i] !in dfa.alphabet) ==> Verdict(dfa, w) == Ok(false)
  {
    CompleteRunsStayDefined(dfa, w);
    RunIsDelta(dfa.transitions, dfa.startState, w);
    if exists i | 0 <= i < |w| :: w[i] !in dfa.alphabet {
      var i :| 0 <= i < |w| && w[i] !in dfa.alphabet;
      UnknownCharacterNeverAccepted(dfa, w, i);
    }
  }

  /** With every state complete, a walk staying inside `states` only gets
      stuck on a character outside the alphabet. */
  lemma CompleteRunsStayDefined<S(!new), C(!new)>(dfa: Dfa<S, C>, w: seq<C>)
    requires dfa.startState in dfa.states && TargetsInStates(dfa.transitions, dfa.states) && Complete(dfa)
    ensures Run(dfa.transitions, dfa.startState, w).Stuck? ==>
              Run(dfa.transitions, dfa.startState, w).character !in dfa.alphabet
    ensures (forall i | 0 <= i < |w| :: w[i] in dfa.alphabet) ==> Run(dfa.transitions, dfa.startState, w).Reached?
  {
    var t := dfa.transitions;
    var walk := Run(t, dfa.startState, w);
    RunStaysInStates(dfa, w);
    if walk.Stuck? {
      StuckAtFirstMissingKey(t, dfa.startState, w, walk.state, walk.character);
      var i :| 0 <= i < |w| && Run(t, dfa.startState, w[..i]) == Reached(walk.state)
                && w[i] == walk.character && (walk.state, walk.character) !in t;
      assert walk.character !in CharsOf(t, walk.state);
    }
  }

  /** For a DFA that passes `validate_dfa` and whose walk looks up
      characters only in transition sources, the simulation never raises,
      and an input with a character outside the alphabet is rejected. */
  lemma ValidatedRunNeverRaises<S(!new), C(!new)>(dfa: Dfa<S, C>, w: seq<C>)
    requires WellFormed(dfa)
    requires forall i | 0 <= i < |w| :: Run(dfa.transitions, dfa.startState, w[..i]).state in Sources(dfa.transitions)
    ensures Verdict(dfa, w).Ok?
    ensures forall i | 0 <= i < |w| && w[i] !in dfa.alphabet :: Verdict(dfa, w) == Ok(false)
  {
    SourcesReachedNeverRaise(dfa, w);
    forall i | 0 <= i < |w| && w[i] !in dfa.alphabet
      ensures Verdict(dfa, w) == Ok(false)
    {
      UnknownCharacterNeverAccepted(dfa, w, i);
    }
  }

  /** When every state is the source of some transition, the totality check
      of `validate_dfa` covers every state, so a DFA passing it is complete. */
  lemma SourcesCoverStatesMeansComplete<S(!new), C(!new)>(dfa: Dfa<S, C>)
    requires WellFormed(dfa) && dfa.states <= Sources(dfa.transitions)
    ensures Complete(dfa)
  {
  }
}

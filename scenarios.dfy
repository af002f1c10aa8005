/** The hand-built scenarios of DFA_tests.py, with integer states and
    character symbols, and a validated DFA that still raises. */
module Scenarios {
  import opened DfaModel
  import opened Validator
  import opened Simulator
  import opened Guarantees

  const AB: set<char> := {'a', 'b'}

  /** Transitions of the DFA accepting strings with an odd number of 'a's. */
  const ODD_AS_MOVES: map<(int, char), int> :=
    map[(1, 'a') := 2, (1, 'b') := 1, (2, 'a') := 1, (2, 'b') := 2]

  const ODD_AS: Dfa<int, char> := Dfa({1, 2}, AB, ODD_AS_MOVES, 1, {2})

  /** ODD_AS without its transition (1, 'b'), never validated. */
  const MISSING_ONE_B: Dfa<int, char> :=
    Dfa({1, 2}, AB, map[(1, 'a') := 2, (2, 'a') := 1, (2, 'b') := 2], 1, {2})

  /** Transitions under which state 2 has no outgoing transition at all. */
  const NO_WAY_OUT_MOVES: map<(int, char), int> := map[(1, 'a') := 2, (1, 'b') := 2]

  const NO_WAY_OUT: Dfa<int, char> := Dfa({1, 2}, AB, NO_WAY_OUT_MOVES, 1, {2})

  lemma OddAsIsValidAndComplete()
    ensures WellFormed(ODD_AS) && Complete(ODD_AS)
  {
  }

  /** "abbaa" walks 1, 2, 2, 2, 1, 2 and is accepted; "abba" stops in 1
      and is rejected. */
  lemma OddAsVerdicts()
    ensures Verdict(ODD_AS, "abbaa") == Ok(true)
    ensures Verdict(ODD_AS, "abba") == Ok(false)
  {
    var t := ODD_AS_MOVES;
    assert "a"[..0] == [];
    assert "ab"[..1] == "a";
    assert "abb"[..2] == "ab";
    assert "abba"[..3] == "abb";
    assert "abbaa"[..4] == "abba";
    assert Run(t, 1, "abba") == Reached(1);
  }

  /** "ababaQ" is rejected on 'Q' without an error. */
  lemma OddAsRejectsUnknownCharacter()
    ensures Verdict(ODD_AS, "ababaQ") == Ok(false)
  {
    OddAsIsValidAndComplete();
    assert "ababaQ"[5] !in ODD_AS.alphabet;
    CompleteNeverRaises(ODD_AS, "ababaQ");
  }

  /** Without (1, 'b'), input "bbbbb" raises at state 1 on 'b'. */
  lemma MissingTransitionRaises()
    ensures Verdict(MISSING_ONE_B, "bbbbb") == Err(UndefinedTransition(1, 'b'))
  {
    assert "bbbbb"[..0] == [];
    MissingKeyOutcome(MISSING_ONE_B, "bbbbb", 0, 1);
  }

  /** NO_WAY_OUT passes every check of `validate_dfa`, yet "aa" raises at
      state 2 on 'a': the totality check skips state 2. */
  lemma ValidatedDfaStillRaises()
    ensures WellFormed(NO_WAY_OUT)
    ensures !Complete(NO_WAY_OUT)
    ensures Verdict(NO_WAY_OUT, "aa") == Err(UndefinedTransition(2, 'a'))
  {
    assert CharsOf(NO_WAY_OUT_MOVES, 1) == AB;
    assert 'a' !in CharsOf(NO_WAY_OUT_MOVES, 2);
    assert "a"[..0] == [];
    assert "aa"[..1] == "a";
  }

  const STATES: set<int> := {1, 2, 3, 4}

  /** The valid transition map of the validator tests: a ring 1, 2, 3, 4. */
  const RING: map<(int, char), int> :=
    map[(1, 'a') := 2, (1, 'b') := 2, (2, 'a') := 3, (2, 'b') := 3,
        (3, 'a') := 4, (3, 'b') := 4, (4, 'a') := 1, (4, 'b') := 1]

  /** RING with (4, 'b') replaced by (4, 'c'). */
  const WITH_C: map<(int, char), int> :=
    map[(1, 'a') := 2, (1, 'b') := 2, (2, 'a') := 3, (2, 'b') := 3,
        (3, 'a') := 4, (3, 'b') := 4, (4, 'a') := 1, (4, 'c') := 1]

  /** RING with (1, 'a') replaced by (300, 'a'). */
  const FROM_300: map<(int, char), int> :=
    map[(300, 'a') := 2, (1, 'b') := 2, (2, 'a') := 3, (2, 'b') := 3,
        (3, 'a') := 4, (3, 'b') := 4, (4, 'a') := 1, (4, 'b') := 1]

  /** RING with (1, 'a') leading to 100. */
  const TO_100: map<(int, char), int> :=
    map[(1, 'a') := 100, (1, 'b') := 2, (2, 'a') := 3, (2, 'b') := 3,
        (3, 'a') := 4, (3, 'b') := 4, (4, 'a') := 1, (4, 'b') := 1]

  /** RING without (4, 'b'). */
  const NO_4B: map<(int, char), int> :=
    map[(1, 'a') := 2, (1, 'b') := 2, (2, 'a') := 3, (2, 'b') := 3,
        (3, 'a') := 4, (3, 'b') := 4, (4, 'a') := 1]

  /** The keys of each map above in the order the test writes its dictionary
      literal, which is the order Python iterates them. */
  const RING_KEYS: seq<(int, char)> :=
    [(1, 'a'), (1, 'b'), (2, 'a'), (2, 'b'), (3, 'a'), (3, 'b'), (4, 'a'), (4, 'b')]

  const WITH_C_KEYS: seq<(int, char)> :=
    [(1, 'a'), (1, 'b'), (2, 'a'), (2, 'b'), (3, 'a'), (3, 'b'), (4, 'a'), (4, 'c')]

  const FROM_300_KEYS: seq<(int, char)> :=
    [(300, 'a'), (1, 'b'), (2, 'a'), (2, 'b'), (3, 'a'), (3, 'b'), (4, 'a'), (4, 'b')]

  const NO_4B_KEYS: seq<(int, char)> :=
    [(1, 'a'), (1, 'b'), (2, 'a'), (2, 'b'), (3, 'a'), (3, 'b'), (4, 'a')]

  lemma RingKeyOrder()
    ensures EnumeratesKeys(RING_KEYS, RING)
  {
  }

  lemma To100KeyOrder()
    ensures EnumeratesKeys(RING_KEYS, TO_100)
  {
  }

  lemma WithCKeyOrder()
    ensures EnumeratesKeys(WITH_C_KEYS, WITH_C)
  {
  }

  lemma From300KeyOrder()
    ensures EnumeratesKeys(FROM_300_KEYS, FROM_300)
  {
  }

  lemma NoFourBKeyOrder()
    ensures EnumeratesKeys(NO_4B_KEYS, NO_4B)
  {
  }

  /** Accepting states {2, 4} and start state 1 pass; accepting states {5}
      or {1, 6} and start state 6 fail. */
  lemma FinalAndStartStateChecks()
    ensures ValidateFinalStates<int, char>(STATES, {2, 4}) == Pass
    ensures ValidateFinalStates<int, char>(STATES, {5}) == Fail(AcceptingStatesNotInStates)
    ensures ValidateFinalStates<int, char>(STATES, {1, 6}) == Fail(AcceptingStatesNotInStates)
    ensures ValidateStartState<int, char>(STATES, 1) == Pass
    ensures ValidateStartState<int, char>(STATES, 6) == Fail(StartStateNotInStates)
  {
  }

  /** Every state of RING has a transition on both characters. */
  lemma RingIsTotal()
    ensures SourcesTotal(RING, AB)
  {
  }

  /** WITH_C fails the character check, and 'c' is its only unknown character. */
  lemma WithCUsesOnlyC()
    ensures !KeysUseAlphabet(WITH_C, AB) && KeyCharacters(WITH_C) - AB == {'c'}
  {
    assert (4, 'c') in WITH_C;
  }

  /** FROM_300 passes the character check and fails the source check. */
  lemma From300FailsSources()
    ensures KeysUseAlphabet(FROM_300, AB) && !KeysFromStates(FROM_300, STATES)
  {
    assert (300, 'a') in FROM_300;
  }

  /** TO_100 passes the key checks and fails the target check. */
  lemma To100FailsTargets()
    ensures KeysUseAlphabet(TO_100, AB) && KeysFromStates(TO_100, STATES)
    ensures !TargetsInStates(TO_100, STATES)
  {
    assert TO_100[(1, 'a')] == 100;
  }

  /** NO_4B passes the first three transition checks and fails totality. */
  lemma NoFourBFailsOnlyTotality()
    ensures KeysUseAlphabet(NO_4B, AB) && KeysFromStates(NO_4B, STATES)
    ensures TargetsInStates(NO_4B, STATES) && !SourcesTotal(NO_4B, AB)
  {
    assert (4, 'a') in NO_4B && 'b' !in CharsOf(NO_4B, 4);
  }

  /** Walking the keys of NO_4B in order, 4 is the first incomplete state. */
  lemma NoFourBFirstIncomplete()
    ensures FirstIncomplete(KeyStates(NO_4B_KEYS), NO_4B, AB) == Fail(IncompleteState(4))
  {
    assert CharsOf(NO_4B, 1) == AB && CharsOf(NO_4B, 2) == AB && CharsOf(NO_4B, 3) == AB;
    assert (4, 'a') in NO_4B && 'b' !in CharsOf(NO_4B, 4);
    FirstIncompleteIsFirst(KeyStates(NO_4B_KEYS), NO_4B, AB, 6);
  }

  method ValidTransitions() returns (r: Check<InvalidDfa<int, char>>)
    ensures r == Pass
  {
    assert KeysUseAlphabet(RING, AB) && KeysFromStates(RING, STATES);
    assert TargetsInStates(RING, STATES);
    RingIsTotal();
    RingKeyOrder();
    r := ValidateTransitions(STATES, RING, AB, RING_KEYS);
  }

  method InvalidCharacterInTransitions() returns (r: Check<InvalidDfa<int, char>>)
    ensures r == Fail(UnknownCharacters({'c'}))
  {
    WithCUsesOnlyC();
    WithCKeyOrder();
    r := ValidateTransitions(STATES, WITH_C, AB, WITH_C_KEYS);
  }

  method InvalidFromStateInTransitions() returns (r: Check<InvalidDfa<int, char>>)
    ensures r == Fail(TransitionFromInvalidState)
  {
    From300FailsSources();
    From300KeyOrder();
    r := ValidateTransitions(STATES, FROM_300, AB, FROM_300_KEYS);
  }

  method InvalidToStateInTransitions() returns (r: Check<InvalidDfa<int, char>>)
    ensures r == Fail(TransitionToInvalidState(TO_100))
  {
    To100FailsTargets();
    To100KeyOrder();
    r := ValidateTransitions(STATES, TO_100, AB, RING_KEYS);
  }

  method MissingTransition() returns (r: Check<InvalidDfa<int, char>>)
    ensures r == Fail(IncompleteState(4))
  {
    NoFourBFailsOnlyTotality();
    NoFourBKeyOrder();
    NoFourBFirstIncomplete();
    r := ValidateTransitions(STATES, NO_4B, AB, NO_4B_KEYS);
  }

  /** An invalid accepting state is reported before an invalid transition. */
  method FirstFailingCheckDecides() returns (r: Check<InvalidDfa<int, char>>)
    ensures r == Fail(AcceptingStatesNotInStates)
  {
    To100KeyOrder();
    r := ValidateDfa(Dfa(STATES, AB, TO_100, 1, {5}), RING_KEYS);
  }
}

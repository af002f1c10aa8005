/** `validate_dfa` of DFA.py and its helpers: six structural checks run in a
    fixed order, the first failing one deciding the error. */
module Validator {
  import opened DfaModel

  /** Check 3: every key character is in the alphabet. */
  ghost predicate KeysUseAlphabet<S(!new), C(!new)>(t: map<(S, C), S>, alphabet: set<C>) {
    forall k | k in t :: k.1 in alphabet
  }

  /** Check 4: every key state is a state. */
  ghost predicate KeysFromStates<S(!new), C(!new)>(t: map<(S, C), S>, states: set<S>) {
    forall k | k in t :: k.0 in states
  }

  /** Check 5: every destination is a state. */
  ghost predicate TargetsInStates<S(!new), C(!new)>(t: map<(S, C), S>, states: set<S>) {
    forall k | k in t :: t[k] in states
  }

  /** Check 6: every state that is the source of a key has a transition on
      exactly the characters of the alphabet. */
  ghost predicate SourcesTotal<S(!new), C(!new)>(t: map<(S, C), S>, alphabet: set<C>) {
    forall k | k in t :: CharsOf(t, k.0) == alphabet
  }

  /** The conditions `validate_dfa` accepts, listed in the order it checks them. */
  ghost predicate WellFormed<S(!new), C(!new)>(dfa: Dfa<S, C>) {
    && dfa.finalStates <= dfa.states
    && dfa.startState in dfa.states
    && KeysUseAlphabet(dfa.transitions, dfa.alphabet)
    && KeysFromStates(dfa.transitions, dfa.states)
    && TargetsInStates(dfa.transitions, dfa.states)
    && SourcesTotal(dfa.transitions, dfa.alphabet)
  }

  /** Every state of `states`, with or without outgoing transitions, has a
      transition on exactly the characters of the alphabet. */
  ghost predicate Complete<S(!new), C(!new)>(dfa: Dfa<S, C>) {
    forall q {:trigger CharsOf(dfa.transitions, q)} | q in dfa.states :: CharsOf(dfa.transitions, q) == dfa.alphabet
  }

  /** Checks 3 and 4 read as inclusions between sets. */
  lemma KeyChecksAsInclusions<S(!new), C(!new)>(t: map<(S, C), S>, states: set<S>, alphabet: set<C>)
    ensures KeysUseAlphabet(t, alphabet) <==> KeyCharacters(t) <= alphabet
    ensures KeysFromStates(t, states) <==> Sources(t) <= states
  {
  }

  /** Check 5 read as an inclusion between sets. */
  lemma TargetCheckAsInclusion<S(!new), C(!new)>(t: map<(S, C), S>, states: set<S>)
    ensures TargetsInStates(t, states) <==> t.Values <= states
  {
  }

  /** Check 6 read over the set of source states. */
  lemma TotalityCheckOverSources<S(!new), C(!new)>(t: map<(S, C), S>, alphabet: set<C>)
    ensures SourcesTotal(t, alphabet) <==> forall q | q in Sources(t) :: CharsOf(t, q) == alphabet
  {
  }

  /** `validate_final_states`. */
  function ValidateFinalStates<S(==, !new), C(==, !new)>(states: set<S>, finalStates: set<S>): (r: Check<InvalidDfa<S, C>>)
    ensures r.Pass? <==> finalStates <= states
    ensures r.Fail? ==> r.error == AcceptingStatesNotInStates
  {
    if forall f | f in finalStates :: f in states then Pass else Fail(AcceptingStatesNotInStates)
  }

  /** `validate_start_state`. */
  function ValidateStartState<S(==, !new), C(==, !new)>(states: set<S>, startState: S): (r: Check<InvalidDfa<S, C>>)
    ensures r.Pass? <==> startState in states
    ensures r.Fail? ==> r.error == StartStateNotInStates
  {
    if startState !in states then Fail(StartStateNotInStates) else Pass
  }

  /** The alphabet check of `validate_transitions`: the error carries
      exactly the key characters missing from the alphabet. */
  function ValidateTransitionCharacters<S(==, !new), C(==, !new)>(t: map<(S, C), S>, alphabet: set<C>): (r: Check<InvalidDfa<S, C>>)
    ensures r.Pass? <==> KeysUseAlphabet(t, alphabet)
    ensures r.Fail? ==> r.error == UnknownCharacters(KeyCharacters(t) - alphabet)
    ensures r.Fail? ==> r.error.characters != {}
    ensures r.Fail? ==> forall c :: c in r.error.characters <==> c !in alphabet && exists q :: (q, c) in t
  {
    if forall k | k in t.Keys :: k.1 in alphabet then Pass
    else
      var unknown := set k | k in t.Keys && k.1 !in alphabet :: k.1;
      assert forall k | k in t.Keys && k.1 !in alphabet :: k.1 in unknown;
      assert unknown == KeyCharacters(t) - alphabet;
      Fail(UnknownCharacters(unknown))
  }

  /** The source-state check of `validate_transitions`. */
  function ValidateTransitionSources<S(==, !new), C(==, !new)>(t: map<(S, C), S>, states: set<S>): (r: Check<InvalidDfa<S, C>>)
    ensures r.Pass? <==> KeysFromStates(t, states)
    ensures r.Fail? ==> r.error == TransitionFromInvalidState
  {
    if forall k | k in t.Keys :: k.0 in states then Pass else Fail(TransitionFromInvalidState)
  }

  /** The destination check of `validate_transitions`; the error carries the
      whole transition map. */
  function ValidateTransitionTargets<S(==, !new), C(==, !new)>(t: map<(S, C), S>, states: set<S>): (r: Check<InvalidDfa<S, C>>)
    ensures r.Pass? <==> TargetsInStates(t, states)
    ensures r.Fail? ==> r.error == TransitionToInvalidState(t)
  {
    if forall q | q in t.Values :: q in states then Pass else Fail(TransitionToInvalidState(t))
  }

  /** A dict's iteration order: `keys` lists exactly the keys of `t`. */
  ghost predicate EnumeratesKeys<S(!new), C(!new)>(keys: seq<(S, C)>, t: map<(S, C), S>) {
    && (forall i | 0 <= i < |keys| :: keys[i] in t)
    && (forall k | k in t :: k in keys)
  }

  /** A set's iteration order: `order` lists exactly the elements of `states`. */
  ghost predicate EnumeratesStates<S(!new)>(order: seq<S>, states: set<S>) {
    && (forall i | 0 <= i < |order| :: order[i] in states)
    && (forall q | q in states :: q in order)
  }

  /** The state of every key, in key order. */
  function KeyStates<S, C>(keys: seq<(S, C)>): (r: seq<S>)
    ensures |r| == |keys| && forall i | 0 <= i < |keys| :: r[i] == keys[i].0
  {
    seq(|keys|, i requires 0 <= i < |keys| => keys[i].0)
  }

  /** The states of `keys` in order of first appearance: the key order of
      the `defaultdict` that `validate_transitions` fills from them. */
  function FirstAppearances<S(==), C>(keys: seq<(S, C)>): (r: seq<S>)
    ensures |r| <= |keys|
    decreases |keys|
  {
    if keys == [] then []
    else
      var earlier := FirstAppearances(keys[..|keys| - 1]);
      var q := keys[|keys| - 1].0;
      if q in earlier then earlier else earlier + [q]
  }

  /** Every first appearance is the state of some key. */
  lemma {:induction false} FirstAppearancesAreKeyStates<S, C>(keys: seq<(S, C)>)
    ensures forall q | q in FirstAppearances(keys) :: q in KeyStates(keys)
    decreases |keys|
  {
    if keys != [] {
      var p := keys[..|keys| - 1];
      FirstAppearancesAreKeyStates(p);
      assert KeyStates(keys) == KeyStates(p) + [keys[|keys| - 1].0];
    }
  }

  /** The totality error for states examined in `order`: the first one whose
      characters differ from the alphabet, or `Pass` when there is none. */
  function FirstIncomplete<S(==, !new), C(==, !new)>(order: seq<S>, t: map<(S, C), S>, alphabet: set<C>): (r: Check<InvalidDfa<S, C>>)
    ensures r.Pass? <==> forall i | 0 <= i < |order| :: CharsOf(t, order[i]) == alphabet
    ensures r.Fail? ==> r.error.IncompleteState? && r.error.state in order
                        && CharsOf(t, r.error.state) != alphabet
    decreases |order|
  {
    if order == [] then Pass
    else if CharsOf(t, order[0]) != alphabet then Fail(IncompleteState(order[0]))
    else
      var r := FirstIncomplete(order[1..], t, alphabet);
      assert forall i | 1 <= i < |order| :: order[i] == order[1..][i - 1];
      r
  }

  /** The state `FirstIncomplete` names is the earliest incomplete one:
      every state before it in `order` is complete. */
  lemma {:induction false} FirstIncompleteIsFirst<S(!new), C(!new)>(order: seq<S>, t: map<(S, C), S>, alphabet: set<C>, i: nat)
    requires i < |order| && CharsOf(t, order[i]) != alphabet
    requires forall j | 0 <= j < i :: CharsOf(t, order[j]) == alphabet
    ensures FirstIncomplete(order, t, alphabet) == Fail(IncompleteState(order[i]))
    decreases i
  {
    if i > 0 {
      FirstIncompleteIsFirst(order[1..], t, alphabet, i - 1);
    }
  }

  /** Appending a state is checked after everything before it. */
  lemma {:induction false} FirstIncompleteSnoc<S(!new), C(!new)>(order: seq<S>, q: S, t: map<(S, C), S>, alphabet: set<C>)
    ensures FirstIncomplete(order + [q], t, alphabet) ==
            if FirstIncomplete(order, t, alphabet).Fail? then FirstIncomplete(order, t, alphabet)
            else FirstIncomplete([q], t, alphabet)
    decreases |order|
  {
    if order != [] {
      assert (order + [q])[1..] == order[1..] + [q];
      FirstIncompleteSnoc(order[1..], q, t, alphabet);
    }
  }

  /** Examining the `defaultdict`'s states in insertion order finds the same
      incomplete state as examining the state of every key in key order. */
  lemma {:induction false} FirstAppearanceOrderAgrees<S(!new), C(!new)>(keys: seq<(S, C)>, t: map<(S, C), S>, alphabet: set<C>)
    ensures FirstIncomplete(FirstAppearances(keys), t, alphabet) == FirstIncomplete(KeyStates(keys), t, alphabet)
    decreases |keys|
  {
    if keys != [] {
      var p := keys[..|keys| - 1];
      var q := keys[|keys| - 1].0;
      assert KeyStates(keys) == KeyStates(p) + [q];
      FirstAppearanceOrderAgrees(p, t, alphabet);
      FirstIncompleteSnoc(KeyStates(p), q, t, alphabet);
      FirstIncompleteSnoc(FirstAppearances(p), q, t, alphabet);
      if q in FirstAppearances(p) {
        FirstAppearancesAreKeyStates(p);
        var j :| 0 <= j < |KeyStates(p)| && KeyStates(p)[j] == q;
      }
    }
  }

  /** Over a key order of `t`, the totality error is raised exactly when some
      source state is incomplete, and it names a source state. */
  lemma KeyOrderTotality<S(!new), C(!new)>(keys: seq<(S, C)>, t: map<(S, C), S>, alphabet: set<C>)
    requires EnumeratesKeys(keys, t)
    ensures FirstIncomplete(KeyStates(keys), t, alphabet).Pass? <==> SourcesTotal(t, alphabet)
    ensures FirstIncomplete(KeyStates(keys), t, alphabet).Fail? ==>
              FirstIncomplete(KeyStates(keys), t, alphabet).error.state in Sources(t)
  {
  }

  /** The state of each key of `done` and, per state, its characters. */
  ghost predicate Collected<S(!new), C(!new)>(m: map<S, set<C>>, done: set<(S, C)>) {
    && (forall k | k in done :: k.0 in m)
    && (forall q | q in m :: exists k :: k in done && k.0 == q)
    && (forall q | q in m :: forall c :: c in m[q] <==> (q, c) in done)
  }

  /** `state_character_sets[q].add(c)` on a `defaultdict(set)`. */
  function AddCharacter<S(==), C(==)>(m: map<S, set<C>>, q: S, c: C): (r: map<S, set<C>>)
    ensures r.Keys == m.Keys + {q}
    ensures r[q] == (if q in m then m[q] else {}) + {c}
    ensures forall p | p in m && p != q :: r[p] == m[p]
  {
    if q in m then m[q := m[q] + {c}] else m[q := {c}]
  }

  /** Adding key `k` keeps the collected sets in step with the keys seen. */
  lemma CollectStep<S(!new), C(!new)>(m: map<S, set<C>>, done: set<(S, C)>, k: (S, C))
    requires Collected(m, done)
    ensures Collected(AddCharacter(m, k.0, k.1), done + {k})
  {
  }

  /** Once every key is collected, the sets are those of `CharsOf`. */
  lemma CollectedAll<S(!new), C(!new)>(m: map<S, set<C>>, t: map<(S, C), S>)
    requires Collected(m, t.Keys)
    ensures m.Keys == Sources(t)
    ensures forall q | q in m :: m[q] == CharsOf(t, q)
  {
  }

  /** Adding key `keys[i]` keeps the insertion order in step with the keys seen. */
  lemma OrderStep<S, C>(keys: seq<(S, C)>, i: nat, m: map<S, set<C>>, order: seq<S>)
    requires i < |keys| && order == FirstAppearances(keys[..i])
    requires forall q :: q in order <==> q in m
    ensures var order' := if keys[i].0 in m then order else order + [keys[i].0];
            && order' == FirstAppearances(keys[..i + 1])
            && forall q :: q in order' <==> q in AddCharacter(m, keys[i].0, keys[i].1)
  {
    assert keys[..i + 1][..i] == keys[..i];
  }

  /** The keys among the first `i + 1` are those among the first `i` and key `i`. */
  lemma KeysSeenStep<S, C>(keys: seq<(S, C)>, i: nat)
    requires i < |keys|
    ensures (set j | 0 <= j < i + 1 :: keys[j]) == (set j | 0 <= j < i :: keys[j]) + {keys[i]}
  {
  }

  /** The `defaultdict(set)` of `validate_transitions`, filled in key order:
      each source state mapped to the characters it has transitions on, with
      the states in the order they were first inserted. */
  method CollectCharacterSets<S(==, !new), C(==, !new)>(t: map<(S, C), S>, keys: seq<(S, C)>)
    returns (m: map<S, set<C>>, order: seq<S>)
    requires EnumeratesKeys(keys, t)
    ensures m.Keys == Sources(t)
    ensures forall q | q in m :: m[q] == CharsOf(t, q)
    ensures order == FirstAppearances(keys)
    ensures forall q :: q in order <==> q in m
  {
    m := map[];
    order := [];
    ghost var done: set<(S, C)> := {};
    var i := 0;
    while i < |keys|
      invariant 0 <= i <= |keys|
      invariant done == set j | 0 <= j < i :: keys[j]
      invariant Collected(m, done)
      invariant order == FirstAppearances(keys[..i])
      invariant forall q :: q in order <==> q in m
    {
      var (q, c) := keys[i];
      CollectStep(m, done, keys[i]);
      OrderStep(keys, i, m, order);
      KeysSeenStep(keys, i);
      if q !in m {
        order := order + [q];
      }
      m := AddCharacter(m, q, c);
      done := done + {keys[i]};
      i := i + 1;
    }
    assert keys[..i] == keys;
    assert forall k | k in t :: k in done;
    CollectedAll(m, t);
  }

  /** The loop over `state_character_sets.items()`: the states of `order`
      in turn, the first whose collected characters differ from the alphabet
      being reported. A state without an entry has no characters; that case
      never arises for the dict's own order. */
  method FindIncomplete<S(==, !new), C(==, !new)>(
    order: seq<S>, characterSets: map<S, set<C>>, ghost t: map<(S, C), S>, alphabet: set<C>)
    returns (r: Check<InvalidDfa<S, C>>)
    requires characterSets.Keys == Sources(t)
    requires forall q | q in characterSets :: characterSets[q] == CharsOf(t, q)
    ensures r == FirstIncomplete(order, t, alphabet)
  {
    var j := 0;
    while j < |order|
      invariant 0 <= j <= |order|
      invariant FirstIncomplete(order, t, alphabet) == FirstIncomplete(order[j..], t, alphabet)
    {
      var q := order[j];
      assert order[j..][1..] == order[j + 1..];
      var characters := if q in characterSets then characterSets[q] else {};
      CharacterSetOf(characterSets, t, q);
      if characters != alphabet {
        return Fail(IncompleteState(q));
      }
      j := j + 1;
    }
    return Pass;
  }

  /** The totality check of `validate_transitions`: the states of the
      `defaultdict` in insertion order, the first incomplete one raising. It
      examines the states that are the source of some key, not every state of
      `states`. */
  method ValidateSourcesTotal<S(==, !new), C(==, !new)>(t: map<(S, C), S>, alphabet: set<C>, keys: seq<(S, C)>)
    returns (r: Check<InvalidDfa<S, C>>)
    requires EnumeratesKeys(keys, t)
    ensures r == FirstIncomplete(KeyStates(keys), t, alphabet)
    ensures r.Pass? <==> SourcesTotal(t, alphabet)
    ensures r.Fail? ==> r.error.IncompleteState?
    ensures r.Fail? ==> r.error.state in Sources(t) && CharsOf(t, r.error.state) != alphabet
  {
    var characterSets, order := CollectCharacterSets(t, keys);
    r := FindIncomplete(order, characterSets, t, alphabet);
    FirstAppearanceOrderAgrees(keys, t, alphabet);
    KeyOrderTotality(keys, t, alphabet);
  }

  /** What `validate_transitions` returns for key order `keys`: the first of
      its four checks that fails decides the error. */
  ghost function TransitionsVerdict<S(!new), C(!new)>(
    states: set<S>, t: map<(S, C), S>, alphabet: set<C>, keys: seq<(S, C)>): (r: Check<InvalidDfa<S, C>>)
    requires EnumeratesKeys(keys, t)
    ensures r.Pass? <==> KeysUseAlphabet(t, alphabet) && KeysFromStates(t, states)
                         && TargetsInStates(t, states) && SourcesTotal(t, alphabet)
  {
    KeyOrderTotality(keys, t, alphabet);
    if !KeysUseAlphabet(t, alphabet) then Fail(UnknownCharacters(KeyCharacters(t) - alphabet))
    else if !KeysFromStates(t, states) then Fail(TransitionFromInvalidState)
    else if !TargetsInStates(t, states) then Fail(TransitionToInvalidState(t))
    else FirstIncomplete(KeyStates(keys), t, alphabet)
  }

  /** What `validate_dfa` returns: accepting states first, then the start
      state, then the checks of `validate_transitions`. */
  ghost function ValidationVerdict<S(!new), C(!new)>(dfa: Dfa<S, C>, keys: seq<(S, C)>): (r: Check<InvalidDfa<S, C>>)
    requires EnumeratesKeys(keys, dfa.transitions)
    ensures r.Pass? <==> WellFormed(dfa)
    ensures r.Fail? ==> !r.error.UndefinedTransition?
  {
    if !(dfa.finalStates <= dfa.states) then Fail(AcceptingStatesNotInStates)
    else if dfa.startState !in dfa.states then Fail(StartStateNotInStates)
    else TransitionsVerdict(dfa.states, dfa.transitions, dfa.alphabet, keys)
  }

  /** `validate_transitions`: characters, sources, destinations, totality. */
  method ValidateTransitions<S(==, !new), C(==, !new)>(states: set<S>, t: map<(S, C), S>, alphabet: set<C>, keys: seq<(S, C)>)
    returns (r: Check<InvalidDfa<S, C>>)
    requires EnumeratesKeys(keys, t)
    ensures r == TransitionsVerdict(states, t, alphabet, keys)
    ensures r.Pass? <==> KeysUseAlphabet(t, alphabet) && KeysFromStates(t, states)
                         && TargetsInStates(t, states) && SourcesTotal(t, alphabet)
  {
    r := ValidateTransitionCharacters(t, alphabet);
    if r.Fail? {
      return;
    }
    r := ValidateTransitionSources(t, states);
    if r.Fail? {
      return;
    }
    r := ValidateTransitionTargets(t, states);
    if r.Fail? {
      return;
    }
    r := ValidateSourcesTotal(t, alphabet, keys);
  }

  /** `validate_dfa`: passes exactly on well-formed DFAs, and otherwise
      reports the first check, in source order, that fails. */
  method ValidateDfa<S(==, !new), C(==, !new)>(dfa: Dfa<S, C>, keys: seq<(S, C)>) returns (r: Check<InvalidDfa<S, C>>)
    requires EnumeratesKeys(keys, dfa.transitions)
    ensures r == ValidationVerdict(dfa, keys)
    ensures r.Pass? <==> WellFormed(dfa)
    ensures r.Fail? ==> !r.error.UndefinedTransition?
  {
    r := ValidateFinalStates(dfa.states, dfa.finalStates);
    if r.Fail? {
      return;
    }
    r := ValidateStartState(dfa.states, dfa.startState);
    if r.Fail? {
      return;
    }
    r := ValidateTransitions(dfa.states, dfa.transitions, dfa.alphabet, keys);
  }

  /** A state missing from the collected sets has no transitions. */
  lemma CharacterSetOf<S(!new), C(!new)>(m: map<S, set<C>>, t: map<(S, C), S>, q: S)
    requires m.Keys == Sources(t) && forall p | p in m :: m[p] == CharsOf(t, p)
    ensures (if q in m then m[q] else {}) == CharsOf(t, q)
  {
  }

  /** Over an iteration order of `states`, the totality error is raised
      exactly when some state is incomplete, and it names a state. */
  lemma StateOrderTotality<S(!new), C(!new)>(order: seq<S>, states: set<S>, t: map<(S, C), S>, alphabet: set<C>)
    requires EnumeratesStates(order, states)
    ensures FirstIncomplete(order, t, alphabet).Pass? <==> forall q | q in states :: CharsOf(t, q) == alphabet
    ensures FirstIncomplete(order, t, alphabet).Fail? ==> FirstIncomplete(order, t, alphabet).error.state in states
  {
  }

  /** The totality check the docstring of `validate_dfa` describes: every
      state of `states`, examined in `stateOrder`, including one with no
      transitions. */
  method ValidateStatesTotal<S(==, !new), C(==, !new)>(
    states: set<S>, t: map<(S, C), S>, alphabet: set<C>, keys: seq<(S, C)>, stateOrder: seq<S>)
    returns (r: Check<InvalidDfa<S, C>>)
    requires EnumeratesKeys(keys, t) && EnumeratesStates(stateOrder, states)
    ensures r == FirstIncomplete(stateOrder, t, alphabet)
    ensures r.Pass? <==> forall q | q in states :: CharsOf(t, q) == alphabet
    ensures r.Fail? ==> r.error.IncompleteState?
    ensures r.Fail? ==> r.error.state in states && CharsOf(t, r.error.state) != alphabet
  {
    var characterSets, _ := CollectCharacterSets(t, keys);
    r := FindIncomplete(stateOrder, characterSets, t, alphabet);
    StateOrderTotality(stateOrder, states, t, alphabet);
  }

  /** `validate_dfa` with the totality check over every state: it passes
      exactly on well-formed DFAs whose every state is complete. */
  method ValidateDfaComplete<S(==, !new), C(==, !new)>(dfa: Dfa<S, C>, keys: seq<(S, C)>, stateOrder: seq<S>)
    returns (r: Check<InvalidDfa<S, C>>)
    requires EnumeratesKeys(keys, dfa.transitions) && EnumeratesStates(stateOrder, dfa.states)
    ensures r.Pass? <==> WellFormed(dfa) && Complete(dfa)
    ensures !WellFormed(dfa) ==> r == ValidationVerdict(dfa, keys)
    ensures WellFormed(dfa) ==> r == FirstIncomplete(stateOrder, dfa.transitions, dfa.alphabet)
    ensures WellFormed(dfa) && !Complete(dfa) ==>
              r.Fail? && r.error.IncompleteState? && r.error.state in dfa.states
              && CharsOf(dfa.transitions, r.error.state) != dfa.alphabet
  {
    r := ValidateDfa(dfa, keys);
    if r.Fail? {
      return;
    }
    r := ValidateStatesTotal(dfa.states, dfa.transitions, dfa.alphabet, keys, stateOrder);
  }
}

/** The DFA record of DFA.py, the errors its functions raise, the result
    types of its operations, and the views of the transition map that the
    validator checks. */
module DfaModel {

  /** An immutable five-field DFA. `transitions` is keyed by
      (state, character) pairs and need not be total. */
  datatype Dfa<S(==), C(==)> = Dfa(
    states: set<S>,
    alphabet: set<C>,
    transitions: map<(S, C), S>,
    startState: S,
    finalStates: set<S>)

  /** The situations in which DFA.py raises InvalidDFA: six from the
      validator, in the order it checks them, and one from the simulator. */
  datatype InvalidDfa<S(==), C(==)> =
    | AcceptingStatesNotInStates
    | StartStateNotInStates
    | UnknownCharacters(characters: set<C>)
    | TransitionFromInvalidState
    | TransitionToInvalidState(transitions: map<(S, C), S>)
    | IncompleteState(state: S)
    | UndefinedTransition(state: S, character: C)

  /** A step that returns normally or raises. */
  datatype Check<E> = Pass | Fail(error: E)

  /** A computation that returns a value or raises. */
  datatype Result<T, E> = Ok(value: T) | Err(error: E)

  /** A value that may be absent. */
  datatype Option<T> = None | Some(value: T)

  /** The states that are the source of some transition key. */
  function Sources<S(==, !new), C(==, !new)>(t: map<(S, C), S>): (r: set<S>)
    ensures forall q, c :: (q, c) in t ==> q in r
  {
    set k | k in t.Keys :: k.0
  }

  /** The characters used in some transition key. */
  function KeyCharacters<S(==, !new), C(==, !new)>(t: map<(S, C), S>): (r: set<C>)
    ensures forall q, c :: (q, c) in t ==> c in r
  {
    set k | k in t.Keys :: k.1
  }

  /** The characters on which state `q` has a transition. */
  function CharsOf<S(==, !new), C(==, !new)>(t: map<(S, C), S>, q: S): (r: set<C>)
    ensures forall c :: c in r <==> (q, c) in t
  {
    set k | k in t.Keys && k.0 == q :: k.1
  }
}

# DFA runner core in Dafny

This project models the core of `DFA.py` from the dfa-runner repository: a
deterministic finite automaton stored as an immutable five-field record
(states, alphabet, a partial transition map keyed by (state, character),
start state, accepting states), the validator `validate_dfa` with its
helpers, and the simulator `dfa_accepts`. Both come with proofs of what
they guarantee.

* `dfa_model.dfy` (module `DfaModel`): the `Dfa` record and the `InvalidDfa`
  error variants. Each variant stands for one situation in which `DFA.py`
  raises `InvalidDFA`. The module also holds the result types and the views
  of the transition map that validation uses: `Sources`, `KeyCharacters`
  and `CharsOf`.
* `simulator.dfy` (module `Simulator`): `dfa_accepts` as the method
  `Accepts`, with a loop. It is proved equal to `Verdict`, which is defined
  from `Run`, the walk over the transition map. `Delta` is a separate
  head-first fold, and `RunIsDelta` shows it agrees with `Run`.
* `validator.dfy` (module `Validator`): the six checks of `validate_dfa` in
  the source's order.
  * The checks on final states, the start state, alphabet characters,
    source states and target states are pure functions.
  * The totality check works in two loops, as the source does:
    `CollectCharacterSets`, then `FindIncomplete`, joined in
    `ValidateSourcesTotal`.
  * `TransitionsVerdict` and `ValidationVerdict` say which error the first
    failing check produces, down to the state the totality check names.
  * `ValidateStatesTotal` and `ValidateDfaComplete` are the corrected totality
    check (see Findings).
* `guarantees.dfy` (module `Guarantees`): what a validated DFA guarantees
  about simulation. A sufficient condition for never raising: every state in
  which the walk looks up a character is a transition source.
* `scenarios.dfy` (module `Scenarios`): the hand-written unit tests of
  `DFA_tests.py`, with integer states and `char` symbols, plus a validated
  DFA that still raises.

A state is *complete* when its character set is exactly the alphabet: it has
a transition on every alphabet character and on no other character (the
`!=` test at `DFA.py:135`). `Complete` says that every state is complete.

States and characters are generic (`S`, `C` with equality). Errors are
values: a validation step returns `Check` (`Pass` or `Fail(error)`), and the
simulator returns `Result` (`Ok(bool)` or `Err(error)`).

Python iterates a dictionary in insertion order, and the totality check
reports the first offending state in that order. Dafny maps and sets have no
order, so the operations that iterate take the order as an argument:
`keys`, a sequence listing the keys of the transition map exactly in the
dictionary's order (`EnumeratesKeys`), and for the corrected check
`stateOrder`, a sequence listing the states (`EnumeratesStates`). The
`defaultdict` built at `DFA.py:127-131` is modelled as a map together with
its insertion order, which is the order in which states first appear among
the keys (`FirstAppearances`).

The documented intent and the code disagree on one point. The docstring of
`validate_dfa` (`DFA.py:82-83`) requires a transition on every alphabet
character for each state in `dfa.states`. The comment at `DFA.py:60` says
that the simulator's error cannot be reached once the DFA has passed the
validator, and so does the test comment at `DFA_tests.py:256-257`. The code
(`DFA.py:127-137`) checks only the states that are the source of at least
one transition. The model of `validate_dfa` (`Validator.ValidateDfa`)
follows the code. The corrected check is modelled separately.

## Model

| member | source | states |
|---|---|---|
| DfaModel.CharsOf | DFA.py:127-131 | the character set collected for a state holds exactly the characters c for which (state, c) is a key |
| Simulator.Step | DFA.py:49-54 | one lookup of (state, character): it moves on iff the pair is a key, and a missing key is reported as exactly that pair, as the `KeyError` carries it |
| Simulator.Run | DFA.py:43-54 | the walk of the loop, defined on prefixes. The empty input stays in the start state, and a stuck walk names a pair that is not a key. `RunCons`, `RunIsDelta` and `StuckAtFirstMissingKey` pin it down further |
| Simulator.Verdict | DFA.py:53-63 | the only error is `UndefinedTransition`, and its character is in the alphabet |
| Simulator.Accepts | DFA.py:41-66 | the loop's result is `Verdict` of the input. An empty input returns whether the start state is accepting. An error is only ever `UndefinedTransition` with an alphabet character and a key that is absent |
| Simulator.RunCons | DFA.py:48-49 | walking `[c] + w` is one lookup of (state, c) followed by the walk over `w`, or stuck at that lookup |
| Simulator.RunIsDelta | DFA.py:48-49 | the loop's walk reaches a state exactly when the head-first fold of the transition map succeeds, and both give the same state |
| Simulator.AcceptsFoldedState | DFA.py:48-66 | when every lookup succeeds, the answer is whether the folded state is accepting |
| Simulator.StuckPersists | DFA.py:45-53 | once the walk misses a key on a prefix, the whole input gives the same stuck walk: later characters are never looked at |
| Simulator.StuckAtFirstMissingKey | DFA.py:48-54 | the walk is stuck at (q, c) iff at some position holding c the walk so far is in q and (q, c) is not a key |
| Simulator.MissingKeyOutcome | DFA.py:53-63 | at the first missing key, a character outside the alphabet gives false and one inside gives the error naming that exact (state, character). The verdict equals the verdict on the input cut after that character |
| Validator.ValidateFinalStates | DFA.py:92-96 | passes iff every accepting state is a state, and otherwise fails with `AcceptingStatesNotInStates` |
| Validator.ValidateStartState | DFA.py:99-101 | passes iff the start state is a state, and otherwise fails with `StartStateNotInStates` |
| Validator.ValidateTransitionCharacters | DFA.py:105-111 | passes iff every key's character is in the alphabet. On failure it reports a nonempty set: exactly the key characters outside the alphabet |
| Validator.ValidateTransitionSources | DFA.py:113-117 | passes iff every key's state is a state, and otherwise fails with `TransitionFromInvalidState` |
| Validator.ValidateTransitionTargets | DFA.py:119-123 | passes iff every target is a state, and otherwise fails with `TransitionToInvalidState` carrying the map |
| Validator.KeyChecksAsInclusions | DFA.py:106-117 | the key checks are equivalent to key characters being a subset of the alphabet and sources being a subset of the states |
| Validator.TargetCheckAsInclusion | DFA.py:120 | the target check is equivalent to the map's values being a subset of the states |
| Validator.TotalityCheckOverSources | DFA.py:134-137 | the totality check is equivalent to every source state's character set being the alphabet |
| Validator.FirstAppearances | DFA.py:130-131 | the `defaultdict`'s insertion order: each key's state is appended when first seen, so the order is no longer than the keys. `FirstAppearancesAreKeyStates` and `FirstAppearanceOrderAgrees` pin it down, and `CollectCharacterSets` produces it |
| Validator.FirstAppearancesAreKeyStates | DFA.py:130-131 | every key of the `defaultdict` is the state of some transition key |
| Validator.FirstIncomplete | DFA.py:134-137 | scanning states in order passes iff every one has the alphabet as its character set. On failure it names a state of the order whose set differs from the alphabet |
| Validator.FirstIncompleteIsFirst | DFA.py:134-137 | the state named is the first in the order whose character set differs from the alphabet |
| Validator.FirstAppearanceOrderAgrees | DFA.py:127-137 | scanning the `defaultdict` in its insertion order names the same state as scanning the state of every key in key order |
| Validator.KeyOrderTotality | DFA.py:130-137 | scanning the key states in key order passes iff every source state is total, and a failure names a source state |
| Validator.AddCharacter | DFA.py:131 | adding c under q leaves the other entries alone, adds q if missing, and makes q's set the old set (empty if absent) plus c |
| Validator.CollectStep | DFA.py:130-131 | one more key keeps the dictionary equal to the character sets of the keys seen so far |
| Validator.CollectCharacterSets | DFA.py:125-131 | the collected dictionary has exactly the source states as keys, each mapped to its `CharsOf` set, and its insertion order is the order of first appearance among the keys |
| Validator.CharacterSetOf | DFA.py:127 | looking up a state missing from the `defaultdict` gives the empty set, which is its `CharsOf` set |
| Validator.FindIncomplete | DFA.py:134-137 | the loop over a state order with the collected sets returns `FirstIncomplete` of that order |
| Validator.ValidateSourcesTotal | DFA.py:127-137 | returns the first state in key order whose character set differs from the alphabet, if any. It passes iff every source state is total, and a failure names a source state whose set differs from the alphabet |
| Validator.TransitionsVerdict | DFA.py:104-137 | passes iff the four transition checks hold |
| Validator.ValidationVerdict | DFA.py:72-89 | passes iff `WellFormed` holds, and never gives the simulator's error |
| Validator.ValidateTransitions | DFA.py:104-137 | the outcome is that of the first failing check in order (characters, with the exact unknown set; sources; targets; totality, with the first incomplete state in key order), and it passes iff all four hold |
| Validator.ValidateDfa | DFA.py:72-89 | final states, then the start state, then the transitions, with exactly the error of the first failing check. It passes iff `WellFormed` (the six conditions) holds, and it never produces the simulator's error |
| Validator.StateOrderTotality | DFA.py:82-83 | scanning all states in a given order passes iff every state is complete, and a failure names a state |
| Validator.ValidateStatesTotal | DFA.py:82-83 | returns the first state in the given order whose character set is not exactly the alphabet. It passes iff every state's character set equals the alphabet: the `!=` test of DFA.py:135 applied to every state |
| Validator.ValidateDfaComplete | DFA.py:72-89 | passes iff `WellFormed` and every state is complete. It reports the same error as `validate_dfa` when that fails, and otherwise the first incomplete state |
| Guarantees.StepDefinedness | DFA.py:104-137 | in a validated DFA, (q, c) is a key iff q is a transition source and c is in the alphabet |
| Guarantees.RunStaysInStates | DFA.py:99-123 | with a valid start state and valid targets, every state the walk reaches or gets stuck in is a state |
| Guarantees.UnknownCharacterNeverAccepted | DFA.py:56-58 | when keys use only alphabet characters, an input holding a character outside the alphabet gets stuck and is never accepted |
| Guarantees.SourcesReachedNeverRaise | DFA.py:59-63 | if every source is total and every state in which the walk looks up a character is a source, the simulator never raises, and a stuck walk rejects |
| Guarantees.ValidatedRunNeverRaises | DFA.py:60 | a DFA that passes `validate_dfa` never raises on a walk that looks up characters only in transition sources, and it rejects any input with a character outside the alphabet |
| Guarantees.CompleteRunsStayDefined | DFA.py:48-63 | with every state complete, a walk gets stuck only on a character outside the alphabet, and an input over the alphabet is consumed fully |
| Guarantees.CompleteNeverRaises | DFA.py:41-66 | a validated DFA with every state complete never raises. An input over the alphabet is accepted iff its folded state is accepting, and any other input is rejected |
| Guarantees.SourcesCoverStatesMeansComplete | DFA.py:76-83 | when every state is a transition source, passing `validate_dfa` makes the DFA complete |
| Scenarios.OddAsIsValidAndComplete | DFA_tests.py:221-240 | the odd-number-of-a's DFA is well formed and complete |
| Scenarios.OddAsVerdicts | DFA_tests.py:242-250 | that DFA accepts "abbaa" and rejects "abba" |
| Scenarios.OddAsRejectsUnknownCharacter | DFA_tests.py:287-310 | that DFA rejects "ababaQ" without an error |
| Scenarios.MissingTransitionRaises | DFA_tests.py:253-284 | without (1, 'b'), "bbbbb" raises `UndefinedTransition(1, 'b')` |
| Scenarios.FinalAndStartStateChecks | DFA_tests.py:78-119 | over states {1, 2, 3, 4}: accepting {2, 4} passes, {5} and {1, 6} fail; start 1 passes, start 6 fails |
| Scenarios.ValidTransitions | DFA_tests.py:131-142 | the ring transition map passes `validate_transitions` |
| Scenarios.InvalidCharacterInTransitions | DFA_tests.py:144-161 | a (4, 'c') key gives `UnknownCharacters({'c'})` |
| Scenarios.InvalidFromStateInTransitions | DFA_tests.py:163-180 | a (300, 'a') key gives `TransitionFromInvalidState` |
| Scenarios.InvalidToStateInTransitions | DFA_tests.py:182-199 | (1, 'a') -> 100 gives `TransitionToInvalidState` |
| Scenarios.NoFourBFirstIncomplete | DFA_tests.py:201-218 | scanning the keys of the map without (4, 'b') in the test's order names state 4 first |
| Scenarios.MissingTransition | DFA_tests.py:201-218 | a missing (4, 'b') gives `IncompleteState(4)` |
| Scenarios.FirstFailingCheckDecides | DFA.py:85-89 | with both an invalid accepting state and an invalid target, the accepting-state error is the one reported |
| Scenarios.ValidatedDfaStillRaises | DFA.py:127-137 | a DFA passing every check of `validate_dfa` (state 2 has no outgoing transition) is not complete and raises on "aa" at (2, 'a') |

## Left out

- Reading and parsing YAML (`load_yaml`, `parse_dfa_from_yaml`) and the command-line runner `dfa_runner.py` are I/O around the core and are not part of this model.
- The data-driven tests over YAML files and strings generated by `exrex` need files and a regex generator that run outside the core, so they are not modelled.
- The text of error messages is not modelled. Each message becomes an `InvalidDfa` variant that keeps the data it interpolates: the unknown characters, the transition map, or the state and character.
- The Python exception mechanism (`raise`, catching `KeyError`) is modelled as returned `Check`/`Result` values.
- Dictionary and set iteration order is not derived from hashing. It is an argument of the operations that iterate, and they require only that it lists the map's keys or the states.
- Hashing and `namedtuple` behaviour are not modelled. States and characters are any types with equality.
- Determinism and immutability are not separate lemmas. `Dfa` is an immutable value, and no operation changes state. Each validation method's result equals a function of its inputs and the iteration order (`ValidationVerdict`, `TransitionsVerdict`, `FirstIncomplete`), and the simulator's result equals `Verdict`. So equal inputs in equal order give equal results.

## Findings

| source | as written | input that shows it | evidently intended | confidence | as-written member | corrected member |
|---|---|---|---|---|---|---|
| DFA.py:127-137 | the totality check examines only states that are the source of some transition, so a state with no outgoing transition passes | states {1, 2}, alphabet {a, b}, transitions {(1, a) -> 2, (1, b) -> 2}, start 1: passes validation, then input "aa" raises at (2, 'a') | every state in `states` has a transition on every alphabet character (docstring at DFA.py:82-83), so that a validated DFA never raises (comment at DFA.py:60) | high; not executed | Scenarios.ValidatedDfaStillRaises | Validator.ValidateDfaComplete (with Guarantees.CompleteNeverRaises) |

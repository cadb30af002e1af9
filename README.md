# Decay-chain resolver of AngryTops

The training-data preparation of AngryTops has to find, in every simulated
semileptonic top-pair event, six particles: the hadronically and the
leptonically decaying top quark, their W bosons and their b quarks. An
event's particles come as three parallel arrays, `Particle.PID` (the PDG
type code), `Particle.D1` and `Particle.D2` (the indices of the first and
second daughter). This project models the four functions of
`helper_functions.py` that resolve these six indices, and proves what they
compute:

- `TraverseSelfDecay` follows first daughters while they keep the particle's
  PID (radiation copies of one physical particle) and returns the last copy;
- `GetParticleIndex` finds the last particle of a PID and insists that every
  later copy is the first daughter of the one before it;
- `ClassifyTopQuark` resolves each top's daughters into a W and a b and labels
  the branch leptonic or hadronic from the W's daughters;
- `GetIndices` runs the locator for PIDs 6 and -6 and classifies the pair.

Modules, leaves first:

- `DecayRecord` (`decay_record.dfy`): the event record as a value, `Event`
  (three `seq<int>` of one length N), the errors, a `Result` type and
  bounds-checked reads.
- `SelfDecay` (`self_decay.dfy`): the source loop as a step relation `Walk`,
  the bounded specification `SelfDecayEnd`, the method `TraverseSelfDecay`
  and the termination lemmas.
- `ParticleLocator` (`particle_locator.dfy`): the specification `Locate` and
  the method `GetParticleIndex`.
- `TopClassifier` (`top_classifier.dfy`): the per-top classification
  `TopBranch`, the loop as the fold `ClassifyFrom` over a dictionary
  `map<Key, int>`, and the method `ClassifyTopQuark`.
- `DecayIndices` (`decay_indices.dfy`): `ResolvedIndices` and the method
  `GetIndices`.
- `DecayExamples` (`decay_examples.dfy`): small synthetic events and their
  proved outcomes.

Each source function that loops is a method proved equal to a specification
function of the same inputs; the properties are proved about those
functions.

How the model reads the source:

- The `while flag` loop in `TraverseSelfDecay` has no bound. The model cuts
  it off after N moves and reports `SelfDecayCycle`. `SelfDecayCycleIffDiverges`
  proves that this happens exactly when the source's loop would never exit.
  A particle recorded as its own first daughter is such a cycle.
- Assertions and exceptions of the source are `Err` values carrying the
  source's message as a constructor: `NotUnique`, `NoWBoson`, `TwoLeptonic`,
  `TwoHadronic`, `NotValidDecay`.
- Several source lines are not valid Python. The model follows their evident
  intent, and the Dafny comments say so where it does:
  - `Counter(pid)` on a scalar (line 211) is read as "pid occurs among the PIDs";
  - `t_indices[index]` (lines 264 and 269) is read as the top index itself;
  - `t_indices.keys()` (lines 263 and 268) is read as the dictionary being filled;
  - `np.min(a, b)` and `np.max(a, b)` (lines 262 and 267) are read as binary min and max;
  - the stray bracket on line 251, the missing colon on line 262 and `pids[...]` on line 254 are read as plain `GetValue` reads.
- Two quirks are kept as written:
  - the hadronic test is strict, `< 10`, so a W daughter with |PID| == 10 is rejected as "Not Valid Decay";
  - the W's daughters are read raw through D1 and D2, not resolved through self-decay.
- Consequences of following the code as written:
  - a missing top is located as -1 and passed on to `ClassifyTopQuark`; no separate "not found" error is raised. In the model the read of D1 at index -1 is `IndexOutOfRange(-1)`, so the event is rejected (`MissingTopRejected`). ROOT's `GetValue` on line 248 raises nothing there, so the source goes on with whatever value that read returns;
  - when both resolved daughters of a top have |PID| 24, the first one is the W; nothing checks that exactly one has it;
  - the uniqueness rule is the code's: each later match must be the first daughter of the match before it.
- `ClassifyTopQuark` is modelled on a list of any length, as the source's `for` loop allows. It fills three keys per top and succeeds on at most two tops (`ClassifyAtMostTwo`).

## Model

| member | source | states |
|---|---|---|
| `SelfDecay.Follow` | helper_functions.py:183-188 | a returned index is the start or has the sought PID; its first daughter exists and has another PID; failures are only a cycle or an out-of-range read |
| `SelfDecay.StepFrom` | helper_functions.py:184-188 | one iteration of the loop: a move goes to the first daughter, which has the sought PID; a stop stays at the current index, whose first daughter has another PID |
| `SelfDecay.Walk` | helper_functions.py:183-188 | every index the unbounded loop stands on or stops at is the start or a particle of the sought PID; a stop meets the loop's exit condition |
| `SelfDecay.SelfDecayEnd` | helper_functions.py:179-189 | the result has the starting particle's PID; the PID at its first daughter differs from it (the loop's exit condition); an invalid start fails with IndexOutOfRange |
| `SelfDecay.TraverseSelfDecay` | helper_functions.py:166-189 | the `while flag` loop, cut off after N moves, returns exactly `SelfDecayEnd` |
| `SelfDecay.SelfDecayNoChainIsIdentity` | helper_functions.py:184-189 | when the first daughter's PID differs from the start's, the start index is returned unchanged |
| `SelfDecay.SelfDecayTerminates` | helper_functions.py:182-189 | the bounded model returns v exactly when the unbounded source loop exits at v after some number of same-PID first-daughter moves |
| `SelfDecay.SelfDecayCycleDiverges` | helper_functions.py:182-187 | a reported cycle is real: every iterate of the source loop is still running, so it never returns |
| `SelfDecay.SelfDecayCycleIffDiverges` | helper_functions.py:182-188 | a cycle is reported exactly when the source loop runs forever |
| `SelfDecay.SelfDecayFaults` | helper_functions.py:179-186 | the model fails on a read exactly when the source loop reaches that read |
| `ParticleLocator.Locate` | helper_functions.py:211-225 | a found index lies in [-1, N) and, when not -1, has the PID; the only failure is NotUnique |
| `ParticleLocator.ScanStep` | helper_functions.py:217-224 | one iteration of the scan: a match that is not the first daughter of the match before it shows the PID is not unique; otherwise the recorded match and the checked links extend by one index |
| `ParticleLocator.GetParticleIndex` | helper_functions.py:192-225 | the scan returns exactly `Locate`: "Particle not unique" when some match is followed by one that is not its first daughter, otherwise the last match, or -1 |
| `ParticleLocator.LocateAbsent` | helper_functions.py:211-215 | -1 is returned exactly when no particle has the PID |
| `ParticleLocator.LocateFound` | helper_functions.py:216-225 | a found index i lies in [0, N), has the PID, and no later index has it |
| `ParticleLocator.LocateNotUnique` | helper_functions.py:219-224 | the search fails, with NotUnique only, exactly when two successive matches are not linked by D1 |
| `ParticleLocator.LocateFollowsChain` | helper_functions.py:217-224 | every particle of the PID reaches the located one by same-PID first-daughter moves of the self-decay walk |
| `TopClassifier.TopBranch` | helper_functions.py:248-273 | a classified top is in range; its W and b are in range; the W has abs(PID) 24 and is the last of its self-decay chain |
| `TopClassifier.TopBranchWBoson` | helper_functions.py:248-257 | "No W quark found" exactly when neither resolved daughter has abs(PID) 24; otherwise the W is the first resolved daughter if it has abs(PID) 24, else the second, and the b is the other |
| `TopClassifier.TopBranchKind` | helper_functions.py:259-273 | leptonic exactly when both raw W daughters have abs(PID) > 10, hadronic exactly when both have abs(PID) < 10, "Not Valid Decay" in every other case, including abs(PID) == 10 |
| `TopClassifier.ClassifyFrom` | helper_functions.py:246-271 | the loop from a partly filled dictionary: no key is removed, a top once written is never overwritten, and every listed top classifies and is recorded as the top of its branch |
| `TopClassifier.Classify` | helper_functions.py:240-274 | every listed top of a successful result classifies and is recorded as the top of its branch |
| `TopClassifier.ClassifyTopQuark` | helper_functions.py:227-274 | the loop filling the dictionary returns exactly `Classify` |
| `TopClassifier.ClassifyAtMostTwo` | helper_functions.py:246-271 | a successful classification has at most two tops, since each fills a branch that was empty |
| `TopClassifier.ClassifyInRange` | helper_functions.py:246-274 | every index in a successful result lies in [0, N) |
| `TopClassifier.ClassifyPair` | helper_functions.py:246-274 | two tops succeed exactly when both classify into different branches, and then fill all six keys with their own indices; otherwise the first top's error, then the second's, then "Two leptonic/hadronic top quarks" |
| `TopClassifier.ClassifyPairOk` | helper_functions.py:246-274 | two tops of different branches give the dictionary holding both branches, the first written first |
| `TopClassifier.ClassifyPairSymmetric` | helper_functions.py:246-274 | a successful result does not depend on which top is listed first |
| `DecayIndices.ResolvedIndices` | helper_functions.py:290-291 | a resolved event has both tops located, fills all six keys, and its two tops are the located top and antitop |
| `DecayIndices.GetIndices` | helper_functions.py:276-291 | returns `ResolvedIndices`: locate 6, then -6, then classify the pair; a success has all six keys, each an index in [0, N) |
| `DecayIndices.ResolvedIndicesSound` | helper_functions.py:290-291 | a resolved event's two tops are the located top and antitop, one per branch; both W bosons have abs(PID) 24; all six indices lie in [0, N) |
| `DecayIndices.MissingTopRejected` | helper_functions.py:290-291 | an event without a top or without an antitop is never resolved |
| `DecayExamples.SemileptonicResolved` | helper_functions.py:276-291 | a synthetic semileptonic event with one top self-decay resolves to the last top copy as t_had, with its W and b, and to the antitop branch as the leptonic one |
| `DecayExamples.MixedWDecayRejected` | helper_functions.py:262-273 | a W decaying to a quark and a lepton makes the event fail with NotValidDecay |
| `DecayExamples.PidTenRejected` | helper_functions.py:267-273 | a W daughter with abs(PID) 10 makes the event fail with NotValidDecay |
| `DecayExamples.SelfPointingCycleRejected` | helper_functions.py:183-188 | a particle that is its own first daughter makes the event fail with SelfDecayCycle |

## Left out

- ROOT access (`tree.GetEntry`, `GetLeaf`, `GetLen`): the event arrives as three sequences of equal length.
- The `int(...)` conversion of D1 and D2 values read as floating point: daughter indices are integers.
- `GetEventWeight`: weight lookup through runtime-built `exec` strings and floating-point products.
- `MakeEventJets`, `RotateJets`, `FlipEta`, `RotateEvent`: floating-point four-vector kinematics in ROOT.
- `Normalize`, `save_training_history`: histogram and file I/O.
- `MakeInput`: floating-point unit conversion into numpy arrays, relying on globals that are not defined.
- features.py (column-name lists) and train_simple_model.py (network training and plotting) have no resolver logic and are not part of this model.
- An aborting assertion of the source becomes an error value here. Stopping the whole run is not modelled.
- Unchecked ROOT reads: every read of PID, D1 or D2 at an index outside [0, N) is the failure `IndexOutOfRange` in the model. ROOT's `GetValue` does not fail there, and what it returns is not modelled.

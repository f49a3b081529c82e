# Metronome scheduling engine — a Dafny model

This project models the scheduling engine of the Tempo Keeper practice
metronome. It proves properties of the model with the Dafny verifier.

The engine has two layers, and each has its own module:

- `Metronome` (`metronome.dfy`) models the pure domain layer of
  `src/domain/metronome.ts`. It has:
  - the eight range constants;
  - the four validators for tempo (40–240 bpm), beats per measure (1–16),
    the "play every N measures" training ratio (1–32) and count-in
    measures (0–4);
  - `calculateBeatState`, which maps a 0-indexed running beat count to a
    1-indexed (beat, measure) pair;
  - `isFirstBeatOfMeasure`;
  - the training-mode predicate `isSoundingMeasure`;
  - the count-in test `isCountInPhase` and its alias
    `calculateCountInBeatState`;
  - `calculateSecondsPerBeat`.
- `Scheduler` (`scheduler.dfy`) models the counter state machine of the
  React hook `src/hooks/useMetronome.ts`. The state is an immutable record
  with these parts:
  - the playing flag;
  - the run counters (`beatCount`, `measureCount`, `nextNoteTime`);
  - the published `currentBeat` and `currentMeasure`;
  - whether a re-arm timer is pending;
  - the loop's settings (`bpm`, `beatsPerMeasure`, `playEveryNMeasures`).

  `Start` and `Stop` are functions on this record. One iteration of the
  lookahead while-loop has two halves: `Emission` decides whether to click
  and with which accent, and `Advance` publishes the display state and
  advances the counters. `Lookahead` is the loop itself, bounded by a
  horizon that stands for `audioContext.currentTime + 0.1`. `ScheduleNote`
  is one timer callback. Playing a click becomes an emitted
  `Click(time, accent)` event. The audio clock becomes an optional
  `AudioContext` value that carries its current time.
- `JsNumbers` (`js_numbers.dfy`) holds the parts of JavaScript number
  semantics that the code relies on:
  - a `Number` is NaN, ±Infinity or a finite value;
  - `Math.floor`;
  - the `%` operator, which truncates, so the remainder takes the sign of
    the dividend;
  - `a % b === k`, which is false when `b` is 0, because `a % 0` is NaN.
- `DivMod` (`div_mod.dfy`) holds facts about Dafny's own Euclidean `/` and
  `%` that the proofs need, such as the uniqueness of quotient and
  remainder.
- `MetronomeExamples` (`metronome_examples.dfy`) states the concrete cases
  of the domain layer's unit tests against the model.

What is proved, in short:

- Each validator accepts exactly the finite inputs within its range. It
  returns the floor of an accepted input, and validating that result again
  returns it unchanged.
- The beat state round-trips with the beat count and stays within its
  bounds. Moving on one beat either advances the beat within the measure or
  wraps to beat 1 of the next measure.
- The first-beat test, the sounding pattern and the count-in window have
  the properties their callers rely on. The pattern sounds once per block
  of N measures, and the count-in covers exactly the first k measures.
- With the meter fixed, the hook's counters stay coherent with the domain's
  `calculateBeatState`.
- The lookahead loop terminates after exactly max(0, ⌈(horizon − t)/spb⌉)
  iterations, where t is the first note time and spb the beat length. It
  stops at the first note time at or past the horizon, and it emits clicks
  in strictly increasing time order.

## Where the hook departs from the domain layer

The model follows the code in each of these cases.

- **The hook never clicks when every measure should sound.** The domain's
  `isSoundingMeasure` special-cases N = 1, and its doc comment says that
  then all measures play (`src/domain/metronome.ts:59-61`). The usage notes
  in `src/App.tsx:53-55` and the help text in
  `src/components/MetronomeControls.tsx:111-113` say the same. The loop does
  not call `isSoundingMeasure`: it decides with
  `measureCount % playEveryNMeasures === 1`. With N = 1, `m % 1` is 0, so no
  click is ever emitted. The hook's default for N is 1, so a freshly started
  metronome is silent. The model keeps the decision as written.
  `DecisionVersusDomain` shows that it agrees with `isSoundingMeasure`
  exactly when N ≠ 1. `SilentWhenEveryMeasureSounds` and
  `DefaultSettingsNeverClick` show that a run with N = 1 emits nothing.
- **No count-in in the loop.** The domain exports `isCountInPhase` and
  `calculateCountInBeatState`, and `BeatIndicator` declares an
  `isCountingIn` property. The hook has no count-in setting or state and
  calls neither function. The count-in functions are therefore modelled only
  as domain functions.
- **Setters do not validate.** The hook hands out its plain state setters
  (`src/hooks/useMetronome.ts:148-160`) and never calls the domain
  validators. The loop model takes its settings as given. It states only
  the side conditions it needs: `beatsPerMeasure ≠ 0`, and `bpm > 0` for
  termination.
- **A missing audio clock is not reported.** `start` without an audio
  context returns and changes nothing. The model does the same.

## Model

| member | source | states |
|---|---|---|
| JsNumbers.Rem | src/domain/metronome.ts:88 | JavaScript's `%` on integers: for a non-negative dividend the remainder is in [0, \|b\|); for a negative one it is in (−\|b\|, 0] |
| JsNumbers.RemDiffersByMultiple | src/domain/metronome.ts:88 | the dividend and its remainder differ by a multiple of the divisor, which together with the sign bounds pins the remainder down |
| JsNumbers.Floor | src/domain/metronome.ts:31 | `Math.floor` of a finite value is the integer r with r ≤ x < r + 1 |
| Metronome.ValidateRange | src/domain/metronome.ts:28-31 | the shared validator: `Some` exactly for a finite value in [lo, hi]; NaN and ±Infinity are rejected; the result is an integer in [lo, hi] with r ≤ v < r + 1 |
| Metronome.ValidateBpm | src/domain/metronome.ts:27-32 | accepts exactly the finite values in [40, 240], returning their floor in [40, 240]; rejects NaN, ±Infinity and out-of-range values |
| Metronome.ValidateBeatsPerMeasure | src/domain/metronome.ts:39-44 | accepts exactly the finite values in [1, 16], returning their floor |
| Metronome.ValidatePlayEveryNMeasures | src/domain/metronome.ts:51-56 | accepts exactly the finite values in [1, 32], returning their floor |
| Metronome.ValidateCountInMeasures | src/domain/metronome.ts:113-118 | accepts exactly the finite values in [0, 4], returning their floor |
| Metronome.ValidationIsIdempotent | src/domain/metronome.ts:28-31 | validating an accepted result again returns it unchanged |
| MetronomeExamples.BpmValidatorExamples | src/domain/metronome.test.ts:23-54 | 120 → 120, 120.7 → 120, 60.5 → 60; 39, 0, −10, 241 and 300 rejected; 40 and 240 kept; NaN and ±Infinity rejected |
| MetronomeExamples.BeatsPerMeasureValidatorExamples | src/domain/metronome.test.ts:56-80 | 4 → 4, 3.9 → 3; 0, −1, 17, 100 and NaN rejected; 1 and 16 kept |
| MetronomeExamples.PlayEveryNValidatorExamples | src/domain/metronome.test.ts:82-106 | 4 → 4, 8.5 → 8; 0, −1, 33, 100 and NaN rejected; 1 and 32 kept |
| MetronomeExamples.CountInValidatorExamples | src/domain/metronome.test.ts:247-272 | 0 → 0, 2 → 2, 3.9 → 3; −1, −10, 5, 100 and NaN rejected; 4 kept |
| Metronome.EveryMeasureSoundsWhenNIsOne | src/domain/metronome.ts:67-69 | with N = 1 every measure sounds |
| Metronome.SoundingIffRemainderOne | src/domain/metronome.ts:67-69 | for N > 1 a measure m ≥ 1 sounds iff m mod N = 1 |
| Metronome.SoundingIsPeriodic | src/domain/metronome.ts:67-69 | the sounding pattern repeats with period N |
| Metronome.OneSoundingMeasurePerBlock | src/domain/metronome.ts:67-69 | in each block kN+1 … kN+N exactly one measure sounds, the first |
| MetronomeExamples.SoundingMeasureExamples | src/domain/metronome.test.ts:108-162 | measures 1, 5, 9, 13 sound and 2–4, 6–8 are silent for N = 4; odd measures sound for N = 2; all measures sound for N = 1 |
| Metronome.CalculateBeatState | src/domain/metronome.ts:87-95 | for beatCount ≥ 0: 1 ≤ beat ≤ beatsPerMeasure, measure ≥ 1, and (measure − 1)·beatsPerMeasure + (beat − 1) = beatCount |
| Metronome.BeatStateRoundTrip | src/domain/metronome.ts:87-95 | every valid (beat, measure) is the beat state of its own beat index, so the transform is a bijection onto valid positions |
| Metronome.BeatStateClosedForm | src/domain/metronome.ts:88-89 | on non-negative counts, beat = count mod b + 1 and measure = ⌊count / b⌋ + 1 |
| Metronome.NextBeatState | src/domain/metronome.ts:88-89 | one beat later the beat either increases by 1 in the same measure, or the last beat wraps to beat 1 of the next measure |
| Metronome.SingleBeatMeasures | src/domain/metronome.test.ts:202-210 | with one beat per measure, beat count c is beat 1 of measure c + 1 |
| MetronomeExamples.BeatStateExamplesInFirstMeasure | src/domain/metronome.test.ts:168-176 | counts 0–3 in 4/4 are beats 1–4 of measure 1 |
| MetronomeExamples.BeatStateExamplesWrapping | src/domain/metronome.test.ts:178-186 | counts 4, 5 and 8 in 4/4 are (1, 2), (2, 2) and (1, 3) |
| MetronomeExamples.BeatStateExamplesLater | src/domain/metronome.test.ts:183-187 | counts 15 and 16 in 4/4 are (4, 4) and (1, 5) |
| MetronomeExamples.BeatStateExamplesInWaltzTime | src/domain/metronome.test.ts:190-200 | counts 2, 3 and 6 in 3/4 are (3, 1), (1, 2) and (1, 3) |
| MetronomeExamples.BeatStateExamplesOneBeatPerMeasure | src/domain/metronome.test.ts:202-210 | counts 1 and 2 with one beat per measure are measures 2 and 3 |
| Metronome.FirstBeatIffBeatOne | src/domain/metronome.ts:104-106 | the first-beat test holds iff the beat state's beat is 1, iff the count is exactly the start index of its measure |
| Metronome.MeasureBoundary | src/domain/metronome.ts:104-106 | count k·b is a first beat and is beat 1 of measure k + 1 |
| MetronomeExamples.FirstBeatExamples | src/domain/metronome.test.ts:213-231 | counts 0, 4 and 8 in 4/4 and 3 and 6 in 3/4 are first beats; 1–3 in 4/4 are not |
| Metronome.NoCountInWithoutCountInMeasures | src/domain/metronome.ts:128-134 | with no count-in measures no beat is in the count-in |
| Metronome.CountInEndsForGood | src/domain/metronome.ts:128-134 | once a beat is past the count-in, every later beat is too |
| Metronome.CalculateCountInBeatState | src/domain/metronome.ts:144-149 | the count-in position has the same bounds and round trip as the ordinary beat state of the raw count |
| Metronome.CountInIsFirstMeasures | src/domain/metronome.ts:128-149 | for k ≥ 1 a beat is in the count-in iff its count-in measure is at most k, so the count-in covers exactly the first k measures |
| MetronomeExamples.CountInExamples | src/domain/metronome.test.ts:274-343 | beats 0–3 of 1×4, 0–5 of 2×3 and 0–15 of 4×4 are count-in and the next beats are not; a count-in of 0 is never active |
| Metronome.SecondsPerBeat | src/domain/metronome.ts:157-159 | the beat length r satisfies r · bpm = 60, and is positive for positive bpm |
| MetronomeExamples.SecondsPerBeatExamples | src/domain/metronome.test.ts:233-245 | 60 → 1, 120 → 0.5, 240 → 0.25, 80 → 0.75, 100 → 0.6 |
| Scheduler.Initial | src/hooks/useMetronome.ts:18-29 | the mounted hook is idle with no timer pending |
| Scheduler.InitialIsCoherent | src/hooks/useMetronome.ts:18-29 | the initial counters (beat 0, measure 1) are coherent with the domain's beat arithmetic |
| Scheduler.CoherentIsDomainBeatState | src/hooks/useMetronome.ts:84-94 | the coherence invariant says the measure count is the domain measure of the next beat, and the published pair is the domain beat state of the last scheduled beat |
| Scheduler.Start | src/hooks/useMetronome.ts:101-117 | a no-op while playing or without an audio clock; otherwise playing, beat count 0, measure count 1, beat 1 of measure 1 published, first note due at the clock's current time, settings kept, and the counters coherent |
| Scheduler.StartIsIdempotent | src/hooks/useMetronome.ts:101-102 | starting twice gives the same state as starting once |
| Scheduler.Stop | src/hooks/useMetronome.ts:120-130 | not playing, timer cleared, beat 0 of measure 1 published, counters reset to 0 and 1, settings and note time kept, counters coherent |
| Scheduler.StopIsIdempotent | src/hooks/useMetronome.ts:120-130 | stopping twice gives the same state as stopping once |
| Scheduler.DecisionVersusDomain | src/hooks/useMetronome.ts:77 | the hook's decision `m % N === 1` holds iff N ≠ 1 and the domain's `isSoundingMeasure(m, N)` holds; with N = 1 it never holds |
| Scheduler.Emission | src/hooks/useMetronome.ts:73-81 | a click is emitted iff N ≠ 1 and the measure sounds, at the next note time, accented iff the beat is the first of its measure |
| Scheduler.Advance | src/hooks/useMetronome.ts:73-94 | the beat count rises by 1, the note time by 60 / bpm, the measure count by 1 exactly when the new count starts a measure; the published measure is the old measure count and, for a non-negative count and positive meter, the published beat is the domain's beat of the scheduled count; the settings, playing flag and timer are unchanged |
| Scheduler.AdvanceKeepsCoherent | src/hooks/useMetronome.ts:73-94 | with the meter fixed an iteration keeps the counters coherent, and it publishes the domain's beat state of the beat it schedules, with the beat in 1..beatsPerMeasure |
| Scheduler.Iterate | src/hooks/useMetronome.ts:72-95 | n iterations add n to the beat count and leave the settings, playing flag and timer untouched |
| Scheduler.IterateTiming | src/hooks/useMetronome.ts:88 | after n iterations the next note is n beat lengths after the first |
| Scheduler.ClicksOf | src/hooks/useMetronome.ts:72-81 | n iterations emit at most n clicks |
| Scheduler.ClicksAreOrdered | src/hooks/useMetronome.ts:72-88 | for a positive tempo the clicks of n iterations are in strictly increasing time, none before the first note, and each at least one beat before the note the run ends on |
| Scheduler.IterateKeepsCoherent | src/hooks/useMetronome.ts:72-95 | coherence with the domain's beat arithmetic holds after any number of iterations |
| Scheduler.IterationClickMatchesDomain | src/hooks/useMetronome.ts:73-80 | the i-th iteration clicks iff N ≠ 1 and the domain says the measure of beat count + i sounds; the click is i beat lengths after the first note and is accented iff that beat is beat 1 |
| Scheduler.SilentWhenEveryMeasureSounds | src/hooks/useMetronome.ts:77-80 | with N = 1 a run of any length emits no click |
| Scheduler.DefaultSettingsNeverClick | src/hooks/useMetronome.ts:23 | a hook started with its default settings (N = 1) never emits a click |
| Scheduler.StepsUntil | src/hooks/useMetronome.ts:72 | the number of iterations left is positive exactly while the next note is before the horizon |
| Scheduler.StepsUntilDecreases | src/hooks/useMetronome.ts:72-88 | each iteration before the horizon lowers the number of remaining iterations by exactly one, which is why the loop terminates |
| Scheduler.Lookahead | src/hooks/useMetronome.ts:72-95 | for bpm > 0 the loop runs exactly max(0, ⌈(horizon − t)/spb⌉) iterations, where t is the first note time and spb the beat length; its result equals that many iterations; it ends with the next note at or past the horizon, one beat after the last note before it; it emits clicks in strictly increasing time within [t, horizon); it preserves coherence |
| Scheduler.ScheduleNote | src/hooks/useMetronome.ts:66-98 | without an audio clock nothing changes; otherwise the loop runs exactly max(0, ⌈(currentTime + 0.1 − t)/spb⌉) iterations, so the next note lies at or past currentTime + 0.1; every click lies in [t, currentTime + 0.1) and the clicks come in increasing time order; the timer is re-armed and coherence is kept |

## Left out

- Audio synthesis is not modelled: the oscillator, gain envelope and
  1000/800 Hz pitches of `playClick`. Neither is creating, resuming or
  closing the audio context. These are calls into the Web Audio API. A
  click is an abstract `Click(time, accent)` event.
- The 25 ms `setTimeout` re-arm, `clearTimeout`, and the React effect that
  calls `scheduleNote` while playing are timer and framework plumbing. The
  re-arm is reduced to the `timerArmed` flag.
- React state, effects and callbacks are not modelled. A render's settings
  are the `Config` field of the state record, fixed within one loop run.
- Floating-point rounding is not modelled. Finite JavaScript numbers,
  `60 / bpm` and audio-clock times are mathematical reals, and −0 is not
  told apart from 0.
- `src/hooks/useMetronome.js` is a JavaScript copy of the TypeScript hook
  without the missing-audio-context guards. It is covered by the model of
  the `.ts` file.
- Changing `beatsPerMeasure` during a run is out of scope, because the
  counter invariant does not survive it. The settings are fixed within a
  loop run.
- The hook's setters (`setBpm`, `setBeatsPerMeasure`,
  `setPlayEveryNMeasures`) are plain state setters without validation. They
  are not modelled as operations.
- The UI components, application shells and test setup are not part of
  this model. That includes the controls' own 30–300 bpm clamp.
- Metronome.CalculateBeatState: requires `beatsPerMeasure ≥ 1`. For a
  length of 0 the source's beat is NaN. Its measure is NaN for a beat count
  of 0, and ±Infinity otherwise: `calculateBeatState(5, 0)` has measure
  `Math.floor(Infinity) + 1`, which is Infinity. An integer record holds
  neither. Negative lengths are excluded as well, although the source does
  compute a result for them: `calculateBeatState(5, -2)` is beat 2 of
  measure −2. No caller passes a length below 1. The hook never calls this
  function, and the unit tests use lengths 1, 3 and 4. The contract speaks
  only of non-negative beat counts, where the truncated remainder and the
  floored quotient fit together.
- Metronome: the domain functions other than the validators take integers,
  where the source takes any JavaScript number. For example,
  `calculateBeatState(2.5, 4)` is beat 3.5 of measure 1 in the source. No
  caller passes a fraction: the hook's counters and the unit tests use
  integers.
- Metronome.SecondsPerBeat: requires `bpm ≠ 0`. For 0 the source yields
  Infinity.
- Scheduler.Emission: requires `beatsPerMeasure ≠ 0`. For 0 the source
  computes a NaN beat-in-measure.
- Scheduler.Advance: requires `bpm ≠ 0` and `beatsPerMeasure ≠ 0`, for the
  same NaN/Infinity reasons.
- Scheduler.Lookahead: requires `bpm > 0`. For bpm = 0 the beat length
  `60 / 0` is Infinity. The first iteration then moves the next note time
  to Infinity, and the source's loop stops after that one iteration.
  Infinite times lie outside the real-valued model. For a negative bpm the
  note time falls at every iteration, and the source's loop never reaches
  the horizon.
- Scheduler.Lookahead: the horizon is fixed for the whole run. The hook
  re-reads `audioContext.currentTime` at every test of the loop condition
  (`src/hooks/useMetronome.ts:72`). On a clock that advances while the loop
  runs, the source may make more iterations. The iteration count and the
  termination argument hold for a clock that stands still during one run.
  `ScheduleNote` reads the clock once for the same reason.
- Scheduler.Config: the settings are integers. The hook's setters accept any
  JavaScript number, including fractions, NaN and ±Infinity. The controls
  pass only integers produced by `parseInt`
  (`src/components/MetronomeControls.tsx:41`, `:48` and `:86`). Non-integer
  settings are not modelled.

/**
  The pure domain layer of the metronome: range validation of the four
  settings, the mapping from a running beat counter to a 1-indexed
  (beat, measure) pair, the training-mode and count-in predicates, and the
  beat interval.
 */
module Metronome {
  import opened DivMod
  import opened JsNumbers

  const BpmMin: int := 40
  const BpmMax: int := 240
  const BeatsPerMeasureMin: int := 1
  const BeatsPerMeasureMax: int := 16
  const PlayEveryNMin: int := 1
  const PlayEveryNMax: int := 32
  const CountInMeasuresMin: int := 0
  const CountInMeasuresMax: int := 4

  // ---------------------------------------------------------------------
  // Validation
  // ---------------------------------------------------------------------

  /** The value-or-null result of a validator. */
  datatype Option<+T> = None | Some(value: T)

  /**
    The shared shape of every validator: reject NaN and anything below lo or
    above hi (the infinities among them), otherwise return the floor.
   */
  function ValidateRange(value: Number, lo: int, hi: int): (r: Option<int>)
    ensures r.Some? <==> value.Finite? && lo as real <= value.value <= hi as real
    ensures r.Some? ==> lo <= r.value <= hi
    ensures r.Some? ==> r.value as real <= value.value < r.value as real + 1.0
  {
    if IsNaN(value) || LessThan(value, lo as real) || GreaterThan(value, hi as real) then None
    else Some(Floor(value.value))
  }

  function ValidateBpm(value: Number): (r: Option<int>)
    ensures r.Some? <==> value.Finite? && 40.0 <= value.value <= 240.0
    ensures r.Some? ==> BpmMin <= r.value <= BpmMax
    ensures r.Some? ==> r.value as real <= value.value < r.value as real + 1.0
  {
    ValidateRange(value, BpmMin, BpmMax)
  }

  function ValidateBeatsPerMeasure(value: Number): (r: Option<int>)
    ensures r.Some? <==> value.Finite? && 1.0 <= value.value <= 16.0
    ensures r.Some? ==> BeatsPerMeasureMin <= r.value <= BeatsPerMeasureMax
    ensures r.Some? ==> r.value as real <= value.value < r.value as real + 1.0
  {
    ValidateRange(value, BeatsPerMeasureMin, BeatsPerMeasureMax)
  }

  function ValidatePlayEveryNMeasures(value: Number): (r: Option<int>)
    ensures r.Some? <==> value.Finite? && 1.0 <= value.value <= 32.0
    ensures r.Some? ==> PlayEveryNMin <= r.value <= PlayEveryNMax
    ensures r.Some? ==> r.value as real <= value.value < r.value as real + 1.0
  {
    ValidateRange(value, PlayEveryNMin, PlayEveryNMax)
  }

  function ValidateCountInMeasures(value: Number): (r: Option<int>)
    ensures r.Some? <==> value.Finite? && 0.0 <= value.value <= 4.0
    ensures r.Some? ==> CountInMeasuresMin <= r.value <= CountInMeasuresMax
    ensures r.Some? ==> r.value as real <= value.value < r.value as real + 1.0
  {
    ValidateRange(value, CountInMeasuresMin, CountInMeasuresMax)
  }

  /** Validating an accepted value again returns it unchanged. */
  lemma ValidationIsIdempotent(value: Number, lo: int, hi: int)
    requires ValidateRange(value, lo, hi).Some?
    ensures ValidateRange(Finite(ValidateRange(value, lo, hi).value as real), lo, hi)
            == ValidateRange(value, lo, hi)
  {
  }

  // ---------------------------------------------------------------------
  // Training mode
  // ---------------------------------------------------------------------

  /**
    A measure sounds when every measure plays (playEveryN == 1) or when its
    number leaves remainder 1: measures 1, N + 1, 2N + 1, ...
   */
  predicate IsSoundingMeasure(measure: int, playEveryN: int) {
    playEveryN == 1 || RemIs(measure, playEveryN, 1)
  }

  lemma EveryMeasureSoundsWhenNIsOne(measure: int)
    ensures IsSoundingMeasure(measure, 1)
  {
  }

  /** For N > 1 and a 1-indexed measure, sounding is exactly remainder 1. */
  lemma SoundingIffRemainderOne(measure: int, playEveryN: int)
    requires 1 <= measure && 1 < playEveryN
    ensures IsSoundingMeasure(measure, playEveryN) <==> measure % playEveryN == 1
  {
    RemOfNatural(measure, playEveryN);
  }

  /** The sounding pattern repeats every N measures. */
  lemma {:induction false} SoundingIsPeriodic(measure: int, playEveryN: int)
    requires 0 <= measure && 1 <= playEveryN
    ensures IsSoundingMeasure(measure + playEveryN, playEveryN)
            == IsSoundingMeasure(measure, playEveryN)
  {
    RemOfNatural(measure, playEveryN);
    RemOfNatural(measure + playEveryN, playEveryN);
    DivModUnique(measure + playEveryN, playEveryN, measure / playEveryN + 1, measure % playEveryN);
  }

  /**
    In each block of N consecutive measures kN + 1 .. kN + N exactly one
    measure sounds, and it is the first of the block.
   */
  lemma {:induction false} OneSoundingMeasurePerBlock(k: int, playEveryN: int, measure: int)
    requires 0 <= k && 1 <= playEveryN
    requires k * playEveryN + 1 <= measure <= k * playEveryN + playEveryN
    ensures IsSoundingMeasure(measure, playEveryN) <==> measure == k * playEveryN + 1
  {
    if playEveryN > 1 {
      RemOfNatural(measure, playEveryN);
      var i := measure - k * playEveryN;
      if i < playEveryN {
        DivModUnique(measure, playEveryN, k, i);
      } else {
        DivModUnique(measure, playEveryN, k + 1, 0);
      }
    }
  }

  // ---------------------------------------------------------------------
  // Beat state
  // ---------------------------------------------------------------------

  /** A position in the music: 1-indexed beat within a 1-indexed measure. */
  datatype BeatState = BeatState(beat: int, measure: int)

  /** The position lies inside a measure of the given length. */
  predicate ValidBeatState(st: BeatState, beatsPerMeasure: int) {
    1 <= st.beat <= beatsPerMeasure && 1 <= st.measure
  }

  /** The 0-indexed running beat count that a position stands for. */
  function BeatIndex(st: BeatState, beatsPerMeasure: int): int {
    (st.measure - 1) * beatsPerMeasure + (st.beat - 1)
  }

  /**
    The position of the 0-indexed beat `beatCount`: the remainder gives the
    beat in the measure and the floored quotient the measure, both shifted to
    count from 1. For a positive divisor Dafny's `/` is the floored quotient.
   */
  function CalculateBeatState(beatCount: int, beatsPerMeasure: int): (r: BeatState)
    requires 1 <= beatsPerMeasure
    ensures 0 <= beatCount ==> ValidBeatState(r, beatsPerMeasure)
    ensures 0 <= beatCount ==> BeatIndex(r, beatsPerMeasure) == beatCount
  {
    var beatInMeasure := Rem(beatCount, beatsPerMeasure);
    var measure := beatCount / beatsPerMeasure + 1;
    // the remainders agree on the non-negative counts the contract speaks of
    RemOfNatural(if beatCount < 0 then 0 else beatCount, beatsPerMeasure);
    BeatState(beatInMeasure + 1, measure)
  }

  /** Every valid position is the beat state of its own index. */
  lemma {:induction false} BeatStateRoundTrip(st: BeatState, beatsPerMeasure: int)
    requires 1 <= beatsPerMeasure && ValidBeatState(st, beatsPerMeasure)
    ensures 0 <= BeatIndex(st, beatsPerMeasure)
    ensures CalculateBeatState(BeatIndex(st, beatsPerMeasure), beatsPerMeasure) == st
  {
    var c := BeatIndex(st, beatsPerMeasure);
    NonNegativeProduct(st.measure - 1, beatsPerMeasure);
    DivModUnique(c, beatsPerMeasure, st.measure - 1, st.beat - 1);
    RemOfNatural(c, beatsPerMeasure);
  }

  /**
    One beat later the beat either moves on within the same measure, or the
    last beat of a measure wraps to beat 1 of the next measure.
   */
  lemma {:induction false} NextBeatState(beatCount: int, beatsPerMeasure: int)
    requires 0 <= beatCount && 1 <= beatsPerMeasure
    ensures var s := CalculateBeatState(beatCount, beatsPerMeasure);
            var t := CalculateBeatState(beatCount + 1, beatsPerMeasure);
            || (s.beat < beatsPerMeasure && t == BeatState(s.beat + 1, s.measure))
            || (s.beat == beatsPerMeasure && t == BeatState(1, s.measure + 1))
  {
    var s := CalculateBeatState(beatCount, beatsPerMeasure);
    if s.beat < beatsPerMeasure {
      BeatStateRoundTrip(BeatState(s.beat + 1, s.measure), beatsPerMeasure);
    } else {
      var t := BeatState(1, s.measure + 1);
      assert BeatIndex(t, beatsPerMeasure) == BeatIndex(s, beatsPerMeasure) + 1;
      BeatStateRoundTrip(t, beatsPerMeasure);
    }
  }

  /** With one beat per measure, every beat starts a new measure. */
  lemma {:induction false} SingleBeatMeasures(beatCount: int)
    requires 0 <= beatCount
    ensures CalculateBeatState(beatCount, 1) == BeatState(1, beatCount + 1)
  {
    BeatStateRoundTrip(BeatState(1, beatCount + 1), 1);
  }

  /** On the non-negative counts the scheduler produces, the remainder and quotient are Dafny's. */
  lemma BeatStateClosedForm(beatCount: int, beatsPerMeasure: int)
    requires 0 <= beatCount && 1 <= beatsPerMeasure
    ensures CalculateBeatState(beatCount, beatsPerMeasure)
            == BeatState(beatCount % beatsPerMeasure + 1, beatCount / beatsPerMeasure + 1)
  {
    RemOfNatural(beatCount, beatsPerMeasure);
  }

  /** The running beat falls on the first beat of a measure. */
  predicate IsFirstBeatOfMeasure(beatCount: int, beatsPerMeasure: int) {
    RemIs(beatCount, beatsPerMeasure, 0)
  }

  /**
    The first-beat test agrees with the beat state, and holds exactly at the
    multiples of the measure length, which begin measure k + 1.
   */
  lemma {:induction false} FirstBeatIffBeatOne(beatCount: int, beatsPerMeasure: int)
    requires 0 <= beatCount && 1 <= beatsPerMeasure
    ensures IsFirstBeatOfMeasure(beatCount, beatsPerMeasure)
            <==> CalculateBeatState(beatCount, beatsPerMeasure).beat == 1
    ensures IsFirstBeatOfMeasure(beatCount, beatsPerMeasure)
            <==> beatCount
                 == (CalculateBeatState(beatCount, beatsPerMeasure).measure - 1) * beatsPerMeasure
  {
  }

  lemma {:induction false} MeasureBoundary(k: int, beatsPerMeasure: int)
    requires 0 <= k && 1 <= beatsPerMeasure
    ensures IsFirstBeatOfMeasure(k * beatsPerMeasure, beatsPerMeasure)
    ensures CalculateBeatState(k * beatsPerMeasure, beatsPerMeasure) == BeatState(1, k + 1)
  {
    BeatStateRoundTrip(BeatState(1, k + 1), beatsPerMeasure);
  }

  // ---------------------------------------------------------------------
  // Count-in
  // ---------------------------------------------------------------------

  /** The beat still lies in the count-in window [0, countInMeasures * beatsPerMeasure). */
  predicate IsCountInPhase(beatCount: int, countInMeasures: int, beatsPerMeasure: int) {
    countInMeasures > 0 && beatCount < countInMeasures * beatsPerMeasure
  }

  lemma NoCountInWithoutCountInMeasures(beatCount: int, beatsPerMeasure: int)
    ensures !IsCountInPhase(beatCount, 0, beatsPerMeasure)
  {
  }

  /** Once the count-in is over it stays over. */
  lemma CountInEndsForGood(beatCount: int, later: int, countInMeasures: int, beatsPerMeasure: int)
    requires beatCount <= later
    requires !IsCountInPhase(beatCount, countInMeasures, beatsPerMeasure)
    ensures !IsCountInPhase(later, countInMeasures, beatsPerMeasure)
  {
  }

  /** The count-in position is the ordinary beat state of the raw beat count. */
  function CalculateCountInBeatState(beatCount: int, beatsPerMeasure: int): (r: BeatState)
    requires 1 <= beatsPerMeasure
    ensures 0 <= beatCount ==> ValidBeatState(r, beatsPerMeasure)
    ensures 0 <= beatCount ==> BeatIndex(r, beatsPerMeasure) == beatCount
  {
    CalculateBeatState(beatCount, beatsPerMeasure)
  }

  /** The count-in covers exactly the first countInMeasures measures. */
  lemma {:induction false} CountInIsFirstMeasures(
    beatCount: int, countInMeasures: int, beatsPerMeasure: int)
    requires 0 <= beatCount && 1 <= countInMeasures && 1 <= beatsPerMeasure
    ensures IsCountInPhase(beatCount, countInMeasures, beatsPerMeasure)
            <==> CalculateCountInBeatState(beatCount, beatsPerMeasure).measure <= countInMeasures
  {
    var st := CalculateCountInBeatState(beatCount, beatsPerMeasure);
    var boundary := countInMeasures * beatsPerMeasure;
    if st.measure <= countInMeasures {
      NonNegativeProduct(countInMeasures - st.measure, beatsPerMeasure);
      assert boundary == BeatIndex(st, beatsPerMeasure) - (st.beat - 1)
        + (countInMeasures - st.measure + 1) * beatsPerMeasure;
    } else {
      NonNegativeProduct(st.measure - 1 - countInMeasures, beatsPerMeasure);
      assert beatCount
             == boundary + (st.measure - 1 - countInMeasures) * beatsPerMeasure + (st.beat - 1);
    }
  }

  // ---------------------------------------------------------------------
  // Tempo
  // ---------------------------------------------------------------------

  /** The length of one beat in seconds. */
  function SecondsPerBeat(bpm: int): (r: real)
    requires bpm != 0
    ensures r * bpm as real == 60.0
    ensures 0 < bpm ==> 0.0 < r
  {
    60.0 / bpm as real
  }
}

/**
  The concrete cases of the domain layer's unit tests, stated against the
  model: the validators at and around their bounds, the beat-state table for
  several meters, the training-mode and count-in predicates, and the beat
  interval for common tempos.
 */
module MetronomeExamples {
  import opened JsNumbers
  import opened Metronome

  /** validateBpm on the inputs its unit tests exercise. */
  lemma BpmValidatorExamples()
    ensures ValidateBpm(Finite(120.0)) == Some(120)
    ensures ValidateBpm(Finite(120.7)) == Some(120)
    ensures ValidateBpm(Finite(60.5)) == Some(60)
    ensures ValidateBpm(Finite(39.0)) == None && ValidateBpm(Finite(0.0)) == None
    ensures ValidateBpm(Finite(-10.0)) == None
    ensures ValidateBpm(Finite(241.0)) == None && ValidateBpm(Finite(300.0)) == None
    ensures ValidateBpm(Finite(40.0)) == Some(40) && ValidateBpm(Finite(240.0)) == Some(240)
    ensures ValidateBpm(NaN) == None
    ensures ValidateBpm(PosInfinity) == None && ValidateBpm(NegInfinity) == None
  {
  }

  /** validateBeatsPerMeasure on the inputs its unit tests exercise. */
  lemma BeatsPerMeasureValidatorExamples()
    ensures ValidateBeatsPerMeasure(Finite(4.0)) == Some(4)
    ensures ValidateBeatsPerMeasure(Finite(3.9)) == Some(3)
    ensures ValidateBeatsPerMeasure(Finite(0.0)) == None
    ensures ValidateBeatsPerMeasure(Finite(-1.0)) == None
    ensures ValidateBeatsPerMeasure(Finite(17.0)) == None
    ensures ValidateBeatsPerMeasure(Finite(100.0)) == None
    ensures ValidateBeatsPerMeasure(Finite(1.0)) == Some(1)
    ensures ValidateBeatsPerMeasure(Finite(16.0)) == Some(16)
    ensures ValidateBeatsPerMeasure(NaN) == None
  {
  }

  /** validatePlayEveryNMeasures on the inputs its unit tests exercise. */
  lemma PlayEveryNValidatorExamples()
    ensures ValidatePlayEveryNMeasures(Finite(4.0)) == Some(4)
    ensures ValidatePlayEveryNMeasures(Finite(8.5)) == Some(8)
    ensures ValidatePlayEveryNMeasures(Finite(0.0)) == None
    ensures ValidatePlayEveryNMeasures(Finite(-1.0)) == None
    ensures ValidatePlayEveryNMeasures(Finite(33.0)) == None
    ensures ValidatePlayEveryNMeasures(Finite(100.0)) == None
    ensures ValidatePlayEveryNMeasures(Finite(1.0)) == Some(1)
    ensures ValidatePlayEveryNMeasures(Finite(32.0)) == Some(32)
    ensures ValidatePlayEveryNMeasures(NaN) == None
  {
  }

  /** validateCountInMeasures on the inputs its unit tests exercise. */
  lemma CountInValidatorExamples()
    ensures ValidateCountInMeasures(Finite(0.0)) == Some(0)
    ensures ValidateCountInMeasures(Finite(2.0)) == Some(2)
    ensures ValidateCountInMeasures(Finite(3.9)) == Some(3)
    ensures ValidateCountInMeasures(Finite(-1.0)) == None
    ensures ValidateCountInMeasures(Finite(-10.0)) == None
    ensures ValidateCountInMeasures(Finite(5.0)) == None
    ensures ValidateCountInMeasures(Finite(100.0)) == None
    ensures ValidateCountInMeasures(Finite(4.0)) == Some(4)
    ensures ValidateCountInMeasures(NaN) == None
  {
  }

  lemma SoundingMeasureExamples()
    ensures IsSoundingMeasure(1, 1) && IsSoundingMeasure(2, 1) && IsSoundingMeasure(100, 1)
    ensures IsSoundingMeasure(1, 2) && IsSoundingMeasure(3, 2) && IsSoundingMeasure(5, 2)
    ensures !IsSoundingMeasure(2, 2) && !IsSoundingMeasure(4, 2) && !IsSoundingMeasure(6, 2)
    ensures IsSoundingMeasure(1, 4) && IsSoundingMeasure(5, 4)
    ensures IsSoundingMeasure(9, 4) && IsSoundingMeasure(13, 4)
    ensures !IsSoundingMeasure(2, 4) && !IsSoundingMeasure(3, 4) && !IsSoundingMeasure(4, 4)
    ensures !IsSoundingMeasure(6, 4) && !IsSoundingMeasure(7, 4) && !IsSoundingMeasure(8, 4)
    ensures IsSoundingMeasure(1, 8) && IsSoundingMeasure(9, 8) && IsSoundingMeasure(17, 8)
    ensures forall m :: 2 <= m <= 8 ==> !IsSoundingMeasure(m, 8)
  {
  }

  lemma BeatStateExamplesInFirstMeasure()
    ensures CalculateBeatState(0, 4) == BeatState(1, 1)
    ensures CalculateBeatState(1, 4) == BeatState(2, 1)
    ensures CalculateBeatState(2, 4) == BeatState(3, 1)
    ensures CalculateBeatState(3, 4) == BeatState(4, 1)
  {
    BeatStateClosedForm(0, 4);
    BeatStateClosedForm(1, 4);
    BeatStateClosedForm(2, 4);
    BeatStateClosedForm(3, 4);
  }

  lemma BeatStateExamplesWrapping()
    ensures CalculateBeatState(4, 4) == BeatState(1, 2)
    ensures CalculateBeatState(5, 4) == BeatState(2, 2)
    ensures CalculateBeatState(8, 4) == BeatState(1, 3)
  {
    BeatStateClosedForm(4, 4);
    BeatStateClosedForm(5, 4);
    BeatStateClosedForm(8, 4);
  }

  lemma BeatStateExamplesLater()
    ensures CalculateBeatState(15, 4) == BeatState(4, 4)
    ensures CalculateBeatState(16, 4) == BeatState(1, 5)
  {
    BeatStateClosedForm(15, 4);
    BeatStateClosedForm(16, 4);
  }

  lemma BeatStateExamplesInWaltzTime()
    ensures CalculateBeatState(2, 3) == BeatState(3, 1)
    ensures CalculateBeatState(3, 3) == BeatState(1, 2)
    ensures CalculateBeatState(6, 3) == BeatState(1, 3)
  {
    BeatStateClosedForm(2, 3);
    BeatStateClosedForm(3, 3);
    BeatStateClosedForm(6, 3);
  }

  lemma BeatStateExamplesOneBeatPerMeasure()
    ensures CalculateBeatState(1, 1) == BeatState(1, 2)
    ensures CalculateBeatState(2, 1) == BeatState(1, 3)
  {
    SingleBeatMeasures(1);
    SingleBeatMeasures(2);
  }

  lemma FirstBeatExamples()
    ensures IsFirstBeatOfMeasure(0, 4) && IsFirstBeatOfMeasure(0, 3)
    ensures !IsFirstBeatOfMeasure(1, 4) && !IsFirstBeatOfMeasure(2, 4)
    ensures !IsFirstBeatOfMeasure(3, 4)
    ensures IsFirstBeatOfMeasure(4, 4) && IsFirstBeatOfMeasure(8, 4)
    ensures IsFirstBeatOfMeasure(3, 3) && IsFirstBeatOfMeasure(6, 3)
  {
  }

  lemma CountInExamples()
    ensures !IsCountInPhase(0, 0, 4) && !IsCountInPhase(1, 0, 4) && !IsCountInPhase(100, 0, 4)
    ensures forall c :: 0 <= c < 4 ==> IsCountInPhase(c, 1, 4)
    ensures !IsCountInPhase(4, 1, 4) && !IsCountInPhase(5, 1, 4) && !IsCountInPhase(100, 1, 4)
    ensures forall c :: 0 <= c < 6 ==> IsCountInPhase(c, 2, 3)
    ensures !IsCountInPhase(6, 2, 3) && !IsCountInPhase(7, 2, 3)
    ensures forall c :: 0 <= c < 16 ==> IsCountInPhase(c, 4, 4)
    ensures !IsCountInPhase(16, 4, 4)
    ensures CalculateCountInBeatState(7, 4) == BeatState(4, 2)
    ensures CalculateCountInBeatState(5, 3) == BeatState(3, 2)
  {
  }

  lemma SecondsPerBeatExamples()
    ensures SecondsPerBeat(60) == 1.0
    ensures SecondsPerBeat(120) == 0.5
    ensures SecondsPerBeat(240) == 0.25
    ensures SecondsPerBeat(80) == 0.75
    ensures SecondsPerBeat(100) == 0.6
  {
  }
}

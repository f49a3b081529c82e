/**
  The counter state machine of the metronome hook, with the framework, the
  timer and the audio synthesis stripped away.

  The hook keeps its run counters (beat count, measure count, next note
  time), the published display state (current beat and measure, playing
  flag) and a handle to the re-arm timer. `Start` and `Stop` reset them.
  One iteration of the lookahead while-loop is split in two: `Emission`
  decides whether to emit a click and with which accent, and `Advance`
  publishes the display state and advances the counters. `Lookahead` runs
  that loop until the next note lies at or beyond a horizon. Playing a
  click becomes the emitted `Click` event, and the audio clock becomes an
  `AudioContext` value that carries its current time.
 */
module Scheduler {
  import opened JsNumbers
  import opened Metronome

  /** The scheduling window ahead of the audio clock, in seconds. */
  const LookaheadSeconds: real := 0.1

  /** The audio clock, when one could be created. */
  datatype AudioContext = AudioContext(currentTime: real)

  /** The settings the loop reads; they stay fixed within one run of the loop. */
  datatype Config = Config(bpm: int, beatsPerMeasure: int, playEveryNMeasures: int)

  datatype State = State(
    isPlaying: bool,
    beatCount: int,
    measureCount: int,
    nextNoteTime: real,
    currentBeat: int,
    currentMeasure: int,
    timerArmed: bool,
    config: Config)

  /** A click scheduled at an audio-clock time, accented on a measure's first beat. */
  datatype Click = Click(time: real, accent: bool)

  /** Settings under which one loop iteration yields numbers rather than NaN or Infinity. */
  predicate Runnable(c: Config) {
    c.bpm != 0 && c.beatsPerMeasure != 0
  }

  /**
    The run counters agree with the domain's beat arithmetic: the measure
    count is the 1-indexed measure of the next beat, and once a beat has been
    scheduled the published beat and measure are those of the last scheduled
    beat (CoherentIsDomainBeatState restates this with the domain's
    CalculateBeatState).
   */
  predicate Coherent(s: State) {
    var b := s.config.beatsPerMeasure;
    && 1 <= b
    && 0 <= s.beatCount
    && s.measureCount == s.beatCount / b + 1
    && (0 < s.beatCount ==>
          && s.currentBeat == (s.beatCount - 1) % b + 1
          && s.currentMeasure == (s.beatCount - 1) / b + 1)
  }

  lemma CoherentIsDomainBeatState(s: State)
    requires 1 <= s.config.beatsPerMeasure && 0 <= s.beatCount
    ensures Coherent(s) <==>
      && s.measureCount == CalculateBeatState(s.beatCount, s.config.beatsPerMeasure).measure
      && (0 < s.beatCount ==>
            BeatState(s.currentBeat, s.currentMeasure)
            == CalculateBeatState(s.beatCount - 1, s.config.beatsPerMeasure))
  {
    BeatStateClosedForm(s.beatCount, s.config.beatsPerMeasure);
    if 0 < s.beatCount {
      BeatStateClosedForm(s.beatCount - 1, s.config.beatsPerMeasure);
    }
  }

  /** The hook's state when it is first mounted. */
  function Initial(): (r: State)
    ensures !r.isPlaying && !r.timerArmed
  {
    State(false, 0, 1, 0.0, 0, 1, false, Config(120, 4, 1))
  }

  lemma InitialIsCoherent()
    ensures Coherent(Initial())
  {
  }

  // ---------------------------------------------------------------------
  // Lifecycle
  // ---------------------------------------------------------------------

  /**
    Start a run: a no-op while already playing or without an audio clock;
    otherwise the counters restart at beat 0 of measure 1, the first note is
    due now, and beat 1 of measure 1 is published.
   */
  function Start(s: State, ctx: Option<AudioContext>): (r: State)
    ensures s.isPlaying || ctx.None? ==> r == s
    ensures !s.isPlaying && ctx.Some? ==>
      && r.isPlaying
      && r.beatCount == 0 && r.measureCount == 1
      && r.currentBeat == 1 && r.currentMeasure == 1
      && r.nextNoteTime == ctx.value.currentTime
      && r.config == s.config && r.timerArmed == s.timerArmed
    ensures !s.isPlaying && ctx.Some? && 1 <= s.config.beatsPerMeasure ==> Coherent(r)
  {
    if s.isPlaying then s
    else match ctx
      case None => s
      case Some(audio) =>
        s.(beatCount := 0, measureCount := 1, nextNoteTime := audio.currentTime,
           currentBeat := 1, currentMeasure := 1, isPlaying := true)
  }

  /**
    Stop a run: not playing, no timer pending, counters and display back at
    their reset values; the settings and the audio clock position are kept.
   */
  function Stop(s: State): (r: State)
    ensures !r.isPlaying && !r.timerArmed
    ensures r.currentBeat == 0 && r.currentMeasure == 1
    ensures r.beatCount == 0 && r.measureCount == 1
    ensures r.config == s.config && r.nextNoteTime == s.nextNoteTime
    ensures 1 <= s.config.beatsPerMeasure ==> Coherent(r)
  {
    s.(isPlaying := false, timerArmed := false, currentBeat := 0, currentMeasure := 1,
       beatCount := 0, measureCount := 1)
  }

  lemma StopIsIdempotent(s: State)
    ensures Stop(Stop(s)) == Stop(s)
  {
  }

  lemma StartIsIdempotent(s: State, ctx: Option<AudioContext>)
    ensures Start(Start(s, ctx), ctx) == Start(s, ctx)
  {
  }

  // ---------------------------------------------------------------------
  // One loop iteration
  // ---------------------------------------------------------------------

  /** The hook's test for a sounding measure: `measureCount % playEveryNMeasures === 1`. */
  predicate ShouldPlayThisMeasure(measureCount: int, playEveryNMeasures: int) {
    RemIs(measureCount, playEveryNMeasures, 1)
  }

  /**
    The hook's decision agrees with the domain's training-mode predicate
    except when every measure should sound: `m % 1` is 0, so with N == 1 the
    hook never plays.
   */
  lemma {:induction false} DecisionVersusDomain(measureCount: int, playEveryNMeasures: int)
    ensures ShouldPlayThisMeasure(measureCount, playEveryNMeasures)
            <==> playEveryNMeasures != 1 && IsSoundingMeasure(measureCount, playEveryNMeasures)
    ensures playEveryNMeasures == 1 ==> !ShouldPlayThisMeasure(measureCount, playEveryNMeasures)
  {
    if playEveryNMeasures == 1 {
      RemDiffersByMultiple(measureCount, 1);
    }
  }

  /**
    The first half of a loop iteration: a click at the next note time if
    this measure sounds, accented on the measure's first beat.
   */
  function Emission(s: State): (r: Option<Click>)
    requires s.config.beatsPerMeasure != 0
    ensures r.Some?
            <==> s.config.playEveryNMeasures != 1
                 && IsSoundingMeasure(s.measureCount, s.config.playEveryNMeasures)
    ensures r.Some? ==> r.value.time == s.nextNoteTime
    ensures r.Some? ==>
              (r.value.accent <==> IsFirstBeatOfMeasure(s.beatCount, s.config.beatsPerMeasure))
  {
    var currentBeatInMeasure := Rem(s.beatCount, s.config.beatsPerMeasure);
    var isFirstBeatOfMeasure := currentBeatInMeasure == 0;
    DecisionVersusDomain(s.measureCount, s.config.playEveryNMeasures);
    if ShouldPlayThisMeasure(s.measureCount, s.config.playEveryNMeasures) then
      Some(Click(s.nextNoteTime, isFirstBeatOfMeasure))
    else
      None
  }

  /**
    The second half of a loop iteration: publish the current beat and
    measure, move the note time one beat on, count the beat, and start a new
    measure when the new beat count completes one.
   */
  function Advance(s: State): (r: State)
    requires Runnable(s.config)
    ensures r.config == s.config
    ensures r.isPlaying == s.isPlaying && r.timerArmed == s.timerArmed
    ensures r.beatCount == s.beatCount + 1
    ensures r.nextNoteTime == s.nextNoteTime + SecondsPerBeat(s.config.bpm)
    ensures r.measureCount
            == if IsFirstBeatOfMeasure(r.beatCount, s.config.beatsPerMeasure)
               then s.measureCount + 1 else s.measureCount
    ensures r.currentMeasure == s.measureCount
    ensures 0 <= s.beatCount && 0 < s.config.beatsPerMeasure ==>
              r.currentBeat == CalculateBeatState(s.beatCount, s.config.beatsPerMeasure).beat
  {
    var b := s.config.beatsPerMeasure;
    var secondsPerBeat := 60.0 / s.config.bpm as real;
    var currentBeatInMeasure := Rem(s.beatCount, b);
    var beatCount := s.beatCount + 1;
    var measureCount := if Rem(beatCount, b) == 0 then s.measureCount + 1 else s.measureCount;
    s.(currentBeat := currentBeatInMeasure + 1, currentMeasure := s.measureCount,
       nextNoteTime := s.nextNoteTime + secondsPerBeat,
       beatCount := beatCount, measureCount := measureCount)
  }

  /**
    With the measure length fixed, an iteration keeps the counters coherent,
    and what it publishes is the domain's beat state of the beat it schedules.
   */
  lemma {:induction false} AdvanceKeepsCoherent(s: State)
    requires Runnable(s.config) && Coherent(s)
    ensures Coherent(Advance(s))
    ensures BeatState(Advance(s).currentBeat, Advance(s).currentMeasure)
            == CalculateBeatState(s.beatCount, s.config.beatsPerMeasure)
    ensures 1 <= Advance(s).currentBeat <= s.config.beatsPerMeasure
  {
    var b := s.config.beatsPerMeasure;
    var c := s.beatCount;
    NextBeatState(c, b);
    BeatStateClosedForm(c, b);
    BeatStateClosedForm(c + 1, b);
    FirstBeatIffBeatOne(c + 1, b);
    RemOfNatural(c, b);
  }

  // ---------------------------------------------------------------------
  // The loop
  // ---------------------------------------------------------------------

  /** The state after n iterations. */
  function Iterate(s: State, n: nat): (r: State)
    requires Runnable(s.config)
    ensures r.config == s.config
    ensures r.isPlaying == s.isPlaying && r.timerArmed == s.timerArmed
    ensures r.beatCount == s.beatCount + n
    decreases n
  {
    if n == 0 then s else Advance(Iterate(s, n - 1))
  }

  /** After n iterations the next note is n beat lengths later. */
  lemma {:induction false} IterateTiming(s: State, n: nat)
    requires Runnable(s.config)
    ensures Iterate(s, n).nextNoteTime == s.nextNoteTime + n as real * SecondsPerBeat(s.config.bpm)
  {
    if n > 0 {
      IterateTiming(s, n - 1);
      var prev, spb := Iterate(s, n - 1), SecondsPerBeat(s.config.bpm);
      assert Iterate(s, n) == Advance(prev);
      assert Advance(prev).nextNoteTime == prev.nextNoteTime + spb;
      OneMoreBeat(n - 1, spb);
    }
  }

  lemma OneMoreBeat(k: nat, spb: real)
    ensures k as real * spb + spb == (k + 1) as real * spb
  {
  }

  function Emitted(o: Option<Click>): seq<Click> {
    match o
    case None => []
    case Some(c) => [c]
  }

  /** The clicks emitted by the first n iterations, in emission order. */
  function ClicksOf(s: State, n: nat): (r: seq<Click>)
    requires Runnable(s.config)
    ensures |r| <= n
    decreases n
  {
    if n == 0 then [] else ClicksOf(s, n - 1) + Emitted(Emission(Iterate(s, n - 1)))
  }

  /**
    Appending a loop iteration's emission, which is timed at the current
    note, keeps the clicks ordered and inside the window scheduled so far.
   */
  lemma AppendKeepsClicksOrdered(
    clicks: seq<Click>, o: Option<Click>, lo: real, time: real, spb: real)
    requires forall i, j :: 0 <= i < j < |clicks| ==> clicks[i].time < clicks[j].time
    requires forall i :: 0 <= i < |clicks| ==> lo <= clicks[i].time && clicks[i].time + spb <= time
    requires lo <= time && 0.0 < spb && (o.Some? ==> o.value.time == time)
    ensures var cs := clicks + Emitted(o);
            && (forall i, j :: 0 <= i < j < |cs| ==> cs[i].time < cs[j].time)
            && (forall i :: 0 <= i < |cs| ==> lo <= cs[i].time && cs[i].time + spb <= time + spb)
  {
  }

  /**
    For a positive tempo the clicks of n iterations come in strictly
    increasing time, none before the first note and each at least one beat
    before the note the iterations end on.
   */
  lemma {:induction false} ClicksAreOrdered(s: State, n: nat)
    requires Runnable(s.config) && 0 < s.config.bpm
    ensures s.nextNoteTime <= Iterate(s, n).nextNoteTime
    ensures var cs := ClicksOf(s, n);
            forall i, j :: 0 <= i < j < |cs| ==> cs[i].time < cs[j].time
    ensures var cs, spb := ClicksOf(s, n), SecondsPerBeat(s.config.bpm);
            forall i :: 0 <= i < |cs| ==>
              s.nextNoteTime <= cs[i].time && cs[i].time + spb <= Iterate(s, n).nextNoteTime
    decreases n
  {
    if n > 0 {
      ClicksAreOrdered(s, n - 1);
      var prev := Iterate(s, n - 1);
      var spb := SecondsPerBeat(s.config.bpm);
      assert Iterate(s, n) == Advance(prev);
      assert Advance(prev).nextNoteTime == prev.nextNoteTime + spb;
      assert ClicksOf(s, n) == ClicksOf(s, n - 1) + Emitted(Emission(prev));
      AppendKeepsClicksOrdered(
        ClicksOf(s, n - 1), Emission(prev), s.nextNoteTime, prev.nextNoteTime, spb);
    }
  }

  /** Coherence holds after any number of iterations from a coherent state. */
  lemma {:induction false} IterateKeepsCoherent(s: State, n: nat)
    requires Runnable(s.config) && Coherent(s)
    ensures Coherent(Iterate(s, n))
  {
    if n > 0 {
      IterateKeepsCoherent(s, n - 1);
      AdvanceKeepsCoherent(Iterate(s, n - 1));
    }
  }

  /**
    The i-th iteration of a run from a coherent state clicks exactly when the
    domain says the beat's measure sounds (and N is not 1), at the note time
    i beats later, accented exactly on beat 1 of the measure.
   */
  lemma {:induction false} IterationClickMatchesDomain(s: State, i: nat)
    requires Runnable(s.config) && Coherent(s)
    ensures var st := CalculateBeatState(s.beatCount + i, s.config.beatsPerMeasure);
            var click := Emission(Iterate(s, i));
            && (click.Some? <==> s.config.playEveryNMeasures != 1
                                 && IsSoundingMeasure(st.measure, s.config.playEveryNMeasures))
            && (click.Some? ==>
                  click.value.time == s.nextNoteTime + i as real * SecondsPerBeat(s.config.bpm))
            && (click.Some? ==> (click.value.accent <==> st.beat == 1))
  {
    var b := s.config.beatsPerMeasure;
    var u := Iterate(s, i);
    IterateKeepsCoherent(s, i);
    IterateTiming(s, i);
    BeatStateClosedForm(u.beatCount, b);
    FirstBeatIffBeatOne(u.beatCount, b);
  }

  /** With N == 1 the loop never emits anything, however long it runs. */
  lemma {:induction false} SilentWhenEveryMeasureSounds(s: State, n: nat)
    requires Runnable(s.config) && s.config.playEveryNMeasures == 1
    ensures ClicksOf(s, n) == []
  {
    if n > 0 {
      SilentWhenEveryMeasureSounds(s, n - 1);
    }
  }

  /** In particular the hook as first mounted (N == 1) never clicks once started. */
  lemma DefaultSettingsNeverClick(s: State, ctx: AudioContext, n: nat)
    requires s == Start(Initial(), Some(ctx))
    ensures Runnable(s.config) && s.config.playEveryNMeasures == 1
    ensures ClicksOf(s, n) == []
  {
    SilentWhenEveryMeasureSounds(s, n);
  }

  /**
    The number of iterations the loop makes from note time t: the smallest
    n with t + n * spb >= horizon, that is, the ceiling of (horizon - t) / spb.
   */
  function StepsUntil(t: real, horizon: real, spb: real): (n: nat)
    requires 0.0 < spb
    ensures t < horizon <==> 0 < n
  {
    if horizon <= t then 0
    else -Floor((t - horizon) / spb)
  }

  lemma StepsUntilDecreases(t: real, horizon: real, spb: real)
    requires 0.0 < spb && t < horizon
    ensures StepsUntil(t + spb, horizon, spb) == StepsUntil(t, horizon, spb) - 1
  {
    var x := (t - horizon) / spb;
    var y := (t + spb - horizon) / spb;
    assert spb / spb == 1.0;
    assert y == x + spb / spb;
    var f := Floor(x);
    assert Floor(y) == f + 1;
  }

  /**
    Run the lookahead loop until the next note lies at or beyond the horizon.
    It makes exactly StepsUntil iterations, stops at the first note time at
    or past the horizon, and emits its clicks in strictly increasing time
    order, all inside [first note time, horizon).
   */
  method Lookahead(s: State, horizon: real) returns (t: State, clicks: seq<Click>)
    requires Runnable(s.config) && 0 < s.config.bpm
    ensures t.beatCount - s.beatCount
            == StepsUntil(s.nextNoteTime, horizon, SecondsPerBeat(s.config.bpm))
    ensures t == Iterate(s, t.beatCount - s.beatCount)
    ensures clicks == ClicksOf(s, t.beatCount - s.beatCount)
    ensures horizon <= t.nextNoteTime
    ensures s.beatCount < t.beatCount ==> t.nextNoteTime - SecondsPerBeat(s.config.bpm) < horizon
    ensures forall i, j :: 0 <= i < j < |clicks| ==> clicks[i].time < clicks[j].time
    ensures forall i :: 0 <= i < |clicks| ==> s.nextNoteTime <= clicks[i].time < horizon
    ensures Coherent(s) ==> Coherent(t)
  {
    var spb := SecondsPerBeat(s.config.bpm);
    var n: nat := 0;
    t, clicks := s, [];
    while t.nextNoteTime < horizon
      invariant t == Iterate(s, n) && clicks == ClicksOf(s, n)
      invariant n + StepsUntil(t.nextNoteTime, horizon, spb)
                == StepsUntil(s.nextNoteTime, horizon, spb)
      invariant s.nextNoteTime <= t.nextNoteTime
      invariant 0 < n ==> t.nextNoteTime - spb < horizon
      decreases StepsUntil(t.nextNoteTime, horizon, spb)
    {
      StepsUntilDecreases(t.nextNoteTime, horizon, spb);
      clicks := clicks + Emitted(Emission(t));
      t := Advance(t);
      n := n + 1;
    }
    ClicksAreOrdered(s, n);
    if Coherent(s) {
      IterateKeepsCoherent(s, n);
    }
  }

  /**
    One timer callback: without an audio clock nothing happens; otherwise the
    loop fills the window up to LookaheadSeconds past the clock's current
    time and the timer is re-armed.
   */
  method ScheduleNote(s: State, ctx: Option<AudioContext>) returns (t: State, clicks: seq<Click>)
    requires Runnable(s.config) && 0 < s.config.bpm
    ensures ctx.None? ==> t == s && clicks == []
    ensures ctx.Some? ==> t.timerArmed
    ensures ctx.Some? ==> ctx.value.currentTime + LookaheadSeconds <= t.nextNoteTime
    ensures ctx.Some? ==>
              t.beatCount - s.beatCount
              == StepsUntil(s.nextNoteTime, ctx.value.currentTime + LookaheadSeconds,
                            SecondsPerBeat(s.config.bpm))
    ensures ctx.Some? ==>
              forall i :: 0 <= i < |clicks| ==>
                s.nextNoteTime <= clicks[i].time < ctx.value.currentTime + LookaheadSeconds
    ensures s.beatCount <= t.beatCount
    ensures ctx.Some? ==> t.(timerArmed := s.timerArmed) == Iterate(s, t.beatCount - s.beatCount)
    ensures ctx.Some? ==> clicks == ClicksOf(s, t.beatCount - s.beatCount)
    ensures forall i, j :: 0 <= i < j < |clicks| ==> clicks[i].time < clicks[j].time
    ensures Coherent(s) ==> Coherent(t)
  {
    match ctx {
      case None =>
        t, clicks := s, [];
      case Some(audio) =>
        var u;
        u, clicks := Lookahead(s, audio.currentTime + LookaheadSeconds);
        t := u.(timerArmed := true);
    }
  }
}

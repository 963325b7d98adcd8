/** The playback screen. Its four state variables (current segment index,
    seconds left in the segment, seconds left in the session, paused flag)
    change one step at a time: each evaluation of the countdown effect either
    lets one second elapse, moves to the next segment, signals the end of the
    session, or does nothing. `Step` is that evaluation on values; the class
    `Playback` holds the state and applies it in place. */
module WorkoutActive {
  import opened Types
  import opened Numerals

  /** A snapshot of the player's state variables. */
  datatype PlayState = PlayState(index: nat, segmentRemaining: int, totalRemaining: int, paused: bool)

  /** What one evaluation of the effect did: one second elapsed, the player
      moved to the next segment, the session finished (`onFinish`), or nothing. */
  datatype Event = Ticked | Advanced | Finished | Idle

  datatype StepResult = StepResult(state: PlayState, event: Event)

  /** The player's invariant: the index is in range, the segment counter is not
      negative, and the total left is the segment's remainder plus the full
      durations of every later segment. */
  predicate Inv(segs: seq<Segment>, s: PlayState) {
    s.index < |segs| && s.segmentRemaining >= 0 &&
    s.totalRemaining == s.segmentRemaining + TotalDuration(segs[s.index + 1..])
  }

  /** The state the player starts in. The session must not be empty, since the
      first segment's duration is read. */
  function Initial(segs: seq<Segment>): (s: PlayState)
    requires |segs| > 0
    ensures Inv(segs, s)
    ensures s.index == 0 && s.segmentRemaining == segs[0].durationInSeconds && !s.paused
    ensures s.totalRemaining == TotalDuration(segs)
  {
    PlayState(0, segs[0].durationInSeconds, TotalDuration(segs), false)
  }

  /** One evaluation of the countdown effect. Moving on at zero is not gated by
      the paused flag. */
  function Step(segs: seq<Segment>, s: PlayState): StepResult {
    if !s.paused && s.segmentRemaining > 0 then
      StepResult(s.(segmentRemaining := s.segmentRemaining - 1, totalRemaining := s.totalRemaining - 1), Ticked)
    else if s.segmentRemaining == 0 then
      if s.index < |segs| - 1 then
        StepResult(s.(index := s.index + 1, segmentRemaining := segs[s.index + 1].durationInSeconds), Advanced)
      else
        StepResult(s, Finished)
    else
      StepResult(s, Idle)
  }

  /** Running and inside a segment: both counters drop by exactly one and
      nothing else changes. */
  lemma TickCountsDown(segs: seq<Segment>, s: PlayState)
    requires !s.paused && s.segmentRemaining > 0
    ensures var r := Step(segs, s);
      r.event == Ticked &&
      r.state.segmentRemaining == s.segmentRemaining - 1 &&
      r.state.totalRemaining == s.totalRemaining - 1 &&
      r.state.index == s.index && r.state.paused == s.paused
  {
  }

  /** Paused inside a segment: the step changes nothing. */
  lemma PausedHolds(segs: seq<Segment>, s: PlayState)
    requires s.paused && s.segmentRemaining > 0
    ensures Step(segs, s) == StepResult(s, Idle)
  {
  }

  /** Segment exhausted with a segment after it, paused or not: move to it, load
      its duration, leave the total and the paused flag alone. */
  lemma ExhaustedAdvances(segs: seq<Segment>, s: PlayState)
    requires s.segmentRemaining == 0 && s.index < |segs| - 1
    ensures var r := Step(segs, s);
      r.event == Advanced &&
      r.state.index == s.index + 1 &&
      r.state.segmentRemaining == segs[s.index + 1].durationInSeconds &&
      r.state.totalRemaining == s.totalRemaining && r.state.paused == s.paused
  {
  }

  /** Last segment exhausted: the step signals finish, changes no counter, and
      by then nothing of the session is left. */
  lemma LastExhaustedFinishes(segs: seq<Segment>, s: PlayState)
    requires Inv(segs, s) && s.segmentRemaining == 0 && s.index == |segs| - 1
    ensures Step(segs, s) == StepResult(s, Finished)
    ensures s.totalRemaining == 0
  {
  }

  /** Every step keeps the invariant. */
  lemma StepKeepsInv(segs: seq<Segment>, s: PlayState)
    requires Inv(segs, s)
    ensures Inv(segs, Step(segs, s).state)
  {
    if s.segmentRemaining == 0 && s.index < |segs| - 1 {
      TotalDurationFrom(segs, s.index + 1);
    }
  }

  /** A next segment exists exactly when the current one is not the last:
      `session.segments[currentSegmentIndex + 1]`, undefined past the end. */
  function NextSegment(segs: seq<Segment>, index: nat): (r: Option<Segment>)
    ensures r.Some? <==> index + 1 < |segs|
    ensures r.Some? ==> r.value == segs[index + 1]
  {
    if index + 1 < |segs| then Some(segs[index + 1]) else None
  }

  /** The preview of the next segment announces exactly where an exhausted
      segment leads: to that segment's full duration, or to the finish. */
  lemma NextSegmentIsWhereExhaustionLeads(segs: seq<Segment>, s: PlayState)
    requires Inv(segs, s) && s.segmentRemaining == 0
    ensures match NextSegment(segs, s.index)
      case Some(n) => Step(segs, s).event == Advanced && Step(segs, s).state.segmentRemaining == n.durationInSeconds
      case None => Step(segs, s).event == Finished
  {
  }

  /** A zero-length segment is passed over without consuming a second: the
      step that enters it and the step that leaves it are both non-ticking. */
  lemma ZeroDurationSkipped(segs: seq<Segment>, s: PlayState)
    requires Inv(segs, s) && s.segmentRemaining == 0 && s.index + 1 < |segs|
    requires segs[s.index + 1].durationInSeconds == 0
    ensures var r1 := Step(segs, s);
      var r2 := Step(segs, r1.state);
      r1.event == Advanced && r2.event != Ticked && r2.event != Idle &&
      r2.state.totalRemaining == s.totalRemaining
  {
  }

  /** `isAlarming`: the last five seconds of a segment. */
  function IsAlarming(segmentRemaining: int): bool {
    segmentRemaining <= 5 && segmentRemaining > 0
  }

  // ---------------------------------------------------------------------------
  // Runs of steps

  datatype Trace = Trace(events: seq<Event>, last: PlayState)

  /** The events of n consecutive evaluations from s, and the state they reach. */
  function Run(segs: seq<Segment>, s: PlayState, n: nat): (t: Trace)
    ensures |t.events| == n
    decreases n
  {
    if n == 0 then Trace([], s)
    else
      var r := Step(segs, s);
      var t := Run(segs, r.state, n - 1);
      Trace([r.event] + t.events, t.last)
  }

  /** How many times e occurs among the events. */
  function Count(events: seq<Event>, e: Event): nat {
    if |events| == 0 then 0 else (if events[0] == e then 1 else 0) + Count(events[1..], e)
  }

  /** How many evaluations a running player still needs before the one that
      finishes: one per second left and one per segment still to come. */
  function Remaining(segs: seq<Segment>, s: PlayState): nat
    requires Inv(segs, s)
  {
    s.totalRemaining + (|segs| - 1 - s.index)
  }

  /** One step of a running player that has not reached the end is a tick or
      a move, keeps the invariant and brings the end one step closer. */
  lemma StepProgresses(segs: seq<Segment>, s: PlayState)
    requires Inv(segs, s) && !s.paused && Remaining(segs, s) > 0
    ensures var r := Step(segs, s);
      Inv(segs, r.state) && !r.state.paused &&
      Remaining(segs, r.state) == Remaining(segs, s) - 1 &&
      (r.event == Ticked ==> r.state.totalRemaining == s.totalRemaining - 1 && r.state.index == s.index) &&
      (r.event == Advanced ==> r.state.totalRemaining == s.totalRemaining && r.state.index == s.index + 1) &&
      (r.event == Ticked || r.event == Advanced)
  {
    StepKeepsInv(segs, s);
  }

  /** A running player with nothing left finishes on its next step. */
  lemma EndFinishes(segs: seq<Segment>, s: PlayState)
    requires Inv(segs, s) && Remaining(segs, s) == 0
    ensures s.totalRemaining == 0 && s.index == |segs| - 1
    ensures Step(segs, s).event == Finished
  {
  }

  /** Where a running player is after Remaining steps: at the end of the last
      segment, about to finish. */
  lemma {:induction false} RunReachesEnd(segs: seq<Segment>, s: PlayState, n: nat)
    requires Inv(segs, s) && !s.paused && n == Remaining(segs, s)
    ensures var t := Run(segs, s, n);
      Inv(segs, t.last) && t.last.totalRemaining == 0 && t.last.index == |segs| - 1 &&
      Step(segs, t.last).event == Finished
    decreases n
  {
    if n == 0 {
      EndFinishes(segs, s);
    } else {
      StepProgresses(segs, s);
      RunReachesEnd(segs, Step(segs, s).state, n - 1);
    }
  }

  /** Among the Remaining steps of a running player, the ticks are exactly
      the seconds left. */
  lemma {:induction false} RunTicks(segs: seq<Segment>, s: PlayState, n: nat)
    requires Inv(segs, s) && !s.paused && n == Remaining(segs, s)
    ensures Count(Run(segs, s, n).events, Ticked) == s.totalRemaining
    decreases n
  {
    if n > 0 {
      var r := Step(segs, s);
      StepProgresses(segs, s);
      RunTicks(segs, r.state, n - 1);
      CountCons(r.event, Run(segs, r.state, n - 1).events);
    }
  }

  /** Among the Remaining steps of a running player, the moves are exactly one
      per later segment. */
  lemma {:induction false} RunMoves(segs: seq<Segment>, s: PlayState, n: nat)
    requires Inv(segs, s) && !s.paused && n == Remaining(segs, s)
    ensures Count(Run(segs, s, n).events, Advanced) == |segs| - 1 - s.index
    decreases n
  {
    if n > 0 {
      var r := Step(segs, s);
      StepProgresses(segs, s);
      RunMoves(segs, r.state, n - 1);
      CountCons(r.event, Run(segs, r.state, n - 1).events);
    }
  }

  /** None of the Remaining steps of a running player finishes or idles. */
  lemma {:induction false} RunNeverStops(segs: seq<Segment>, s: PlayState, n: nat)
    requires Inv(segs, s) && !s.paused && n == Remaining(segs, s)
    ensures Count(Run(segs, s, n).events, Finished) == 0
    ensures Count(Run(segs, s, n).events, Idle) == 0
    decreases n
  {
    if n > 0 {
      var r := Step(segs, s);
      StepProgresses(segs, s);
      RunNeverStops(segs, r.state, n - 1);
      CountCons(r.event, Run(segs, r.state, n - 1).events);
    }
  }

  /** Termination: from any consistent running state, the next Remaining steps
      are exactly totalRemaining ticks and one move per later segment, with no
      finish and no idle step among them, and the step after them finishes. */
  lemma RunReachesFinish(segs: seq<Segment>, s: PlayState, n: nat)
    requires Inv(segs, s) && !s.paused && n == Remaining(segs, s)
    ensures var t := Run(segs, s, n);
      Count(t.events, Ticked) == s.totalRemaining &&
      Count(t.events, Advanced) == |segs| - 1 - s.index &&
      Count(t.events, Finished) == 0 && Count(t.events, Idle) == 0 &&
      t.last.totalRemaining == 0 && t.last.index == |segs| - 1 &&
      Step(segs, t.last).event == Finished
  {
    RunReachesEnd(segs, s, n);
    RunTicks(segs, s, n);
    RunMoves(segs, s, n);
    RunNeverStops(segs, s, n);
  }

  /** Counting over a trace that starts with one more step. */
  lemma CountCons(e: Event, events: seq<Event>)
    ensures forall x :: Count([e] + events, x) == (if e == x then 1 else 0) + Count(events, x)
  {
    assert ([e] + events)[1..] == events;
  }

  /** A two-segment session of 2 s and 3 s: two ticks, the move to the second
      segment (which consumes no second), three ticks, then finish. */
  lemma TwoSegmentSession()
    ensures var segs := [Segment("a", 2, 0.0, 0.0), Segment("b", 3, 0.0, 0.0)];
      var t := Run(segs, Initial(segs), 6);
      t.events == [Ticked, Ticked, Advanced, Ticked, Ticked, Ticked] &&
      t.last == PlayState(1, 0, 0, false) &&
      Step(segs, t.last).event == Finished
  {
    var segs := [Segment("a", 2, 0.0, 0.0), Segment("b", 3, 0.0, 0.0)];
    assert TotalDuration(segs) == 5 by {
      assert segs[1..][1..] == [];
    }
    var s6 := PlayState(1, 0, 0, false);
    var s5 := PlayState(1, 1, 1, false);
    var s4 := PlayState(1, 2, 2, false);
    var s3 := PlayState(1, 3, 3, false);
    var s2 := PlayState(0, 0, 3, false);
    var s1 := PlayState(0, 1, 4, false);
    assert Initial(segs) == PlayState(0, 2, 5, false);
    assert Run(segs, s6, 0) == Trace([], s6);
    assert Run(segs, s5, 1) == Trace([Ticked], s6);
    assert Run(segs, s4, 2) == Trace([Ticked, Ticked], s6);
    assert Run(segs, s3, 3) == Trace([Ticked, Ticked, Ticked], s6);
    assert Run(segs, s2, 4) == Trace([Advanced, Ticked, Ticked, Ticked], s6);
    assert Run(segs, s1, 5) == Trace([Ticked, Advanced, Ticked, Ticked, Ticked], s6);
  }

  /** Pausing freezes a segment in progress: any number of evaluations while
      paused are all idle and leave the state exactly as it was, so resuming
      continues where it stopped. */
  lemma {:induction false} PausedRunIsFrozen(segs: seq<Segment>, s: PlayState, n: nat)
    requires s.paused && s.segmentRemaining > 0
    ensures Run(segs, s, n).last == s
    ensures forall e :: e in Run(segs, s, n).events ==> e == Idle
  {
    if n > 0 {
      PausedRunIsFrozen(segs, s, n - 1);
    }
  }

  /** Running inside a segment, the next k <= segmentRemaining steps are all
      ticks within that segment. */
  lemma {:induction false} CountdownWithinSegment(segs: seq<Segment>, s: PlayState, k: nat)
    requires !s.paused && k <= s.segmentRemaining
    ensures var t := Run(segs, s, k);
      t.last == s.(segmentRemaining := s.segmentRemaining - k, totalRemaining := s.totalRemaining - k) &&
      forall e :: e in t.events ==> e == Ticked
    decreases k
  {
    if k > 0 {
      var r := Step(segs, s);
      CountdownWithinSegment(segs, r.state, k - 1);
    }
  }

  /** Once the alarm is on, a running player stays on the same segment and the
      alarm stays on until the segment is exhausted; the alarm covers at most
      the last five ticks of the segment. */
  lemma AlarmLastsToSegmentEnd(segs: seq<Segment>, s: PlayState)
    requires !s.paused && IsAlarming(s.segmentRemaining)
    ensures var t := Run(segs, s, s.segmentRemaining);
      s.segmentRemaining <= 5 &&
      t.last.segmentRemaining == 0 && t.last.index == s.index &&
      forall e :: e in t.events ==> e == Ticked
    ensures var r := Step(segs, s);
      r.event == Ticked && (IsAlarming(r.state.segmentRemaining) || r.state.segmentRemaining == 0)
  {
    CountdownWithinSegment(segs, s, s.segmentRemaining);
  }

  // ---------------------------------------------------------------------------
  // Clock display

  /** `formatTime`: minutes and seconds, each zero-padded to two digits. */
  function FormatTime(secs: nat): string {
    PadStart(NatToString(secs / 60), 2, '0') + ":" + PadStart(NatToString(secs % 60), 2, '0')
  }

  /** The display reads back as the time it shows: MM denotes secs / 60 (two
      digits or more), SS denotes secs % 60 in exactly two digits. */
  lemma FormatTimeDenotes(secs: nat)
    ensures exists mm, ss :: (FormatTime(secs) == mm + ":" + ss &&
      IsDecimal(mm) && IsDecimal(ss) && |mm| >= 2 && |ss| == 2 &&
      ParseNat(mm) == secs / 60 && ParseNat(ss) == secs % 60 && ParseNat(ss) < 60)
  {
    var mm := PadStart(NatToString(secs / 60), 2, '0');
    var ss := PadStart(NatToString(secs % 60), 2, '0');
    PaddedNumeral(secs / 60, 2);
    PaddedNumeral(secs % 60, 2);
    assert FormatTime(secs) == mm + ":" + ss;
  }

  /** A number below 100, zero-padded to two, takes exactly two characters. */
  lemma TwoDigitField(n: nat)
    requires n < 100
    ensures |PadStart(NatToString(n), 2, '0')| == 2
  {
  }

  lemma ClockShape(mm: string, ss: string)
    requires |mm| == 2 && |ss| == 2
    ensures |mm + ":" + ss| == 5 && (mm + ":" + ss)[2] == ':'
  {
  }

  /** Below 100 minutes the display is exactly the five characters "MM:SS". */
  lemma FormatTimeFiveChars(secs: nat)
    requires secs < 6000
    ensures |FormatTime(secs)| == 5 && FormatTime(secs)[2] == ':'
  {
    assert secs / 60 < 100;
    TwoDigitField(secs / 60);
    TwoDigitField(secs % 60);
    ClockShape(PadStart(NatToString(secs / 60), 2, '0'), PadStart(NatToString(secs % 60), 2, '0'));
  }

  // ---------------------------------------------------------------------------
  // The player object

  class Playback {
    /** The session's segments; fixed while the player is shown. */
    const segments: seq<Segment>
    var currentSegmentIndex: nat
    var segmentTimeRemaining: int
    var totalTimeRemaining: int
    var isPaused: bool

    function State(): PlayState
      reads this
    {
      PlayState(currentSegmentIndex, segmentTimeRemaining, totalTimeRemaining, isPaused)
    }

    ghost predicate Valid()
      reads this
    {
      Inv(segments, State())
    }

    /** The initial state variables (the four `useState` initialisers). */
    constructor (segments: seq<Segment>)
      requires |segments| > 0
      ensures this.segments == segments
      ensures State() == Initial(segments) && Valid()
    {
      this.segments := segments;
      currentSegmentIndex := 0;
      segmentTimeRemaining := segments[0].durationInSeconds;
      totalTimeRemaining := TotalDuration(segments);
      isPaused := false;
    }

    /** One evaluation of the countdown effect, in place. */
    method Tick() returns (event: Event)
      requires Valid()
      modifies this
      ensures Valid()
      ensures StepResult(State(), event) == Step(segments, old(State()))
    {
      StepKeepsInv(segments, State());
      if !isPaused && segmentTimeRemaining > 0 {
        segmentTimeRemaining := segmentTimeRemaining - 1;
        totalTimeRemaining := totalTimeRemaining - 1;
        event := Ticked;
      } else if segmentTimeRemaining == 0 {
        if currentSegmentIndex < |segments| - 1 {
          var nextIndex := currentSegmentIndex + 1;
          currentSegmentIndex := nextIndex;
          segmentTimeRemaining := segments[nextIndex].durationInSeconds;
          event := Advanced;
        } else {
          event := Finished;
        }
      } else {
        event := Idle;
      }
    }

    /** The pause/continue button. */
    method TogglePause()
      requires Valid()
      modifies this
      ensures Valid()
      ensures State() == old(State()).(paused := !old(isPaused))
    {
      isPaused := !isPaused;
    }

    /** Whether the segment is in its last five seconds. */
    function Alarming(): (r: bool)
      reads this
      ensures r <==> 0 < segmentTimeRemaining <= 5
    {
      IsAlarming(segmentTimeRemaining)
    }
  }

  /** Plays a session through without pausing, driving a fresh player one
      evaluation at a time until it signals finish, and counts what happened. */
  method PlayThrough(segments: seq<Segment>) returns (ticks: nat, advances: nat)
    requires |segments| > 0
    ensures ticks == TotalDuration(segments)
    ensures advances == |segments| - 1
  {
    var p := new Playback(segments);
    ticks, advances := 0, 0;
    var finished := false;
    while !finished
      invariant p.Valid() && !p.isPaused && p.segments == segments
      invariant ticks + p.totalTimeRemaining == TotalDuration(segments)
      invariant advances == p.currentSegmentIndex
      invariant finished ==> p.totalTimeRemaining == 0 && p.currentSegmentIndex == |segments| - 1
      decreases (if finished then 0 else 1) + Remaining(segments, p.State())
    {
      var e := p.Tick();
      if e == Ticked {
        ticks := ticks + 1;
      } else if e == Advanced {
        advances := advances + 1;
      } else {
        finished := true;
      }
    }
  }
}

# Treadmill interval timer — Dafny model

This project models the logic of a treadmill interval timer. The user edits a
session: a named, ordered list of segments, each with a duration in seconds, a
speed and an incline. The user then plays it back as a countdown. The countdown
moves to the next segment when a segment reaches zero and signals the end after
the last one. The model covers three parts:

- **Playback** (`workout_active.dfy`, module `WorkoutActive`). The player's four
  state variables are the current segment index, the seconds left in the
  segment, the seconds left in the session and the paused flag. The pure
  function `Step` is one evaluation of the countdown effect, and the events
  `Ticked | Advanced | Finished | Idle` say what it did. Class `Playback` holds
  the state variables as fields. Its `Tick` method applies `Step` in place, and
  `PlayThrough` drives a fresh player with a loop until it signals finish. The
  lemmas prove the invariant "total left = segment left + full durations of the
  later segments". They also prove the case behaviour of one step, and that
  finish comes after exactly Σ durations ticks plus one move per later segment.
  The clock display `FormatTime`, the near-expiry flag `IsAlarming` and the
  next-segment lookup are pure functions with lemmas giving their meaning.
- **Session editor** (`workout_setup.dfy`, module `WorkoutSetup`). Adding,
  removing and updating a segment, loading a preset, the total-time label, and
  the minutes/seconds split used when editing a duration. All of these are
  functions on `Session` values, because the editor always builds a new
  session.
- **Application shell** (`app.dfy`, module `App`). Class `Application`
  holds the screen (`Setup`, `Active`, `Summary`) and the current session. Its
  handlers reassign the screen. The class invariant says that whenever the
  player is shown, the session has at least 5 segments. That is what makes the
  player's read of the first segment safe.

Supporting modules: `types.dfy` has the segment and session shapes and the sum
of durations. `numerals.dfy` has decimal rendering as `toString` and
`padStart` produce it, and the reading-back function `ParseNat` that gives the
rendered text its meaning. `constants.dfy` has the preset catalog.

Four behaviours of the code that the model keeps:

- A segment that reaches zero is moved past even while paused. The zero check
  is not gated on the paused flag.
- A zero-length segment is moved past by another evaluation of the effect. That
  evaluation does not consume a second.
- Pause is a single toggle. There are no separate pause and resume commands.
- Finishing is an event (`Finished`) that changes no counter. It is not a third
  player state. On that event the shell shows the summary, and the player is no
  longer displayed.

## Model

| member | source | states |
|---|---|---|
| `WorkoutActive.Initial` | components/WorkoutActive.tsx:12-17 | The starting state has index 0, the first segment's duration, the sum of all durations as the total, and is not paused. It satisfies the player invariant. The session must be non-empty. |
| `WorkoutActive.Playback.constructor` | components/WorkoutActive.tsx:12-17 | A new player's fields are the initial state, and the invariant holds. |
| `WorkoutActive.Step` | components/WorkoutActive.tsx:21-40 | One evaluation of the countdown effect, defined by its three cases. Its meaning is stated by `TickCountsDown`, `PausedHolds`, `ExhaustedAdvances`, `LastExhaustedFinishes` and `StepKeepsInv`. |
| `WorkoutActive.TickCountsDown` | components/WorkoutActive.tsx:21-26 | Running with time left in the segment: one step is a tick. Both counters drop by exactly 1, and the index and paused flag are unchanged. |
| `WorkoutActive.PausedHolds` | components/WorkoutActive.tsx:21-35 | Paused with time left in the segment: the step changes nothing. |
| `WorkoutActive.ExhaustedAdvances` | components/WorkoutActive.tsx:27-31 | Segment at zero and not the last, paused or not: the index moves to the next segment and that segment's duration is loaded. The total and the paused flag stay the same. |
| `WorkoutActive.LastExhaustedFinishes` | components/WorkoutActive.tsx:27-34 | Last segment at zero: the step signals finish and changes no counter. At that point the total left is 0. |
| `WorkoutActive.StepKeepsInv` | components/WorkoutActive.tsx:13-31 | Every step keeps these true: the index is in range, the segment counter is at least 0, and the total = segment remainder + durations of all later segments. |
| `WorkoutActive.StepProgresses` | components/WorkoutActive.tsx:21-35 | Running and before the end: each step is a tick (the total drops by 1) or a move (the index rises by 1). The invariant holds and the remaining step count drops by 1. |
| `WorkoutActive.EndFinishes` | components/WorkoutActive.tsx:27-34 | With no seconds and no later segments left, the index is the last one, the total is 0, and the next step finishes. |
| `WorkoutActive.RunReachesFinish` | components/WorkoutActive.tsx:21-40 | Termination from any consistent running state: the next total + (later segments) steps are exactly `totalRemaining` ticks and one move per later segment. None of them finishes or idles, and the step after them finishes. |
| `WorkoutActive.RunReachesEnd` | components/WorkoutActive.tsx:21-35 | From any consistent running state, after total + (later segments) steps the player is consistent, at the last segment with 0 s left, and the next step finishes. |
| `WorkoutActive.RunTicks` | components/WorkoutActive.tsx:21-26 | Among those steps, the ticks number exactly `totalRemaining`. |
| `WorkoutActive.RunMoves` | components/WorkoutActive.tsx:27-31 | Among those steps, the moves number exactly one per segment after the current one. |
| `WorkoutActive.RunNeverStops` | components/WorkoutActive.tsx:21-35 | None of those steps finishes or idles. |
| `WorkoutActive.TwoSegmentSession` | components/WorkoutActive.tsx:21-35 | A session of 2 s and 3 s runs as tick, tick, move, tick, tick, tick, and then finish. |
| `WorkoutActive.ZeroDurationSkipped` | components/WorkoutActive.tsx:27-40 | A zero-length segment is entered by a move and left by a move or a finish. Neither consumes a second, and the total is unchanged. |
| `WorkoutActive.PausedRunIsFrozen` | components/WorkoutActive.tsx:21-35 | While paused inside a segment, any number of steps are all idle and leave the state exactly as it was. No second is lost or counted twice across a pause. |
| `WorkoutActive.CountdownWithinSegment` | components/WorkoutActive.tsx:22-26 | Running, the next k ≤ segment-remainder steps are all ticks in the same segment. Each counter drops by k. |
| `WorkoutActive.AlarmLastsToSegmentEnd` | components/WorkoutActive.tsx:51 | Once the alarm is on (0 < left ≤ 5) and the player is running, it stays on the same segment. The alarm stays on until the segment is exhausted, and that takes at most 5 ticks. |
| `WorkoutActive.IsAlarming` | components/WorkoutActive.tsx:51 | The near-expiry test on the segment remainder. Its behaviour over time is stated by `AlarmLastsToSegmentEnd`. |
| `WorkoutActive.Playback.Alarming` | components/WorkoutActive.tsx:51 | The alarm flag holds exactly when 0 < segment remainder ≤ 5. |
| `WorkoutActive.NextSegment` | components/WorkoutActive.tsx:43 | A next segment exists exactly when the index is below the last index, and it is the segment after the current one. |
| `WorkoutActive.NextSegmentIsWhereExhaustionLeads` | components/WorkoutActive.tsx:27-43 | When a segment reaches zero, the step moves to the previewed next segment's full duration if one exists, and finishes if none exists. |
| `WorkoutActive.FormatTime` | components/WorkoutActive.tsx:45-49 | The clock text, two zero-padded fields. Its meaning is stated by `FormatTimeDenotes` and `FormatTimeFiveChars`. |
| `WorkoutActive.FormatTimeDenotes` | components/WorkoutActive.tsx:45-49 | The clock text is MM ":" SS. MM is at least two digits and denotes secs/60. SS is exactly two digits and denotes secs%60, which is below 60. |
| `WorkoutActive.FormatTimeFiveChars` | components/WorkoutActive.tsx:45-49 | Below 6000 seconds the clock text is exactly 5 characters, with ':' in the middle. |
| `WorkoutActive.Playback.Tick` | components/WorkoutActive.tsx:21-40 | The player's new fields and the returned event are exactly one step of the old state. The invariant is kept. |
| `WorkoutActive.Playback.TogglePause` | components/WorkoutActive.tsx:127-131 | The pause button flips the paused flag and changes nothing else. |
| `WorkoutActive.PlayThrough` | components/WorkoutActive.tsx:21-40 | Driving a fresh, unpaused player step by step until it signals finish counts exactly Σ durations ticks and one move per segment after the first. |
| `Numerals.NatToString` | components/WorkoutActive.tsx:48 | `toString` of a whole number: decimal digits with no leading zero; one digit below 10, two digits from 10 to 99. |
| `Numerals.NatToStringRoundTrip` | components/WorkoutActive.tsx:48 | Reading the rendered digits back gives the number. |
| `Numerals.PadStart` | components/WorkoutActive.tsx:48 | `padStart`: the length is max(width, original length), the original string is the suffix, and the fill character comes before it. |
| `Numerals.PaddedNumeral` | components/WorkoutActive.tsx:48 | A zero-padded rendering is all digits, at least the width long, and denotes the same number. |
| `Types.TotalDurationAppend` | components/WorkoutSetup.tsx:50 | The duration sum of a concatenation is the sum of the two sums. |
| `Types.TotalDuration` | components/WorkoutSetup.tsx:50 | The sum of the segment durations, the player's starting total (components/WorkoutActive.tsx:15) and the editor's label total. Its meaning is stated by `TotalDurationAppend`, `StepKeepsInv` and `GetTotalTimeDenotes`. |
| `WorkoutSetup.AddSegment` | components/WorkoutSetup.tsx:14-25 | Exactly one segment is appended: duration 60, speed 3, incline 0, the given id. Earlier segments and their order are unchanged, and so are the session id and name. |
| `WorkoutSetup.AddSegmentEffect` | components/WorkoutSetup.tsx:14-24 | Adding a segment adds exactly 60 s to the session total. With a fresh id, the ids stay distinct. |
| `WorkoutSetup.WithoutId` | components/WorkoutSetup.tsx:31 | The filter keeps exactly the segments whose id differs, and never grows the list. |
| `WorkoutSetup.WithoutIdAppend` | components/WorkoutSetup.tsx:31 | Filtering distributes over concatenation, so the kept segments stay in their original order. |
| `WorkoutSetup.WithoutIdLength` | components/WorkoutSetup.tsx:28-32 | With distinct ids, the filter drops exactly one segment when the id is present and none when it is absent. |
| `WorkoutSetup.WithoutIdKeepsUnique` | components/WorkoutSetup.tsx:31 | Filtering keeps ids distinct. |
| `WorkoutSetup.RemoveSegment` | components/WorkoutSetup.tsx:27-33 | At or below 5 segments the session is returned unchanged. Above 5 the segments are the filtered ones, and the id and name are unchanged. |
| `WorkoutSetup.RemoveSegmentKeepsFloor` | components/WorkoutSetup.tsx:27-33 | With distinct ids, removal drops at most one segment and never takes a session of 5 or more below 5. The ids stay distinct. |
| `WorkoutSetup.Merge` | components/WorkoutSetup.tsx:38 | Merging an update keeps the segment's id. Each field the update carries comes from the update, and each field it omits comes from the segment. |
| `WorkoutSetup.UpdateSegments` | components/WorkoutSetup.tsx:38 | Same length. Each segment with the matching id becomes its merge with the update, and every other segment is unchanged in place. |
| `WorkoutSetup.UpdateSegment` | components/WorkoutSetup.tsx:35-40 | Only the segments change, as the map above. The session id and name are unchanged. |
| `WorkoutSetup.UpdateSegmentKeepsIds` | components/WorkoutSetup.tsx:35-40 | An update keeps the id list, so distinct ids stay distinct. Applying the same update twice equals applying it once. |
| `WorkoutSetup.UpdateSegmentAt` | components/WorkoutSetup.tsx:35-40 | With distinct ids, updating segment i replaces only that segment. The total changes by the difference in its duration. |
| `WorkoutSetup.MinutesOf` | components/WorkoutSetup.tsx:99 | The minutes field of a duration. Its meaning is stated by `SplitRecombines` and `SetMinutesKeepsSeconds`. |
| `WorkoutSetup.SecondsOf` | components/WorkoutSetup.tsx:100 | The seconds field of a duration. Its meaning is stated by `SplitRecombines` and `SetSecondsKeepsMinutes`. |
| `WorkoutSetup.SetMinutes` | components/WorkoutSetup.tsx:109 | The duration after typing the minutes. Its meaning is stated by `SetMinutesKeepsSeconds`. |
| `WorkoutSetup.SetSeconds` | components/WorkoutSetup.tsx:116 | The duration after typing the seconds. Its meaning is stated by `SetSecondsKeepsMinutes`. |
| `WorkoutSetup.SplitRecombines` | components/WorkoutSetup.tsx:99-100 | Minutes × 60 + seconds gives back the duration, and the seconds field is below 60. |
| `WorkoutSetup.SetMinutesKeepsSeconds` | components/WorkoutSetup.tsx:99-109 | Setting the minutes to v gives a duration whose minutes are v and whose seconds are the old seconds. |
| `WorkoutSetup.SetSecondsKeepsMinutes` | components/WorkoutSetup.tsx:99-116 | Setting the seconds to v < 60 gives a duration whose seconds are v and whose minutes are the old minutes. |
| `WorkoutSetup.OnMinutesChange` | components/WorkoutSetup.tsx:107-113 | The minutes field's handler, an update of segment i's duration. Its meaning is stated by `OnMinutesChangeEffect`. |
| `WorkoutSetup.OnSecondsChange` | components/WorkoutSetup.tsx:114-120 | The seconds field's handler, an update of segment i's duration. Its meaning is stated by `OnSecondsChangeEffect`. |
| `WorkoutSetup.OnSpeedChange` | components/WorkoutSetup.tsx:124-131 | The speed field's handler, an update of segment i's speed. Its meaning is stated by `OnSpeedChangeEffect`. |
| `WorkoutSetup.OnInclineChange` | components/WorkoutSetup.tsx:133-140 | The incline field's handler, an update of segment i's incline. Its meaning is stated by `OnInclineChangeEffect`. |
| `WorkoutSetup.OnMinutesChangeEffect` | components/WorkoutSetup.tsx:107-113 | With distinct ids, editing segment i's minutes sets only its minutes. Its seconds, targets and id stay, and so does every other segment. |
| `WorkoutSetup.OnSecondsChangeEffect` | components/WorkoutSetup.tsx:114-120 | With distinct ids, editing segment i's seconds (< 60) sets only its seconds. Its minutes, targets and id stay, and so does every other segment. |
| `WorkoutSetup.OnSpeedChangeEffect` | components/WorkoutSetup.tsx:124-131 | With distinct ids, editing segment i's speed replaces only that segment's speed. Every other field and segment stays, and the session total is unchanged. |
| `WorkoutSetup.OnInclineChangeEffect` | components/WorkoutSetup.tsx:133-140 | With distinct ids, editing segment i's incline replaces only that segment's incline. Every other field and segment stays, and the session total is unchanged. |
| `WorkoutSetup.Rename` | components/WorkoutSetup.tsx:86 | The name field changes only the session name. |
| `WorkoutSetup.FindPreset` | components/WorkoutSetup.tsx:43 | `find` returns nothing exactly when no preset has the id. Otherwise it returns the first preset with that id. |
| `WorkoutSetup.LoadPreset` | components/WorkoutSetup.tsx:42-47 | An unknown id leaves the session unchanged. A known id gives a catalog preset with that id. |
| `WorkoutSetup.LoadPresetSelects` | components/WorkoutSetup.tsx:42-47 | Loading preset i's id gives exactly preset i. The result can be started (at least 5 segments), and its segment ids are distinct. |
| `WorkoutSetup.GetTotalTimeDenotes` | components/WorkoutSetup.tsx:49-54 | The label is X "m " Y "s" in decimal digits with no leading zero, with X×60 + Y = Σ durations and Y < 60. |
| `WorkoutSetup.GetTotalTime` | components/WorkoutSetup.tsx:49-54 | The total-time label. Its meaning is stated by `GetTotalTimeDenotes`. |
| `Constants.HiitLayout` | constants.ts:10-30 | The HIIT preset has 21 segments. Segments 9 to 17 are the ramp: each lasts 30 s at speed 4, with the incline falling from 14 to 6. |
| `Constants.PresetIdsDistinct` | constants.ts:6-43 | Within each preset, the segment ids are distinct. |
| `Constants.PresetsAreStartable` | constants.ts:6-43 | Every preset of the catalog `DefaultSessions` has at least 5 segments, and the preset ids are distinct. |
| `App.Application.constructor` | App.tsx:9-13 | The application starts on the editor with the first preset as the session. |
| `App.Application.SetSession` | App.tsx:33-38 | The session is replaced only while the editor is shown. The invariant is kept. |
| `App.Application.HandleStartWorkout` | App.tsx:15-38 | Called from the editor, so only in Setup. Below 5 segments, start is refused and nothing changes. Otherwise the player is shown. The session is never altered, and whenever the player is shown the session has at least 5 segments. |
| `App.Application.HandleFinishWorkout` | App.tsx:23-47 | Called by the player, so only in Active. Finish shows the summary and leaves the session unchanged. |
| `App.Application.HandleReturnToSetup` | App.tsx:27-47 | Called by the player or the summary, so never in Setup. Cancel or return shows the editor and leaves the session unchanged. |
| `App.Application.MountPlayer` | App.tsx:41-47 | While the player is shown, a player can be built on the current session (the first-segment read is safe), and it starts in its initial state. |
| `App.Application.PlayToSummary` | App.tsx:23-47 | Playing the shown session to its end without pausing ticks Σ durations times and then shows the summary. The session is unchanged. |

## Left out

- Rendering (JSX, styles), the `index.tsx` bootstrap and the summary screen's figures (`App.tsx:50-78`) are not modelled. They are presentation only.
- The progress-bar width (`WorkoutActive.tsx:71`) is not modelled. It is floating-point division.
- Real-time scheduling (`setInterval`, `clearInterval`, effect cleanup) is not modelled. One evaluation of the countdown effect is one atomic `Step`, and the one-second cadence is not represented.
- `Math.random` ids are not modelled. A new segment's id is a parameter, and the preset segments carry fixed, distinct placeholder ids.
- The `alert` on a refused start is not modelled. The refusal is the `started == false` result.
- The `JSON.parse(JSON.stringify(...))` copies are not modelled. Dafny datatypes are values, so a copy is the same value and can never alias the catalog.
- `components/NumberInput.tsx` is not part of this model, and neither is its [min, max] clamp (`MAX_SPEED`, `MAX_INCLINE`, the 99 and 59 caps). Minutes and seconds reach the handlers as whole numbers (`nat`), and speed and incline as any `real`, negative or fractional included. Every handler accepts any such value. Non-numeric input is not modelled.
- Durations are `nat`, so whole seconds only. The source does not enforce this: the input passes on `parseFloat`'s value (NumberInput.tsx:40-44), so typing "0.5" in the seconds field stores `mins * 60 + 0.5` (WorkoutSetup.tsx:116). With such a duration the player's segment counter goes 0.5, then -0.5. After that neither the tick branch (`> 0`, WorkoutActive.tsx:22) nor the advance branch (`=== 0`, WorkoutActive.tsx:27) fires, so `onFinish` is never called and the player stays on that segment forever. The termination results `RunReachesFinish`, `StepProgresses` and `PlayThrough` hold only because durations are whole numbers.
- Speed and incline are `real`. JavaScript floating-point behaviour is not modelled.
- A `Partial<Segment>` update could also carry an `id`. No caller passes one, so `SegmentUpdate` has only duration, speed and incline.
- WorkoutSetup.RemoveSegmentKeepsFloor: proved only for sessions with distinct segment ids. The source relies on random ids never colliding; with duplicate ids, one removal can drop several segments.
- WorkoutSetup.WithoutIdLength: proved only for distinct ids, for the same reason.
- WorkoutSetup.UpdateSegmentAt: proved only for distinct ids. With duplicates, every segment sharing the id is updated.
- WorkoutSetup.OnMinutesChangeEffect: proved only for distinct ids, for the same reason.
- WorkoutSetup.OnSecondsChangeEffect: proved only for distinct ids and a value below 60. The source's seconds field is capped at 59.
- WorkoutSetup.OnSpeedChangeEffect: proved only for distinct ids. With duplicates, every segment sharing the id gets the new speed.
- WorkoutSetup.OnInclineChangeEffect: proved only for distinct ids. With duplicates, every segment sharing the id gets the new incline.
- WorkoutSetup.SetSecondsKeepsMinutes: proved only for values below 60. That is the seconds field's cap.
- WorkoutActive.FormatTimeFiveChars: proved only below 6000 seconds. From 100 minutes on, the minutes part has more than two digits, as follows from `FormatTimeDenotes` (MM denotes secs/60).

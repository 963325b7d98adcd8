/** The application shell: which screen is shown (`appState`) and the
    session being edited or played (`currentSession`). The editor can change
    the session only while it is shown, and the player is shown only after the
    guarded start, so the player always receives a session with at least the
    minimum number of segments, never an empty one. */
module App {
  import opened Types
  import Constants
  import WorkoutActive

  class Application {
    var appState: AppState
    var currentSession: Session

    /** Whenever the player is shown, the session can be played. */
    ghost predicate Valid()
      reads this
    {
      appState == Active ==> |currentSession.segments| >= MinSegments
    }

    /** Starts on the editor with (a copy of) the first preset. */
    constructor ()
      ensures Valid()
      ensures appState == Setup
      ensures currentSession == Constants.DefaultSessions[0]
    {
      appState := Setup;
      currentSession := Constants.DefaultSessions[0];
    }

    /** `setSession`, handed to the editor, which is mounted only in Setup. */
    method SetSession(s: Session)
      requires Valid() && appState == Setup
      modifies this
      ensures Valid()
      ensures appState == Setup && currentSession == s
    {
      currentSession := s;
    }

    /** `handleStartWorkout`, the editor's `onStart` (so called only in Setup):
        refused (with an alert) below the minimum number of segments, otherwise
        the player is shown. */
    method HandleStartWorkout() returns (started: bool)
      requires Valid() && appState == Setup
      modifies this
      ensures Valid()
      ensures currentSession == old(currentSession)
      ensures started <==> |currentSession.segments| >= MinSegments
      ensures appState == if started then Active else Setup
    {
      if |currentSession.segments| < MinSegments {
        started := false;
        return;
      }
      started := true;
      appState := Active;
    }

    /** `handleFinishWorkout`, the player's `onFinish` (so called only in
        Active): show the summary. */
    method HandleFinishWorkout()
      requires Valid() && appState == Active
      modifies this
      ensures Valid()
      ensures appState == Summary && currentSession == old(currentSession)
    {
      appState := Summary;
    }

    /** `handleReturnToSetup`, the player's `onCancel` and the summary's button
        (so called in Active or Summary): back to the editor. */
    method HandleReturnToSetup()
      requires Valid() && appState != Setup
      modifies this
      ensures Valid()
      ensures appState == Setup && currentSession == old(currentSession)
    {
      appState := Setup;
    }

    /** Mounting the player: the guard makes reading the first segment safe. */
    method MountPlayer() returns (p: WorkoutActive.Playback)
      requires Valid() && appState == Active
      ensures fresh(p) && p.Valid()
      ensures p.segments == currentSession.segments
      ensures p.State() == WorkoutActive.Initial(currentSession.segments)
    {
      p := new WorkoutActive.Playback(currentSession.segments);
    }

    /** Playing the session to its end without pausing, then showing the
        summary: the player ticks once per second of the session. */
    method PlayToSummary() returns (ticks: nat)
      requires Valid() && appState == Active
      modifies this
      ensures Valid()
      ensures appState == Summary && currentSession == old(currentSession)
      ensures ticks == TotalDuration(currentSession.segments)
    {
      var advances;
      ticks, advances := WorkoutActive.PlayThrough(currentSession.segments);
      HandleFinishWorkout();
    }
  }
}

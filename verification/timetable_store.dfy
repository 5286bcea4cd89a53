/**
 The playback clock: the current time of day in seconds, kept on a 24-hour dial, and
 whether and how fast it runs. Times here are reals, because the animation advances
 the clock by fractions of a second.
 */
module TimetableStore {
  import opened Wrappers
  import opened GtfsTypes
  import opened DayClock

  /** 08:00. */
  const DefaultTime: real := 8.0 * 3600.0

  datatype TimetableState = TimetableState(
    currentTimeSeconds: real,
    isPlaying: bool,
    playbackSpeed: real,
    selectedTripId: Option<string>,
    vehiclePositions: seq<VehiclePosition>)

  // ---------------------------------------------------------------------------
  // The store
  // ---------------------------------------------------------------------------

  /** The state the store starts in. */
  const Initial: TimetableState := TimetableState(DefaultTime, false, 1.0, None, [])

  /** The clock shows a time of day. */
  predicate OnDial(s: TimetableState) {
    0.0 <= s.currentTimeSeconds < DayLength
  }

  /** The store starts at 08:00 on the dial, paused, at normal speed, with nothing selected or drawn. */
  lemma InitialState()
    ensures OnDial(Initial) && Initial.currentTimeSeconds == 8.0 * 3600.0
    ensures !Initial.isPlaying && Initial.playbackSpeed == 1.0
    ensures Initial.selectedTripId.None? && Initial.vehiclePositions == []
  {
  }

  /** Jumps to a time of day; any number is accepted and brought onto the dial. */
  function SetCurrentTime(s: TimetableState, seconds: real): (t: TimetableState)
    ensures OnDial(t)
    ensures t.currentTimeSeconds == FloorMod(seconds)
    ensures 0.0 <= seconds < DayLength ==> t.currentTimeSeconds == seconds
    ensures t == s.(currentTimeSeconds := t.currentTimeSeconds)
  {
    WrapIsFloorMod(seconds);
    s.(currentTimeSeconds := Wrap(seconds))
  }

  /**
   Advances the clock by `delta` seconds of playback at the current speed, around the
   dial: the same as jumping to the time so reached.
   */
  function IncrementTime(s: TimetableState, delta: real): (t: TimetableState)
    ensures OnDial(t)
    ensures t.currentTimeSeconds == FloorMod(s.currentTimeSeconds + delta * s.playbackSpeed)
    ensures t == s.(currentTimeSeconds := t.currentTimeSeconds)
  {
    SetCurrentTime(s, s.currentTimeSeconds + delta * s.playbackSpeed)
  }

  /** Advancing by nothing leaves a clock on the dial where it is. */
  lemma IncrementByZero(s: TimetableState)
    requires OnDial(s)
    ensures IncrementTime(s, 0.0) == s
  {
  }

  /** Starts or pauses playback and nothing else; doing it twice changes nothing. */
  function TogglePlayback(s: TimetableState): (t: TimetableState)
    ensures t.isPlaying != s.isPlaying
    ensures t == s.(isPlaying := t.isPlaying)
  {
    s.(isPlaying := !s.isPlaying)
  }

  lemma TogglePlaybackTwice(s: TimetableState)
    ensures TogglePlayback(TogglePlayback(s)) == s
  {
  }

  /** The remaining actions set one field each. */
  datatype Action =
    | SetCurrentTimeTo(seconds: real)
    | SetIsPlaying(playing: bool)
    | Toggle
    | SetPlaybackSpeed(speed: real)
    | SetSelectedTrip(tripId: Option<string>)
    | SetVehiclePositions(positions: seq<VehiclePosition>)
    | Increment(delta: real)

  function Step(s: TimetableState, a: Action): TimetableState {
    match a
    case SetCurrentTimeTo(seconds) => SetCurrentTime(s, seconds)
    case SetIsPlaying(playing) => s.(isPlaying := playing)
    case Toggle => TogglePlayback(s)
    case SetPlaybackSpeed(speed) => s.(playbackSpeed := speed)
    case SetSelectedTrip(tripId) => s.(selectedTripId := tripId)
    case SetVehiclePositions(positions) => s.(vehiclePositions := positions)
    case Increment(delta) => IncrementTime(s, delta)
  }

  function Run(s: TimetableState, actions: seq<Action>): TimetableState
    decreases |actions|
  {
    if |actions| == 0 then s else Run(Step(s, actions[0]), actions[1..])
  }

  /** Whatever the store is asked to do, starting from its initial state, its clock stays on the 24-hour dial. */
  lemma {:induction false} ClockStaysOnDial(s: TimetableState, actions: seq<Action>)
    requires OnDial(s)
    ensures OnDial(Run(s, actions))
    decreases |actions|
  {
    if |actions| > 0 {
      ClockStaysOnDial(Step(s, actions[0]), actions[1..]);
    }
  }

  lemma AlwaysOnDial(actions: seq<Action>)
    ensures OnDial(Run(Initial, actions))
  {
    ClockStaysOnDial(Initial, actions);
  }
}

/**
 The marker settings: icon, size and colour of the vehicle, stop and terminal markers
 and the width of route lines. Sizes are kept within 0.5 to 4 times the default and
 the line width within 1 to 15; only the markers are persisted, and on loading they
 are laid over the defaults field by field.
 */
module SettingsStore {
  import opened Wrappers

  datatype VehicleIcon = Car | Bus | Minibus | Arrow
  datatype StopIcon = Circle | Square | Diamond | Pin
  datatype TerminalIcon = TerminalCircle | TerminalSquare | TerminalDiamond | TerminalPin | Flag | Star

  datatype MarkerSettings = MarkerSettings(
    vehicleIcon: VehicleIcon,
    vehicleSize: real,
    stopIcon: StopIcon,
    stopSize: real,
    originIcon: TerminalIcon,
    originSize: real,
    originColor: string,
    destinationIcon: TerminalIcon,
    destinationSize: real,
    destinationColor: string,
    routeLineWidth: real)

  datatype SettingsState = SettingsState(markers: MarkerSettings, settingsPanelOpen: bool)

  const DefaultMarkers := MarkerSettings(Car, 1.0, Circle, 1.0, TerminalCircle, 1.0, "#27ae60", TerminalPin, 1.0, "#e74c3c", 3.0)

  const Initial := SettingsState(DefaultMarkers, false)

  const MinSize: real := 0.5
  const MaxSize: real := 4.0
  const MinWidth: real := 1.0
  const MaxWidth: real := 15.0

  // ---------------------------------------------------------------------------
  // Clamping
  // ---------------------------------------------------------------------------

  /** `Math.max(lo, Math.min(hi, x))`. */
  function Clamp(lo: real, hi: real, x: real): (r: real)
    requires lo <= hi
    ensures lo <= r <= hi
    ensures lo <= x <= hi ==> r == x
    ensures x < lo ==> r == lo
    ensures x > hi ==> r == hi
  {
    var below := if hi <= x then hi else x;
    if lo >= below then lo else below
  }

  /** Clamping twice is clamping once. */
  lemma ClampIdempotent(lo: real, hi: real, x: real)
    requires lo <= hi
    ensures Clamp(lo, hi, Clamp(lo, hi, x)) == Clamp(lo, hi, x)
  {
  }

  /** Clamping keeps order: a larger request never gives a smaller marker. */
  lemma ClampMonotone(lo: real, hi: real, x: real, y: real)
    requires lo <= hi && x <= y
    ensures Clamp(lo, hi, x) <= Clamp(lo, hi, y)
  {
  }

  // ---------------------------------------------------------------------------
  // The setters
  // ---------------------------------------------------------------------------

  /** The four markers that have a size. */
  datatype Marker = VehicleMarker | StopMarker | OriginMarker | DestinationMarker

  function SizeOf(m: MarkerSettings, k: Marker): real {
    match k
    case VehicleMarker => m.vehicleSize
    case StopMarker => m.stopSize
    case OriginMarker => m.originSize
    case DestinationMarker => m.destinationSize
  }

  function WithSize(m: MarkerSettings, k: Marker, v: real): (r: MarkerSettings)
    ensures SizeOf(r, k) == v
    ensures forall j :: j != k ==> SizeOf(r, j) == SizeOf(m, j)
  {
    match k
    case VehicleMarker => m.(vehicleSize := v)
    case StopMarker => m.(stopSize := v)
    case OriginMarker => m.(originSize := v)
    case DestinationMarker => m.(destinationSize := v)
  }

  /**
   `setVehicleSize`, `setStopSize`, `setOriginSize`, `setDestinationSize`: the size of
   that one marker becomes the request brought into range; nothing else changes.
   */
  function SetSize(s: SettingsState, k: Marker, size: real): (t: SettingsState)
    ensures MinSize <= SizeOf(t.markers, k) <= MaxSize
    ensures MinSize <= size <= MaxSize ==> SizeOf(t.markers, k) == size
    ensures t == SettingsState(WithSize(s.markers, k, SizeOf(t.markers, k)), s.settingsPanelOpen)
  {
    SettingsState(WithSize(s.markers, k, Clamp(MinSize, MaxSize, size)), s.settingsPanelOpen)
  }

  /** `setRouteLineWidth`: the width becomes the request brought into range; nothing else changes. */
  function SetRouteLineWidth(s: SettingsState, width: real): (t: SettingsState)
    ensures MinWidth <= t.markers.routeLineWidth <= MaxWidth
    ensures MinWidth <= width <= MaxWidth ==> t.markers.routeLineWidth == width
    ensures t == s.(markers := s.markers.(routeLineWidth := t.markers.routeLineWidth))
  {
    s.(markers := s.markers.(routeLineWidth := Clamp(MinWidth, MaxWidth, width)))
  }

  /** Asking for the size a marker already has, when it is in range, changes nothing. */
  lemma SetSizeKeepsCurrent(s: SettingsState, k: Marker)
    requires MinSize <= SizeOf(s.markers, k) <= MaxSize
    ensures SetSize(s, k, SizeOf(s.markers, k)) == s
  {
    var m := s.markers;
    match k
    case VehicleMarker => assert WithSize(m, k, m.vehicleSize) == m;
    case StopMarker => assert WithSize(m, k, m.stopSize) == m;
    case OriginMarker => assert WithSize(m, k, m.originSize) == m;
    case DestinationMarker => assert WithSize(m, k, m.destinationSize) == m;
  }

  /** The panel opens and closes; the markers stay. */
  function ToggleSettingsPanel(s: SettingsState): (t: SettingsState)
    ensures t.settingsPanelOpen != s.settingsPanelOpen && t.markers == s.markers
  {
    s.(settingsPanelOpen := !s.settingsPanelOpen)
  }

  lemma ToggleSettingsPanelTwice(s: SettingsState)
    ensures ToggleSettingsPanel(ToggleSettingsPanel(s)) == s
  {
  }

  /** `resetToDefaults`: the markers return to those the store starts with; the panel stays as it is. */
  function ResetToDefaults(s: SettingsState): (t: SettingsState)
    ensures Valid(t.markers)
    ensures t == Initial.(settingsPanelOpen := s.settingsPanelOpen)
  {
    s.(markers := DefaultMarkers)
  }

  /** Resetting forgets every earlier change: after a reset, what was set before no longer matters, and resetting again changes nothing. */
  lemma ResetForgets(s: SettingsState, a: Action)
    requires !a.TogglePanel?
    ensures ResetToDefaults(Step(s, a)) == ResetToDefaults(s)
    ensures ResetToDefaults(ResetToDefaults(s)) == ResetToDefaults(s)
  {
  }

  /** Every action of the store. */
  datatype Action =
    | SetVehicleIcon(vehicleIcon: VehicleIcon)
    | SetStopIcon(stopIcon: StopIcon)
    | SetOriginIcon(originIcon: TerminalIcon)
    | SetDestinationIcon(destinationIcon: TerminalIcon)
    | SetOriginColor(originColor: string)
    | SetDestinationColor(destinationColor: string)
    | SetMarkerSize(marker: Marker, size: real)
    | SetLineWidth(width: real)
    | TogglePanel
    | Reset

  function Step(s: SettingsState, a: Action): SettingsState {
    match a
    case SetVehicleIcon(icon) => s.(markers := s.markers.(vehicleIcon := icon))
    case SetStopIcon(icon) => s.(markers := s.markers.(stopIcon := icon))
    case SetOriginIcon(icon) => s.(markers := s.markers.(originIcon := icon))
    case SetDestinationIcon(icon) => s.(markers := s.markers.(destinationIcon := icon))
    case SetOriginColor(color) => s.(markers := s.markers.(originColor := color))
    case SetDestinationColor(color) => s.(markers := s.markers.(destinationColor := color))
    case SetMarkerSize(k, size) => SetSize(s, k, size)
    case SetLineWidth(width) => SetRouteLineWidth(s, width)
    case TogglePanel => ToggleSettingsPanel(s)
    case Reset => ResetToDefaults(s)
  }

  /** Only the panel toggle opens or closes the panel. */
  lemma OnlyToggleMovesPanel(s: SettingsState, a: Action)
    ensures Step(s, a).settingsPanelOpen != s.settingsPanelOpen <==> a.TogglePanel?
  {
  }

  // ---------------------------------------------------------------------------
  // The range invariant
  // ---------------------------------------------------------------------------

  /** Every size and the line width lie in their ranges. */
  predicate Valid(m: MarkerSettings) {
    && MinSize <= m.vehicleSize <= MaxSize
    && MinSize <= m.stopSize <= MaxSize
    && MinSize <= m.originSize <= MaxSize
    && MinSize <= m.destinationSize <= MaxSize
    && MinWidth <= m.routeLineWidth <= MaxWidth
  }

  lemma ValidBySize(m: MarkerSettings)
    ensures Valid(m) <==> (forall k :: MinSize <= SizeOf(m, k) <= MaxSize) && MinWidth <= m.routeLineWidth <= MaxWidth
  {
    if forall k :: MinSize <= SizeOf(m, k) <= MaxSize {
      assert SizeOf(m, VehicleMarker) == m.vehicleSize;
      assert SizeOf(m, StopMarker) == m.stopSize;
      assert SizeOf(m, OriginMarker) == m.originSize;
      assert SizeOf(m, DestinationMarker) == m.destinationSize;
    }
  }

  /** No action moves a size or the width out of range. */
  lemma StepKeepsValid(s: SettingsState, a: Action)
    requires Valid(s.markers)
    ensures Valid(Step(s, a).markers)
  {
    if a.SetMarkerSize? {
      var t := Step(s, a);
      ValidBySize(s.markers);
      ValidBySize(t.markers);
    }
  }

  function Run(s: SettingsState, actions: seq<Action>): SettingsState
    decreases |actions|
  {
    if |actions| == 0 then s else Run(Step(s, actions[0]), actions[1..])
  }

  /** From the defaults, whatever the user does, every size and the width stay in range. */
  lemma {:induction false} AlwaysValid(s: SettingsState, actions: seq<Action>)
    requires Valid(s.markers)
    ensures Valid(Run(s, actions).markers)
    decreases |actions|
  {
    if |actions| > 0 {
      StepKeepsValid(s, actions[0]);
      AlwaysValid(Step(s, actions[0]), actions[1..]);
    }
  }

  // ---------------------------------------------------------------------------
  // Persistence
  // ---------------------------------------------------------------------------

  /** Stored markers: any field may be missing. */
  datatype PartialMarkers = PartialMarkers(
    vehicleIcon: Option<VehicleIcon>,
    vehicleSize: Option<real>,
    stopIcon: Option<StopIcon>,
    stopSize: Option<real>,
    originIcon: Option<TerminalIcon>,
    originSize: Option<real>,
    originColor: Option<string>,
    destinationIcon: Option<TerminalIcon>,
    destinationSize: Option<real>,
    destinationColor: Option<string>,
    routeLineWidth: Option<real>)

  /** What storage holds: nothing at all, or a record whose markers may be missing. */
  datatype Persisted = Persisted(markers: Option<PartialMarkers>)

  /** `partialize`: only the markers are stored, all of them. */
  function Partialize(s: SettingsState): (p: Persisted)
    ensures p.markers.Some?
  {
    var m := s.markers;
    Persisted(Some(PartialMarkers(
      Some(m.vehicleIcon), Some(m.vehicleSize), Some(m.stopIcon), Some(m.stopSize),
      Some(m.originIcon), Some(m.originSize), Some(m.originColor),
      Some(m.destinationIcon), Some(m.destinationSize), Some(m.destinationColor),
      Some(m.routeLineWidth))))
  }

  /** `{ ...defaults, ...partial }`: a stored field wins, a missing one keeps the default. */
  function Overlay(d: MarkerSettings, p: PartialMarkers): MarkerSettings {
    MarkerSettings(
      p.vehicleIcon.GetOr(d.vehicleIcon), p.vehicleSize.GetOr(d.vehicleSize),
      p.stopIcon.GetOr(d.stopIcon), p.stopSize.GetOr(d.stopSize),
      p.originIcon.GetOr(d.originIcon), p.originSize.GetOr(d.originSize), p.originColor.GetOr(d.originColor),
      p.destinationIcon.GetOr(d.destinationIcon), p.destinationSize.GetOr(d.destinationSize),
      p.destinationColor.GetOr(d.destinationColor), p.routeLineWidth.GetOr(d.routeLineWidth))
  }

  const NothingStored := PartialMarkers(None, None, None, None, None, None, None, None, None, None, None)

  /** Each field of `m` is the stored one when it was stored, and the default one otherwise. */
  ghost predicate StoredOverDefaults(d: MarkerSettings, p: PartialMarkers, m: MarkerSettings) {
    && (if p.vehicleIcon.Some? then m.vehicleIcon == p.vehicleIcon.value else m.vehicleIcon == d.vehicleIcon)
    && (if p.vehicleSize.Some? then m.vehicleSize == p.vehicleSize.value else m.vehicleSize == d.vehicleSize)
    && (if p.stopIcon.Some? then m.stopIcon == p.stopIcon.value else m.stopIcon == d.stopIcon)
    && (if p.stopSize.Some? then m.stopSize == p.stopSize.value else m.stopSize == d.stopSize)
    && (if p.originIcon.Some? then m.originIcon == p.originIcon.value else m.originIcon == d.originIcon)
    && (if p.originSize.Some? then m.originSize == p.originSize.value else m.originSize == d.originSize)
    && (if p.originColor.Some? then m.originColor == p.originColor.value else m.originColor == d.originColor)
    && (if p.destinationIcon.Some? then m.destinationIcon == p.destinationIcon.value else m.destinationIcon == d.destinationIcon)
    && (if p.destinationSize.Some? then m.destinationSize == p.destinationSize.value else m.destinationSize == d.destinationSize)
    && (if p.destinationColor.Some? then m.destinationColor == p.destinationColor.value else m.destinationColor == d.destinationColor)
    && (if p.routeLineWidth.Some? then m.routeLineWidth == p.routeLineWidth.value else m.routeLineWidth == d.routeLineWidth)
  }

  /**
   `merge`: the current state with its markers replaced by the defaults overridden by
   whatever was stored; with nothing stored, the defaults.
   */
  function Merge(persisted: Option<Persisted>, current: SettingsState): (t: SettingsState)
    ensures t.settingsPanelOpen == current.settingsPanelOpen
    ensures (persisted.None? || persisted.value.markers.None?) ==> t.markers == DefaultMarkers
    ensures persisted.Some? && persisted.value.markers.Some? ==>
      StoredOverDefaults(DefaultMarkers, persisted.value.markers.value, t.markers)
  {
    var stored := if persisted.Some? && persisted.value.markers.Some? then persisted.value.markers.value else NothingStored;
    current.(markers := Overlay(DefaultMarkers, stored))
  }

  /** Storing the settings and loading them back restores the markers, whatever state the page started in. */
  lemma PersistRoundTrip(s: SettingsState, loaded: SettingsState)
    ensures Merge(Some(Partialize(s)), loaded) == loaded.(markers := s.markers)
  {
  }

  /** Loading keeps sizes in range when the stored ones are; the stored values are not clamped again. */
  lemma MergeValid(persisted: Option<Persisted>, current: SettingsState)
    requires persisted.Some? && persisted.value.markers.Some? ==>
      Valid(Overlay(DefaultMarkers, persisted.value.markers.value))
    ensures Valid(Merge(persisted, current).markers)
  {
  }

  /** A stored size out of range survives loading: the merge does not clamp. */
  lemma MergeDoesNotClamp(current: SettingsState)
    ensures var p := NothingStored.(vehicleSize := Some(10.0));
      !Valid(Merge(Some(Persisted(Some(p))), current).markers)
  {
  }
}

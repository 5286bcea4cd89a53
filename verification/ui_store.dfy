/**
 The interface state: which panels and map layers show, and which routes, route
 types, trips and stop the user has picked. Picking toggles membership of one id in
 one selection set.
 */
module UiStore {
  import opened Wrappers

  datatype LayerVisibility = LayerVisibility(stops: bool, shapes: bool, vehicles: bool, stopArrows: bool)

  /** The keys of `LayerVisibility`. */
  datatype Layer = StopsLayer | ShapesLayer | VehiclesLayer | StopArrowsLayer

  datatype UiState = UiState(
    sidebarOpen: bool,
    layerVisibility: LayerVisibility,
    selectedRouteIds: set<string>,
    selectedRouteTypes: set<int>,
    selectedTripIds: set<string>,
    expandedRouteId: Option<string>,
    selectedStopId: Option<string>,
    searchQuery: string)

  const Initial := UiState(true, LayerVisibility(true, true, true, false), {}, {}, {}, None, None, "")

  /** The sidebar is open, every layer but the stop arrows shows, and nothing is selected, expanded or searched. */
  lemma InitialState()
    ensures Initial.sidebarOpen
    ensures forall l :: Visible(Initial.layerVisibility, l) <==> l != StopArrowsLayer
    ensures Initial.selectedRouteIds == {} && Initial.selectedRouteTypes == {} && Initial.selectedTripIds == {}
    ensures Initial.expandedRouteId.None? && Initial.selectedStopId.None? && Initial.searchQuery == ""
  {
  }

  // ---------------------------------------------------------------------------
  // Toggling membership
  // ---------------------------------------------------------------------------

  /** A copy of the set with `x` removed when it was there and added when it was not. */
  function Toggle<T(!new)>(s: set<T>, x: T): (r: set<T>)
    ensures x in r <==> x !in s
    ensures forall y :: y != x ==> (y in r <==> y in s)
  {
    if x in s then s - {x} else s + {x}
  }

  /** Toggling the same id twice gives the selection back. */
  lemma ToggleTwice<T(!new)>(s: set<T>, x: T)
    ensures Toggle(Toggle(s, x), x) == s
  {
  }

  /** Toggles of different ids do not interfere: their order does not matter. */
  lemma ToggleCommutes<T(!new)>(s: set<T>, x: T, y: T)
    ensures Toggle(Toggle(s, x), y) == Toggle(Toggle(s, y), x)
  {
  }

  /** `toggleRouteSelection`: flips one route; the trip selection is left to the caller. */
  function ToggleRouteSelection(s: UiState, routeId: string): (t: UiState)
    ensures forall r :: r in t.selectedRouteIds <==> (r in s.selectedRouteIds <==> r != routeId)
    ensures t == s.(selectedRouteIds := t.selectedRouteIds)
  {
    s.(selectedRouteIds := Toggle(s.selectedRouteIds, routeId))
  }

  /** `toggleRouteType`: flips one route type in the filter and nothing else. */
  function ToggleRouteType(s: UiState, routeType: int): (t: UiState)
    ensures forall r :: r in t.selectedRouteTypes <==> (r in s.selectedRouteTypes <==> r != routeType)
    ensures t == s.(selectedRouteTypes := t.selectedRouteTypes)
  {
    s.(selectedRouteTypes := Toggle(s.selectedRouteTypes, routeType))
  }

  /** `toggleTripSelection`: flips one trip and nothing else. */
  function ToggleTripSelection(s: UiState, tripId: string): (t: UiState)
    ensures forall r :: r in t.selectedTripIds <==> (r in s.selectedTripIds <==> r != tripId)
    ensures t == s.(selectedTripIds := t.selectedTripIds)
  {
    s.(selectedTripIds := Toggle(s.selectedTripIds, tripId))
  }

  /** Each of the three toggles, applied twice with the same id, restores the state. */
  lemma TogglesUndo(s: UiState, routeId: string, routeType: int, tripId: string)
    ensures ToggleRouteSelection(ToggleRouteSelection(s, routeId), routeId) == s
    ensures ToggleRouteType(ToggleRouteType(s, routeType), routeType) == s
    ensures ToggleTripSelection(ToggleTripSelection(s, tripId), tripId) == s
  {
    ToggleTwice(s.selectedRouteIds, routeId);
    ToggleTwice(s.selectedRouteTypes, routeType);
    ToggleTwice(s.selectedTripIds, tripId);
  }

  // ---------------------------------------------------------------------------
  // Clearing
  // ---------------------------------------------------------------------------

  /** `clearRouteSelection`: no route and no trip stays selected; everything else stays. */
  function ClearRouteSelection(s: UiState): (t: UiState)
    ensures forall r :: r !in t.selectedRouteIds && r !in t.selectedTripIds
    ensures t == s.(selectedRouteIds := t.selectedRouteIds, selectedTripIds := t.selectedTripIds)
  {
    s.(selectedRouteIds := {}, selectedTripIds := {})
  }

  /** `clearRouteTypeFilter`: the route type filter empties; the selections stay. */
  function ClearRouteTypeFilter(s: UiState): (t: UiState)
    ensures forall r :: r !in t.selectedRouteTypes
    ensures t == s.(selectedRouteTypes := t.selectedRouteTypes)
  {
    s.(selectedRouteTypes := {})
  }

  /** `clearTripSelection`: no trip stays selected; the routes stay. */
  function ClearTripSelection(s: UiState): (t: UiState)
    ensures forall r :: r !in t.selectedTripIds
    ensures t == s.(selectedTripIds := t.selectedTripIds)
  {
    s.(selectedTripIds := {})
  }

  /** After clearing, toggling a route selects exactly that route. */
  lemma ClearThenToggle(s: UiState, routeId: string)
    ensures ToggleRouteSelection(ClearRouteSelection(s), routeId).selectedRouteIds == {routeId}
  {
  }

  // ---------------------------------------------------------------------------
  // Layers and the rest
  // ---------------------------------------------------------------------------

  function Visible(v: LayerVisibility, l: Layer): bool {
    match l
    case StopsLayer => v.stops
    case ShapesLayer => v.shapes
    case VehiclesLayer => v.vehicles
    case StopArrowsLayer => v.stopArrows
  }

  /** `setLayerVisibility`: shows or hides one layer; the other layers and everything else stay. */
  function SetLayerVisibility(s: UiState, layer: Layer, visible: bool): (t: UiState)
    ensures Visible(t.layerVisibility, layer) == visible
    ensures forall l :: l != layer ==> Visible(t.layerVisibility, l) == Visible(s.layerVisibility, l)
    ensures t == s.(layerVisibility := t.layerVisibility)
  {
    var v := s.layerVisibility;
    var w := match layer
      case StopsLayer => v.(stops := visible)
      case ShapesLayer => v.(shapes := visible)
      case VehiclesLayer => v.(vehicles := visible)
      case StopArrowsLayer => v.(stopArrows := visible);
    s.(layerVisibility := w)
  }

  /** Visibility is all a layer record holds: two records agreeing on every layer are the same. */
  lemma LayersDetermineVisibility(v: LayerVisibility, w: LayerVisibility)
    requires forall l :: Visible(v, l) == Visible(w, l)
    ensures v == w
  {
    assert Visible(v, StopsLayer) == Visible(w, StopsLayer);
    assert Visible(v, ShapesLayer) == Visible(w, ShapesLayer);
    assert Visible(v, VehiclesLayer) == Visible(w, VehiclesLayer);
    assert Visible(v, StopArrowsLayer) == Visible(w, StopArrowsLayer);
  }

  /** Setting a layer to what it already shows changes nothing. */
  lemma SetLayerVisibilityKeepsCurrent(s: UiState, layer: Layer)
    ensures SetLayerVisibility(s, layer, Visible(s.layerVisibility, layer)) == s
  {
    var t := SetLayerVisibility(s, layer, Visible(s.layerVisibility, layer));
    LayersDetermineVisibility(t.layerVisibility, s.layerVisibility);
  }

  /** `toggleSidebar`: opens or closes the sidebar and nothing else. */
  function ToggleSidebar(s: UiState): (t: UiState)
    ensures t.sidebarOpen != s.sidebarOpen
    ensures t == s.(sidebarOpen := t.sidebarOpen)
  {
    s.(sidebarOpen := !s.sidebarOpen)
  }

  lemma ToggleSidebarTwice(s: UiState)
    ensures ToggleSidebar(ToggleSidebar(s)) == s
  {
  }
}

/** The persisted appearance and behaviour settings. They ride along in the
    store; no tab action reads them. */
module Look {
  import opened Lists
  import Dock

  datatype ThemeMode = Light | Dark
  datatype Density = Compact | Comfortable | Spacious
  datatype FleetView = Tiles | Mini | Rows
  datatype StartupScope = LatestView | LatestCluster | Fleet
  datatype RailMode = Auto | Pinned | Collapsed

  datatype Settings = Settings(
    refreshSec: int, confirmDestructive: bool, showSystemNs: bool, density: Density, monoTables: bool,
    refreshOnLaunch: bool, uiScale: real, fleetView: FleetView, darkConsole: bool, startupScope: StartupScope,
    shortenClusterNames: bool, groupFleetByProject: bool)

  datatype UpdateState = UpdateState(
    lastKnownVersion: Option<string>, lastSeenVersion: Option<string>, lastCheckAt: int, autoCheckEnabled: bool)

  datatype Look = Look(
    themeId: string, paletteId: string, themeMode: ThemeMode, themeOverrides: Option<map<string, string>>,
    railMode: RailMode, dockSize: Dock.PerPlacement<Option<int>>, settings: Settings, updateState: UpdateState)

  const DEFAULT_ID := "default"

  const INITIAL_LOOK := Look(
    DEFAULT_ID, DEFAULT_ID, Dark, None, Auto, Dock.PerPlacement(None, None),
    Settings(15, true, false, Comfortable, true, true, UI_SCALE_DEFAULT, Tiles, true, LatestView, true, true),
    UpdateState(None, None, 0, true))

  const UI_SCALE_MIN := 0.7
  const UI_SCALE_MAX := 1.5
  const UI_SCALE_STEP := 0.05
  const UI_SCALE_DEFAULT := 1.0

  /** `Math.round`: halves round up. */
  function Round(v: real): int {
    (v + 0.5).Floor
  }

  /** Snap to the step grid inside the allowed range (over exact reals). */
  function ClampUiScale(v: real): real {
    if v < UI_SCALE_MIN then UI_SCALE_MIN
    else if v > UI_SCALE_MAX then UI_SCALE_MAX
    else Round(v / UI_SCALE_STEP) as real * UI_SCALE_STEP
  }

  lemma RoundMonotone(v: real, lo: int, hi: int)
    requires lo as real <= v <= hi as real
    ensures lo <= Round(v) <= hi
    ensures -0.5 <= v - Round(v) as real <= 0.5
  {
  }

  /** Halves round up, whatever their sign. */
  lemma RoundHalfUp(n: int)
    ensures Round(n as real + 0.5) == n + 1 && Round(n as real) == n
  {
  }

  /** The `n`-th point of the scale grid. */
  function GridPoint(n: int): real {
    n as real / 20.0
  }

  predicate OnGrid(v: real, n: int) {
    v == GridPoint(n) && 14 <= n <= 30
  }

  /** A scale is left alone exactly when it is one of the 17 grid points of the
      range. Clamping always lands on one, at most half a step away from a value
      already inside the range, so clamping twice is clamping once. */
  lemma ClampUiScaleSnaps(v: real)
    ensures var c := ClampUiScale(v);
            && (exists n: int :: OnGrid(c, n))
            && ClampUiScale(c) == c
            && (c == v <==> exists n: int :: OnGrid(v, n))
            && (0.7 <= v <= 1.5 ==> -0.025 <= c - v <= 0.025)
            && (v < 0.7 ==> c == 0.7) && (v > 1.5 ==> c == 1.5)
  {
    var c := ClampUiScale(v);
    var n := if v < UI_SCALE_MIN then 14 else if v > UI_SCALE_MAX then 30 else Round(v / UI_SCALE_STEP);
    if UI_SCALE_MIN <= v <= UI_SCALE_MAX {
      RoundMonotone(v / UI_SCALE_STEP, 14, 30);
    }
    assert OnGrid(c, n);
    GridPointStays(n);
    forall m: int | OnGrid(v, m) ensures c == v { GridPointStays(m); }
  }

  lemma GridPointStays(n: int)
    requires 14 <= n <= 30
    ensures ClampUiScale(GridPoint(n)) == GridPoint(n)
  {
    assert GridPoint(n) / UI_SCALE_STEP == n as real;
  }
}

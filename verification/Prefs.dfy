/** The preferences file: `buildPrefsPayload` writes the store into it and
    `hydratePrefs` reads it back at startup. */
module Prefs {
  import opened Lists
  import opened Scope
  import opened Slices
  import opened Tabs
  import opened Names
  import Dock
  import L = Look

  // ----- The file -----

  datatype OverridesWire = Absent | NotAnObject | Object(fields: map<string, string>)

  /** The theme entry: a bare mode in old files, a record since. */
  datatype ThemeWire =
    | Legacy(oldMode: L.ThemeMode)
    | Record(id: Option<string>, paletteId: Option<string>, mode: Option<L.ThemeMode>, overrides: OverridesWire)

  /** Fields older files lack are optional. */
  datatype SettingsWire = SettingsWire(
    refreshSec: int, confirmDestructive: bool, showSystemNs: bool, density: L.Density, monoTables: bool,
    refreshOnLaunch: bool, uiScale: Option<real>, fleetView: Option<L.FleetView>, darkConsole: Option<bool>,
    startupScope: Option<L.StartupScope>, shortenClusterNames: Option<bool>, groupFleetByProject: Option<bool>)

  /** `kindId` distinguishes an absent field (`None`) from a null one. */
  datatype TabRef = TabRef(
    id: string, selectedContext: Option<string>, selectedVirtual: Option<string>, scopeExtras: Option<seq<string>>,
    kindId: Option<Option<string>>, namespaces: Option<seq<string>>)

  datatype UiWire = UiWire(
    selectedContext: Option<string>, selectedVirtual: Option<string>, kindId: Option<string>, namespaces: seq<string>,
    scopeExtras: Option<seq<string>>, railMode: L.RailMode, dockSizeRight: Option<int>, dockSizeBottom: Option<int>,
    openTabs: Option<seq<TabRef>>, activeTab: Option<string>)

  datatype UpdateWire = UpdateWire(
    lastKnownVersion: Option<string>, lastSeenVersion: Option<string>, lastCheckAt: Option<int>,
    autoCheckEnabled: Option<bool>)

  datatype PrefsFile = PrefsFile(
    theme: ThemeWire, settings: SettingsWire, ui: UiWire, update: Option<UpdateWire>,
    virtualContexts: Option<seq<VirtualContext>>)

  // ----- Writing -----

  ghost function StoredRef(t: ClusterTab): TabRef {
    TabRef(t.id, t.selectedContext, t.selectedVirtualContextId, Some(t.scopeExtras),
           Some(t.slice.selectedKindId), Some(SortedNames(t.slice.selectedNamespaces)))
  }

  /** The active tab is written from the live copy: its stored one is stale. */
  ghost function RefOf(s: AppState, t: ClusterTab): TabRef {
    if s.activeTabId == Some(t.id)
    then TabRef(t.id, s.selectedContext, s.selectedVirtualContextId, Some(s.scopeExtras),
                Some(s.selectedKindId), Some(SortedNames(s.selectedNamespaces)))
    else StoredRef(t)
  }

  ghost function BuildSettings(x: L.Settings): SettingsWire {
    SettingsWire(x.refreshSec, x.confirmDestructive, x.showSystemNs, x.density, x.monoTables, x.refreshOnLaunch,
                 Some(x.uiScale), Some(x.fleetView), Some(x.darkConsole), Some(x.startupScope),
                 Some(x.shortenClusterNames), Some(x.groupFleetByProject))
  }

  ghost function BuildPrefs(s: AppState): PrefsFile {
    var k := s.look;
    PrefsFile(Record(Some(k.themeId), Some(k.paletteId), Some(k.themeMode),
                 if k.themeOverrides.Some? then Object(k.themeOverrides.value) else Absent),
          BuildSettings(k.settings),
          UiWire(s.selectedContext, s.selectedVirtualContextId, s.selectedKindId, SortedNames(s.selectedNamespaces),
                 Some(s.scopeExtras), k.railMode, k.dockSize.right, k.dockSize.bottom,
                 Some(seq(|s.openTabs|, i requires 0 <= i < |s.openTabs| => RefOf(s, s.openTabs[i]))),
                 s.activeTabId),
          Some(UpdateWire(k.updateState.lastKnownVersion, k.updateState.lastSeenVersion,
                          Some(k.updateState.lastCheckAt), Some(k.updateState.autoCheckEnabled))),
          Some(s.virtualContexts))
  }

  // ----- Reading -----

  /** What hydration looks up in the store it reads into. */
  datatype Boot = Boot(contexts: seq<string>, kinds: seq<string>, selectedContext: Option<string>)

  function HydrateLook(p: PrefsFile): L.Look {
    var t := p.theme;
    L.Look(if t.Legacy? then L.DEFAULT_ID else Or(t.id, L.DEFAULT_ID),
           if t.Legacy? then L.DEFAULT_ID else Or(t.paletteId, L.DEFAULT_ID),
           if t.Legacy? then t.oldMode else Or(t.mode, L.Dark),
           if t.Record? && t.overrides.Object? then Some(t.overrides.fields) else None,
           p.ui.railMode,
           Dock.PerPlacement(p.ui.dockSizeBottom, p.ui.dockSizeRight),
           HydrateSettings(p.settings),
           if p.update.None? then L.UpdateState(None, None, 0, true)
           else L.UpdateState(p.update.value.lastKnownVersion, p.update.value.lastSeenVersion,
                              Or(p.update.value.lastCheckAt, 0), Or(p.update.value.autoCheckEnabled, true)))
  }

  function HydrateSettings(w: SettingsWire): L.Settings {
    L.Settings(w.refreshSec, w.confirmDestructive, w.showSystemNs, w.density, w.monoTables, w.refreshOnLaunch,
               L.ClampUiScale(Or(w.uiScale, L.UI_SCALE_DEFAULT)), Or(w.fleetView, L.Tiles), Or(w.darkConsole, true),
               Or(w.startupScope, L.LatestView), Or(w.shortenClusterNames, true), Or(w.groupFleetByProject, true))
  }

  function Startup(p: PrefsFile): L.StartupScope {
    Or(p.settings.startupScope, L.LatestView)
  }

  function SavedVirtuals(p: PrefsFile): seq<VirtualContext> {
    Or(p.virtualContexts, [])
  }

  /** The legacy single selection: the saved virtual context if it still exists
      and the whole view is to be restored, else the saved cluster if known. */
  function RestoredVirtual(p: PrefsFile): Option<string> {
    if Startup(p) == L.LatestView && Truthy(p.ui.selectedVirtual) && p.ui.selectedVirtual.value in VirtualIds(SavedVirtuals(p))
    then p.ui.selectedVirtual else None
  }

  function RestoredContext(b: Boot, p: PrefsFile): Option<string> {
    if Startup(p) == L.Fleet || Truthy(RestoredVirtual(p)) then None
    else if Truthy(p.ui.selectedContext) && Known(b.contexts, p.ui.selectedContext.value) then p.ui.selectedContext
    else b.selectedContext
  }

  function RestoredExtras(b: Boot, p: PrefsFile): seq<string> {
    if Startup(p) == L.LatestView && (RestoredVirtual(p).Some? || RestoredContext(b, p).Some?)
    then Surviving(b.contexts, AppendNew([], Or(p.ui.scopeExtras, [])))
    else []
  }

  predicate KindKnown(kinds: seq<string>, id: Option<string>) {
    Truthy(id) && (kinds == [] || IsDynamicKindId(id.value) || id.value in kinds)
  }

  function KnownKind(kinds: seq<string>, id: Option<string>): Option<string> {
    if KindKnown(kinds, id) then id else None
  }

  function RestoredSlice(b: Boot, p: PrefsFile, kind: Option<Option<string>>, namespaces: Option<seq<string>>): ScopeSlice {
    EMPTY_SLICE.(selectedKindId := KnownKind(b.kinds, if kind.Some? then kind.value else p.ui.kindId),
    selectedNamespaces := set x | x in Or(namespaces, p.ui.namespaces))
  }

  /** One tab from the legacy fields: for "latest_cluster", and for files older
      than the tab model. */
  function SingleTab(b: Boot, p: PrefsFile, uuid: string): seq<ClusterTab> {
    if RestoredContext(b, p).None? && RestoredVirtual(p).None? then []
    else [ClusterTab(if Truthy(p.ui.activeTab) then p.ui.activeTab.value else uuid,
                     RestoredContext(b, p), RestoredVirtual(p), RestoredExtras(b, p), RestoredSlice(b, p, None, None))]
  }

  predicate RefResolves(b: Boot, p: PrefsFile, ref: TabRef) {
    if Truthy(ref.selectedVirtual) then ref.selectedVirtual.value in VirtualIds(SavedVirtuals(p))
    else Truthy(ref.selectedContext) && Known(b.contexts, ref.selectedContext.value)
  }

  function ResolvingRefs(b: Boot, p: PrefsFile, refs: seq<TabRef>): (r: seq<TabRef>)
    ensures |r| <= |refs|
    ensures |r| == |refs| <==> forall i :: 0 <= i < |refs| ==> RefResolves(b, p, refs[i])
    ensures |r| == |refs| ==> r == refs
    ensures forall x :: x in r <==> x in refs && RefResolves(b, p, x)
  {
    if refs == [] then []
    else
      var rest := ResolvingRefs(b, p, refs[1..]);
      if RefResolves(b, p, refs[0]) then [refs[0]] + rest else rest
  }

  /** The random id drawn for the `i`-th restored tab, should its ref lack one. */
  function Draw(uuids: seq<string>, i: nat): string {
    if i < |uuids| then uuids[i] else ""
  }

  function TabFromRef(b: Boot, p: PrefsFile, ref: TabRef, uuid: string): ClusterTab {
    ClusterTab(if ref.id != "" then ref.id else uuid,
               if Truthy(ref.selectedVirtual) then None else ref.selectedContext,
               ref.selectedVirtual,
               Or(ref.scopeExtras, []),
               RestoredSlice(b, p, ref.kindId, ref.namespaces))
  }

  function TabsFromRefs(b: Boot, p: PrefsFile, refs: seq<TabRef>, uuids: seq<string>): (r: seq<ClusterTab>)
    ensures |r| == |refs|
    ensures forall i :: 0 <= i < |r| ==> r[i] == TabFromRef(b, p, refs[i], Draw(uuids, i))
  {
    seq(|refs|, i requires 0 <= i < |refs| => TabFromRef(b, p, refs[i], Draw(uuids, i)))
  }

  function RestoredTabs(b: Boot, p: PrefsFile, uuids: seq<string>): seq<ClusterTab> {
    match Startup(p)
    case Fleet => []
    case LatestCluster => SingleTab(b, p, Draw(uuids, 0))
    case LatestView =>
      var refs := ResolvingRefs(b, p, Or(p.ui.openTabs, []));
      if refs != [] then TabsFromRefs(b, p, refs, uuids) else SingleTab(b, p, Draw(uuids, 0))
  }

  /** The saved active tab if it came back, else the first restored tab. */
  function RestoredActive(tabs: seq<ClusterTab>, p: PrefsFile): (k: nat)
    requires tabs != []
    ensures k < |tabs|
  {
    if p.ui.activeTab.Some? && p.ui.activeTab.value in Ids(tabs) && Startup(p) == L.LatestView
    then IndexOf(Ids(tabs), p.ui.activeTab.value) else 0
  }

  predicate SameAnchor(a: ClusterTab, b: ClusterTab) {
    a.selectedContext == b.selectedContext && a.selectedVirtualContextId == b.selectedVirtualContextId
  }

  predicate AnchorOpen(tabs: seq<ClusterTab>, t: ClusterTab) {
    exists o :: o in tabs && SameAnchor(o, t)
  }

  function NotOpen(open: seq<ClusterTab>, restored: seq<ClusterTab>): (r: seq<ClusterTab>)
    ensures forall t :: t in r <==> t in restored && !AnchorOpen(open, t)
  {
    if restored == [] then []
    else if AnchorOpen(open, restored[0]) then NotOpen(open, restored[1..])
    else [restored[0]] + NotOpen(open, restored[1..])
  }

  function BootOf(s: AppState): Boot {
    Boot(s.contexts, s.kinds, s.selectedContext)
  }

  /** Take over a tab list; the live copy follows `t`, or is cleared of anchor,
      kind and namespaces when nothing was restored. */
  function Adopt(s: AppState, tabs: seq<ClusterTab>, t: Option<ClusterTab>): AppState {
    s.(openTabs := tabs,
    activeTabId := if t.Some? then Some(t.value.id) else None,
    selectedVirtualContextId := if t.Some? then t.value.selectedVirtualContextId else None,
    selectedContext := if t.Some? then t.value.selectedContext else None,
    scopeExtras := if t.Some? then t.value.scopeExtras else [],
    selectedKindId := if t.Some? then t.value.slice.selectedKindId else None,
    selectedNamespaces := if t.Some? then t.value.slice.selectedNamespaces else {})
  }

  /** Tabs opened while the file was loading win: the active one stays, and only
      restored tabs with another anchor are appended. Otherwise the restored set
      is adopted and the live copy follows its active tab. */
  function HydratePrefs(s: AppState, p: PrefsFile, uuids: seq<string>): AppState {
    var restored := RestoredTabs(BootOf(s), p, uuids);
    var s' := s.(look := HydrateLook(p), virtualContexts := SavedVirtuals(p));
    if s.openTabs != [] then s'.(openTabs := StashActive(s) + NotOpen(s.openTabs, restored))
    else if restored == [] then Adopt(s', [], None)
    else Adopt(s', restored, Some(restored[RestoredActive(restored, p)]))
  }
}

/** Preferences files that lack fields added since: what each absent field stands
    for. */
module OldFiles {
  import opened Lists
  import opened Scope
  import opened Slices
  import opened Tabs
  import opened Prefs
  import L = Look

  // ----- The same file, written out in full -----

  function FullTheme(t: ThemeWire): ThemeWire {
    match t
    case Legacy(mode) => Record(Some("default"), Some("default"), Some(mode), Absent)
    case Record(id, paletteId, mode, overrides) =>
      Record(Some(Or(id, "default")), Some(Or(paletteId, "default")), Some(Or(mode, L.Dark)),
             if overrides.Object? then overrides else Absent)
  }

  function FullSettings(w: SettingsWire): SettingsWire {
    w.(uiScale := Some(Or(w.uiScale, 1.0)), fleetView := Some(Or(w.fleetView, L.Tiles)), darkConsole := Some(Or(w.darkConsole, true)),
    startupScope := Some(Or(w.startupScope, L.LatestView)), shortenClusterNames := Some(Or(w.shortenClusterNames, true)),
    groupFleetByProject := Some(Or(w.groupFleetByProject, true)))
  }

  /** A tab saved without its kind or namespaces takes the file's own. */
  function FullRef(ui: UiWire, ref: TabRef): TabRef {
    ref.(scopeExtras := Some(Or(ref.scopeExtras, [])), kindId := Some(Or(ref.kindId, ui.kindId)),
    namespaces := Some(Or(ref.namespaces, ui.namespaces)))
  }

  function FullRefs(ui: UiWire, refs: seq<TabRef>): (r: seq<TabRef>)
    ensures |r| == |refs|
    ensures forall i :: 0 <= i < |refs| ==> r[i] == FullRef(ui, refs[i])
  {
    seq(|refs|, i requires 0 <= i < |refs| => FullRef(ui, refs[i]))
  }

  function FullUpdate(u: Option<UpdateWire>): UpdateWire {
    match u
    case None => UpdateWire(None, None, Some(0), Some(true))
    case Some(w) => w.(lastCheckAt := Some(Or(w.lastCheckAt, 0)), autoCheckEnabled := Some(Or(w.autoCheckEnabled, true)))
  }

  /** The file with every absent field written out: the dark default theme, tiles,
      scale 1, every flag on, "latest view", no tab, no extra, no virtual context,
      never checked for updates. */
  function Full(p: PrefsFile): PrefsFile {
    PrefsFile(FullTheme(p.theme), FullSettings(p.settings),
          p.ui.(scopeExtras := Some(Or(p.ui.scopeExtras, [])), openTabs := Some(FullRefs(p.ui, Or(p.ui.openTabs, [])))),
          Some(FullUpdate(p.update)), Some(Or(p.virtualContexts, [])))
  }

  // ----- Reading either is the same -----

  lemma SameLook(p: PrefsFile)
    ensures HydrateLook(Full(p)) == HydrateLook(p) && Startup(Full(p)) == Startup(p) && SavedVirtuals(Full(p)) == SavedVirtuals(p)
  {
  }

  lemma SameSelection(b: Boot, p: PrefsFile)
    ensures RestoredVirtual(Full(p)) == RestoredVirtual(p) && RestoredContext(b, Full(p)) == RestoredContext(b, p)
    ensures RestoredExtras(b, Full(p)) == RestoredExtras(b, p)
  {
    hide Prefs.HydrateLook, FullRefs, FullTheme, FullUpdate;
    SameLook(p);
  }

  lemma SameRef(b: Boot, p: PrefsFile, ref: TabRef, uuid: string)
    ensures RefResolves(b, Full(p), FullRef(p.ui, ref)) == RefResolves(b, p, ref)
    ensures TabFromRef(b, Full(p), FullRef(p.ui, ref), uuid) == TabFromRef(b, p, ref, uuid)
  {
    hide Prefs.HydrateLook, FullRefs, FullTheme, FullUpdate, FullSettings, KnownKind;
    SameLook(p);
  }

  /** A saved tab without an id takes the one drawn; a virtual context wins over a
      cluster saved beside it. */
  lemma RefRead(b: Boot, p: PrefsFile, ref: TabRef, uuid: string)
    ensures var t := TabFromRef(b, p, ref, uuid);
            && t.id == (if ref.id == "" then uuid else ref.id)
            && (ref.selectedVirtual.Some? && ref.selectedVirtual.value != "" ==>
                  t.selectedContext.None? && t.selectedVirtualContextId == ref.selectedVirtual)
            && (ref.selectedVirtual.None? ==> t.selectedContext == ref.selectedContext && t.selectedVirtualContextId.None?)
            && t.slice.selectedNamespaces == (set x | x in Or(ref.namespaces, p.ui.namespaces))
  {
    hide Prefs.HydrateLook, KnownKind;
  }

  lemma {:induction false} SameRefs(b: Boot, p: PrefsFile, refs: seq<TabRef>)
    ensures ResolvingRefs(b, Full(p), FullRefs(p.ui, refs)) == FullRefs(p.ui, ResolvingRefs(b, p, refs))
  {
    hide RefResolves, Full, FullRef;
    if refs != [] {
      SameRefs(b, p, refs[1..]);
      SameRef(b, p, refs[0], "");
      assert FullRefs(p.ui, refs)[1..] == FullRefs(p.ui, refs[1..]);
      assert [FullRef(p.ui, refs[0])] + FullRefs(p.ui, ResolvingRefs(b, p, refs[1..])) == FullRefs(p.ui, [refs[0]] + ResolvingRefs(b, p, refs[1..]));
    }
  }

  lemma SameSingle(b: Boot, p: PrefsFile, uuid: string)
    ensures SingleTab(b, Full(p), uuid) == SingleTab(b, p, uuid)
  {
    hide Prefs.HydrateLook, FullRefs, FullTheme, FullUpdate, FullSettings, KnownKind, RestoredContext, RestoredVirtual, RestoredExtras;
    SameSelection(b, p);
  }

  lemma SameTabs(b: Boot, p: PrefsFile, uuids: seq<string>)
    ensures RestoredTabs(b, Full(p), uuids) == RestoredTabs(b, p, uuids)
  {
    hide Prefs.HydrateLook, FullTheme, FullUpdate, FullSettings, Prefs.SingleTab, ResolvingRefs, TabFromRef, FullRef, Startup;
    var refs := Or(p.ui.openTabs, []);
    SameLook(p);
    SameRefs(b, p, refs);
    SameSingle(b, p, Draw(uuids, 0));
    var kept := ResolvingRefs(b, p, refs);
    forall i | 0 <= i < |kept| ensures TabFromRef(b, Full(p), FullRefs(p.ui, kept)[i], Draw(uuids, i)) == TabFromRef(b, p, kept[i], Draw(uuids, i)) {
      SameRef(b, p, kept[i], Draw(uuids, i));
    }
    assert TabsFromRefs(b, Full(p), FullRefs(p.ui, kept), uuids) == TabsFromRefs(b, p, kept, uuids);
  }

  /** An old file is read as the same file with the defaults written out: into any
      store, a file and its full form lead to the same state. */
  lemma FullReadsAlike(s: AppState, p: PrefsFile, uuids: seq<string>)
    ensures HydratePrefs(s, Full(p), uuids) == HydratePrefs(s, p, uuids)
  {
    hide Prefs.HydrateLook, Full, RestoredTabs, Prefs.NotOpen, Prefs.Adopt, Prefs.RestoredActive, Tabs.StashActive;
    SameLook(p);
    SameTabs(BootOf(s), p, uuids);
    if RestoredTabs(BootOf(s), p, uuids) != [] { SameActive(RestoredTabs(BootOf(s), p, uuids), p); }
  }

  lemma SameActive(tabs: seq<ClusterTab>, p: PrefsFile)
    requires tabs != []
    ensures RestoredActive(tabs, Full(p)) == RestoredActive(tabs, p)
  {
    hide Prefs.HydrateLook, FullRefs, FullTheme, FullUpdate, IndexOf;
    SameLook(p);
  }

  /** A file that names none of the fields added since leaves them as a store that
      read no file has them. */
  lemma InitialDefaults(p: PrefsFile)
    requires p.theme == Legacy(L.Dark) && p.update.None?
    requires p.settings.uiScale.None? && p.settings.fleetView.None? && p.settings.darkConsole.None? && p.settings.startupScope.None?
    requires p.settings.shortenClusterNames.None? && p.settings.groupFleetByProject.None?
    ensures var k, i := HydrateLook(p), L.INITIAL_LOOK;
            && k.themeId == i.themeId && k.paletteId == i.paletteId && k.themeMode == i.themeMode && k.themeOverrides == i.themeOverrides
            && k.updateState == i.updateState
            && k.settings == i.settings.(refreshSec := p.settings.refreshSec, confirmDestructive := p.settings.confirmDestructive,
                             showSystemNs := p.settings.showSystemNs, density := p.settings.density, monoTables := p.settings.monoTables,
                             refreshOnLaunch := p.settings.refreshOnLaunch)
  {
    L.GridPointStays(20);
  }
}

/** What a restart keeps: writing the preferences, reading them into a fresh
    store and writing them again. */
module PrefsRoundTrip {
  import opened Lists
  import opened Scope
  import opened Slices
  import opened Tabs
  import opened Views
  import opened Invariants
  import opened Names
  import opened Prefs
  import L = Look
  import Dock

  /** A store as the app starts it, except that the kubeconfig and kind lists
      may have arrived before the preferences do. */
  function FreshStore(contexts: seq<string>, kinds: seq<string>): AppState {
    AppState(contexts, [], kinds, map[], L.INITIAL_LOOK, [], None, None, None, [],
             None, {}, map[], None, "", false, None, map[],
             [], Dock.PerPlacement(None, None), Dock.PerPlacement(false, false), None, None, [], map[])
  }

  function FreshBoot(contexts: seq<string>, kinds: seq<string>): Boot {
    Boot(contexts, kinds, None)
  }

  /** The payload with its scale snapped to the grid. */
  function Snapped(p: PrefsFile): PrefsFile {
    p.(settings := p.settings.(uiScale := Some(L.ClampUiScale(Or(p.settings.uiScale, L.UI_SCALE_DEFAULT)))))
  }

  /** The ref written for a tab is a function of its logical content. */
  ghost function RefOfContent(id: string, c: Content): TabRef {
    TabRef(id, c.selectedContext, c.selectedVirtualContextId, Some(c.scopeExtras),
           Some(c.slice.selectedKindId), Some(SortedNames(c.slice.selectedNamespaces)))
  }

  lemma RefReadsView(s: AppState, i: nat)
    requires i < |s.openTabs|
    ensures RefOf(s, s.openTabs[i]) == RefOfContent(s.openTabs[i].id, ContentAt(s, i))
  {
    hide Names.SortedNames;
  }

  /** The tab's anchor and kind mean something to the fresh store: ids are not
      empty, a plain context is listed (or the list has not loaded), and so is
      the selected kind. Virtual contexts travel with the file. */
  predicate Restorable(c: Content, contexts: seq<string>, kinds: seq<string>) {
    AnchorRestorable(c, contexts) && KindOk(c, kinds)
  }

  predicate AnchorRestorable(c: Content, contexts: seq<string>) {
    c.selectedVirtualContextId.None? ==>
      c.selectedContext.Some? && c.selectedContext.value != "" && (contexts == [] || c.selectedContext.value in contexts)
  }

  lemma ResolvesIff(s: AppState, contexts: seq<string>, kinds: seq<string>, i: nat)
    requires Inv(s) && i < |s.openTabs|
    ensures RefResolves(FreshBoot(contexts, kinds), BuildPrefs(s), RefOf(s, s.openTabs[i]))
       <==> AnchorRestorable(ContentAt(s, i), contexts)
  {
    hide ViewOf, ContentOk, Names.SortedNames, OneOwner;
    ViewAt(s, i);
    RefReadsView(s, i);
    assert AnchorOk(ContentAt(s, i), s.virtualContexts);
  }

  /** The look survives exactly, up to snapping the scale. */
  lemma LookRoundTrip(s: AppState)
    ensures HydrateLook(BuildPrefs(s)) == s.look.(settings := s.look.settings.(uiScale := L.ClampUiScale(s.look.settings.uiScale)))
  {
    hide Names.SortedNames, Prefs.RefOf;
  }

  /** Every persisted field is written under its own name. */
  lemma WrittenFields(s: AppState)
    ensures var p, k := BuildPrefs(s), s.look;
            && p.theme == Record(Some(k.themeId), Some(k.paletteId), Some(k.themeMode),
                                 if k.themeOverrides.None? then Absent else Object(k.themeOverrides.value))
            && p.ui.railMode == k.railMode && p.ui.dockSizeRight == k.dockSize.right && p.ui.dockSizeBottom == k.dockSize.bottom
            && p.update.Some? && p.update.value.lastKnownVersion == k.updateState.lastKnownVersion
            && p.update.value.lastSeenVersion == k.updateState.lastSeenVersion
            && p.settings.showSystemNs == k.settings.showSystemNs && p.settings.monoTables == k.settings.monoTables
            && p.settings.confirmDestructive == k.settings.confirmDestructive && p.settings.refreshOnLaunch == k.settings.refreshOnLaunch
            && p.settings.darkConsole == Some(k.settings.darkConsole) && p.settings.shortenClusterNames == Some(k.settings.shortenClusterNames)
            && p.settings.groupFleetByProject == Some(k.settings.groupFleetByProject)
  {
    hide Names.SortedNames, Prefs.RefOf;
  }

  /** A tab rebuilt from its own ref, and the ref written for it again. */
  lemma TabRoundTrip(f: Boot, p: PrefsFile, id: string, c: Content, uuid: string)
    requires id != "" && (c.selectedContext.Some? <==> c.selectedVirtualContextId.None?)
    requires c.selectedVirtualContextId.Some? ==> c.selectedVirtualContextId.value != ""
    ensures var t := TabFromRef(f, p, RefOfContent(id, c), uuid);
            && t == ClusterTab(id, c.selectedContext, c.selectedVirtualContextId, c.scopeExtras,
                               EMPTY_SLICE.(selectedKindId := KnownKind(f.kinds, c.slice.selectedKindId),
                               selectedNamespaces := c.slice.selectedNamespaces))
            && (StoredRef(t) == RefOfContent(id, c) <==>
                (c.slice.selectedKindId.Some? ==> KindKnown(f.kinds, c.slice.selectedKindId)))
  {
    SortedNamesExact(c.slice.selectedNamespaces);
    hide Names.SortedNames;
  }

  /** The file as read by a fresh store, every ref resolving: the same ids in the
      same order, the same active tab, each tab rebuilt from its content. */
  ghost predicate Rebuilt(s: AppState, f: Boot, r: AppState) {
    && |r.openTabs| == |s.openTabs|
    && r.activeTabId == s.activeTabId
    && r.virtualContexts == s.virtualContexts
    && r.look == HydrateLook(BuildPrefs(s))
    && (forall i :: 0 <= i < |s.openTabs| ==> RebuiltTab(s, f, r, i))
  }

  ghost predicate RebuiltTab(s: AppState, f: Boot, r: AppState, i: nat)
    requires i < |s.openTabs| && |r.openTabs| == |s.openTabs|
  {
    var t := r.openTabs[i];
    && t.id == s.openTabs[i].id
    && t == TabFromRef(f, BuildPrefs(s), RefOfContent(t.id, ContentAt(s, i)), "")
    && (r.activeTabId == Some(t.id) ==> LiveFollows(r, t))
  }

  predicate LiveFollows(r: AppState, t: ClusterTab) {
    && r.selectedContext == t.selectedContext
    && r.selectedVirtualContextId == t.selectedVirtualContextId
    && r.scopeExtras == t.scopeExtras
    && r.selectedKindId == t.slice.selectedKindId
    && r.selectedNamespaces == t.slice.selectedNamespaces
  }

  ghost predicate AllResolve(s: AppState, contexts: seq<string>) {
    forall i :: 0 <= i < |s.openTabs| ==> AnchorRestorable(ContentAt(s, i), contexts)
  }

  ghost predicate AllKindsKnown(s: AppState, kinds: seq<string>) {
    forall i :: 0 <= i < |s.openTabs| ==> KindOk(ContentAt(s, i), kinds)
  }

  predicate KindOk(c: Content, kinds: seq<string>) {
    c.slice.selectedKindId.Some? ==> KindKnown(kinds, c.slice.selectedKindId)
  }

  lemma RefsRead(s: AppState, contexts: seq<string>, kinds: seq<string>)
    requires Inv(s)
    ensures var f, p := FreshBoot(contexts, kinds), BuildPrefs(s);
            var refs := p.ui.openTabs.value;
            var resolving := ResolvingRefs(f, p, refs);
            && |refs| == |s.openTabs|
            && (|resolving| == |refs| <==> AllResolve(s, contexts))
            && (resolving == [] ==> forall i :: 0 <= i < |s.openTabs| ==> !AnchorRestorable(ContentAt(s, i), contexts))
  {
    hide Inv, Names.SortedNames, AnchorRestorable, Views.ContentAt, RefResolves, Prefs.RefOf;
    var f, p := FreshBoot(contexts, kinds), BuildPrefs(s);
    var refs := p.ui.openTabs.value;
    forall i | 0 <= i < |refs| ensures RefResolves(f, p, refs[i]) <==> AnchorRestorable(ContentAt(s, i), contexts) {
      ResolvesIff(s, contexts, kinds, i);
    }
    forall i | 0 <= i < |refs| && ResolvingRefs(f, p, refs) == [] ensures !RefResolves(f, p, refs[i]) {
      assert refs[i] !in ResolvingRefs(f, p, refs);
    }
  }

  lemma AdoptsRestored(contexts: seq<string>, kinds: seq<string>, p: PrefsFile, uuids: seq<string>)
    ensures HydratePrefs(FreshStore(contexts, kinds), p, uuids).openTabs == RestoredTabs(FreshBoot(contexts, kinds), p, uuids)
  {
    hide Prefs.HydrateLook, RestoredTabs;
  }

  lemma ReadBack(s: AppState, contexts: seq<string>, kinds: seq<string>, uuids: seq<string>)
    requires Inv(s) && s.activeTabId.Some? && s.look.settings.startupScope == L.LatestView
    ensures var f, p := FreshBoot(contexts, kinds), BuildPrefs(s);
            var r := HydratePrefs(FreshStore(contexts, kinds), p, uuids);
            && (AllResolve(s, contexts) ==> Rebuilt(s, f, r))
            && (!AllResolve(s, contexts) ==> |r.openTabs| < |s.openTabs|)
  {
    hide Inv, Names.SortedNames, AnchorRestorable, Views.ContentAt, Prefs.HydratePrefs, Rebuilt, Prefs.RefOf, AllResolve,
      Prefs.RestoredSlice, Prefs.RestoredContext, Prefs.RestoredVirtual, Prefs.RestoredExtras, FreshStore;
    RefsRead(s, contexts, kinds);
    if AllResolve(s, contexts) {
      ReadBackAll(s, contexts, kinds, uuids);
    } else {
      var f, p := FreshBoot(contexts, kinds), BuildPrefs(s);
      AdoptsRestored(contexts, kinds, p, uuids);
      if ResolvingRefs(f, p, p.ui.openTabs.value) == [] {
        NoFallback(s, contexts, kinds);
      }
    }
  }

  /** With no ref left there is no legacy selection to fall back to either: it is
      the active tab's anchor. */
  lemma NoFallback(s: AppState, contexts: seq<string>, kinds: seq<string>)
    requires Inv(s) && s.activeTabId.Some?
    requires forall i :: 0 <= i < |s.openTabs| ==> !AnchorRestorable(ContentAt(s, i), contexts)
    ensures RestoredContext(FreshBoot(contexts, kinds), BuildPrefs(s)).None? && RestoredVirtual(BuildPrefs(s)).None?
  {
    hide ContentOk, OneOwner, Names.SortedNames, ViewOf, Prefs.RefOf;
    var k := IndexOf(Ids(s.openTabs), s.activeTabId.value);
    ViewAt(s, k);
    assert ContentAt(s, k) == LiveContent(s);
  }

  /** The tabs a fresh store rebuilds from the refs, when all of them resolve. */
  lemma RestoredList(s: AppState, f: Boot, uuids: seq<string>)
    requires Inv(s)
    requires ResolvingRefs(f, BuildPrefs(s), BuildPrefs(s).ui.openTabs.value) == BuildPrefs(s).ui.openTabs.value
    ensures var p := BuildPrefs(s);
            var restored := TabsFromRefs(f, p, p.ui.openTabs.value, uuids);
            && Ids(restored) == Ids(s.openTabs)
            && forall i :: 0 <= i < |s.openTabs| ==>
                 restored[i] == TabFromRef(f, p, RefOfContent(s.openTabs[i].id, ContentAt(s, i)), "")
  {
    hide Inv, Names.SortedNames, Views.ContentAt, Prefs.RefOf, Prefs.TabFromRef, RefOfContent;
    var p := BuildPrefs(s);
    var restored := TabsFromRefs(f, p, p.ui.openTabs.value, uuids);
    ActiveListed(s);
    forall i | 0 <= i < |s.openTabs|
      ensures restored[i].id == s.openTabs[i].id && restored[i] == TabFromRef(f, p, RefOfContent(s.openTabs[i].id, ContentAt(s, i)), "")
    {
      RefReadsView(s, i);
      assert s.openTabs[i].id in Ids(s.openTabs);
      KeepsId(f, p, s.openTabs[i].id, ContentAt(s, i), Draw(uuids, i));
    }
    assert Ids(restored) == Ids(s.openTabs);
  }

  lemma KeepsId(f: Boot, p: PrefsFile, id: string, c: Content, uuid: string)
    requires id != ""
    ensures TabFromRef(f, p, RefOfContent(id, c), uuid) == TabFromRef(f, p, RefOfContent(id, c), "")
    ensures TabFromRef(f, p, RefOfContent(id, c), uuid).id == id
  {
    hide Names.SortedNames, Prefs.RestoredSlice;
  }

  lemma ReadBackAll(s: AppState, contexts: seq<string>, kinds: seq<string>, uuids: seq<string>)
    requires Inv(s) && s.activeTabId.Some? && s.look.settings.startupScope == L.LatestView
    requires |ResolvingRefs(FreshBoot(contexts, kinds), BuildPrefs(s), BuildPrefs(s).ui.openTabs.value)| == |BuildPrefs(s).ui.openTabs.value|
    ensures var f, p := FreshBoot(contexts, kinds), BuildPrefs(s);
            Rebuilt(s, f, HydratePrefs(FreshStore(contexts, kinds), p, uuids))
  {
    hide Inv, Names.SortedNames, Views.ContentAt, Prefs.HydrateLook, Prefs.RestoredSlice, Prefs.RefOf, Prefs.TabFromRef, RefOfContent,
      TabsFromRefs;
    var f, p := FreshBoot(contexts, kinds), BuildPrefs(s);
    var r := HydratePrefs(FreshStore(contexts, kinds), p, uuids);
    var restored := TabsFromRefs(f, p, p.ui.openTabs.value, uuids);
    ActiveListed(s);
    RestoredList(s, f, uuids);
    var k := IndexOf(Ids(s.openTabs), s.activeTabId.value);
    assert RestoredActive(restored, p) == k;
    assert r.openTabs == restored;
    forall i | 0 <= i < |s.openTabs| ensures RebuiltTab(s, f, r, i) {
      assert restored[i].id == Ids(restored)[i];
      if s.openTabs[i].id == s.activeTabId.value { DistinctIndex(Ids(s.openTabs), i); }
    }
  }

  lemma ActiveListed(s: AppState)
    requires Inv(s)
    ensures Distinct(Ids(s.openTabs)) && "" !in Ids(s.openTabs)
    ensures s.activeTabId.Some? ==> s.activeTabId.value in Ids(s.openTabs)
  {
    hide ContentOk, OneOwner;
  }

  lemma RewrittenRef(s: AppState, f: Boot, r: AppState, i: nat)
    requires Inv(s) && Rebuilt(s, f, r) && i < |s.openTabs|
    ensures RefOf(r, r.openTabs[i]) == RefOf(s, s.openTabs[i]) <==> KindOk(ContentAt(s, i), f.kinds)
  {
    hide ContentOk, OneOwner, Names.SortedNames, Views.ContentAt, ViewOf;
    ViewAt(s, i);
    RefReadsView(s, i);
    assert RebuiltTab(s, f, r, i);
    var id, c := s.openTabs[i].id, ContentAt(s, i);
    assert id in ViewOf(s).order && AnchorOk(c, s.virtualContexts);
    TabRoundTrip(f, BuildPrefs(s), id, c, "");
    assert RefOf(r, r.openTabs[i]) == StoredRef(r.openTabs[i]);
  }

  lemma RewrittenLive(s: AppState, f: Boot, r: AppState)
    requires Inv(s) && s.activeTabId.Some? && Rebuilt(s, f, r)
    requires AllKindsKnown(s, f.kinds)
    ensures r.selectedContext == s.selectedContext && r.selectedVirtualContextId == s.selectedVirtualContextId
    ensures r.scopeExtras == s.scopeExtras && r.selectedKindId == s.selectedKindId
    ensures r.selectedNamespaces == s.selectedNamespaces
  {
    hide ContentOk, OneOwner, Names.SortedNames, ViewOf;
    var k := IndexOf(Ids(s.openTabs), s.activeTabId.value);
    ViewAt(s, k);
    assert RebuiltTab(s, f, r, k);
    var c := ContentAt(s, k);
    assert c == LiveContent(s) && AnchorOk(c, s.virtualContexts) && s.openTabs[k].id in ViewOf(s).order;
    TabRoundTrip(f, BuildPrefs(s), s.openTabs[k].id, c, "");
    assert KindOk(c, f.kinds);
  }

  /** The preferences round trip. For every reachable store with an open tab and
      "latest view" as its startup scope, a restart writes the same payload again
      (tab order, ids, anchors, extras, kinds, namespaces, active tab, look and
      update state, with the scale snapped to its grid) exactly when every tab's
      anchor and kind is restorable in the store that reads the file. */
  lemma RoundTrip(s: AppState, contexts: seq<string>, kinds: seq<string>, uuids: seq<string>)
    requires Inv(s) && s.activeTabId.Some? && s.look.settings.startupScope == L.LatestView
    ensures BuildPrefs(HydratePrefs(FreshStore(contexts, kinds), BuildPrefs(s), uuids)) == Snapped(BuildPrefs(s))
       <==> forall i :: 0 <= i < |s.openTabs| ==> Restorable(ContentAt(s, i), contexts, kinds)
  {
    hide ContentOk, OneOwner, Names.SortedNames, ViewOf, Views.ContentAt, Prefs.HydratePrefs, AnchorRestorable, KindOk;
    var f, p := FreshBoot(contexts, kinds), BuildPrefs(s);
    var r := HydratePrefs(FreshStore(contexts, kinds), p, uuids);
    SplitRestorable(s, contexts, kinds);
    ReadBack(s, contexts, kinds, uuids);
    if AllResolve(s, contexts) {
      RoundTripResolved(s, f, r);
    } else {
      assert |BuildPrefs(r).ui.openTabs.value| < |p.ui.openTabs.value|;
    }
  }

  lemma SplitRestorable(s: AppState, contexts: seq<string>, kinds: seq<string>)
    ensures (forall i :: 0 <= i < |s.openTabs| ==> Restorable(ContentAt(s, i), contexts, kinds))
       <==> AllResolve(s, contexts) && AllKindsKnown(s, kinds)
  {
    hide Views.ContentAt, KindKnown;
    assert forall i :: 0 <= i < |s.openTabs| ==>
      (Restorable(ContentAt(s, i), contexts, kinds) <==> AnchorRestorable(ContentAt(s, i), contexts) && KindOk(ContentAt(s, i), kinds));
  }

  lemma RoundTripResolved(s: AppState, f: Boot, r: AppState)
    requires Inv(s) && s.activeTabId.Some? && Rebuilt(s, f, r)
    ensures BuildPrefs(r) == Snapped(BuildPrefs(s)) <==> AllKindsKnown(s, f.kinds)
  {
    hide ContentOk, OneOwner, Names.SortedNames, ViewOf, Views.ContentAt, Prefs.RefOf, KindOk, RebuiltTab, Prefs.HydrateLook;
    LookRoundTrip(s);
    var a, b := BuildPrefs(r), BuildPrefs(s);
    forall i | 0 <= i < |s.openTabs|
      ensures a.ui.openTabs.value[i] == b.ui.openTabs.value[i] <==> KindOk(ContentAt(s, i), f.kinds)
    {
      RewrittenRef(s, f, r, i);
    }
    if AllKindsKnown(s, f.kinds) {
      RewrittenLive(s, f, r);
      assert a.ui.openTabs.value == b.ui.openTabs.value;
    } else {
      var i :| 0 <= i < |s.openTabs| && !KindOk(ContentAt(s, i), f.kinds);
      assert a.ui.openTabs.value[i] != b.ui.openTabs.value[i];
    }
  }

  /** Without an open tab, a restart writes the same payload again exactly when
      no kind or namespace is selected in the idle copy: those two are saved but
      only come back through a tab. */
  lemma FleetRoundTrip(s: AppState, contexts: seq<string>, kinds: seq<string>, uuids: seq<string>)
    requires s.openTabs == [] && s.activeTabId.None? && s.look.settings.startupScope == L.LatestView
    requires s.selectedContext.None? && s.selectedVirtualContextId.None? && s.scopeExtras == []
    ensures BuildPrefs(HydratePrefs(FreshStore(contexts, kinds), BuildPrefs(s), uuids)) == Snapped(BuildPrefs(s))
       <==> s.selectedKindId.None? && s.selectedNamespaces == {}
  {
    hide Names.SortedNames, Prefs.HydrateLook, RestoredTabs, FreshStore;
    LookRoundTrip(s);
    NothingSaved(s, contexts, kinds, uuids);
    var r := HydratePrefs(FreshStore(contexts, kinds), BuildPrefs(s), uuids);
    FreshIsEmpty(contexts, kinds);
    SortedNamesExact(s.selectedNamespaces);
    SortedNamesExact({});
    assert r.selectedKindId.None? && r.selectedNamespaces == {} && r.openTabs == [] && r.activeTabId.None?;
    var a, b := BuildPrefs(r), BuildPrefs(s);
    assert a.ui.openTabs.value == b.ui.openTabs.value;
    assert a.ui.namespaces == b.ui.namespaces <==> s.selectedNamespaces == {};
  }

  lemma FreshIsEmpty(contexts: seq<string>, kinds: seq<string>)
    ensures var r := FreshStore(contexts, kinds);
            r.openTabs == [] && BootOf(r) == FreshBoot(contexts, kinds)
  {
  }

  lemma NothingSaved(s: AppState, contexts: seq<string>, kinds: seq<string>, uuids: seq<string>)
    requires s.openTabs == [] && s.look.settings.startupScope == L.LatestView
    requires s.selectedContext.None? && s.selectedVirtualContextId.None?
    ensures RestoredTabs(FreshBoot(contexts, kinds), BuildPrefs(s), uuids) == []
  {
    hide Names.SortedNames;
  }

  predicate LoneTab(r: AppState, p: PrefsFile, t: ClusterTab) {
    && t.selectedContext == p.ui.selectedContext
    && t.selectedVirtualContextId.None?
    && t.scopeExtras == []
    && r.activeTabId == Some(t.id)
    && LiveFollows(r, t)
  }

  /** Under "latest cluster" a fresh store gets at most one tab back: anchored on
      a plain cluster, without extras, active; one exactly when the saved cluster
      is named and known. */
  lemma LatestClusterRestores(p: PrefsFile, contexts: seq<string>, kinds: seq<string>, uuids: seq<string>)
    requires Startup(p) == L.LatestCluster
    ensures var r := HydratePrefs(FreshStore(contexts, kinds), p, uuids);
            && |r.openTabs| <= 1
            && (|r.openTabs| == 1 <==> Truthy(p.ui.selectedContext) && Known(contexts, p.ui.selectedContext.value))
            && (forall t :: t in r.openTabs ==> LoneTab(r, p, t))
            && (r.openTabs == [] ==> r.activeTabId.None? && r.selectedContext.None?)
            && r.selectedVirtualContextId.None? && r.scopeExtras == []
  {
    hide Prefs.HydrateLook, Prefs.RestoredSlice;
  }

  /** The selection a file from before the tab model names still means
      something: its virtual context exists, or it has none and its cluster is
      known. */
  predicate LegacyResolves(p: PrefsFile, contexts: seq<string>) {
    if Truthy(p.ui.selectedVirtual) then p.ui.selectedVirtual.value in VirtualIds(SavedVirtuals(p))
    else Truthy(p.ui.selectedContext) && Known(contexts, p.ui.selectedContext.value)
  }

  /** Such a file, which saved one selection instead of tabs, opens as one tab
      showing exactly the clusters that selection showed. */
  lemma LegacyKeepsScope(p: PrefsFile, contexts: seq<string>, kinds: seq<string>, uuids: seq<string>)
    requires Startup(p) == L.LatestView && Or(p.ui.openTabs, []) == [] && LegacyResolves(p, contexts)
    ensures var r := HydratePrefs(FreshStore(contexts, kinds), p, uuids);
            && |r.openTabs| == 1 && r.activeTabId == Some(r.openTabs[0].id)
            && r.activeTabId == (if p.ui.activeTab.Some? && p.ui.activeTab.value != "" then p.ui.activeTab
                                 else Some(if uuids == [] then "" else uuids[0]))
            && r.selectedNamespaces == (set x | x in p.ui.namespaces)
            && (r.selectedKindId == p.ui.kindId || r.selectedKindId.None?)
            && ActiveClusters(r) == ActiveClusterIds(contexts, p.ui.selectedContext, SavedVirtuals(p), p.ui.selectedVirtual, Or(p.ui.scopeExtras, []))
  {
    hide Prefs.HydrateLook, AppendNew, Surviving, KindKnown;
    var base := BaseIds(contexts, p.ui.selectedContext, SavedVirtuals(p), p.ui.selectedVirtual);
    CleanedExtras(contexts, base, Or(p.ui.scopeExtras, []));
  }

  /** Under "fleet" nothing is reopened, whatever the file says. */
  lemma FleetRestoresNothing(p: PrefsFile, contexts: seq<string>, kinds: seq<string>, uuids: seq<string>)
    requires Startup(p) == L.Fleet
    ensures var r := HydratePrefs(FreshStore(contexts, kinds), p, uuids);
            && ViewOf(r) == NO_TABS
            && r.virtualContexts == SavedVirtuals(p)
  {
    hide Prefs.HydrateLook, Prefs.RestoredSlice;
    assert Contents([]) == map[];
  }
}

/** What exactly a restart brings back: by the saved tabs, or by the single
    selection saved beside them. */
module Restart {
  import opened Lists
  import opened Scope
  import opened Slices
  import opened Tabs
  import opened Views
  import opened Invariants
  import opened Names
  import opened Prefs
  import opened PrefsMerge
  import opened PrefsRoundTrip
  import opened Rehydrate
  import R = Runs
  import L = Look

  // ----- By the saved tabs -----

  /** The ids, in order, whose anchor the reading store can restore. */
  function KeptIds(order: seq<string>, tabs: map<string, Content>, contexts: seq<string>): (r: seq<string>)
    requires forall id :: id in order ==> id in tabs
    ensures forall id :: id in r <==> id in order && AnchorRestorable(tabs[id], contexts)
  {
    if order == [] then []
    else
      var rest := KeptIds(order[1..], tabs, contexts);
      if AnchorRestorable(tabs[order[0]], contexts) then [order[0]] + rest else rest
  }

  /** A kind the reading store can show: it is listed, the list has not arrived,
      or it is one that discovery may still bring. */
  predicate KindReturns(kinds: seq<string>, id: string) {
    id != "" && (kinds == [] || id in kinds || "crd:" <= id || "wkcrd:" <= id)
  }

  /** What a file keeps of a tab's slice: namespaces, and the kind if it returns. */
  function RereadSlice(kind: Option<string>, names: set<string>, kinds: seq<string>): ScopeSlice {
    EMPTY_SLICE.(selectedKindId := if kind.Some? && KindReturns(kinds, kind.value) then kind else None, selectedNamespaces := names)
  }

  /** What a file keeps of a tab: anchor, extras, and that of its slice. */
  function Reread(c: Content, kinds: seq<string>): Content {
    c.(slice := RereadSlice(c.slice.selectedKindId, c.slice.selectedNamespaces, kinds))
  }

  /** The tabs that can be restored, in their order; the active one stays active
      if it is among them, else the first is. */
  function RestartV(v: View, contexts: seq<string>, kinds: seq<string>): View
    requires forall id :: id in v.order ==> id in v.tabs
  {
    var kept := KeptIds(v.order, v.tabs, contexts);
    View(kept,
         map id | id in kept :: Reread(v.tabs[id], kinds),
         if kept == [] then None else if v.active.Some? && v.active.value in kept then v.active else Some(kept[0]),
         FLEET_CONTENT)
  }

  lemma {:induction false} KeptRefs(b: Boot, p: PrefsFile, refs: seq<TabRef>, order: seq<string>, tabs: map<string, Content>)
    requires |refs| == |order|
    requires forall id :: id in order ==> id in tabs
    requires forall i :: 0 <= i < |order| ==>
      refs[i].id == order[i] && (RefResolves(b, p, refs[i]) <==> AnchorRestorable(tabs[order[i]], b.contexts))
    ensures RefIds(ResolvingRefs(b, p, refs)) == KeptIds(order, tabs, b.contexts)
  {
    hide RefResolves, AnchorRestorable, RefIds;
    if refs != [] {
      KeptRefs(b, p, refs[1..], order[1..], tabs);
      var rest := ResolvingRefs(b, p, refs[1..]);
      assert RefIds([refs[0]] + rest) == [refs[0].id] + RefIds(rest);
    }
  }

  /** The tab rebuilt from the ref of position `i` holds what the file keeps of it. */
  lemma RereadTab(s: AppState, b: Boot, i: nat, uuid: string)
    requires Inv(s) && i < |s.openTabs|
    ensures var t := TabFromRef(b, BuildPrefs(s), RefOf(s, s.openTabs[i]), uuid);
            && t.id == s.openTabs[i].id && t.id in ViewOf(s).tabs
            && ContentOf(t) == Reread(ViewOf(s).tabs[t.id], b.kinds)
  {
    hide ContentOk, OneOwner, Names.SortedNames, ViewOf, Views.ContentAt, Prefs.RefOf, RefOfContent, Prefs.TabFromRef, KnownKind, KindReturns;
    ViewAt(s, i);
    RefReadsView(s, i);
    var id, c := s.openTabs[i].id, ContentAt(s, i);
    assert id in ViewOf(s).order && AnchorOk(c, s.virtualContexts);
    TabRoundTrip(b, BuildPrefs(s), id, c, uuid);
    KindReturnsIff(b.kinds, c.slice.selectedKindId);
  }

  lemma ViewListed(s: AppState)
    ensures |ViewOf(s).order| == |s.openTabs|
    ensures forall i :: 0 <= i < |s.openTabs| ==> ViewOf(s).order[i] == s.openTabs[i].id
  {
  }

  /** The refs that resolve are those of the ids kept. */
  lemma KeptRefIds(s: AppState, b: Boot)
    requires Inv(s) && b == FreshBoot(b.contexts, b.kinds)
    ensures var p, v := BuildPrefs(s), ViewOf(s);
            RefIds(ResolvingRefs(b, p, p.ui.openTabs.value)) == KeptIds(v.order, v.tabs, b.contexts)
  {
    hide Inv, ViewOf, Names.SortedNames, Views.ContentAt, Prefs.RefOf, RefResolves, AnchorRestorable, Distinct, ResolvingRefs, RefIds, KeptIds;
    var p, v := BuildPrefs(s), ViewOf(s);
    var all := p.ui.openTabs.value;
    ViewListed(s);
    R.InvParts(s);
    forall i | 0 <= i < |v.order|
      ensures all[i].id == v.order[i] && (RefResolves(b, p, all[i]) <==> AnchorRestorable(v.tabs[v.order[i]], b.contexts))
    {
      RefKeepsId(s, s.openTabs[i]);
      ResolvesIff(s, b.contexts, b.kinds, i);
      ViewAt(s, i);
    }
    KeptRefs(b, p, all, v.order, v.tabs);
  }

  lemma KeptTab(s: AppState, b: Boot, ref: TabRef, uuid: string)
    requires Inv(s) && ref in BuildPrefs(s).ui.openTabs.value
    ensures var t, v := TabFromRef(b, BuildPrefs(s), ref, uuid), ViewOf(s);
            t.id == ref.id && t.id in v.tabs && ContentOf(t) == Reread(v.tabs[t.id], b.kinds)
  {
    hide Inv, ViewOf, Names.SortedNames, Prefs.RefOf, Prefs.TabFromRef, Reread, ContentOf;
    var all := BuildPrefs(s).ui.openTabs.value;
    var i :| 0 <= i < |all| && all[i] == ref;
    RereadTab(s, b, i, uuid);
    RefKeepsId(s, s.openTabs[i]);
  }

  /** The tabs rebuilt from the refs that resolve. */
  lemma KeptTabs(s: AppState, b: Boot, uuids: seq<string>)
    requires Inv(s) && b == FreshBoot(b.contexts, b.kinds)
    ensures var p, v := BuildPrefs(s), ViewOf(s);
            var tabs := TabsFromRefs(b, p, ResolvingRefs(b, p, p.ui.openTabs.value), uuids);
            && Ids(tabs) == KeptIds(v.order, v.tabs, b.contexts) && Distinct(Ids(tabs))
            && forall j :: 0 <= j < |tabs| ==> tabs[j].id in v.tabs && ContentOf(tabs[j]) == Reread(v.tabs[tabs[j].id], b.kinds)
  {
    hide Inv, ViewOf, Names.SortedNames, Prefs.RefOf, Prefs.TabFromRef, RefResolves, AnchorRestorable, Distinct, Reread, ContentOf, CameFrom,
      KeptIds;
    var p, v := BuildPrefs(s), ViewOf(s);
    var refs := ResolvingRefs(b, p, p.ui.openTabs.value);
    var tabs := TabsFromRefs(b, p, refs, uuids);
    KeptRefIds(s, b);
    forall j | 0 <= j < |tabs|
      ensures tabs[j].id == refs[j].id && tabs[j].id in v.tabs && ContentOf(tabs[j]) == Reread(v.tabs[tabs[j].id], b.kinds)
    {
      assert refs[j] in p.ui.openTabs.value;
      KeptTab(s, b, refs[j], Draw(uuids, j));
    }
    assert Ids(tabs) == RefIds(refs);
    WrittenRefs(s, b, uuids);
  }

  /** Without an anchor to restore there is nothing to restore at all. */
  lemma NothingKept(s: AppState, contexts: seq<string>, kinds: seq<string>, uuids: seq<string>)
    requires Inv(s) && s.look.settings.startupScope == L.LatestView
    requires ResolvingRefs(FreshBoot(contexts, kinds), BuildPrefs(s), BuildPrefs(s).ui.openTabs.value) == []
    ensures RestoredTabs(FreshBoot(contexts, kinds), BuildPrefs(s), uuids) == []
  {
    hide Inv, Names.SortedNames, AnchorRestorable, Views.ContentAt, Prefs.RefOf, Prefs.RestoredSlice, Prefs.RestoredContext,
      Prefs.RestoredVirtual, Prefs.RestoredExtras;
    if s.activeTabId.Some? {
      RefsRead(s, contexts, kinds);
      NoFallback(s, contexts, kinds);
    } else {
      R.InvParts(s);
      NothingSaved(s, contexts, kinds, uuids);
    }
  }

  lemma FreshLive(contexts: seq<string>, kinds: seq<string>)
    ensures LiveContent(FreshStore(contexts, kinds)) == FLEET_CONTENT
  {
  }

  lemma HydrateNothing(contexts: seq<string>, kinds: seq<string>, p: PrefsFile, uuids: seq<string>)
    requires RestoredTabs(FreshBoot(contexts, kinds), p, uuids) == []
    ensures ViewOf(HydratePrefs(FreshStore(contexts, kinds), p, uuids)) == View([], map[], None, FLEET_CONTENT)
  {
    hide RestoredTabs, Prefs.HydrateLook, Prefs.SavedVirtuals, ViewOf, FreshStore, Prefs.Adopt, LiveContent;
    var f := FreshStore(contexts, kinds);
    FreshIsEmpty(contexts, kinds);
    FreshLive(contexts, kinds);
    LiveLook(f, HydrateLook(p), SavedVirtuals(p));
    AdoptNothing(f.(look := HydrateLook(p), virtualContexts := SavedVirtuals(p)));
  }

  lemma HydrateSome(contexts: seq<string>, kinds: seq<string>, p: PrefsFile, uuids: seq<string>)
    requires RestoredTabs(FreshBoot(contexts, kinds), p, uuids) != []
    requires Distinct(Ids(RestoredTabs(FreshBoot(contexts, kinds), p, uuids)))
    ensures var restored := RestoredTabs(FreshBoot(contexts, kinds), p, uuids);
            ViewOf(HydratePrefs(FreshStore(contexts, kinds), p, uuids)) ==
            View(Ids(restored), Contents(restored), Some(restored[RestoredActive(restored, p)].id), FLEET_CONTENT)
  {
    hide RestoredTabs, Prefs.HydrateLook, Prefs.SavedVirtuals, FreshStore, Prefs.HydratePrefs, Prefs.RestoredActive, LiveContent, ContentOf,
      UpToDate, Contents, Distinct;
    var restored := RestoredTabs(FreshBoot(contexts, kinds), p, uuids);
    var k := RestoredActive(restored, p);
    AdoptedFresh(contexts, kinds, p, uuids);
    RestoredSliceShape(FreshBoot(contexts, kinds), p, uuids, restored[k]);
    SettledView(HydratePrefs(FreshStore(contexts, kinds), p, uuids), k);
  }

  lemma ActiveKept(tabs: seq<ClusterTab>, p: PrefsFile)
    requires tabs != [] && Startup(p).LatestView?
    ensures tabs[RestoredActive(tabs, p)].id
         == if p.ui.activeTab.Some? && p.ui.activeTab.value in Ids(tabs) then p.ui.activeTab.value else Ids(tabs)[0]
  {
  }

  /** Restarting under "latest view", whatever clusters and kinds the new store
      knows: the tabs that come back are the saved ones whose anchor is restorable,
      in the saved order, each with exactly what the file keeps of it, and the
      active one is the saved one if it came back, else the first. */
  lemma RestartExact(s: AppState, contexts: seq<string>, kinds: seq<string>, uuids: seq<string>)
    requires Inv(s) && s.look.settings.startupScope == L.LatestView
    ensures ViewOf(HydratePrefs(FreshStore(contexts, kinds), BuildPrefs(s), uuids)) == RestartV(ViewOf(s), contexts, kinds)
  {
    hide Inv, ViewOf, Names.SortedNames, Prefs.RefOf, Prefs.TabFromRef, AnchorRestorable, Prefs.ResolvingRefs, Prefs.SingleTab, Reread,
      FreshStore, Prefs.HydratePrefs, ContentOf, Contents, Distinct, Prefs.RestoredActive, KeptIds;
    var b, p, v := FreshBoot(contexts, kinds), BuildPrefs(s), ViewOf(s);
    var refs := ResolvingRefs(b, p, p.ui.openTabs.value);
    var kept := KeptIds(v.order, v.tabs, contexts);
    KeptTabs(s, b, uuids);
    if refs == [] {
      NothingKept(s, contexts, kinds, uuids);
      HydrateNothing(contexts, kinds, p, uuids);
    } else {
      var tabs := TabsFromRefs(b, p, refs, uuids);
      HydrateSome(contexts, kinds, p, uuids);
      ActiveKept(tabs, p);
      forall i | 0 <= i < |tabs| ensures RestartV(v, contexts, kinds).tabs[Ids(tabs)[i]] == ContentOf(tabs[i]) {
        assert tabs[i].id == kept[i];
      }
      ContentsBy(tabs, RestartV(v, contexts, kinds).tabs);
    }
  }

  // ----- By the single selection -----

  /** The one tab that comes back under "latest cluster": the active one, if it is
      on a plain context the new store may know; its extras stay behind. */
  function LatestClusterV(v: View, contexts: seq<string>, kinds: seq<string>): View
    requires v.active.Some? ==> v.active.value in v.tabs
  {
    if v.active.Some? && v.tabs[v.active.value].selectedVirtualContextId.None? && AnchorRestorable(v.tabs[v.active.value], contexts) then
      var id := v.active.value;
      View([id], map[id := Reread(v.tabs[id], kinds).(scopeExtras := [])], Some(id), FLEET_CONTENT)
    else NO_TABS
  }

  /** The single selection written is the active tab's, read from the live copy. */
  lemma SingleWritten(s: AppState)
    requires Inv(s)
    ensures var u, v := BuildPrefs(s).ui, ViewOf(s);
            && u.activeTab == v.active
            && (v.active.None? ==> v.order == [] && u.selectedContext.None? && u.selectedVirtual.None?)
            && (v.active.Some? ==>
                  var id := v.active.value;
                  && id != "" && id in v.tabs && AnchorOk(v.tabs[id], s.virtualContexts) && VirtualsOk(s.virtualContexts)
                  && u.selectedContext == v.tabs[id].selectedContext && u.selectedVirtual == v.tabs[id].selectedVirtualContextId
                  && u.scopeExtras == Some(v.tabs[id].scopeExtras) && u.kindId == v.tabs[id].slice.selectedKindId
                  && u.namespaces == SortedNames(v.tabs[id].slice.selectedNamespaces))
  {
    hide Inv, OneOwner, ViewOf, Names.SortedNames, Prefs.RefOf, ContentsOk;
    R.InvParts(s);
    R.LiveIsLive(s);
    if s.activeTabId.Some? {
      assert s.activeTabId.value in ViewOf(s).order;
      assert TabSetOk(ViewOf(s), s.virtualContexts) by { R.InvSplit(s); }
    }
  }

  lemma KindReturnsIff(kinds: seq<string>, id: Option<string>)
    ensures KnownKind(kinds, id) == if id.Some? && KindReturns(kinds, id.value) then id else None
  {
  }

  /** The tab rebuilt from the single selection. */
  lemma SingleReread(b: Boot, p: PrefsFile, names: set<string>, uuid: string)
    requires b.selectedContext.None? && p.ui.namespaces == SortedNames(names)
    requires RestoredContext(b, p).Some? || RestoredVirtual(p).Some?
    requires Truthy(p.ui.activeTab)
    ensures SingleTab(b, p, uuid)
         == [ClusterTab(p.ui.activeTab.value, RestoredContext(b, p), RestoredVirtual(p), RestoredExtras(b, p),
                        RereadSlice(p.ui.kindId, names, b.kinds))]
  {
    hide Names.SortedNames, Prefs.RestoredExtras, Prefs.RestoredContext, Prefs.RestoredVirtual, KnownKind, KindReturns;
    SortedNamesExact(names);
    KindReturnsIff(b.kinds, p.ui.kindId);
  }

  lemma OneView(t: ClusterTab)
    ensures Ids([t]) == [t.id] && Distinct(Ids([t])) && Contents([t]) == map[t.id := ContentOf(t)]
  {
    ContentsAt([t], 0);
  }

  /** A fresh store that restores just this tab. */
  lemma HydrateOne(contexts: seq<string>, kinds: seq<string>, p: PrefsFile, uuids: seq<string>, t: ClusterTab)
    requires RestoredTabs(FreshBoot(contexts, kinds), p, uuids) == [t]
    ensures ViewOf(HydratePrefs(FreshStore(contexts, kinds), p, uuids)) == View([t.id], map[t.id := ContentOf(t)], Some(t.id), FLEET_CONTENT)
  {
    hide RestoredTabs, FreshStore, Prefs.HydratePrefs, ViewOf, Contents, ContentOf, Distinct;
    OneView(t);
    HydrateSome(contexts, kinds, p, uuids);
  }

  /** Restarting under "latest cluster", whatever clusters and kinds the new store
      knows: exactly the active tab comes back, without its extras, when it is on
      a plain context the new store may know; otherwise none does. */
  lemma LatestClusterExact(s: AppState, contexts: seq<string>, kinds: seq<string>, uuids: seq<string>)
    requires Inv(s) && s.look.settings.startupScope == L.LatestCluster
    ensures var v := ViewOf(s);
            && (v.active.Some? ==> v.active.value in v.tabs)
            && ViewOf(HydratePrefs(FreshStore(contexts, kinds), BuildPrefs(s), uuids)) == LatestClusterV(v, contexts, kinds)
  {
    hide Inv, ViewOf, Names.SortedNames, Prefs.RefOf, Prefs.SingleTab, Prefs.HydratePrefs, FreshStore, AnchorRestorable, RereadSlice;
    var b, p, v := FreshBoot(contexts, kinds), BuildPrefs(s), ViewOf(s);
    SingleWritten(s);
    LatestClusterAnchor(s, contexts, kinds);
    if v.active.Some? && RestoredContext(b, p).Some? {
      var id := v.active.value;
      SingleReread(b, p, v.tabs[id].slice.selectedNamespaces, Draw(uuids, 0));
      HydrateOne(contexts, kinds, p, uuids, SingleTab(b, p, Draw(uuids, 0))[0]);
    } else {
      NoSingle(b, p, Draw(uuids, 0));
      HydrateNothing(contexts, kinds, p, uuids);
    }
  }

  lemma NoSingle(b: Boot, p: PrefsFile, uuid: string)
    requires RestoredContext(b, p).None? && RestoredVirtual(p).None?
    ensures SingleTab(b, p, uuid) == []
  {
  }

  lemma LatestClusterAnchor(s: AppState, contexts: seq<string>, kinds: seq<string>)
    requires Inv(s) && s.look.settings.startupScope == L.LatestCluster
    ensures var b, p, v := FreshBoot(contexts, kinds), BuildPrefs(s), ViewOf(s);
            && Startup(p).LatestCluster? && RestoredVirtual(p).None? && RestoredExtras(b, p) == []
            && (v.active.None? ==> RestoredContext(b, p).None?)
            && (v.active.Some? ==>
                  && v.active.value in v.tabs
                  && (RestoredContext(b, p).Some? <==>
                        v.tabs[v.active.value].selectedVirtualContextId.None? && AnchorRestorable(v.tabs[v.active.value], contexts))
                  && (RestoredContext(b, p).Some? ==> RestoredContext(b, p) == v.tabs[v.active.value].selectedContext))
  {
    hide Inv, ViewOf, Names.SortedNames, Prefs.RefOf;
    SingleWritten(s);
  }

  /** The file as it was before tabs were saved. */
  function WithoutTabs(p: PrefsFile): PrefsFile {
    p.(ui := p.ui.(openTabs := None))
  }

  /** What the single selection alone brings back under "latest view": the active
      tab, with the extras the new store knows. */
  function SelectionV(v: View, contexts: seq<string>, kinds: seq<string>): View
    requires v.active.Some? ==> v.active.value in v.tabs
  {
    if v.active.Some? && AnchorRestorable(v.tabs[v.active.value], contexts) then
      var id := v.active.value;
      View([id], map[id := Reread(v.tabs[id], kinds).(scopeExtras := Surviving(contexts, v.tabs[id].scopeExtras))], Some(id), FLEET_CONTENT)
    else NO_TABS
  }

  lemma DistinctStays(xs: seq<string>)
    requires Distinct(xs)
    ensures AppendNew([], xs) == xs
  {
    AppendDistinct([], xs);
  }

  lemma {:induction false} AppendDistinct(base: seq<string>, xs: seq<string>)
    requires Distinct(base + xs)
    ensures AppendNew(base, xs) == base + xs
    decreases xs
  {
    if xs != [] {
      assert (base + xs)[|base|] == xs[0];
      assert xs[0] !in base by { forall i | 0 <= i < |base| ensures base[i] != xs[0] { assert (base + xs)[i] == base[i]; } }
      assert base + xs == (base + [xs[0]]) + xs[1..];
      AppendDistinct(base + [xs[0]], xs[1..]);
    }
  }

  lemma SelectionAnchor(s: AppState, contexts: seq<string>, kinds: seq<string>)
    requires Inv(s) && s.look.settings.startupScope == L.LatestView
    ensures var b, p, v := FreshBoot(contexts, kinds), WithoutTabs(BuildPrefs(s)), ViewOf(s);
            && Startup(p).LatestView?
            && (v.active.None? ==> RestoredContext(b, p).None? && RestoredVirtual(p).None?)
            && (v.active.Some? ==>
                  && v.active.value in v.tabs
                  && (RestoredContext(b, p).Some? || RestoredVirtual(p).Some? <==> AnchorRestorable(v.tabs[v.active.value], contexts))
                  && (AnchorRestorable(v.tabs[v.active.value], contexts) ==>
                        && RestoredContext(b, p) == v.tabs[v.active.value].selectedContext
                        && RestoredVirtual(p) == v.tabs[v.active.value].selectedVirtualContextId))
  {
    hide Inv, ViewOf, Names.SortedNames, Prefs.RefOf;
    SingleWritten(s);
  }

  lemma SelectionExtras(s: AppState, contexts: seq<string>, kinds: seq<string>)
    requires Inv(s) && s.look.settings.startupScope == L.LatestView && ViewOf(s).active.Some?
    ensures var b, p, v := FreshBoot(contexts, kinds), WithoutTabs(BuildPrefs(s)), ViewOf(s);
            && v.active.value in v.tabs
            && (RestoredContext(b, p).Some? || RestoredVirtual(p).Some? ==>
                  RestoredExtras(b, p) == Surviving(contexts, v.tabs[v.active.value].scopeExtras))
  {
    hide Inv, ViewOf, Names.SortedNames, Prefs.RefOf, Prefs.RestoredContext, Prefs.RestoredVirtual, Distinct, Surviving, AppendNew;
    SingleWritten(s);
    var id := ViewOf(s).active.value;
    assert ContentOk(ViewOf(s).tabs[id]) by { hide ContentOk, OneOwner, Coupled; R.InvSplit(s); R.InvParts(s); }
    ExtrasDistinct(ViewOf(s).tabs[id]);
    DistinctStays(ViewOf(s).tabs[id].scopeExtras);
  }

  /** The single selection a file carries for versions without tabs is the active
      tab's, in full: read on its own it brings back that tab alone, showing the
      known clusters it showed, whenever its anchor is restorable. */
  lemma SelectionExact(s: AppState, contexts: seq<string>, kinds: seq<string>, uuids: seq<string>)
    requires Inv(s) && s.look.settings.startupScope == L.LatestView
    ensures var v := ViewOf(s);
            && (v.active.Some? ==> v.active.value in v.tabs)
            && ViewOf(HydratePrefs(FreshStore(contexts, kinds), WithoutTabs(BuildPrefs(s)), uuids)) == SelectionV(v, contexts, kinds)
  {
    hide Inv, ViewOf, Names.SortedNames, Prefs.RefOf, Prefs.SingleTab, Prefs.HydratePrefs, FreshStore, AnchorRestorable, RereadSlice, Surviving;
    var b, p, v := FreshBoot(contexts, kinds), WithoutTabs(BuildPrefs(s)), ViewOf(s);
    SingleWritten(s);
    SelectionAnchor(s, contexts, kinds);
    assert ResolvingRefs(b, p, []) == [];
    if v.active.Some? && AnchorRestorable(v.tabs[v.active.value], contexts) {
      var id := v.active.value;
      SelectionExtras(s, contexts, kinds);
      SingleReread(b, p, v.tabs[id].slice.selectedNamespaces, Draw(uuids, 0));
      HydrateOne(contexts, kinds, p, uuids, SingleTab(b, p, Draw(uuids, 0))[0]);
    } else {
      NoSingle(b, p, Draw(uuids, 0));
      HydrateNothing(contexts, kinds, p, uuids);
    }
  }
}

/** Reading back a file the store wrote itself: into the same store, twice over,
    and into a fresh one. */
module Rehydrate {
  import opened Lists
  import opened Scope
  import opened Slices
  import opened Tabs
  import opened Views
  import opened Invariants
  import opened Names
  import opened Prefs
  import opened PrefsMerge
  import opened PrefsRoundTrip
  import R = Runs
  import T = TabTheorems
  import L = Look

  // ----- Into the store that wrote it -----

  /** Stashing in place changes nothing logically. */
  lemma StashedView(s: AppState)
    requires Distinct(Ids(s.openTabs))
    ensures ViewOf(s.(openTabs := StashActive(s))) == ViewOf(s)
  {
    hide ViewOf, LiveContent, ContentOf, Tabs.Capture;
    var r := s.(openTabs := StashActive(s));
    LiveSetTabs(s, StashActive(s));
    var m := ViewOf(s).tabs;
    forall i | 0 <= i < |r.openTabs| ensures m[Ids(r.openTabs)[i]] == ContentAt(r, i) {
      ViewAt(s, i);
    }
    ViewBy(r, m);
  }

  lemma ActiveAnchor(s: AppState)
    requires Inv(s) && s.openTabs != []
    ensures s.selectedContext.Some? <==> s.selectedVirtualContextId.None?
    ensures s.selectedVirtualContextId.Some? ==>
      s.selectedVirtualContextId.value != "" && s.selectedVirtualContextId.value in VirtualIds(s.virtualContexts)
    ensures exists o :: o in s.openTabs && o.selectedContext == s.selectedContext && o.selectedVirtualContextId == s.selectedVirtualContextId
  {
    hide ViewOf, ContentOk, OneOwner;
    R.InvParts(s);
    var k := IndexOf(Ids(s.openTabs), s.activeTabId.value);
    ViewAt(s, k);
    assert ContentAt(s, k) == LiveContent(s) by { hide Tabs.Capture; }
    assert AnchorOk(LiveContent(s), s.virtualContexts);
    assert s.openTabs[k] in s.openTabs;
  }

  /** The legacy single selection is the active tab's anchor. */
  lemma OwnSingle(s: AppState, uuid: string, t: ClusterTab)
    requires Inv(s) && s.openTabs != []
    requires t in SingleTab(BootOf(s), BuildPrefs(s), uuid)
    ensures AnchorOpen(s.openTabs, t)
  {
    hide Inv, Names.SortedNames, Prefs.RefOf, Prefs.RestoredSlice, Prefs.RestoredExtras;
    ActiveAnchor(s);
  }

  /** A tab rebuilt from a ref has the anchor the list has under that id. */
  lemma OwnRef(s: AppState, b: Boot, i: nat, uuid: string)
    requires Inv(s) && i < |s.openTabs|
    ensures var t := TabFromRef(b, BuildPrefs(s), RefOf(s, s.openTabs[i]), uuid);
            && t.id == s.openTabs[i].id
            && t.selectedContext == s.openTabs[i].selectedContext
            && t.selectedVirtualContextId == s.openTabs[i].selectedVirtualContextId
            && t.scopeExtras == ContentAt(s, i).scopeExtras
            && AnchorOk(ContentOf(t), s.virtualContexts)
  {
    hide ViewOf, ContentOk, OneOwner, Names.SortedNames, Prefs.RestoredSlice, Tabs.Capture;
    R.InvParts(s);
    ViewAt(s, i);
    CoupledAnchors(s, i);
    RefReadsView(s, i);
    assert s.openTabs[i].id in ViewOf(s).order;
    assert AnchorOk(ContentAt(s, i), s.virtualContexts);
  }

  lemma OwnTabsOpen(s: AppState, uuids: seq<string>, t: ClusterTab)
    requires Inv(s) && s.openTabs != []
    requires t in RestoredTabs(BootOf(s), BuildPrefs(s), uuids)
    ensures AnchorOpen(s.openTabs, t)
  {
    hide Inv, Names.SortedNames, Prefs.RefOf, Prefs.SingleTab, Prefs.TabFromRef, Prefs.RefResolves, AnchorOpen;
    var b, p := BootOf(s), BuildPrefs(s);
    var all := p.ui.openTabs.value;
    var refs := ResolvingRefs(b, p, all);
    if Startup(p).LatestView? && refs != [] {
      var tabs := TabsFromRefs(b, p, refs, uuids);
      var j :| 0 <= j < |tabs| && tabs[j] == t;
      assert refs[j] in all;
      var i :| 0 <= i < |all| && all[i] == refs[j];
      OwnRef(s, b, i, Draw(uuids, j));
      OpenAt(s, i, t);
    } else if !Startup(p).Fleet? {
      OwnSingle(s, Draw(uuids, 0), t);
    }
  }

  lemma OpenAt(s: AppState, i: nat, t: ClusterTab)
    requires i < |s.openTabs| && SameAnchor(s.openTabs[i], t)
    ensures AnchorOpen(s.openTabs, t)
  {
  }

  /** Hydrating a store with open tabs from its own payload, whatever the startup
      scope, adds no tab and changes none: only the stale copy is brought up to
      date and the scale snapped. */
  lemma HydrateOwn(s: AppState, uuids: seq<string>)
    requires Inv(s) && s.openTabs != []
    ensures var r := HydratePrefs(s, BuildPrefs(s), uuids);
            && r == s.(openTabs := StashActive(s), look := HydrateLook(BuildPrefs(s)))
            && ViewOf(r) == ViewOf(s)
  {
    hide Inv, ViewOf, RestoredTabs, Names.SortedNames, Prefs.RefOf, Prefs.HydrateLook, Tabs.StashActive, AnchorOpen, Prefs.NotOpen;
    R.InvParts(s);
    var restored := RestoredTabs(BootOf(s), BuildPrefs(s), uuids);
    forall t | t in restored ensures AnchorOpen(s.openTabs, t) { OwnTabsOpen(s, uuids, t); }
    AllOpen(s.openTabs, restored);
    assert StashActive(s) + [] == StashActive(s);
    StashedView(s);
    LookOnly(s.(openTabs := StashActive(s)), HydrateLook(BuildPrefs(s)));
  }

  lemma {:induction false} AllOpen(open: seq<ClusterTab>, restored: seq<ClusterTab>)
    requires forall t :: t in restored ==> AnchorOpen(open, t)
    ensures NotOpen(open, restored) == []
  {
    hide AnchorOpen;
    if restored != [] {
      AllOpen(open, restored[1..]);
    }
  }

  lemma LookOnly(s: AppState, look: L.Look)
    ensures ViewOf(s.(look := look)) == ViewOf(s)
  {
    hide LiveContent, Contents;
    LiveLook(s, look, s.virtualContexts);
  }

  lemma StashedAt(s: AppState, look: L.Look, i: nat)
    requires i < |s.openTabs|
    ensures var r := s.(openTabs := StashActive(s), look := look);
            r.openTabs[i].id == s.openTabs[i].id && ContentAt(r, i) == ContentAt(s, i)
  {
  }

  /** So writing, reading back and writing again gives the same payload, the scale
      snapped. */
  lemma OwnPayloadCycle(s: AppState, uuids: seq<string>)
    requires Inv(s) && s.openTabs != []
    ensures BuildPrefs(HydratePrefs(s, BuildPrefs(s), uuids)) == Snapped(BuildPrefs(s))
  {
    hide Inv, ViewOf, Names.SortedNames, Prefs.RefOf, Prefs.HydrateLook, Prefs.HydratePrefs, Views.ContentAt, RefOfContent, Tabs.Stashed;
    var look := HydrateLook(BuildPrefs(s));
    var r := s.(openTabs := StashActive(s), look := look);
    HydrateOwn(s, uuids);
    LookRoundTrip(s);
    var a, b := BuildPrefs(r), BuildPrefs(s);
    forall i | 0 <= i < |s.openTabs| ensures a.ui.openTabs.value[i] == b.ui.openTabs.value[i] {
      StashedAt(s, look, i);
      RefReadsView(s, i);
      RefReadsView(r, i);
    }
    assert a.ui.openTabs.value == b.ui.openTabs.value;
  }

  // ----- The startup read run twice -----

  lemma SameSingle(b: Boot, p: PrefsFile, u: string, u': string, selected: Option<string>)
    requires b.selectedContext.None?
    requires selected == RestoredContext(b, p)
    ensures SingleTab(b, p, u) != [] ==>
      && |SingleTab(b.(selectedContext := selected), p, u')| == |SingleTab(b, p, u)| == 1
      && SameAnchor(SingleTab(b, p, u)[0], SingleTab(b.(selectedContext := selected), p, u')[0])
    ensures SingleTab(b, p, u) == [] ==> selected.None? && SingleTab(b, p, u') == []
  {
    hide Prefs.RestoredSlice, Prefs.RestoredExtras, AppendNew, Surviving;
  }

  lemma SameRefs(b: Boot, p: PrefsFile, refs: seq<TabRef>, selected: Option<string>)
    ensures ResolvingRefs(b.(selectedContext := selected), p, refs) == ResolvingRefs(b, p, refs)
  {
    if refs != [] {
      SameRefs(b, p, refs[1..], selected);
    }
  }

  lemma SameRefAnchor(b: Boot, p: PrefsFile, ref: TabRef, u: string, u': string, selected: Option<string>)
    ensures SameAnchor(TabFromRef(b, p, ref, u), TabFromRef(b.(selectedContext := selected), p, ref, u'))
  {
  }

  /** A second reading finds the same anchors, or again nothing. */
  lemma SameAnchorsTwice(b: Boot, p: PrefsFile, uuids: seq<string>, uuids': seq<string>, selected: Option<string>, t: ClusterTab)
    requires b.selectedContext.None? && RestoredTabs(b, p, uuids) != []
    requires (Startup(p).LatestView? && ResolvingRefs(b, p, Or(p.ui.openTabs, [])) != []) || selected == RestoredContext(b, p)
    requires t in RestoredTabs(b.(selectedContext := selected), p, uuids')
    ensures AnchorOpen(RestoredTabs(b, p, uuids), t)
  {
    hide Prefs.SingleTab, Prefs.TabFromRef, Prefs.RefResolves, RestoredContext, AnchorOpen;
    var b' := b.(selectedContext := selected);
    var refs := ResolvingRefs(b, p, Or(p.ui.openTabs, []));
    SameRefs(b, p, Or(p.ui.openTabs, []), selected);
    var first := RestoredTabs(b, p, uuids);
    if Startup(p).LatestView? && refs != [] {
      var tabs := TabsFromRefs(b', p, refs, uuids');
      var j :| 0 <= j < |tabs| && tabs[j] == t;
      SameRefAnchor(b, p, refs[j], Draw(uuids, j), Draw(uuids', j), selected);
      OpenIn(first, j, t);
    } else {
      SameSingle(b, p, Draw(uuids, 0), Draw(uuids', 0), selected);
      OpenIn(first, 0, t);
    }
  }

  lemma OpenIn(tabs: seq<ClusterTab>, i: nat, t: ClusterTab)
    requires i < |tabs| && SameAnchor(tabs[i], t)
    ensures AnchorOpen(tabs, t)
  {
  }

  /** What a fresh store holds after reading a file that restores something. */
  lemma AdoptedFresh(contexts: seq<string>, kinds: seq<string>, p: PrefsFile, uuids: seq<string>)
    requires RestoredTabs(FreshBoot(contexts, kinds), p, uuids) != []
    ensures var restored := RestoredTabs(FreshBoot(contexts, kinds), p, uuids);
            var r, k := HydratePrefs(FreshStore(contexts, kinds), p, uuids), RestoredActive(restored, p);
            && r.openTabs == restored && r.activeTabId == Some(restored[k].id)
            && r.contexts == contexts && r.kinds == kinds && r.look == HydrateLook(p) && r.virtualContexts == SavedVirtuals(p)
            && r.selectedContext == restored[k].selectedContext
            && (restored[k].slice == EMPTY_SLICE.(selectedKindId := restored[k].slice.selectedKindId, selectedNamespaces := restored[k].slice.selectedNamespaces) ==>
                  LiveContent(r) == ContentOf(restored[k]))
  {
    hide RestoredTabs, Prefs.HydrateLook, Prefs.SavedVirtuals;
  }

  lemma RestoredSliceShape(b: Boot, p: PrefsFile, uuids: seq<string>, t: ClusterTab)
    requires t in RestoredTabs(b, p, uuids)
    ensures t.slice == EMPTY_SLICE.(selectedKindId := t.slice.selectedKindId, selectedNamespaces := t.slice.selectedNamespaces)
  {
    var refs := ResolvingRefs(b, p, Or(p.ui.openTabs, []));
    if Startup(p).LatestView? && refs != [] {
      var tabs := TabsFromRefs(b, p, refs, uuids);
      var i :| 0 <= i < |tabs| && tabs[i] == t;
    }
  }

  /** The only tab of the legacy path carries the restored context. */
  lemma SingleContext(b: Boot, p: PrefsFile, uuids: seq<string>)
    requires RestoredTabs(b, p, uuids) != []
    requires !(Startup(p).LatestView? && ResolvingRefs(b, p, Or(p.ui.openTabs, [])) != [])
    ensures |RestoredTabs(b, p, uuids)| == 1 && RestoredTabs(b, p, uuids)[0].selectedContext == RestoredContext(b, p)
  {
    hide Prefs.RestoredSlice, Prefs.RestoredExtras;
  }

  lemma TwiceSome(contexts: seq<string>, kinds: seq<string>, p: PrefsFile, uuids: seq<string>, uuids': seq<string>)
    requires RestoredTabs(FreshBoot(contexts, kinds), p, uuids) != []
    requires Distinct(Ids(RestoredTabs(FreshBoot(contexts, kinds), p, uuids)))
    ensures var r := HydratePrefs(FreshStore(contexts, kinds), p, uuids);
            HydratePrefs(r, p, uuids') == r
  {
    hide RestoredTabs, Prefs.HydrateLook, Prefs.SavedVirtuals, Prefs.ResolvingRefs, AnchorOpen, LiveContent, ContentOf, Prefs.NotOpen, UpToDate,
      RestoredContext, Prefs.RestoredActive, FreshStore, Prefs.Adopt;
    var b := FreshBoot(contexts, kinds);
    var restored := RestoredTabs(b, p, uuids);
    var r, k := HydratePrefs(FreshStore(contexts, kinds), p, uuids), RestoredActive(restored, p);
    RestoredSliceShape(b, p, uuids, restored[k]);
    AdoptedFresh(contexts, kinds, p, uuids);
    SettledView(r, k);
    if !(Startup(p).LatestView? && ResolvingRefs(b, p, Or(p.ui.openTabs, [])) != []) { SingleContext(b, p, uuids); }
    var b' := b.(selectedContext := r.selectedContext);
    forall t | t in RestoredTabs(b', p, uuids') ensures AnchorOpen(restored, t) {
      SameAnchorsTwice(b, p, uuids, uuids', r.selectedContext, t);
    }
    AllOpen(restored, RestoredTabs(b', p, uuids'));
    SecondRead(r, p, uuids', b');
  }

  lemma SecondRead(r: AppState, p: PrefsFile, uuids: seq<string>, b: Boot)
    requires r.openTabs != [] && UpToDate(r) && b == BootOf(r)
    requires r.look == HydrateLook(p) && r.virtualContexts == SavedVirtuals(p)
    requires NotOpen(r.openTabs, RestoredTabs(b, p, uuids)) == []
    ensures HydratePrefs(r, p, uuids) == r
  {
    hide RestoredTabs, Prefs.HydrateLook, Prefs.SavedVirtuals, Prefs.NotOpen, Tabs.StashActive;
    assert StashActive(r) + [] == r.openTabs;
  }

  lemma NothingAgain(b: Boot, p: PrefsFile, uuids: seq<string>, uuids': seq<string>)
    requires RestoredTabs(b, p, uuids) == []
    ensures RestoredTabs(b, p, uuids') == []
  {
    hide Prefs.RestoredSlice, Prefs.RestoredExtras;
  }

  lemma TwiceNone(contexts: seq<string>, kinds: seq<string>, p: PrefsFile, uuids: seq<string>, uuids': seq<string>)
    requires RestoredTabs(FreshBoot(contexts, kinds), p, uuids) == []
    ensures var r := HydratePrefs(FreshStore(contexts, kinds), p, uuids);
            HydratePrefs(r, p, uuids') == r
  {
    hide RestoredTabs, Prefs.HydrateLook, Prefs.SavedVirtuals;
    NothingAgain(FreshBoot(contexts, kinds), p, uuids, uuids');
  }

  /** Reading the same file a second time right after startup, as a startup effect
      that runs twice does, leaves the store exactly as the first reading did: no
      tab is duplicated, none is lost, and the focus stays. */
  lemma HydrateTwice(contexts: seq<string>, kinds: seq<string>, p: PrefsFile, uuids: seq<string>, uuids': seq<string>)
    requires Distinct(Ids(RestoredTabs(FreshBoot(contexts, kinds), p, uuids)))
    ensures var r := HydratePrefs(FreshStore(contexts, kinds), p, uuids);
            HydratePrefs(r, p, uuids') == r
  {
    hide RestoredTabs, Prefs.HydratePrefs, FreshStore;
    if RestoredTabs(FreshBoot(contexts, kinds), p, uuids) == [] {
      TwiceNone(contexts, kinds, p, uuids, uuids');
    } else {
      TwiceSome(contexts, kinds, p, uuids, uuids');
    }
  }

  // ----- Into a fresh store -----

  function RefIds(refs: seq<TabRef>): (r: seq<string>)
    ensures |r| == |refs|
    ensures forall i :: 0 <= i < |refs| ==> r[i] == refs[i].id
  {
    seq(|refs|, i requires 0 <= i < |refs| => refs[i].id)
  }

  lemma {:induction false} ResolvingIds(b: Boot, p: PrefsFile, refs: seq<TabRef>)
    requires Distinct(RefIds(refs))
    ensures Distinct(RefIds(ResolvingRefs(b, p, refs)))
    ensures forall x :: x in RefIds(ResolvingRefs(b, p, refs)) ==> x in RefIds(refs)
  {
    hide RefResolves, Distinct, RefIds;
    if refs != [] {
      var rest := ResolvingRefs(b, p, refs[1..]);
      assert RefIds(refs) == [refs[0].id] + RefIds(refs[1..]);
      DistinctHead(refs[0].id, RefIds(refs[1..]));
      ResolvingIds(b, p, refs[1..]);
      assert RefIds([refs[0]] + rest) == [refs[0].id] + RefIds(rest);
      DistinctHead(refs[0].id, RefIds(rest));
    }
  }

  /** The tab comes from the tab at position `i` of the store that wrote the file. */
  predicate CameFrom(s: AppState, t: ClusterTab, i: nat) {
    && i < |s.openTabs|
    && t.id == s.openTabs[i].id
    && t.selectedContext == s.openTabs[i].selectedContext
    && t.selectedVirtualContextId == s.openTabs[i].selectedVirtualContextId
    && t.scopeExtras == ContentAt(s, i).scopeExtras
  }

  lemma WrittenRefs(s: AppState, b: Boot, uuids: seq<string>)
    requires Inv(s)
    ensures var p := BuildPrefs(s);
            var tabs := TabsFromRefs(b, p, ResolvingRefs(b, p, p.ui.openTabs.value), uuids);
            && Distinct(Ids(tabs))
            && forall t :: t in tabs ==> exists i: nat :: CameFrom(s, t, i)
  {
    hide Inv, Names.SortedNames, Prefs.RefOf, Prefs.TabFromRef, Prefs.RefResolves, CameFrom, Distinct;
    var p := BuildPrefs(s);
    var all := p.ui.openTabs.value;
    var refs := ResolvingRefs(b, p, all);
    var tabs := TabsFromRefs(b, p, refs, uuids);
    WrittenIds(s);
    ResolvingIds(b, p, all);
    forall j | 0 <= j < |tabs| ensures tabs[j].id == refs[j].id && exists i: nat :: CameFrom(s, tabs[j], i) {
      assert refs[j] in all;
      var i :| 0 <= i < |all| && all[i] == refs[j];
      WrittenRef(s, b, i, Draw(uuids, j));
    }
    assert Ids(tabs) == RefIds(refs);
  }

  lemma WrittenRef(s: AppState, b: Boot, i: nat, uuid: string)
    requires Inv(s) && i < |s.openTabs|
    ensures var t := TabFromRef(b, BuildPrefs(s), RefOf(s, s.openTabs[i]), uuid);
            CameFrom(s, t, i) && t.id == RefOf(s, s.openTabs[i]).id
  {
    hide Inv, Names.SortedNames, Views.ContentAt, Prefs.TabFromRef;
    OwnRef(s, b, i, uuid);
  }

  lemma RefKeepsId(s: AppState, t: ClusterTab)
    ensures RefOf(s, t).id == t.id
  {
    hide Names.SortedNames;
  }

  lemma WrittenIds(s: AppState)
    requires Inv(s)
    ensures Distinct(RefIds(BuildPrefs(s).ui.openTabs.value))
  {
    hide Inv, Names.SortedNames, Prefs.RefOf, Distinct;
    ActiveListed(s);
    forall i | 0 <= i < |s.openTabs| ensures RefOf(s, s.openTabs[i]).id == s.openTabs[i].id { RefKeepsId(s, s.openTabs[i]); }
    assert RefIds(BuildPrefs(s).ui.openTabs.value) == Ids(s.openTabs);
  }

  /** Tabs of a store with different ids have different anchors, and sane extras. */
  lemma Apart(s: AppState, t: ClusterTab, i: nat)
    requires Inv(s) && CameFrom(s, t, i)
    ensures t.id != "" && t.selectedVirtualContextId != Some("") && Distinct(t.scopeExtras)
    ensures forall u: ClusterTab, j: nat :: CameFrom(s, u, j) && u.id != t.id ==> !SameAnchor(t, u)
  {
    hide ViewOf, ContentOk, OneOwner, Views.ContentAt;
    R.InvParts(s);
    ViewAt(s, i);
    CoupledAnchors(s, i);
    assert s.openTabs[i].id in ViewOf(s).order;
    assert AnchorOk(ContentAt(s, i), s.virtualContexts);
    assert ContentOk(ContentAt(s, i));
    ExtrasDistinct(ContentAt(s, i));
    forall u: ClusterTab, j: nat | CameFrom(s, u, j) && u.id != t.id ensures !SameAnchor(t, u) {
      ViewAt(s, j);
      CoupledAnchors(s, j);
      assert AnchorOf(ContentAt(s, i)) != AnchorOf(ContentAt(s, j));
    }
  }

  lemma ExtrasDistinct(c: Content)
    requires ContentOk(c)
    ensures Distinct(c.scopeExtras)
  {
  }

  lemma RestoredExtrasDistinct(b: Boot, p: PrefsFile)
    ensures Distinct(RestoredExtras(b, p))
  {
    hide AppendNew;
    var clean := AppendNew([], Or(p.ui.scopeExtras, []));
    var tail := AppendNewShape([], Or(p.ui.scopeExtras, []));
    assert [] + tail == tail;
    WithinDistinct(clean, b.contexts);
  }

  lemma SavedSelection(s: AppState)
    requires Inv(s)
    ensures s.activeTabId.None? ==> s.selectedContext.None? && s.selectedVirtualContextId.None?
    ensures s.activeTabId.Some? ==> s.activeTabId.value != ""
  {
    hide Inv, ViewOf, OneOwner, Coupled, R.InvM;
    R.InvParts(s);
  }

  lemma WrittenSingle(s: AppState, contexts: seq<string>, kinds: seq<string>, uuid: string)
    requires Inv(s)
    ensures var tabs := SingleTab(FreshBoot(contexts, kinds), BuildPrefs(s), uuid);
            && |tabs| <= 1
            && (tabs != [] ==> tabs[0].id != "" && Distinct(tabs[0].scopeExtras) && tabs[0].selectedVirtualContextId != Some(""))
  {
    hide Inv, Names.SortedNames, Prefs.RestoredSlice, Prefs.RestoredExtras, Distinct, Prefs.RefOf;
    SavedSelection(s);
    RestoredExtrasDistinct(FreshBoot(contexts, kinds), BuildPrefs(s));
  }

  /** Whatever the startup scope, the file a store in order writes is sane for a
      fresh store. */
  lemma WrittenFileOk(s: AppState, contexts: seq<string>, kinds: seq<string>, uuids: seq<string>)
    requires Inv(s)
    ensures FileOk(ViewOf(FreshStore(contexts, kinds)), FreshBoot(contexts, kinds), BuildPrefs(s), uuids)
  {
    hide ViewInv, Names.SortedNames, Prefs.SingleTab, Prefs.RefOf, Prefs.TabFromRef, CameFrom, Prefs.ResolvingRefs, SameAnchor;
    var b, p := FreshBoot(contexts, kinds), BuildPrefs(s);
    var refs := ResolvingRefs(b, p, p.ui.openTabs.value);
    var restored := RestoredTabs(b, p, uuids);
    if Startup(p).LatestView? && refs != [] {
      WrittenRefs(s, b, uuids);
      forall t | t in restored ensures t.id != "" && t.selectedVirtualContextId != Some("") && Distinct(t.scopeExtras) {
        var i: nat :| CameFrom(s, t, i);
        Apart(s, t, i);
      }
      forall i, j | 0 <= i < j < |restored| ensures !SameAnchor(restored[i], restored[j]) {
        RestoredApart(s, restored, i, j);
      }
    } else {
      WrittenSingle(s, contexts, kinds, Draw(uuids, 0));
    }
    hide Distinct, FreshStore, NotOpenV;
    FileOkParts(restored, contexts, kinds, p, uuids);
  }

  lemma RestoredApart(s: AppState, restored: seq<ClusterTab>, i: nat, j: nat)
    requires Inv(s) && i < j < |restored| && Distinct(Ids(restored))
    requires forall t :: t in restored ==> exists k: nat :: CameFrom(s, t, k)
    ensures !SameAnchor(restored[i], restored[j])
  {
    hide Inv, CameFrom, SameAnchor;
    assert restored[i] in restored && restored[j] in restored;
    assert Ids(restored)[i] != Ids(restored)[j];
    var k: nat :| CameFrom(s, restored[i], k);
    var l: nat :| CameFrom(s, restored[j], l);
    Apart(s, restored[i], k);
  }

  lemma FileOkParts(restored: seq<ClusterTab>, contexts: seq<string>, kinds: seq<string>, p: PrefsFile, uuids: seq<string>)
    requires restored == RestoredTabs(FreshBoot(contexts, kinds), p, uuids)
    requires Distinct(Ids(restored)) && VirtualsOk(SavedVirtuals(p))
    requires forall i, j :: 0 <= i < j < |restored| ==> !SameAnchor(restored[i], restored[j])
    requires forall t :: t in restored ==> t.id != "" && t.selectedVirtualContextId != Some("") && Distinct(t.scopeExtras)
    ensures FileOk(ViewOf(FreshStore(contexts, kinds)), FreshBoot(contexts, kinds), p, uuids)
  {
    hide RestoredTabs, NotOpenV, Prefs.SavedVirtuals;
    assert ViewOf(FreshStore(contexts, kinds)).order == [];
    forall i | 0 <= i < |restored| ensures Ids(restored)[i] != "" { assert restored[i] in restored; }
  }

  /** So a restart lands in the invariant again, in every startup scope. */
  lemma RestartOk(s: AppState, contexts: seq<string>, kinds: seq<string>, uuids: seq<string>)
    requires Inv(s)
    ensures Inv(HydratePrefs(FreshStore(contexts, kinds), BuildPrefs(s), uuids))
  {
    hide Inv, FileOk, BuildPrefs, Prefs.HydratePrefs, FreshStore, ViewOf, R.ModelOf, Prefs.BootOf, HydrateV;
    var f, p := FreshStore(contexts, kinds), BuildPrefs(s);
    T.FreshStoreOk(contexts, kinds);
    WrittenFileOk(s, contexts, kinds, uuids);
    FreshIsEmpty(contexts, kinds);
    R.HydrateStep(f, p, uuids);
    FreshKeeps(f, p, uuids);
    R.InvSplit(HydratePrefs(f, p, uuids));
  }

  lemma FreshKeeps(f: AppState, p: PrefsFile, uuids: seq<string>)
    requires Inv(f) && f.openTabs == [] && FileOk(ViewOf(f), BootOf(f), p, uuids)
    requires R.ModelOf(HydratePrefs(f, p, uuids))
          == R.ModelOf(f).(view := HydrateV(ViewOf(f), BootOf(f), p, uuids), virtualContexts := SavedVirtuals(p), look := HydrateLook(p))
    ensures R.InvM(R.ModelOf(HydratePrefs(f, p, uuids)))
  {
    hide ViewOf, ViewInv, Prefs.HydratePrefs, HydrateV, Coupled, RestoredTabs, NotOpenV, Prefs.HydrateLook, Prefs.SavedVirtuals;
    NoTabsNoVirtuals(f, p);
    HydrateKeeps(ViewOf(f), f.virtualContexts, BootOf(f), p, uuids);
  }

  lemma NoTabsNoVirtuals(f: AppState, p: PrefsFile)
    requires f.openTabs == []
    ensures LiveVirtualsSaved(ViewOf(f), p)
  {
  }
}

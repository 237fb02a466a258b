/** The logical contents of the store: a plain map from tab id to what the tab
    holds, whichever copy is current, plus the tab order and the active tab. */
module Views {
  import opened Lists
  import opened Scope
  import opened Slices
  import opened Tabs

  datatype Content = Content(
    selectedContext: Option<string>,
    selectedVirtualContextId: Option<string>,
    scopeExtras: seq<string>,
    slice: ScopeSlice)

  /** `idle` is what the live copy holds while no tab is active. */
  datatype View = View(order: seq<string>, tabs: map<string, Content>, active: Option<string>, idle: Content)

  const FLEET_CONTENT := Content(None, None, [], EMPTY_SLICE)

  function ContentOf(t: ClusterTab): Content {
    Content(t.selectedContext, t.selectedVirtualContextId, t.scopeExtras, t.slice)
  }

  function LiveContent(s: AppState): Content {
    Content(s.selectedContext, s.selectedVirtualContextId, s.scopeExtras, Capture(s))
  }

  function Contents(tabs: seq<ClusterTab>): (m: map<string, Content>)
    ensures forall id :: id in m <==> id in Ids(tabs)
  {
    map id | id in Ids(tabs) :: ContentOf(tabs[IndexOf(Ids(tabs), id)])
  }

  /** The active tab is read from the live copy, every other tab from the list. */
  function ViewOf(s: AppState): (v: View)
    ensures v.order == Ids(s.openTabs) && v.active == s.activeTabId
    ensures v.idle == if s.activeTabId.None? then LiveContent(s) else FLEET_CONTENT
    ensures forall id :: id in v.tabs <==> id in v.order
  {
    var stored := Contents(s.openTabs);
    View(Ids(s.openTabs),
         map id | id in stored :: if s.activeTabId == Some(id) then LiveContent(s) else stored[id],
         s.activeTabId,
         if s.activeTabId.None? then LiveContent(s) else FLEET_CONTENT)
  }

  /** The active tab's entry in the list is up to date. */
  predicate UpToDate(s: AppState) {
    StashActive(s) == s.openTabs
  }

  // ----- The live copy -----

  lemma CaptureSpread(s: AppState, sl: ScopeSlice)
    ensures Capture(Spread(s, sl)) == sl
  {
  }

  lemma LiveEdit(s: AppState, e: SliceEdit)
    ensures LiveContent(EditLive(s, e)) == EditContent(LiveContent(s), e)
    ensures EditLive(s, e).openTabs == s.openTabs && EditLive(s, e).activeTabId == s.activeTabId
  {
    hide Slices.Edited;
    CaptureSpread(s, Edited(Capture(s), e));
    hide Tabs.Capture;
  }

  lemma LiveActivate(s: AppState, tabs: seq<ClusterTab>, t: ClusterTab)
    ensures LiveContent(Activate(s, tabs, t)) == ContentOf(t)
    ensures Activate(s, tabs, t).openTabs == tabs && Activate(s, tabs, t).activeTabId == Some(t.id)
  {
  }

  lemma LiveFleet(s: AppState)
    ensures LiveContent(Fleet(s)) == FLEET_CONTENT
    ensures Fleet(s).openTabs == [] && Fleet(s).activeTabId == None
  {
  }

  lemma LiveSetTabs(s: AppState, tabs: seq<ClusterTab>)
    ensures LiveContent(s.(openTabs := tabs)) == LiveContent(s)
  {
  }

  // ----- Reading lists of tabs -----

  lemma ContentsAt(tabs: seq<ClusterTab>, i: nat)
    requires Distinct(Ids(tabs)) && i < |tabs|
    ensures tabs[i].id in Contents(tabs) && Contents(tabs)[tabs[i].id] == ContentOf(tabs[i])
  {
    DistinctIndex(Ids(tabs), i);
  }

  /** What position `i` of the list stands for. */
  function ContentAt(s: AppState, i: nat): Content
    requires i < |s.openTabs|
  {
    if s.activeTabId == Some(s.openTabs[i].id) then LiveContent(s) else ContentOf(s.openTabs[i])
  }

  lemma ContentsBy(tabs: seq<ClusterTab>, m: map<string, Content>)
    requires forall id :: id in m <==> id in Ids(tabs)
    requires forall i :: 0 <= i < |tabs| ==> m[Ids(tabs)[i]] == ContentOf(tabs[i])
    ensures Contents(tabs) == m
  {
  }

  lemma ViewAt(s: AppState, i: nat)
    requires Distinct(Ids(s.openTabs)) && i < |s.openTabs|
    ensures s.openTabs[i].id in ViewOf(s).tabs
    ensures ViewOf(s).tabs[s.openTabs[i].id] == ContentAt(s, i)
  {
    ContentsAt(s.openTabs, i);
  }

  lemma ViewBy(s: AppState, m: map<string, Content>)
    requires Distinct(Ids(s.openTabs))
    requires forall id :: id in m <==> id in Ids(s.openTabs)
    requires forall i :: 0 <= i < |s.openTabs| ==> m[Ids(s.openTabs)[i]] == ContentAt(s, i)
    ensures ViewOf(s).tabs == m
  {
    hide ViewOf, ContentAt, Distinct, IndexOf;
    forall id | id in m ensures ViewOf(s).tabs[id] == m[id] {
      var i := IndexOf(Ids(s.openTabs), id);
      ViewAt(s, i);
    }
  }

  lemma StashContents(s: AppState)
    requires Distinct(Ids(s.openTabs))
    ensures Contents(StashActive(s)) == ViewOf(s).tabs
  {
    forall i | 0 <= i < |s.openTabs| ensures ViewOf(s).tabs[Ids(StashActive(s))[i]] == ContentOf(StashActive(s)[i]) {
      ViewAt(s, i);
    }
    ContentsBy(StashActive(s), ViewOf(s).tabs);
  }

  /** A state whose live copy is the stored copy of its active tab reads
      straight off the list. */
  lemma SettledView(r: AppState, k: nat)
    requires Distinct(Ids(r.openTabs)) && k < |r.openTabs|
    requires r.activeTabId == Some(r.openTabs[k].id) && LiveContent(r) == ContentOf(r.openTabs[k])
    ensures ViewOf(r).tabs == Contents(r.openTabs)
    ensures UpToDate(r)
  {
    forall i | 0 <= i < |r.openTabs|
      ensures Contents(r.openTabs)[Ids(r.openTabs)[i]] == ContentAt(r, i)
      ensures StashActive(r)[i] == r.openTabs[i]
    {
      ContentsAt(r.openTabs, i);
      DistinctIndex(Ids(r.openTabs), i);
      DistinctIndex(Ids(r.openTabs), k);
    }
    ViewBy(r, Contents(r.openTabs));
  }

  lemma ActivateView(s: AppState, tabs: seq<ClusterTab>, k: nat)
    requires Distinct(Ids(tabs)) && k < |tabs|
    ensures ViewOf(Activate(s, tabs, tabs[k])) == View(Ids(tabs), Contents(tabs), Some(tabs[k].id), FLEET_CONTENT)
    ensures UpToDate(Activate(s, tabs, tabs[k]))
  {
    hide LiveContent, Tabs.Activate;
    LiveActivate(s, tabs, tabs[k]);
    SettledView(Activate(s, tabs, tabs[k]), k);
  }

  lemma KeepContents(tabs: seq<ClusterTab>, gone: seq<string>)
    requires Distinct(Ids(tabs))
    ensures Distinct(Ids(KeepTabs(tabs, gone)))
    ensures Contents(KeepTabs(tabs, gone)) == Contents(tabs) - (set x | x in gone)
  {
    var kept := KeepTabs(tabs, gone);
    WithoutDistinct(Ids(tabs), gone);
    forall id | id in Ids(kept) ensures id in Contents(tabs) && Contents(kept)[id] == Contents(tabs)[id] {
      var i := IndexOf(Ids(kept), id);
      assert kept[i] in kept;
      var j :| 0 <= j < |tabs| && tabs[j] == kept[i];
      ContentsAt(kept, i);
      ContentsAt(tabs, j);
    }
  }

  // ----- What each action does to the logical contents -----

  /** Switching moves the focus and nothing else. */
  function SwitchV(v: View, id: string): View {
    if id in v.tabs then v.(active := Some(id), idle := FLEET_CONTENT) else v
  }

  /** Closing removes exactly the named tabs; focus moves only if the active tab
      was one of them, to the tab that took its place or to the last. */
  function CloseV(v: View, gone: seq<string>): View {
    var order, tabs := Without(v.order, gone), v.tabs - (set x | x in gone);
    if v.active.None? || v.active.value !in gone then v.(order := order, tabs := tabs)
    else if order == [] then View([], map[], None, FLEET_CONTENT)
    else
      var k := IndexOf(v.order, v.active.value);
      View(order, tabs, Some(if k < |order| then order[k] else order[|order| - 1]), FLEET_CONTENT)
  }

  /** Where the focus is after some tabs went: on the active tab if it stayed; else
      on the tab now standing where it stood, or on the last one if it stood
      further back; and with no tab left the store is on an emptied Fleet. */
  ghost predicate FocusPlaced(v: View, w: View) {
    && (v.active.None? ==> w.active.None?)
    && (v.active.Some? && v.active.value in w.order ==> w.active == v.active)
    && (forall k :: 0 <= k < |v.order| && v.active == Some(v.order[k]) && v.order[k] !in w.order && w.order != [] ==>
          w.active == Some(w.order[if k < |w.order| then k else |w.order| - 1]))
    && (v.active.Some? && w.order == [] ==> w == NO_TABS)
  }

  lemma CloseFocus(v: View, gone: seq<string>)
    requires Distinct(v.order) && (v.active.Some? ==> v.active.value in v.order)
    ensures FocusPlaced(v, CloseV(v, gone))
  {
    if v.active.Some? {
      forall k | 0 <= k < |v.order| && v.order[k] == v.active.value ensures IndexOf(v.order, v.active.value) == k {
        DistinctIndex(v.order, k);
      }
    }
  }

  function AppendV(v: View, id: string, c: Content): View {
    View(v.order + [id], v.tabs[id := c], Some(id), FLEET_CONTENT)
  }

  const NO_TABS := View([], map[], None, FLEET_CONTENT)

  function EditContent(c: Content, e: SliceEdit): Content {
    c.(slice := Edited(c.slice, e))
  }

  /** Replace what the live copy stands for: the active tab, or the idle copy. */
  function SetLiveV(v: View, c: Content): View {
    if v.active.Some? then v.(tabs := v.tabs[v.active.value := c]) else v.(idle := c)
  }

  function LiveOf(v: View): Content
    requires v.active.Some? ==> v.active.value in v.tabs
  {
    if v.active.Some? then v.tabs[v.active.value] else v.idle
  }

  /** Edit one tab and no other. */
  function EditV(v: View, tabId: Option<string>, e: SliceEdit): View
    requires v.active.Some? ==> v.active.value in v.tabs
  {
    if tabId.None? then SetLiveV(v, EditContent(LiveOf(v), e))
    else if tabId.value in v.tabs then v.(tabs := v.tabs[tabId.value := EditContent(v.tabs[tabId.value], e)])
    else v
  }

  /** Edit whichever tabs own the dock tab `id`. */
  function OwnerV(v: View, id: string, e: SliceEdit): View {
    v.(tabs := map t | t in v.tabs :: OwnedEdit(v.tabs[t], id, e), idle := OwnedEdit(v.idle, id, e))
  }

  function OwnedEdit(c: Content, id: string, e: SliceEdit): Content {
    if id in Dock.Ids(c.slice.dockTabs) then EditContent(c, e) else c
  }

  predicate ContentAlive(cs: seq<string>, vcs: seq<VirtualContext>, c: Content) {
    AnchorAlive(cs, vcs, c.selectedContext, c.selectedVirtualContextId, c.slice.dockTabs)
  }

  function PruneContent(c: Content, cs: seq<string>): Content {
    c.(scopeExtras := Within(c.scopeExtras, cs))
  }

  function PruneV(v: View, cs: seq<string>): View {
    v.(tabs := map id | id in v.tabs :: PruneContent(v.tabs[id], cs))
  }

  function DeadV(cs: seq<string>, vcs: seq<VirtualContext>, order: seq<string>, tabs: map<string, Content>): (r: seq<string>)
    requires forall id :: id in order ==> id in tabs
    ensures forall x :: x in r <==> x in order && !ContentAlive(cs, vcs, tabs[x])
  {
    if order == [] then []
    else if ContentAlive(cs, vcs, tabs[order[0]]) then DeadV(cs, vcs, order[1..], tabs)
    else [order[0]] + DeadV(cs, vcs, order[1..], tabs)
  }

  /** Extras pruned everywhere, then the tabs whose anchor died closed. */
  function SetContextsV(v: View, cs: seq<string>, vcs: seq<VirtualContext>): View
    requires forall id :: id in v.order ==> id in v.tabs
  {
    var p := PruneV(v, cs);
    CloseV(p, DeadV(cs, vcs, p.order, p.tabs))
  }

  // ----- Each reducer computes its view operation -----

  lemma SwitchRefines(s: AppState, id: string)
    requires Distinct(Ids(s.openTabs))
    ensures ViewOf(SwitchToTab(s, id)) == SwitchV(ViewOf(s), id)
    ensures SwitchToTab(s, id) != s ==> UpToDate(SwitchToTab(s, id))
  {
    var k := IndexOf(Ids(s.openTabs), id);
    if s.activeTabId != Some(id) && k < |s.openTabs| {
      StashContents(s);
      assert StashActive(s)[k] == s.openTabs[k];
      ActivateView(s, StashActive(s), k);
    }
  }

  /** The list handed to `focusAfterClose` holds the current copy of the active
      tab, if that tab is to stay. */
  predicate Current(s: AppState, stashed: seq<ClusterTab>, closeIds: seq<string>) {
    s.activeTabId.Some? ==>
      && s.activeTabId.value in Ids(stashed)
      && (s.activeTabId.value !in closeIds ==> Contents(stashed)[s.activeTabId.value] == LiveContent(s))
  }

  function ListView(s: AppState, stashed: seq<ClusterTab>): View {
    View(Ids(stashed), Contents(stashed), s.activeTabId, if s.activeTabId.None? then LiveContent(s) else FLEET_CONTENT)
  }

  lemma NeighbourAt(order: seq<string>, id: string, left: nat)
    requires left > 0 && id in order
    ensures Neighbour(order, id, left) == if IndexOf(order, id) < left then IndexOf(order, id) else left - 1
  {
  }

  /** The named tabs gone, the active one among them: the focus moves. */
  lemma FocusMoves(s: AppState, stashed: seq<ClusterTab>, closeIds: seq<string>)
    requires Distinct(Ids(stashed)) && s.activeTabId.Some? && s.activeTabId.value in Ids(stashed)
    requires s.activeTabId.value in closeIds && KeepTabs(stashed, closeIds) != []
    ensures ViewOf(FocusAfterClose(s, stashed, closeIds)) == CloseV(ListView(s, stashed), closeIds)
    ensures UpToDate(FocusAfterClose(s, stashed, closeIds))
  {
    hide LiveContent, Tabs.Activate, Tabs.Fleet, Contents, IndexOf, Neighbour, UpToDate, ViewOf, Distinct, KeepTabs, Without;
    var remaining := KeepTabs(stashed, closeIds);
    KeepContents(stashed, closeIds);
    NeighbourAt(Ids(stashed), s.activeTabId.value, |remaining|);
    ActivateView(s, remaining, Neighbour(Ids(stashed), s.activeTabId.value, |remaining|));
  }

  /** The active tab stays, or there is none. */
  lemma FocusStays(s: AppState, stashed: seq<ClusterTab>, closeIds: seq<string>)
    requires Distinct(Ids(stashed)) && Current(s, stashed, closeIds)
    requires s.activeTabId.Some? ==> s.activeTabId.value !in closeIds
    ensures ViewOf(s.(openTabs := KeepTabs(stashed, closeIds))) == CloseV(ListView(s, stashed), closeIds)
    ensures UpToDate(s.(openTabs := KeepTabs(stashed, closeIds)))
  {
    hide LiveContent, Contents, UpToDate, ViewOf;
    var remaining := KeepTabs(stashed, closeIds);
    KeepContents(stashed, closeIds);
    LiveSetTabs(s, remaining);
    if s.activeTabId.None? {
      IdleView(s.(openTabs := remaining));
    } else {
      var k := IndexOf(Ids(remaining), s.activeTabId.value);
      ContentsAt(remaining, k);
      SettledView(s.(openTabs := remaining), k);
    }
  }

  lemma FocusRefines(s: AppState, stashed: seq<ClusterTab>, closeIds: seq<string>)
    requires Distinct(Ids(stashed)) && Current(s, stashed, closeIds)
    ensures ViewOf(FocusAfterClose(s, stashed, closeIds)) == CloseV(ListView(s, stashed), closeIds)
    ensures UpToDate(FocusAfterClose(s, stashed, closeIds))
  {
    hide LiveContent, Tabs.Activate, Tabs.Fleet, Contents, IndexOf, Neighbour, UpToDate, ViewOf;
    KeepContents(stashed, closeIds);
    LiveFleet(s);
    if s.activeTabId.None? || s.activeTabId.value !in closeIds {
      FocusStays(s, stashed, closeIds);
    } else if KeepTabs(stashed, closeIds) != [] {
      FocusMoves(s, stashed, closeIds);
    } else {
      IdleView(Fleet(s));
    }
  }

  lemma IdleView(r: AppState)
    requires Distinct(Ids(r.openTabs)) && r.activeTabId.None?
    ensures ViewOf(r) == View(Ids(r.openTabs), Contents(r.openTabs), None, LiveContent(r))
    ensures UpToDate(r)
  {
    forall i | 0 <= i < |r.openTabs| ensures Contents(r.openTabs)[Ids(r.openTabs)[i]] == ContentAt(r, i) {
      ContentsAt(r.openTabs, i);
    }
    ViewBy(r, Contents(r.openTabs));
  }

  lemma StashIsCurrent(s: AppState, closeIds: seq<string>)
    requires Distinct(Ids(s.openTabs))
    requires s.activeTabId.Some? ==> s.activeTabId.value in Ids(s.openTabs)
    ensures Current(s, StashActive(s), closeIds)
    ensures ListView(s, StashActive(s)) == ViewOf(s)
  {
    StashContents(s);
  }

  lemma CloseRefines(s: AppState, id: string)
    requires Distinct(Ids(s.openTabs))
    requires s.activeTabId.Some? ==> s.activeTabId.value in Ids(s.openTabs)
    ensures ViewOf(CloseTab(s, id)) == CloseV(ViewOf(s), [id])
    ensures UpToDate(CloseTab(s, id))
  {
    StashIsCurrent(s, [id]);
    FocusRefines(s, StashActive(s), [id]);
  }

  lemma AppendRefines(s: AppState, t: ClusterTab)
    requires Distinct(Ids(s.openTabs)) && t.id !in Ids(s.openTabs)
    ensures ViewOf(Activate(s, StashActive(s) + [t], t)) == AppendV(ViewOf(s), t.id, ContentOf(t))
    ensures UpToDate(Activate(s, StashActive(s) + [t], t))
  {
    hide ViewOf, LiveContent, ContentOf, Tabs.Activate, Contents, Tabs.Stashed;
    var tabs := StashActive(s) + [t];
    StashContents(s);
    AppendContents(StashActive(s), t);
    ActivateView(s, tabs, |tabs| - 1);
  }

  lemma AppendContents(tabs: seq<ClusterTab>, t: ClusterTab)
    requires Distinct(Ids(tabs)) && t.id !in Ids(tabs)
    ensures Ids(tabs + [t]) == Ids(tabs) + [t.id]
    ensures Distinct(Ids(tabs + [t]))
    ensures Contents(tabs + [t]) == Contents(tabs)[t.id := ContentOf(t)]
  {
    hide ContentOf, Contents;
    var all, m := tabs + [t], Contents(tabs)[t.id := ContentOf(t)];
    assert Ids(all) == Ids(tabs) + [t.id];
    DistinctSnoc(Ids(tabs), t.id);
    forall i | 0 <= i < |all| ensures m[Ids(all)[i]] == ContentOf(all[i]) {
      if i < |tabs| { ContentsAt(tabs, i); }
    }
    ContentsBy(all, m);
  }

  lemma ContentsConcat(a: seq<ClusterTab>, b: seq<ClusterTab>)
    requires Distinct(Ids(a) + Ids(b))
    ensures Ids(a + b) == Ids(a) + Ids(b)
    ensures Contents(a + b) == Contents(a) + Contents(b)
  {
    hide ContentOf, Contents;
    DistinctConcat(Ids(a), Ids(b));
    var all, m := a + b, Contents(a) + Contents(b);
    assert Ids(all) == Ids(a) + Ids(b);
    forall i | 0 <= i < |all| ensures m[Ids(all)[i]] == ContentOf(all[i]) {
      if i < |a| {
        ContentsAt(a, i);
        assert Ids(a)[i] in Ids(a);
      } else {
        ContentsAt(b, i - |a|);
      }
    }
    ContentsBy(all, m);
  }

  lemma EditLiveRefines(s: AppState, e: SliceEdit)
    requires Distinct(Ids(s.openTabs))
    requires s.activeTabId.Some? ==> s.activeTabId.value in Ids(s.openTabs)
    ensures ViewOf(EditLive(s, e)) == EditV(ViewOf(s), None, e)
  {
    hide ViewOf, LiveContent, EditContent, Tabs.EditLive;
    var r, v := EditLive(s, e), ViewOf(s);
    LiveEdit(s, e);
    if s.activeTabId.Some? {
      ViewAt(s, IndexOf(Ids(s.openTabs), s.activeTabId.value));
    }
    var m := EditV(v, None, e).tabs;
    forall i | 0 <= i < |r.openTabs| ensures m[Ids(r.openTabs)[i]] == ContentAt(r, i) {
      ViewAt(s, i);
    }
    ViewBy(r, m);
  }

  lemma PatchAt(s: AppState, id: string, e: SliceEdit, i: nat)
    requires s.activeTabId != Some(id) && i < |s.openTabs|
    ensures |PatchTab(s, Some(id), e).openTabs| == |Ids(PatchTab(s, Some(id), e).openTabs)|
    ensures ContentAt(PatchTab(s, Some(id), e), i)
         == if s.openTabs[i].id == id then EditContent(ContentAt(s, i), e) else ContentAt(s, i)
  {
    hide LiveContent, Slices.Edited;
    LiveSetTabs(s, MapTab(s.openTabs, id, e));
  }

  lemma PatchRefines(s: AppState, tabId: Option<string>, e: SliceEdit)
    requires Distinct(Ids(s.openTabs))
    requires s.activeTabId.Some? ==> s.activeTabId.value in Ids(s.openTabs)
    ensures ViewOf(PatchTab(s, tabId, e)) == EditV(ViewOf(s), tabId, e)
  {
    hide ViewOf, LiveContent, ContentAt, EditContent, Tabs.EditLive;
    if tabId.None? || tabId == s.activeTabId {
      EditLiveRefines(s, e);
    } else {
      var r := PatchTab(s, tabId, e);
      var m := EditV(ViewOf(s), tabId, e).tabs;
      forall i | 0 <= i < |r.openTabs| ensures m[Ids(r.openTabs)[i]] == ContentAt(r, i) {
        ViewAt(s, i);
        PatchAt(s, tabId.value, e, i);
      }
      ViewBy(r, m);
      LiveSetTabs(s, r.openTabs);
    }
  }

  /** No dock tab id belongs to two logical tabs. */
  ghost predicate OneOwner(v: View) {
    forall a, b, x :: a in v.tabs && b in v.tabs && x in DockIds(v.tabs[a].slice) && x in DockIds(v.tabs[b].slice) ==> a == b
  }

  /** An edit routed by ownership reaches exactly the owning tab. Patching a
      stale copy of the active tab is possible, and invisible. */
  lemma OwnerRefines(s: AppState, id: string, e: SliceEdit)
    requires Distinct(Ids(s.openTabs)) && OneOwner(ViewOf(s))
    requires s.activeTabId.Some? ==> s.activeTabId.value in Ids(s.openTabs)
    requires s.activeTabId.None? ==> s.openTabs == []
    ensures ViewOf(EditOwner(s, id, e)) == OwnerV(ViewOf(s), id, e)
  {
    hide ViewOf, LiveContent, ContentAt, OwnedEdit, Tabs.EditOwner;
    var r := EditOwner(s, id, e);
    FleetOwnsNothing(id, e);
    var m := OwnerV(ViewOf(s), id, e).tabs;
    forall i | 0 <= i < |r.openTabs| ensures m[Ids(r.openTabs)[i]] == ContentAt(r, i) {
      ViewAt(s, i);
      OwnerAt(s, id, e, i);
    }
    ViewBy(r, m);
    OwnerLive(s, id, e);
  }

  lemma FleetOwnsNothing(id: string, e: SliceEdit)
    ensures OwnedEdit(FLEET_CONTENT, id, e) == FLEET_CONTENT
  {
  }

  lemma OwnerLive(s: AppState, id: string, e: SliceEdit)
    ensures LiveContent(EditOwner(s, id, e)) == OwnedEdit(LiveContent(s), id, e)
  {
    hide Slices.Edited;
    if id in Dock.Ids(s.dockTabs) {
      LiveEdit(s, e);
      hide LiveContent, EditContent;
    } else {
      LiveSetTabs(s, MapOwners(s.openTabs, id, e));
    }
  }

  lemma OwnerAt(s: AppState, id: string, e: SliceEdit, i: nat)
    requires Distinct(Ids(s.openTabs)) && OneOwner(ViewOf(s)) && i < |s.openTabs|
    requires s.activeTabId.Some? && s.activeTabId.value in Ids(s.openTabs)
    ensures |EditOwner(s, id, e).openTabs| == |Ids(EditOwner(s, id, e).openTabs)|
    ensures ContentAt(EditOwner(s, id, e), i) == OwnedEdit(ContentAt(s, i), id, e)
  {
    hide ViewOf, LiveContent, Slices.Edited, Tabs.EditLive;
    OwnerLive(s, id, e);
    if id in Dock.Ids(s.dockTabs) {
      LiveOwnsAlone(s, id, i);
      hide EditContent;
    }
  }

  /** A dock tab of the live copy is in no other tab's current copy. */
  lemma LiveOwnsAlone(s: AppState, id: string, i: nat)
    requires Distinct(Ids(s.openTabs)) && OneOwner(ViewOf(s)) && i < |s.openTabs|
    requires s.activeTabId.Some? && s.activeTabId.value in Ids(s.openTabs)
    requires id in Dock.Ids(s.dockTabs)
    ensures s.openTabs[i].id != s.activeTabId.value ==> id !in Dock.Ids(s.openTabs[i].slice.dockTabs)
  {
    hide ViewOf;
    var k := IndexOf(Ids(s.openTabs), s.activeTabId.value);
    ViewAt(s, i);
    ViewAt(s, k);
    assert id in DockIds(ViewOf(s).tabs[s.openTabs[k].id].slice);
  }

  lemma PruneContents(tabs: seq<ClusterTab>, cs: seq<string>)
    requires Distinct(Ids(tabs))
    ensures Contents(PruneAll(tabs, cs)) == map id | id in Contents(tabs) :: PruneContent(Contents(tabs)[id], cs)
  {
    forall id | id in Ids(tabs) ensures Contents(PruneAll(tabs, cs))[id] == PruneContent(Contents(tabs)[id], cs) {
      var i := IndexOf(Ids(tabs), id);
      ContentsAt(tabs, i);
      ContentsAt(PruneAll(tabs, cs), i);
    }
  }

  lemma {:induction false} DeadIdsRefine(cs: seq<string>, vcs: seq<VirtualContext>, tabs: seq<ClusterTab>, m: map<string, Content>)
    requires forall i :: 0 <= i < |tabs| ==> tabs[i].id in m && m[tabs[i].id] == ContentOf(tabs[i])
    ensures DeadIds(cs, vcs, tabs) == DeadV(cs, vcs, Ids(tabs), m)
  {
    if tabs != [] {
      assert Ids(tabs)[1..] == Ids(tabs[1..]);
      DeadIdsRefine(cs, vcs, tabs[1..], m);
    }
  }

  lemma SetContextsRefines(s: AppState, cs: seq<string>)
    requires Distinct(Ids(s.openTabs))
    requires s.activeTabId.Some? ==> s.activeTabId.value in Ids(s.openTabs)
    requires s.activeTabId.None? ==> s.selectedContext.None? && s.selectedVirtualContextId.None? && s.scopeExtras == []
    ensures ViewOf(SetContexts(s, cs)) == SetContextsV(ViewOf(s), cs, s.virtualContexts)
    ensures UpToDate(SetContexts(s, cs))
  {
    var stash := StashActive(s);
    var stashed := PruneAll(stash, cs);
    StashContents(s);
    PruneContents(stash, cs);
    var p := PruneV(ViewOf(s), cs);
    assert Contents(stashed) == p.tabs;
    forall i | 0 <= i < |stashed| ensures stashed[i].id in p.tabs && p.tabs[stashed[i].id] == ContentOf(stashed[i]) {
      ContentsAt(stashed, i);
    }
    DeadIdsRefine(cs, s.virtualContexts, stashed, p.tabs);
    SetContextsFocus(s, cs, stashed, DeadIds(cs, s.virtualContexts, stashed));
  }

  lemma SetContextsFocus(s: AppState, cs: seq<string>, stashed: seq<ClusterTab>, dead: seq<string>)
    requires Distinct(Ids(s.openTabs))
    requires s.activeTabId.Some? ==> s.activeTabId.value in Ids(s.openTabs)
    requires s.activeTabId.None? ==> s.selectedContext.None? && s.selectedVirtualContextId.None? && s.scopeExtras == []
    requires stashed == PruneAll(StashActive(s), cs) && dead == DeadIds(cs, s.virtualContexts, stashed)
    requires Contents(stashed) == PruneV(ViewOf(s), cs).tabs
    ensures ViewOf(SetContexts(s, cs)) == CloseV(PruneV(ViewOf(s), cs), dead)
    ensures UpToDate(SetContexts(s, cs))
  {
    var mirrorAlive := AnchorAlive(cs, s.virtualContexts, s.selectedContext, s.selectedVirtualContextId, s.dockTabs);
    var base := s.(contexts := cs,
                selectedContext := if mirrorAlive then s.selectedContext else None,
                selectedVirtualContextId := if mirrorAlive then s.selectedVirtualContextId else None,
                scopeExtras := if mirrorAlive then Within(s.scopeExtras, cs) else []);
    if s.activeTabId.Some? {
      var k := IndexOf(Ids(s.openTabs), s.activeTabId.value);
      assert stashed[k] in stashed && stashed[k].id == s.activeTabId.value;
      assert TabAlive(cs, s.virtualContexts, stashed[k]) == mirrorAlive;
      ContentsAt(stashed, k);
      assert mirrorAlive ==> LiveContent(base) == ContentOf(stashed[k]);
    } else {
      assert LiveContent(base) == LiveContent(s);
    }
    assert Current(base, stashed, dead);
    FocusRefines(base, stashed, dead);
    assert SetContexts(s, cs) == FocusAfterClose(base, stashed, dead);
    assert ListView(base, stashed) == PruneV(ViewOf(s), cs);
  }

  // ----- Anchors -----

  function AnchorOf(c: Content): Anchor {
    if c.selectedVirtualContextId.Some? then Virtual(c.selectedVirtualContextId.value)
    else Context(if c.selectedContext.Some? then c.selectedContext.value else "")
  }

  /** The stored entry of the active tab has the live copy's anchor (its extras
      and slice may be stale). */
  predicate Coupled(s: AppState) {
    forall i :: 0 <= i < |s.openTabs| && s.activeTabId == Some(s.openTabs[i].id) ==>
      && s.openTabs[i].selectedContext == s.selectedContext
      && s.openTabs[i].selectedVirtualContextId == s.selectedVirtualContextId
  }

  predicate ContentHas(c: Content, a: Anchor) {
    match a
    case Context(x) => c.selectedContext == Some(x) && c.selectedVirtualContextId == None
    case Virtual(x) => c.selectedVirtualContextId == Some(x)
  }

  function FindV(order: seq<string>, tabs: map<string, Content>, a: Anchor): (r: Option<string>)
    requires forall id :: id in order ==> id in tabs
    ensures r.Some? ==> r.value in order && ContentHas(tabs[r.value], a)
    ensures r.None? ==> forall id :: id in order ==> !ContentHas(tabs[id], a)
  {
    if order == [] then None
    else if ContentHas(tabs[order[0]], a) then Some(order[0])
    else FindV(order[1..], tabs, a)
  }

  function AnchoredV(order: seq<string>, tabs: map<string, Content>, id: string): (r: seq<string>)
    requires forall x :: x in order ==> x in tabs
    ensures forall x :: x in r <==> x in order && tabs[x].selectedVirtualContextId == Some(id)
  {
    if order == [] then []
    else if tabs[order[0]].selectedVirtualContextId == Some(id) then [order[0]] + AnchoredV(order[1..], tabs, id)
    else AnchoredV(order[1..], tabs, id)
  }

  /** Opening an anchor that is already open switches to it; opening a new one
      appends one tab with an empty slice; an unknown virtual context is refused. */
  function OpenV(v: View, a: Anchor, uuid: string, kinds: seq<string>, vcs: seq<VirtualContext>): View
    requires forall id :: id in v.order ==> id in v.tabs
  {
    var existing := FindV(v.order, v.tabs, a);
    if existing.Some? then SwitchV(v, existing.value)
    else if a.Virtual? && a.virtualId !in VirtualIds(vcs) then v
    else AppendV(v, uuid, FreshContent(a, kinds))
  }

  function FreshContent(a: Anchor, kinds: seq<string>): Content {
    Content(if a.Context? then Some(a.contextId) else None,
            if a.Virtual? then Some(a.virtualId) else None,
            [],
            EMPTY_SLICE.(selectedKindId := if kinds == [] then None else Some(kinds[0])))
  }

  function DeleteVirtualV(v: View, id: string): View
    requires forall x :: x in v.order ==> x in v.tabs
  {
    CloseV(v, AnchoredV(v.order, v.tabs, id))
  }

  function SessionContent(c: Content, id: string, slices: map<string, RestoredSlice>): Content {
    if id in slices && Untouched(c.slice) then c.(slice := Merge(c.slice, slices[id])) else c
  }

  /** Every tab the session knows and the operator has not touched gets its
      saved dock and drawers; no other tab changes. */
  function SessionV(v: View, slices: map<string, RestoredSlice>): View {
    v.(tabs := map id | id in v.tabs :: SessionContent(v.tabs[id], id, slices))
  }

  predicate SameAnchors(t: ClusterTab, c: Content) {
    t.selectedContext == c.selectedContext && t.selectedVirtualContextId == c.selectedVirtualContextId
  }

  lemma CoupledAnchors(s: AppState, i: nat)
    requires Distinct(Ids(s.openTabs)) && Coupled(s) && i < |s.openTabs|
    ensures SameAnchors(s.openTabs[i], ViewOf(s).tabs[s.openTabs[i].id])
  {
    ViewAt(s, i);
  }

  lemma {:induction false} FindRefines(tabs: seq<ClusterTab>, m: map<string, Content>, a: Anchor)
    requires forall i :: 0 <= i < |tabs| ==> Ids(tabs)[i] in m && SameAnchors(tabs[i], m[Ids(tabs)[i]])
    ensures FindAnchor(tabs, a) == FindV(Ids(tabs), m, a)
  {
    if tabs != [] {
      assert Ids(tabs)[1..] == Ids(tabs[1..]);
      FindRefines(tabs[1..], m, a);
    }
  }

  lemma {:induction false} AnchoredRefines(tabs: seq<ClusterTab>, m: map<string, Content>, id: string)
    requires forall i :: 0 <= i < |tabs| ==> Ids(tabs)[i] in m && SameAnchors(tabs[i], m[Ids(tabs)[i]])
    ensures AnchoredOn(tabs, id) == AnchoredV(Ids(tabs), m, id)
  {
    if tabs != [] {
      assert Ids(tabs)[1..] == Ids(tabs[1..]);
      AnchoredRefines(tabs[1..], m, id);
    }
  }

  lemma OpenRefines(s: AppState, a: Anchor, uuid: string)
    requires Distinct(Ids(s.openTabs)) && Coupled(s) && uuid !in Ids(s.openTabs)
    ensures ViewOf(OpenTab(s, a, uuid)) == OpenV(ViewOf(s), a, uuid, s.kinds, s.virtualContexts)
    ensures OpenTab(s, a, uuid) != s ==> UpToDate(OpenTab(s, a, uuid))
  {
    hide ViewOf, Tabs.Activate, UpToDate;
    var m := ViewOf(s).tabs;
    forall i | 0 <= i < |s.openTabs| ensures Ids(s.openTabs)[i] in m && SameAnchors(s.openTabs[i], m[Ids(s.openTabs)[i]]) {
      CoupledAnchors(s, i);
    }
    FindRefines(s.openTabs, m, a);
    var existing := FindAnchor(s.openTabs, a);
    if existing.Some? {
      SwitchRefines(s, existing.value);
    } else if !(a.Virtual? && a.virtualId !in VirtualIds(s.virtualContexts)) {
      AppendRefines(s, FreshTab(s, a, uuid));
    }
  }

  lemma CloseNothing(v: View)
    ensures CloseV(v, []) == v
  {
    WithoutAbsent(v.order, []);
    assert v.tabs - (set x: string | x in []) == v.tabs;
  }

  lemma LiveVirtuals(s: AppState, vcs: seq<VirtualContext>)
    ensures LiveContent(s.(virtualContexts := vcs)) == LiveContent(s)
    ensures ViewOf(s.(virtualContexts := vcs)) == ViewOf(s)
  {
  }

  lemma DeleteVirtualRefines(s: AppState, id: string)
    requires Distinct(Ids(s.openTabs)) && Coupled(s)
    requires s.activeTabId.Some? ==> s.activeTabId.value in Ids(s.openTabs)
    ensures ViewOf(DeleteVirtualContext(s, id)) == DeleteVirtualV(ViewOf(s), id)
    ensures AnchoredOn(s.openTabs, id) != [] ==> UpToDate(DeleteVirtualContext(s, id))
  {
    hide ViewOf, LiveContent, Tabs.FocusAfterClose, UpToDate, Contents;
    var m := ViewOf(s).tabs;
    forall i | 0 <= i < |s.openTabs| ensures Ids(s.openTabs)[i] in m && SameAnchors(s.openTabs[i], m[Ids(s.openTabs)[i]]) {
      CoupledAnchors(s, i);
    }
    AnchoredRefines(s.openTabs, m, id);
    var closeIds := AnchoredOn(s.openTabs, id);
    var s' := s.(virtualContexts := WithoutVirtual(s.virtualContexts, id));
    LiveVirtuals(s, s'.virtualContexts);
    if closeIds == [] {
      CloseNothing(ViewOf(s));
    } else {
      StashIsCurrent(s, closeIds);
      FocusRefines(s', StashActive(s), closeIds);
    }
  }

  lemma LiveMerge(s: AppState, tabs: seq<ClusterTab>, sl: ScopeSlice)
    ensures LiveContent(Spread(s.(openTabs := tabs), sl)) == LiveContent(s).(slice := sl)
  {
  }

  lemma SessionLive(s: AppState, slices: map<string, RestoredSlice>)
    requires s.activeTabId.Some? ==> s.activeTabId.value != ""
    ensures var r := HydrateSession(s, slices);
            && |r.openTabs| == |s.openTabs| && r.activeTabId == s.activeTabId
            && (forall i :: 0 <= i < |s.openTabs| ==> r.openTabs[i] == Rehydrated(s, s.openTabs[i], slices))
            && (s.activeTabId.Some? ==> LiveContent(r) == SessionContent(LiveContent(s), s.activeTabId.value, slices))
            && (s.activeTabId.None? ==> LiveContent(r) == LiveContent(s))
  {
    hide Tabs.Merge, Tabs.RehydrateAll;
    var tabs := RehydrateAll(s, slices);
    LiveSetTabs(s, tabs);
    if s.activeTabId.Some? && s.activeTabId.value in slices {
      LiveMerge(s, tabs, Merge(Capture(s), slices[s.activeTabId.value]));
    }
  }

  lemma SessionRefines(s: AppState, slices: map<string, RestoredSlice>)
    requires Distinct(Ids(s.openTabs))
    requires s.activeTabId.Some? ==> s.activeTabId.value != ""
    ensures ViewOf(HydrateSession(s, slices)) == SessionV(ViewOf(s), slices)
    ensures Ids(HydrateSession(s, slices).openTabs) == Ids(s.openTabs)
  {
    hide ViewOf, LiveContent, Tabs.HydrateSession, Tabs.Merge;
    var r := HydrateSession(s, slices);
    SessionLive(s, slices);
    assert Ids(r.openTabs) == Ids(s.openTabs);
    var m := SessionV(ViewOf(s), slices).tabs;
    forall i | 0 <= i < |r.openTabs| ensures m[Ids(r.openTabs)[i]] == ContentAt(r, i) {
      ViewAt(s, i);
    }
    ViewBy(r, m);
  }
}

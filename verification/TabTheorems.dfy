/** The main results about cluster tabs, stated on the store and its logical
    contents. */
module TabTheorems {
  import opened Lists
  import opened Scope
  import opened Slices
  import opened Tabs
  import opened Views
  import opened Invariants
  import opened Runs
  import RT = PrefsRoundTrip
  import M = PrefsMerge
  import P = Prefs
  import Dock

  // ----- Reachable states -----

  lemma FreshStoreOk(contexts: seq<string>, kinds: seq<string>)
    ensures Inv(RT.FreshStore(contexts, kinds))
  {
    hide ContentOk;
    var s := RT.FreshStore(contexts, kinds);
    M.NoContents();
    FleetContentOk();
    assert ViewOf(s) == NO_TABS;
    NoTabsOk([]);
  }

  /** Every state a run of allowed actions reaches from a fresh store has a well
      formed tab set and well formed docks, drawers and trays in every tab, read
      from whichever copy is current. */
  lemma ReachableOk(contexts: seq<string>, kinds: seq<string>, actions: seq<Action>)
    requires RunAllowed(ModelOf(RT.FreshStore(contexts, kinds)), actions)
    ensures var r := Run(RT.FreshStore(contexts, kinds), actions);
            && TabSetOk(ViewOf(r), r.virtualContexts)
            && ContentsOk(ViewOf(r))
            && Coupled(r)
            && ModelOf(r) == RunM(ModelOf(RT.FreshStore(contexts, kinds)), actions)
  {
    hide ViewOf, TabSetOk, ContentsOk, Coupled, Run, RunM, RunAllowed, RT.FreshStore;
    FreshStoreOk(contexts, kinds);
    RunRefines(RT.FreshStore(contexts, kinds), actions);
  }

  // ----- Switching back and forth -----

  function SwitchAll(s: AppState, route: seq<string>): AppState
    decreases route
  {
    if route == [] then s else SwitchAll(SwitchToTab(s, route[0]), route[1..])
  }

  /** Two lists of tabs with the same ids and contents are the same list. */
  lemma ListDetermined(a: seq<ClusterTab>, b: seq<ClusterTab>)
    requires Distinct(Ids(a)) && Ids(a) == Ids(b) && Contents(a) == Contents(b)
    ensures a == b
  {
    assert |a| == |Ids(a)| == |b|;
    forall i | 0 <= i < |a| ensures a[i] == b[i] {
      ContentsAt(a, i);
      ContentsAt(b, i);
      assert a[i].id == Ids(a)[i] == Ids(b)[i];
    }
  }

  /** A store is its environment, its tab list, its focus and its live copy. */
  lemma StoreDetermined(r: AppState, s: AppState)
    requires EnvOf(r) == EnvOf(s) && r.activeTabId == s.activeTabId && LiveContent(r) == LiveContent(s)
    ensures r.(openTabs := s.openTabs) == s
  {
  }

  lemma {:induction false} SwitchAllView(s: AppState, route: seq<string>)
    requires Distinct(Ids(s.openTabs)) && s.activeTabId.Some? && s.activeTabId.value in Ids(s.openTabs)
    ensures var r := SwitchAll(s, route);
            && r.activeTabId.Some? && r.activeTabId.value in Ids(s.openTabs)
            && ViewOf(r) == ViewOf(s).(active := r.activeTabId)
            && EnvOf(r) == EnvOf(s)
            && (UpToDate(s) ==> UpToDate(r))
    decreases route
  {
    hide ViewOf, UpToDate, EnvOf, Tabs.SwitchToTab;
    if route != [] {
      var t := SwitchToTab(s, route[0]);
      SwitchRefines(s, route[0]);
      SwitchEnv(s, route[0]);
      SwitchFocus(s, route[0]);
      SwitchAllView(t, route[1..]);
    }
  }

  lemma SwitchFocus(s: AppState, id: string)
    requires s.activeTabId.Some? && s.activeTabId.value in Ids(s.openTabs)
    ensures var t := SwitchToTab(s, id);
            && Ids(t.openTabs) == Ids(s.openTabs)
            && t.activeTabId.Some? && t.activeTabId.value in Ids(t.openTabs)
  {
    hide Tabs.Activate, LiveContent;
    var k := IndexOf(Ids(s.openTabs), id);
    if k < |s.openTabs| { LiveActivate(s, StashActive(s), s.openTabs[k]); }
  }

  /** Any sequence of switches that ends on the tab it began with restores the
      live copy and every other top-level field exactly, and loses nothing: once
      stashed, the tab lists agree too. From an up-to-date state it is a no-op. */
  lemma SwitchesRestore(s: AppState, route: seq<string>)
    requires Inv(s) && s.activeTabId.Some?
    requires SwitchAll(s, route).activeTabId == s.activeTabId
    ensures var r := SwitchAll(s, route);
            && r.(openTabs := s.openTabs) == s
            && StashActive(r) == StashActive(s)
            && (UpToDate(s) ==> r == s)
  {
    hide Inv, ViewOf, EnvOf, Contents, LiveContent, Tabs.Stashed, SwitchAll;
    InvParts(s);
    var r := SwitchAll(s, route);
    SwitchAllView(s, route);
    assert ViewOf(r) == ViewOf(s);
    LiveIsLive(s);
    LiveIsLive(r);
    StoreDetermined(r, s);
    StashContents(s);
    StashContents(r);
    ListDetermined(StashActive(r), StashActive(s));
  }

  // ----- Opening -----

  /** Opening an anchor goes to the tab that has it, if one is open, and changes
      nothing else; a virtual context that is not saved is refused. Otherwise one
      tab is added last and becomes active: on that anchor, without extras, and
      with nothing in it but the first listed kind selected. */
  lemma OpenExact(s: AppState, a: Anchor, uuid: string)
    requires Inv(s) && uuid !in Ids(s.openTabs) && uuid != ""
    ensures var v, r := ViewOf(s), OpenTab(s, a, uuid);
            var w := ViewOf(r);
            && (forall id :: id in v.tabs && AnchorOf(v.tabs[id]) == a ==> w == v.(active := Some(id)))
            && (OpenNew(v, a) ==>
                  if a.Virtual? && a.virtualId !in VirtualIds(s.virtualContexts) then r == s
                  else
                    && w.order == v.order + [uuid] && w.active == Some(uuid) && uuid in w.tabs
                    && (forall id :: id in v.tabs ==> id in w.tabs && w.tabs[id] == v.tabs[id])
                    && w.tabs[uuid].selectedContext == (if a.Context? then Some(a.contextId) else None)
                    && w.tabs[uuid].selectedVirtualContextId == (if a.Virtual? then Some(a.virtualId) else None)
                    && w.tabs[uuid].scopeExtras == []
                    && w.tabs[uuid].slice == EMPTY_SLICE.(selectedKindId := if s.kinds == [] then None else Some(s.kinds[0])))
  {
    hide Inv, InvM, Coupled, OneOwner, ViewOf, UpToDate, Tabs.OpenTab, ContentsOk, TabSetOk, AnchorOf, Views.OpenV, Slices.EMPTY_SLICE;
    InvParts(s);
    OpenRefines(s, a, uuid);
    TabsInOrder(s);
    OpenedView(ViewOf(s), a, uuid, s.kinds, s.virtualContexts);
    if OpenNew(ViewOf(s), a) && a.Virtual? && a.virtualId !in VirtualIds(s.virtualContexts) { OpenRefused(s, a, uuid); }
  }

  lemma TabsInOrder(s: AppState)
    requires Inv(s)
    ensures TabSetOk(ViewOf(s), s.virtualContexts)
  {
    hide ViewOf, TabSetOk, ContentsOk, Coupled;
  }

  /** No tab is open on this anchor. */
  predicate OpenNew(v: View, a: Anchor) {
    forall id :: id in v.tabs ==> AnchorOf(v.tabs[id]) != a
  }

  lemma HasIff(c: Content, a: Anchor, vcs: seq<VirtualContext>)
    requires AnchorOk(c, vcs)
    ensures ContentHas(c, a) <==> AnchorOf(c) == a
  {
  }

  lemma OpenedView(v: View, a: Anchor, uuid: string, kinds: seq<string>, vcs: seq<VirtualContext>)
    requires TabSetOk(v, vcs) && uuid !in v.order
    ensures var w := OpenV(v, a, uuid, kinds, vcs);
            && (forall id :: id in v.tabs && AnchorOf(v.tabs[id]) == a ==> w == v.(active := Some(id)))
            && (OpenNew(v, a) && !(a.Virtual? && a.virtualId !in VirtualIds(vcs)) ==>
                  w == View(v.order + [uuid], v.tabs[uuid := FreshContent(a, kinds)], Some(uuid), FLEET_CONTENT))
  {
    hide AnchorOf, AnchorOk, ContentHas, FreshContent;
    forall id | id in v.tabs ensures ContentHas(v.tabs[id], a) <==> AnchorOf(v.tabs[id]) == a { HasIff(v.tabs[id], a, vcs); }
    var found := FindV(v.order, v.tabs, a);
    if found.Some? {
      assert found.value in v.tabs;
      assert v.idle == FLEET_CONTENT;
    }
  }

  lemma FoundIsOpen(s: AppState, a: Anchor)
    requires Inv(s) && FindAnchor(s.openTabs, a).Some?
    ensures !OpenNew(ViewOf(s), a)
  {
    hide Inv, InvM, OneOwner, ViewOf, ContentsOk, AnchorOf, HasAnchor, SameAnchors;
    InvParts(s);
    var found := FindAnchor(s.openTabs, a);
    var t :| t in s.openTabs && HasAnchor(t, a) && t.id == found.value;
    var i :| 0 <= i < |s.openTabs| && s.openTabs[i] == t;
    ViewAt(s, i);
    CoupledAnchors(s, i);
    HasAnchorOf(t, ViewOf(s).tabs[t.id], a);
  }

  lemma OpenRefused(s: AppState, a: Anchor, uuid: string)
    requires Inv(s) && OpenNew(ViewOf(s), a) && a.Virtual? && a.virtualId !in VirtualIds(s.virtualContexts)
    ensures OpenTab(s, a, uuid) == s
  {
    hide Inv, ViewOf, OpenNew, FindAnchor, Tabs.SwitchToTab, Tabs.Activate;
    if FindAnchor(s.openTabs, a).Some? { FoundIsOpen(s, a); }
  }

  lemma HasAnchorOf(t: ClusterTab, c: Content, a: Anchor)
    requires HasAnchor(t, a) && SameAnchors(t, c)
    ensures AnchorOf(c) == a
  {
  }

  // ----- Closing -----

  lemma {:induction false} WithoutOne(order: seq<string>, k: nat)
    requires Distinct(order) && k < |order|
    ensures Without(order, [order[k]]) == order[..k] + order[k + 1..]
  {
    DistinctTail(order);
    if k == 0 {
      WithoutAbsent(order[1..], [order[0]]);
    } else {
      WithoutOne(order[1..], k - 1);
      assert order[1..][k - 1] == order[k];
      assert order[1..][..k - 1] == order[1..k] && order[1..][k..] == order[k + 1..];
      assert order[..k] == [order[0]] + order[1..k];
    }
  }

  lemma CloseOne(v: View, k: nat)
    requires Distinct(v.order) && k < |v.order| && WellPointed(v)
    ensures CloseV(v, [v.order[k]]).order == v.order[..k] + v.order[k + 1..]
    ensures CloseV(v, [v.order[k]]).tabs == v.tabs - {v.order[k]}
    ensures CloseV(v, [v.order[k]]).active == FocusAfter(v, k)
  {
    hide Without, IndexOf, Distinct;
    var id := v.order[k];
    WithoutOne(v.order, k);
    DistinctIndex(v.order, k);
    assert (set x | x in [id]) == {id};
    if |v.order| == 1 { assert v.tabs - {id} == map[]; }
  }

  /** Where the focus goes when the tab at position `k` closes: it stays unless
      that tab was active; then the tab after it, or the one before if it was the
      last, or nothing if it was alone. */
  function FocusAfter(v: View, k: nat): Option<string>
    requires k < |v.order|
  {
    if v.active != Some(v.order[k]) then v.active
    else if k + 1 < |v.order| then Some(v.order[k + 1])
    else if k > 0 then Some(v.order[k - 1])
    else None
  }

  /** Closing a tab removes it and nothing else, moves the focus only if it was
      the active one, and leaves the live copy stored. */
  lemma CloseExact(s: AppState, k: nat)
    requires Inv(s) && k < |s.openTabs|
    ensures var v, r := ViewOf(s), CloseTab(s, s.openTabs[k].id);
            && ViewOf(r).order == v.order[..k] + v.order[k + 1..]
            && ViewOf(r).tabs == v.tabs - {v.order[k]}
            && ViewOf(r).active == FocusAfter(v, k)
            && UpToDate(r)
  {
    hide Inv, ViewOf, UpToDate, Tabs.CloseTab, Views.CloseV, FocusAfter;
    InvParts(s);
    assert s.openTabs[k].id == ViewOf(s).order[k];
    CloseRefines(s, s.openTabs[k].id);
    CloseOne(ViewOf(s), k);
  }

  lemma CloseFocused(s: AppState, id: string)
    requires Inv(s)
    ensures FocusPlaced(ViewOf(s), ViewOf(CloseTab(s, id)))
  {
    hide Inv, InvM, Coupled, OneOwner, ViewOf, UpToDate, Tabs.CloseTab, Views.CloseV, FocusPlaced;
    InvParts(s);
    CloseRefines(s, id);
    CloseFocus(ViewOf(s), [id]);
  }

  /** Going back to Fleet closes every tab: it loses nothing exactly when no tab is
      open, and then changes nothing unless something was picked on Fleet itself. */
  lemma GoFleetIff(s: AppState)
    requires Inv(s)
    ensures ViewOf(Fleet(s)) == NO_TABS
    ensures ViewOf(Fleet(s)).tabs == ViewOf(s).tabs <==> s.openTabs == []
    ensures ViewOf(Fleet(s)) == ViewOf(s) <==> s.openTabs == [] && Capture(s) == EMPTY_SLICE
  {
    hide Inv, ViewOf, LiveContent, Tabs.Fleet, Tabs.Capture, OneOwner, Coupled, InvM;
    InvParts(s);
    FleetView(s);
    LiveFields(s);
    if s.openTabs != [] {
      assert Ids(s.openTabs)[0] in ViewOf(s).order;
    } else {
      M.NoContents();
      IdleView(s);
    }
  }

  // ----- Edits routed by dock tab -----

  /** A dock edit addressed by dock-tab id changes the one tab that owns the dock
      tab, and leaves every other tab and the focus alone; if no tab owns it,
      nothing changes. */
  lemma OwnerTouchesOne(s: AppState, id: string, e: SliceEdit, x: string)
    requires Inv(s) && x in ViewOf(s).tabs
    ensures var v, w := ViewOf(s), ViewOf(EditOwner(s, id, e));
            && w.order == v.order && w.active == v.active && x in w.tabs
            && (id in DockIds(v.tabs[x].slice) ==>
                  w.tabs[x] == EditContent(v.tabs[x], e) && forall y :: y in v.tabs && y != x ==> w.tabs[y] == v.tabs[y])
            && ((forall y :: y in v.tabs ==> id !in DockIds(v.tabs[y].slice)) ==> w.tabs == v.tabs)
  {
    hide Inv, ViewOf, Tabs.EditOwner, EditContent, OwnerV, OneOwner, Coupled, InvM, WellPointed, Slices.DockIds;
    InvParts(s);
    OwnerRefines(s, id, e);
    OwnerOne(ViewOf(s), id, e, x);
  }

  lemma OwnerOne(v: View, id: string, e: SliceEdit, x: string)
    requires OneOwner(v) && x in v.tabs
    ensures var w := OwnerV(v, id, e);
            && w.order == v.order && w.active == v.active && x in w.tabs
            && (id in DockIds(v.tabs[x].slice) ==>
                  w.tabs[x] == EditContent(v.tabs[x], e) && forall y :: y in v.tabs && y != x ==> w.tabs[y] == v.tabs[y])
            && ((forall y :: y in v.tabs ==> id !in DockIds(v.tabs[y].slice)) ==> w.tabs == v.tabs)
  {
    hide EditContent, Slices.DockIds, OneOwner;
    var w := OwnerV(v, id, e);
    forall y | y in v.tabs
      ensures w.tabs[y] == if id in DockIds(v.tabs[y].slice) then EditContent(v.tabs[y], e) else v.tabs[y]
    {
      OwnsIff(v.tabs[y].slice, id);
    }
    if id in DockIds(v.tabs[x].slice) {
      forall y | y in v.tabs && y != x ensures id !in DockIds(v.tabs[y].slice) { OwnsAlone(v, id, x, y); }
    }
  }

  lemma OwnsIff(sl: ScopeSlice, id: string)
    ensures id in Dock.Ids(sl.dockTabs) <==> id in DockIds(sl)
  {
  }

  lemma OwnsAlone(v: View, id: string, x: string, y: string)
    requires OneOwner(v) && x in v.tabs && y in v.tabs && x != y && id in DockIds(v.tabs[x].slice)
    ensures id !in DockIds(v.tabs[y].slice)
  {
    hide Slices.DockIds;
  }

  /** Patching a dock tab leaves the store in order exactly when the patch fits its
      dock and takes no other cluster tab's dock id. */
  lemma PatchDockIff(s: AppState, id: string, patch: Dock.DockPatch)
    requires Inv(s)
    ensures Inv(PatchDockTab(s, id, patch)) <==> OwnerPatchFits(ViewOf(s), id, patch)
  {
    hide Inv, InvM, ViewOf, Coupled, OwnerPatchFits, Tabs.EditOwner, OwnerV, ViewInv;
    var r := PatchDockTab(s, id, patch);
    InvParts(s);
    InvSplit(s);
    InvSplit(r);
    OwnerStep(s, id, DockEdit(Dock.Edit(id, patch)));
    OwnerCoupled(s, id, DockEdit(Dock.Edit(id, patch)));
    PatchedView(ModelOf(s), id, patch);
  }

  lemma PatchedView(m: Model, id: string, patch: Dock.DockPatch)
    requires InvM(m)
    ensures InvM(m.(view := OwnerV(m.view, id, DockEdit(Dock.Edit(id, patch))))) <==> OwnerPatchFits(m.view, id, patch)
  {
    hide ViewInv, OwnerPatchFits, OwnerV;
    OwnerPatchIff(m.view, m.virtualContexts, id, patch);
  }

  // ----- Kinds and sessions -----

  /** After a complete kind list arrives, the kind in view is listed, or there is
      none because the list is empty; a listed selection survives; and the same
      list arriving again changes nothing. */
  lemma SetKindsSettles(s: AppState, ks: seq<string>)
    ensures var r := SetKinds(s, ks, false);
            && (r.selectedKindId.Some? ==> r.selectedKindId.value in ks)
            && (r.selectedKindId.None? <==> ks == [])
            && (Truthy(s.selectedKindId) && s.selectedKindId.value in ks ==> r.selectedKindId == s.selectedKindId)
            && SetKinds(r, ks, false) == r
  {
    hide Tabs.SetKinds;
    SetKindsFields(s, ks);
    SetKindsFields(SetKinds(s, ks, false), ks);
    if ks != [] { assert ks[0] in ks; }
  }

  lemma SetKindsFields(s: AppState, ks: seq<string>)
    ensures SetKinds(s, ks, false) == s.(kinds := ks, selectedKindId := KindEdit(s.selectedKindId, ks, false).kind)
  {
    hide Tabs.KindEdit;
    KindEditShape(s.selectedKindId, ks);
  }

  lemma KindEditShape(current: Option<string>, ks: seq<string>)
    ensures KindEdit(current, ks, false).SetKindId?
  {
  }

  /** An entry with nothing in it: a tab it lands on stays unused. */
  predicate Blank(r: RestoredSlice) {
    r.dockTabs == [] && r.drawer.None? && r.tray == []
  }

  /** The same saved session with dock and drawer ids drawn anew, as every reading
      of the session file does: the same tabs, the same ones blank, and nothing to
      redraw in a blank one. What the others hold may differ in any way. */
  predicate Redrawn(slices: map<string, RestoredSlice>, again: map<string, RestoredSlice>) {
    && slices.Keys == again.Keys
    && forall id :: id in slices ==>
         (Blank(slices[id]) <==> Blank(again[id])) && (Blank(slices[id]) ==> again[id] == slices[id].(uuid := again[id].uuid))
  }

  /** Restoring a session touches only tabs the operator has not used, and
      restoring it a second time, whatever ids were drawn then, changes nothing. */
  lemma SessionOnce(v: View, slices: map<string, RestoredSlice>, again: map<string, RestoredSlice>)
    requires Redrawn(slices, again)
    ensures var w := SessionV(v, slices);
            && w.order == v.order && w.active == v.active && w.idle == v.idle
            && (forall id :: id in v.tabs && !Untouched(v.tabs[id].slice) ==> w.tabs[id] == v.tabs[id])
            && SessionV(w, again) == w
  {
    hide Tabs.Merge;
    var w := SessionV(v, slices);
    forall id | id in w.tabs ensures SessionContent(w.tabs[id], id, again) == w.tabs[id] {
      if id in slices {
        assert id in again;
        MergeAgain(v.tabs[id].slice, slices[id], again[id]);
      } else {
        assert id !in again.Keys;
      }
    }
    assert SessionV(w, again).tabs == w.tabs;
  }

  /** A tab without dock tabs, drawer or tray gets those saved for it, and the dock's
      shown tabs and flags; its drawer, if any, gets the id drawn. Whatever else the
      tab holds stays, and so does every other tab. */
  lemma SessionExact(v: View, slices: map<string, RestoredSlice>, id: string)
    requires id in v.tabs
    ensures id in SessionV(v, slices).tabs
    ensures var c, d := v.tabs[id], SessionV(v, slices).tabs[id];
            if id in slices && c.slice.dockTabs == [] && c.slice.drawer.None? && c.slice.tray == [] then
              var r := slices[id];
              d == c.(slice := c.slice.(dockTabs := r.dockTabs, dockActive := r.dockActive, dockMin := r.dockMin, drawer := r.drawer,
                   drawerId := if r.drawer.Some? then Some(r.uuid) else None, tray := r.tray))
            else d == c
  {
  }

  lemma MergeAgain(sl: ScopeSlice, r: RestoredSlice, s: RestoredSlice)
    ensures Untouched(Merge(sl, r)) <==> Blank(r)
    ensures Blank(r) && s == r.(uuid := s.uuid) ==> Merge(Merge(sl, r), s) == Merge(sl, r)
  {
  }

  /** And a second restore is always allowed after a first. */
  lemma SecondRestoreAllowed(v: View, slices: map<string, RestoredSlice>, again: map<string, RestoredSlice>)
    requires SessionAllowed(v, slices) && Redrawn(slices, again)
    ensures SessionAllowed(SessionV(v, slices), again)
  {
    hide Tabs.Merge, SavedOk, SavedDockIds, Slices.DockIds, Tabs.Untouched, Blank;
    var w := SessionV(v, slices);
    forall id | Lands(w, again, id) ensures SavedOk(again[id]) && SavedDockIds(again[id]) == {} {
      assert id in again.Keys;
      MergeAgain(v.tabs[id].slice, slices[id], again[id]);
      assert Lands(v, slices, id);
      BlankOk(slices[id], again[id]);
    }
  }

  lemma BlankOk(r: RestoredSlice, s: RestoredSlice)
    requires Blank(r) && SavedOk(r) && s == r.(uuid := s.uuid)
    ensures SavedOk(s) && SavedDockIds(s) == {}
  {
    hide Slices.SliceOk;
    assert Merge(EMPTY_SLICE, s) == Merge(EMPTY_SLICE, r);
  }

  // ----- The kubeconfig list changes -----

  /** The tab's anchor no longer means a cluster: a context that left the list,
      or a virtual context none of whose members is left. */
  predicate AnchorGone(c: Content, cs: seq<string>, vcs: seq<VirtualContext>) {
    match c.selectedVirtualContextId
    case Some(v) =>
      var found := FindVirtual(vcs, v);
      found.None? || forall m :: m in found.value.members ==> m !in cs
    case None => c.selectedContext.Some? && c.selectedContext.value !in cs
  }

  lemma AliveIff(c: Content, cs: seq<string>, vcs: seq<VirtualContext>)
    requires AnchorOk(c, vcs) && VirtualsOk(vcs)
    ensures ContentAlive(cs, vcs, c) <==> cs == [] || c.slice.dockTabs != [] || !AnchorGone(c, cs, vcs)
  {
    if c.selectedVirtualContextId.Some? {
      var members := FindVirtual(vcs, c.selectedVirtualContextId.value).value.members;
      var left := Within(members, cs);
      if left != [] { assert left[0] in left; }
    }
  }

  /** A new kubeconfig list closes exactly the tabs that hold no dock tabs and
      whose anchor is gone, and none when the list is empty. Survivors keep their
      order and slice and lose exactly the extras that are gone (all of them when
      the list is empty). The active tab keeps the focus if it survives; else the
      survivor now standing where it stood takes it, or the last one, or the store
      is left on an emptied Fleet. Either way the live copy and its stored entry
      agree. */
  lemma SetContextsExact(s: AppState, cs: seq<string>)
    requires Inv(s)
    ensures var v, r := ViewOf(s), SetContexts(s, cs);
            var w := ViewOf(r);
            && (forall id :: id in v.tabs ==>
                  (id !in w.tabs <==> cs != [] && v.tabs[id].slice.dockTabs == [] && AnchorGone(v.tabs[id], cs, s.virtualContexts)))
            && (forall id :: id in w.tabs ==>
                  id in v.tabs && w.tabs[id] == v.tabs[id].(scopeExtras := Within(v.tabs[id].scopeExtras, cs)))
            && (exists dead :: w.order == Without(v.order, dead))
            && FocusPlaced(v, w)
            && UpToDate(r)
  {
    hide Inv, ViewOf, UpToDate, Tabs.SetContexts, AnchorGone, Views.PruneV, Views.DeadV, Views.CloseV, FocusPlaced;
    InvParts(s);
    SetContextsRefines(s, cs);
    var v := ViewOf(s);
    var p := PruneV(v, cs);
    PrunedParts(v, cs);
    var dead := DeadV(cs, s.virtualContexts, p.order, p.tabs);
    forall id | id in v.tabs
      ensures id in dead <==> cs != [] && v.tabs[id].slice.dockTabs == [] && AnchorGone(v.tabs[id], cs, s.virtualContexts)
    {
      DeadIff(s, v.tabs[id], id, cs);
    }
    ClosedParts(p, dead);
    CloseFocus(p, dead);
    SameFocus(p, v, CloseV(p, dead));
  }

  lemma SameFocus(p: View, v: View, w: View)
    requires FocusPlaced(p, w) && p.order == v.order && p.active == v.active
    ensures FocusPlaced(v, w)
  {
  }

  /** Deleting a virtual context closes exactly the tab anchored on it, keeps every
      other tab as it was and in order, and places the focus likewise. */
  lemma DeleteVirtualExact(s: AppState, id: string)
    requires Inv(s)
    ensures var v, r := ViewOf(s), DeleteVirtualContext(s, id);
            var w := ViewOf(r);
            && (forall x :: x in w.tabs <==> x in v.tabs && v.tabs[x].selectedVirtualContextId != Some(id))
            && (forall x :: x in w.tabs ==> w.tabs[x] == v.tabs[x])
            && (exists gone :: w.order == Without(v.order, gone))
            && FocusPlaced(v, w)
            && r.virtualContexts == WithoutVirtual(s.virtualContexts, id)
  {
    hide Inv, InvM, Coupled, OneOwner, ViewOf, Tabs.DeleteVirtualContext, Views.AnchoredV, Views.CloseV, FocusPlaced, WithoutVirtual;
    InvParts(s);
    DeleteVirtualRefines(s, id);
    DeleteEnv(s, id);
    var v := ViewOf(s);
    var gone := AnchoredV(v.order, v.tabs, id);
    ClosedParts(v, gone);
    CloseFocus(v, gone);
  }

  lemma PrunedParts(v: View, cs: seq<string>)
    ensures var p := PruneV(v, cs);
            && p.order == v.order && p.active == v.active && p.idle == v.idle
            && (forall id :: id in p.tabs <==> id in v.tabs)
            && (forall id :: id in v.tabs ==> p.tabs[id] == v.tabs[id].(scopeExtras := Within(v.tabs[id].scopeExtras, cs)))
  {
  }

  lemma ClosedParts(p: View, gone: seq<string>)
    requires WellPointed(p)
    ensures var w := CloseV(p, gone);
            && w.order == Without(p.order, gone)
            && (forall id :: id in w.tabs <==> id in p.tabs && id !in gone)
            && (forall id :: id in w.tabs ==> w.tabs[id] == p.tabs[id])
  {
    hide IndexOf;
  }

  lemma DeadIff(s: AppState, c: Content, id: string, cs: seq<string>)
    requires Inv(s) && id in ViewOf(s).tabs && c == ViewOf(s).tabs[id]
    ensures ContentAlive(cs, s.virtualContexts, PruneContent(c, cs))
       <==> cs == [] || c.slice.dockTabs != [] || !AnchorGone(c, cs, s.virtualContexts)
  {
    hide ViewOf, ContentsOk, Coupled;
    AliveIff(PruneContent(c, cs), cs, s.virtualContexts);
  }

  // ----- Scope edits on the store -----

  /** Folding the extras into the active virtual context keeps the list of
      clusters in view, in every reachable state. */
  lemma AbsorbMeaning(s: AppState, id: string)
    requires Inv(s) && s.selectedVirtualContextId == Some(id)
    ensures ActiveClusters(AbsorbScopeExtras(s, id)) == ActiveClusters(s)
  {
    hide Inv, ViewOf, ActiveClusterIds, WithMembers, AbsorbedMembers, Distinct, FindVirtual;
    LiveAnchorOk(s);
    var members := FindVirtual(s.virtualContexts, id).value.members;
    WithoutDistinct(s.scopeExtras, members);
    WithinDistinct(Without(s.scopeExtras, members), s.contexts);
    AbsorbKeepsScope(s.contexts, s.virtualContexts, id, s.scopeExtras);
  }

  /** Folding extras in saves, behind the members there were, each extra that is not
      one of them, and leaves no extra. Without extras, or for an unknown virtual
      context, nothing happens; no other saved context changes. */
  lemma AbsorbExact(s: AppState, id: string)
    ensures var r := AbsorbScopeExtras(s, id);
            match FindVirtual(s.virtualContexts, id)
            case None => r == s
            case Some(v) =>
              if s.scopeExtras == [] then r == s
              else
                && r == s.(virtualContexts := r.virtualContexts, scopeExtras := [])
                && VirtualIds(r.virtualContexts) == VirtualIds(s.virtualContexts)
                && FindVirtual(r.virtualContexts, id) == Some(v.(members := v.members + Without(s.scopeExtras, v.members)))
                && forall x :: x != id ==> FindVirtual(r.virtualContexts, x) == FindVirtual(s.virtualContexts, x)
  {
    hide WithMembers, FindVirtual;
    var v := FindVirtual(s.virtualContexts, id);
    if v.Some? && s.scopeExtras != [] {
      var members := v.value.members + Without(s.scopeExtras, v.value.members);
      forall x ensures FindVirtual(WithMembers(s.virtualContexts, id, members), x)
                    == match FindVirtual(s.virtualContexts, x) case Some(u) => Some(if x == id then u.(members := members) else u) case None => None
      {
        FindWithMembers(s.virtualContexts, id, members, x);
      }
    }
  }

  lemma LiveAnchorOk(s: AppState)
    requires Inv(s)
    ensures Distinct(s.scopeExtras)
    ensures s.selectedVirtualContextId.Some? ==>
      s.selectedContext.None? && s.selectedVirtualContextId.value != "" && s.selectedVirtualContextId.value in VirtualIds(s.virtualContexts)
  {
    hide ViewOf, OneOwner, Slices.SliceOk;
    InvParts(s);
    LiveIsLive(s);
    LiveFields(s);
  }

  /** An accepted extra lands at the end of the clusters in view; removing it
      again restores the scope, and costs only the row selection and a focus on
      that cluster. */
  lemma AddRemoveExtra(s: AppState, id: string)
    requires AcceptsExtra(s, id)
    ensures ActiveClusters(AddScopeExtra(s, id)) == ActiveClusters(s) + [id]
    ensures RemoveScopeExtra(AddScopeExtra(s, id), id) == EditLive(s, DropFocus(id))
  {
    hide Slices.Edited, Tabs.Spread, Tabs.Capture;
    AddThenRemoveExtra(s.contexts, s.selectedContext, s.virtualContexts, s.selectedVirtualContextId, s.scopeExtras, id);
    var t := AddScopeExtra(s, id);
    assert t.(scopeExtras := s.scopeExtras) == s;
    CaptureIgnoresExtras(s, s.scopeExtras + [id]);
  }

  lemma CaptureIgnoresExtras(s: AppState, extras: seq<string>)
    ensures Capture(s.(scopeExtras := extras)) == Capture(s)
  {
  }

  // ----- Reconnect epochs over runs -----

  /** The clusters reconnected in a run, in order. */
  function Reconnected(actions: seq<Action>): seq<string> {
    if actions == [] then []
    else if actions[0].OnScope? && actions[0].c.Reconnect? then [actions[0].c.id] + Reconnected(actions[1..])
    else Reconnected(actions[1..])
  }

  lemma TabStepEpoch(s: AppState, a: TabAction)
    ensures StepTabs(s, a).clusterEpoch == s.clusterEpoch
  {
    hide Tabs.SetContexts, Tabs.OpenTab, Tabs.SwitchToTab, Tabs.CloseTab, Tabs.Fleet, Tabs.DeleteVirtualContext;
    match a
    case SetContextList(cs) => SetContextsEnv(s, cs);
    case Open(anchor, uuid) => OpenEnv(s, anchor, uuid);
    case Switch(id) => SwitchEnv(s, id);
    case Close(id) => CloseEnv(s, id);
    case GoFleet => FleetEnv(s);
    case DeleteVirtual(id) => DeleteEnv(s, id);
  }

  lemma SliceStepEpoch(s: AppState, a: SliceAction)
    ensures StepSlice(s, a).clusterEpoch == s.clusterEpoch
  {
    hide Tabs.SetKinds, Tabs.EditLive, Tabs.PatchTab, Tabs.EditOwner, Tabs.HydrateSession;
    match a
    case SetKindList(ks, pending) => SetKindsEnv(s, ks, pending);
    case Live(e) => EditEnv(s, e);
    case PatchOne(tabId, e) => PatchEnv(s, tabId, e);
    case CloseDock(id) => OwnerEnv(s, id, DockEdit(Dock.Close({id})));
    case PatchDock(id, patch) => OwnerEnv(s, id, DockEdit(Dock.Edit(id, patch)));
    case RestoreSession(slices) => SessionEnv(s, slices);
  }

  lemma ScopeStepEpoch(s: AppState, a: ScopeAction)
    ensures StepScope(s, a).clusterEpoch == if a.Reconnect? then Bump(s.clusterEpoch, a.id) else s.clusterEpoch
  {
    hide Tabs.RemoveScopeExtra, P.HydratePrefs, P.SavedVirtuals, P.HydrateLook, WithMembers, RenameVirtual, Tabs.AcceptsExtra,
      AbsorbedMembers, Bump;
    if a.Hydrate? { HydrateEnv(s, a.p, a.uuids); }
    if a.RemoveExtra? { RemoveEnv(s, a.id); }
  }

  lemma ReconnectedOne(epochs: map<string, nat>, a: Action)
    ensures BumpAll(epochs, Reconnected([a])) == if a.OnScope? && a.c.Reconnect? then Bump(epochs, a.c.id) else epochs
  {
    assert ([a])[1..] == [];
    assert Reconnected([a][1..]) == [];
    if a.OnScope? && a.c.Reconnect? { assert ([a.c.id])[1..] == []; }
  }

  lemma StepEpoch(s: AppState, a: Action)
    ensures Step(s, a).clusterEpoch == BumpAll(s.clusterEpoch, Reconnected([a]))
  {
    hide StepTabs, StepSlice, StepScope, Reconnected, BumpAll, Bump;
    ReconnectedOne(s.clusterEpoch, a);
    match a
    case OnTabs(t) => TabStepEpoch(s, t);
    case OnSlice(e) => SliceStepEpoch(s, e);
    case OnScope(c) => ScopeStepEpoch(s, c);
  }

  lemma {:induction false} RunBumps(s: AppState, actions: seq<Action>)
    ensures Run(s, actions).clusterEpoch == BumpAll(s.clusterEpoch, Reconnected(actions))
    decreases actions
  {
    hide Step;
    if actions != [] {
      StepEpoch(s, actions[0]);
      RunBumps(Step(s, actions[0]), actions[1..]);
      assert ([actions[0]])[1..] == [];
      assert Reconnected([actions[0]][1..]) == [];
      BumpAllCons(s.clusterEpoch, actions);
    }
  }

  lemma BumpAllCons(epochs: map<string, nat>, actions: seq<Action>)
    requires actions != []
    ensures BumpAll(epochs, Reconnected(actions)) == BumpAll(BumpAll(epochs, Reconnected([actions[0]])), Reconnected(actions[1..]))
  {
    var one := [actions[0]];
    assert one[1..] == [];
    assert Reconnected(one[1..]) == [];
    if actions[0].OnScope? && actions[0].c.Reconnect? {
      var id := actions[0].c.id;
      assert Reconnected(one) == [id];
      assert ([id])[1..] == [];
      assert ([id] + Reconnected(actions[1..]))[1..] == Reconnected(actions[1..]);
    }
  }

  /** After any run a cluster's epoch has grown by exactly the number of times it
      was reconnected. */
  lemma RunEpoch(s: AppState, actions: seq<Action>, id: string)
    ensures Epoch(Run(s, actions).clusterEpoch, id) == Epoch(s.clusterEpoch, id) + multiset(Reconnected(actions))[id]
  {
    hide Run, Reconnected, Epoch, BumpAll;
    RunBumps(s, actions);
    EpochCounts(s.clusterEpoch, Reconnected(actions), id);
  }

  /** Summed reconnect epochs detect reconnects: between two states of a run with
      the same clusters in view, the sums are equal exactly when none of those
      clusters was reconnected in between. */
  lemma EpochSumsDetect(s: AppState, actions: seq<Action>)
    requires ActiveClusters(Run(s, actions)) == ActiveClusters(s)
    ensures var r := Run(s, actions);
            EpochSum(r.clusterEpoch, ActiveClusters(r)) == EpochSum(s.clusterEpoch, ActiveClusters(s))
            <==> forall id :: id in Reconnected(actions) ==> id !in ActiveClusters(s)
  {
    hide Run, ActiveClusters;
    RunBumps(s, actions);
    EpochSumDetects(s.clusterEpoch, ActiveClusters(s), Reconnected(actions));
  }
}

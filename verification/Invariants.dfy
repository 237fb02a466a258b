/** What holds of the logical contents in every reachable state, and that each
    view operation keeps it. */
module Invariants {
  import opened Lists
  import opened Scope
  import opened Slices
  import opened Tabs
  import opened Views
  import Dock
  import Drawers

  /** Exactly one of a plain context and a saved virtual context. */
  predicate AnchorOk(c: Content, vcs: seq<VirtualContext>) {
    && (c.selectedContext.Some? <==> c.selectedVirtualContextId.None?)
    && (c.selectedVirtualContextId.Some? ==> c.selectedVirtualContextId.value in VirtualIds(vcs))
  }

  ghost predicate ContentOk(c: Content) {
    Distinct(c.scopeExtras) && SliceOk(c.slice)
  }

  /** The tab set: distinct non-empty ids, an active tab exactly when any tab is
      open, one resolving anchor per tab, no anchor twice. */
  ghost predicate TabSetOk(v: View, vcs: seq<VirtualContext>) {
    && Distinct(v.order)
    && (forall id :: id in v.tabs <==> id in v.order)
    && "" !in v.order
    && (v.active.None? <==> v.order == [])
    && (v.active.Some? ==> v.active.value in v.order)
    && (forall id :: id in v.tabs ==> AnchorOk(v.tabs[id], vcs))
    && (forall a, b :: a in v.tabs && b in v.tabs && a != b ==> AnchorOf(v.tabs[a]) != AnchorOf(v.tabs[b]))
    && v.idle.selectedContext.None? && v.idle.selectedVirtualContextId.None? && v.idle.scopeExtras == []
    && (v.active.Some? ==> v.idle == FLEET_CONTENT)
  }

  /** The contents: every tab's dock, drawer and tray well formed, and no dock
      tab owned twice. */
  ghost predicate ContentsOk(v: View) {
    && (forall id :: id in v.tabs ==> ContentOk(v.tabs[id]))
    && ContentOk(v.idle)
    && OneOwner(v)
  }

  ghost predicate ViewInv(v: View, vcs: seq<VirtualContext>) {
    TabSetOk(v, vcs) && ContentsOk(v)
  }

  /** A saved virtual context has a non-empty id (they are random UUIDs). */
  predicate VirtualsOk(vcs: seq<VirtualContext>) {
    "" !in VirtualIds(vcs)
  }

  /** The whole invariant of a store state. */
  ghost predicate Inv(s: AppState) {
    ViewInv(ViewOf(s), s.virtualContexts) && Coupled(s) && VirtualsOk(s.virtualContexts)
  }

  lemma FleetContentOk()
    ensures ContentOk(FLEET_CONTENT)
  {
    EmptySliceOk();
  }

  lemma SwitchKeeps(v: View, vcs: seq<VirtualContext>, id: string)
    requires ViewInv(v, vcs)
    ensures ViewInv(SwitchV(v, id), vcs)
  {
    hide ContentOk;
    FleetContentOk();
  }

  /** Fewer tabs, the rest untouched. */
  lemma SubViewKeeps(v: View, r: View, vcs: seq<VirtualContext>)
    requires ViewInv(v, vcs)
    requires Distinct(r.order) && forall id :: id in r.tabs <==> id in r.order
    requires forall id :: id in r.tabs ==> id in v.tabs && r.tabs[id] == v.tabs[id]
    requires r.active.None? <==> r.order == []
    requires r.active.Some? ==> r.active.value in r.order
    requires r.idle == v.idle || r.idle == FLEET_CONTENT
    requires r.active.Some? ==> r.idle == FLEET_CONTENT
    ensures ViewInv(r, vcs)
  {
    hide ContentOk, AnchorOk, AnchorOf, Slices.DockIds;
    FleetContentOk();
  }

  lemma CloseKeeps(v: View, vcs: seq<VirtualContext>, gone: seq<string>)
    requires ViewInv(v, vcs)
    ensures ViewInv(CloseV(v, gone), vcs)
  {
    hide ContentOk, AnchorOk, AnchorOf, OneOwner;
    WithoutDistinct(v.order, gone);
    var r := CloseV(v, gone);
    if v.active.Some? && v.active.value !in gone { assert v.active.value in r.order; }
    SubViewKeeps(v, r, vcs);
  }

  lemma AppendKeeps(v: View, vcs: seq<VirtualContext>, id: string, c: Content)
    requires ViewInv(v, vcs)
    requires id !in v.order && id != ""
    requires AnchorOk(c, vcs) && ContentOk(c)
    requires forall x :: x in v.tabs ==> AnchorOf(v.tabs[x]) != AnchorOf(c)
    requires forall x :: x in v.tabs ==> DockIds(v.tabs[x].slice) !! DockIds(c.slice)
    ensures ViewInv(AppendV(v, id, c), vcs)
  {
    hide ContentOk, AnchorOk, AnchorOf, Slices.DockIds;
    FleetContentOk();
    DistinctSnoc(v.order, id);
  }

  lemma OpenKeeps(v: View, vcs: seq<VirtualContext>, a: Anchor, uuid: string, kinds: seq<string>)
    requires ViewInv(v, vcs)
    requires uuid !in v.order && uuid != ""
    ensures ViewInv(OpenV(v, a, uuid, kinds, vcs), vcs)
  {
    hide SwitchV, AppendV;
    var existing := FindV(v.order, v.tabs, a);
    if existing.Some? {
      SwitchKeeps(v, vcs, existing.value);
    } else if !(a.Virtual? && a.virtualId !in VirtualIds(vcs)) {
      var c := FreshContent(a, kinds);
      EmptySliceOk();
      FreshContentOk(a, kinds);
      forall x | x in v.tabs ensures AnchorOf(v.tabs[x]) != AnchorOf(c) {
        assert AnchorOk(v.tabs[x], vcs) && !ContentHas(v.tabs[x], a);
      }
      AppendKeeps(v, vcs, uuid, c);
    }
  }

  lemma FreshContentOk(a: Anchor, kinds: seq<string>)
    ensures ContentOk(FreshContent(a, kinds)) && DockIds(FreshContent(a, kinds).slice) == {}
    ensures AnchorOf(FreshContent(a, kinds)) == a
  {
    EmptySliceOk();
  }

  /** Replacing one tab's slice, the ids of its dock growing only by new ones. */
  lemma SetLiveKeeps(v: View, vcs: seq<VirtualContext>, target: Option<string>, c: Content, added: set<string>)
    requires ViewInv(v, vcs)
    requires target.Some? ==> target.value in v.tabs
    requires target.None? ==> v.active.None? && c.selectedContext.None? && c.selectedVirtualContextId.None? && c.scopeExtras == []
    requires ContentOk(c)
    requires target.Some? ==> AnchorOf(c) == AnchorOf(v.tabs[target.value]) && AnchorOk(c, vcs)
    requires target.Some? ==> DockIds(c.slice) <= DockIds(v.tabs[target.value].slice) + added
    requires forall x :: x in v.tabs ==> DockIds(v.tabs[x].slice) !! added
    ensures ViewInv(if target.Some? then v.(tabs := v.tabs[target.value := c]) else v.(idle := c), vcs)
  {
    hide ContentOk, AnchorOk, AnchorOf, Slices.DockIds;
  }

  /** The content an edit of the named tab (or of the live copy) reaches. */
  function TargetOf(v: View, tabId: Option<string>): Option<Content>
    requires v.active.Some? ==> v.active.value in v.tabs
  {
    if tabId.None? then Some(LiveOf(v)) else if tabId.value in v.tabs then Some(v.tabs[tabId.value]) else None
  }

  /** What the environment guarantees about an edit of one tab: the edit itself
      is allowed there, and a dock tab arrives with an id no tab uses. */
  ghost predicate TabEditAllowed(v: View, tabId: Option<string>, e: SliceEdit)
    requires v.active.Some? ==> v.active.value in v.tabs
  {
    var c := TargetOf(v, tabId);
    c.Some? ==>
      && EditAllowed(c.value.slice, e)
      && forall x :: x in v.tabs ==> DockIds(v.tabs[x].slice) !! NewDockIds(c.value.slice, e)
  }

  lemma EditKeeps(v: View, vcs: seq<VirtualContext>, tabId: Option<string>, e: SliceEdit)
    requires ViewInv(v, vcs) && TabEditAllowed(v, tabId, e)
    ensures ViewInv(EditV(v, tabId, e), vcs)
  {
    hide Slices.Edited, Slices.SliceOk, Slices.DockIds, Slices.EditAllowed;
    var target := if tabId.None? then v.active else tabId;
    if target.None? {
      EditOk(v.idle.slice, e);
      SetLiveKeeps(v, vcs, None, EditContent(v.idle, e), {});
    } else if target.value in v.tabs {
      var c := v.tabs[target.value];
      EditOk(c.slice, e);
      SetLiveKeeps(v, vcs, target, EditContent(c, e), NewDockIds(c.slice, e));
    }
  }

  /** Contents change tab by tab, anchors and extras stay. */
  lemma MapKeeps(v: View, r: View, vcs: seq<VirtualContext>)
    requires ViewInv(v, vcs)
    requires r.order == v.order && r.active == v.active && r.idle.(slice := v.idle.slice) == v.idle
    requires forall x :: x in r.tabs <==> x in v.tabs
    requires forall x :: x in v.tabs ==> AnchorOf(r.tabs[x]) == AnchorOf(v.tabs[x]) && AnchorOk(r.tabs[x], vcs)
    requires forall x :: x in v.tabs ==> ContentOk(r.tabs[x])
    requires ContentOk(r.idle) && (v.active.Some? ==> r.idle == FLEET_CONTENT)
    requires OneOwner(r)
    ensures ViewInv(r, vcs)
  {
    hide AnchorOf, AnchorOk, ContentOk, OneOwner;
  }

  /** Closing a dock tab in its owner brings no new ids. */
  lemma OwnerCloseKeeps(v: View, vcs: seq<VirtualContext>, id: string)
    requires ViewInv(v, vcs)
    ensures ViewInv(OwnerV(v, id, DockEdit(Dock.Close({id}))), vcs)
  {
    hide Slices.SliceOk, Slices.DockIds, Slices.Edited;
    var e := DockEdit(Dock.Close({id}));
    var r := OwnerV(v, id, e);
    FleetOwnsNothing(id, e);
    OwnedCloseOk(v.idle, id);
    forall x | x in v.tabs
      ensures ContentOk(r.tabs[x]) && DockIds(r.tabs[x].slice) <= DockIds(v.tabs[x].slice)
      ensures AnchorOf(r.tabs[x]) == AnchorOf(v.tabs[x]) && AnchorOk(r.tabs[x], vcs)
    {
      OwnedCloseOk(v.tabs[x], id);
    }
    hide AnchorOf, AnchorOk, ContentOk;
    MapKeeps(v, r, vcs);
  }

  lemma OwnedCloseOk(c: Content, id: string)
    requires ContentOk(c)
    ensures var r := OwnedEdit(c, id, DockEdit(Dock.Close({id})));
            ContentOk(r) && DockIds(r.slice) <= DockIds(c.slice) && r.(slice := c.slice) == c
  {
    EditOk(c.slice, DockEdit(Dock.Close({id})));
    CloseIds(c.slice, {id});
  }

  lemma CloseIds(s: ScopeSlice, gone: set<string>)
    ensures DockIds(Edited(s, DockEdit(Dock.Close(gone)))) <= DockIds(s)
  {
    var r := Edited(s, DockEdit(Dock.Close(gone)));
    assert r.dockTabs == Dock.KeepTabs(s.dockTabs, gone);
    forall x | x in Dock.Ids(r.dockTabs) ensures x in Dock.Ids(s.dockTabs) { Dock.KeptIds(s.dockTabs, gone, x); }
  }

  // ----- Patching a dock tab -----

  /** A patch fits where it lands, and does not give the tab an id another cluster
      tab's dock has. */
  predicate OwnerPatchFits(v: View, id: string, patch: Dock.DockPatch) {
    && (forall x :: x in v.tabs ==> Dock.PatchFits(v.tabs[x].slice.DockState(), id, patch))
    && Dock.PatchFits(v.idle.slice.DockState(), id, patch)
    && (forall x, y :: x in v.tabs && y in v.tabs && x != y && id in DockIds(v.tabs[x].slice) ==>
          Dock.PatchedId(id, patch) !in DockIds(v.tabs[y].slice))
  }

  lemma OwnedPatch(c: Content, id: string, patch: Dock.DockPatch)
    requires ContentOk(c)
    ensures var r := OwnedEdit(c, id, DockEdit(Dock.Edit(id, patch)));
            && (ContentOk(r) <==> Dock.PatchFits(c.slice.DockState(), id, patch))
            && r.(slice := c.slice) == c
            && (if id in DockIds(c.slice) then DockIds(r.slice) == DockIds(c.slice) - {id} + {Dock.PatchedId(id, patch)}
                else r == c)
  {
    hide Drawers.DrawerOk, Dock.DockOk, Dock.PatchFits;
    var d := c.slice.DockState();
    var s := Edited(c.slice, DockEdit(Dock.Edit(id, patch)));
    assert s.DockState() == Dock.Apply(d, Dock.Edit(id, patch)) && s.DrawerState() == c.slice.DrawerState();
    Dock.PatchOkIff(d, id, patch);
    if id in DockIds(c.slice) {
      PatchIds(c.slice, id, patch);
    } else {
      Dock.NoTabFits(d, id, patch);
    }
  }

  lemma PatchIds(s: ScopeSlice, id: string, patch: Dock.DockPatch)
    requires Dock.DockOk(s.DockState()) && id in DockIds(s)
    ensures DockIds(Edited(s, DockEdit(Dock.Edit(id, patch)))) == DockIds(s) - {id} + {Dock.PatchedId(id, patch)}
  {
  }

  /** One owner renames a dock tab of its own. */
  ghost predicate Renamed(v: View, r: View, id: string, now: string) {
    && (forall x :: x in r.tabs <==> x in v.tabs)
    && (forall x :: x in v.tabs ==>
          DockIds(r.tabs[x].slice) == if id in DockIds(v.tabs[x].slice) then DockIds(v.tabs[x].slice) - {id} + {now} else DockIds(v.tabs[x].slice))
  }

  ghost predicate NameFree(v: View, id: string, now: string) {
    forall x, y :: x in v.tabs && y in v.tabs && x != y && id in DockIds(v.tabs[x].slice) ==> now !in DockIds(v.tabs[y].slice)
  }

  lemma RenamedOwners(v: View, r: View, id: string, now: string)
    requires OneOwner(v) && Renamed(v, r, id, now)
    ensures OneOwner(r) <==> NameFree(v, id, now)
  {
    hide Slices.DockIds;
    if OneOwner(r) {
      forall x, y | x in v.tabs && y in v.tabs && x != y && id in DockIds(v.tabs[x].slice) ensures now !in DockIds(v.tabs[y].slice) {
        assert now in DockIds(r.tabs[x].slice);
        assert id !in DockIds(v.tabs[y].slice);
      }
    }
  }

  /** Patching a dock tab keeps the invariant exactly when the patch fits its dock
      and takes no other cluster tab's dock id. */
  lemma OwnerPatchIff(v: View, vcs: seq<VirtualContext>, id: string, patch: Dock.DockPatch)
    requires ViewInv(v, vcs)
    ensures ViewInv(OwnerV(v, id, DockEdit(Dock.Edit(id, patch))), vcs) <==> OwnerPatchFits(v, id, patch)
  {
    hide Slices.SliceOk, Slices.DockIds, Slices.Edited, OneOwner, Dock.PatchFits, Dock.PatchedId, AnchorOk, AnchorOf, ContentOk,
      OwnedEdit;
    var e, now := DockEdit(Dock.Edit(id, patch)), Dock.PatchedId(id, patch);
    var r := OwnerV(v, id, e);
    FleetOwnsNothing(id, e);
    OwnedPatch(v.idle, id, patch);
    forall x | x in v.tabs
      ensures ContentOk(r.tabs[x]) <==> Dock.PatchFits(v.tabs[x].slice.DockState(), id, patch)
      ensures AnchorOf(r.tabs[x]) == AnchorOf(v.tabs[x]) && AnchorOk(r.tabs[x], vcs)
      ensures DockIds(r.tabs[x].slice) == if id in DockIds(v.tabs[x].slice) then DockIds(v.tabs[x].slice) - {id} + {now} else DockIds(v.tabs[x].slice)
    {
      OwnedPatch(v.tabs[x], id, patch);
      AnchorStays(v.tabs[x], r.tabs[x], vcs);
    }
    RenamedOwners(v, r, id, now);
    if OwnerPatchFits(v, id, patch) { MapKeeps(v, r, vcs); }
  }

  lemma AnchorStays(c: Content, r: Content, vcs: seq<VirtualContext>)
    requires r.(slice := c.slice) == c && AnchorOk(c, vcs)
    ensures AnchorOf(r) == AnchorOf(c) && AnchorOk(r, vcs)
  {
  }

  lemma PruneContentOk(c: Content, vcs: seq<VirtualContext>, cs: seq<string>)
    requires ContentOk(c) && AnchorOk(c, vcs)
    ensures var r := PruneContent(c, cs);
            ContentOk(r) && AnchorOk(r, vcs) && AnchorOf(r) == AnchorOf(c) && DockIds(r.slice) == DockIds(c.slice)
  {
    hide Slices.SliceOk, Slices.DockIds;
    WithinDistinct(c.scopeExtras, cs);
  }

  lemma PruneKeeps(v: View, vcs: seq<VirtualContext>, cs: seq<string>)
    requires ViewInv(v, vcs)
    ensures ViewInv(PruneV(v, cs), vcs)
  {
    hide AnchorOf, AnchorOk, ContentOk, Views.PruneContent, Slices.DockIds;
    forall x | x in v.tabs
      ensures var r := PruneV(v, cs).tabs[x];
              ContentOk(r) && AnchorOf(r) == AnchorOf(v.tabs[x]) && AnchorOk(r, vcs) && DockIds(r.slice) == DockIds(v.tabs[x].slice)
    {
      PruneContentOk(v.tabs[x], vcs, cs);
    }
  }

  lemma SetContextsKeeps(v: View, vcs: seq<VirtualContext>, cs: seq<string>)
    requires ViewInv(v, vcs)
    ensures ViewInv(SetContextsV(v, cs, vcs), vcs)
  {
    var p := PruneV(v, cs);
    PruneKeeps(v, vcs, cs);
    CloseKeeps(p, vcs, DeadV(cs, vcs, p.order, p.tabs));
  }

  /** Deleting a virtual context closes the tab anchored on it, so the remaining
      anchors resolve against the remaining list. */
  lemma DeleteVirtualKeeps(v: View, vcs: seq<VirtualContext>, id: string)
    requires ViewInv(v, vcs)
    ensures ViewInv(DeleteVirtualV(v, id), WithoutVirtual(vcs, id))
  {
    hide ContentOk;
    var closeIds := AnchoredV(v.order, v.tabs, id);
    CloseKeeps(v, vcs, closeIds);
    var r := CloseV(v, closeIds);
    forall x | x in r.tabs ensures AnchorOk(r.tabs[x], WithoutVirtual(vcs, id)) {
      assert x in v.order && x !in closeIds && r.tabs[x] == v.tabs[x];
    }
  }

  /** Only the ids of the saved virtual contexts matter to the tab set. */
  lemma VirtualsMonotone(v: View, vcs: seq<VirtualContext>, vcs': seq<VirtualContext>)
    requires ViewInv(v, vcs)
    requires forall x :: x in VirtualIds(vcs) ==> x in VirtualIds(vcs')
    ensures ViewInv(v, vcs')
  {
    hide ContentOk, AnchorOf;
    assert forall id :: id in v.tabs ==> AnchorOk(v.tabs[id], vcs) ==> AnchorOk(v.tabs[id], vcs');
  }

  /** The extras of the live copy change, its anchor and slice anchors stay. */
  lemma ExtrasKeep(v: View, vcs: seq<VirtualContext>, extras: seq<string>)
    requires ViewInv(v, vcs) && Distinct(extras) && (v.active.None? ==> extras == [])
    ensures ViewInv(SetLiveV(v, LiveOf(v).(scopeExtras := extras)), vcs)
  {
    hide Slices.SliceOk, Slices.DockIds;
    SetLiveKeeps(v, vcs, v.active, LiveOf(v).(scopeExtras := extras), {});
  }

  // ----- Session restore -----

  /** What the session file holds for one tab is itself well formed. */
  ghost predicate SavedOk(r: RestoredSlice) {
    SliceOk(Merge(EMPTY_SLICE, r))
  }

  function SavedDockIds(r: RestoredSlice): set<string> {
    set x | x in Dock.Ids(r.dockTabs)
  }

  /** The saved slice of this tab will be taken over: the tab is open and unused. */
  predicate Lands(v: View, slices: map<string, RestoredSlice>, id: string) {
    id in slices && id in v.tabs && Untouched(v.tabs[id].slice)
  }

  /** The saved slices that land are well formed, their dock tabs are new to every
      tab, and no two of them share one. */
  ghost predicate SessionAllowed(v: View, slices: map<string, RestoredSlice>) {
    && (forall id :: Lands(v, slices, id) ==> SavedOk(slices[id]))
    && (forall id, x :: Lands(v, slices, id) && x in v.tabs ==> SavedDockIds(slices[id]) !! DockIds(v.tabs[x].slice))
    && (forall a, b :: Lands(v, slices, a) && Lands(v, slices, b) && a != b ==> SavedDockIds(slices[a]) !! SavedDockIds(slices[b]))
  }

  lemma SessionContentOk(c: Content, id: string, slices: map<string, RestoredSlice>)
    requires ContentOk(c) && (id in slices && Untouched(c.slice) ==> SavedOk(slices[id]))
    ensures var r := SessionContent(c, id, slices);
            && ContentOk(r) && r.(slice := c.slice) == c
            && (DockIds(r.slice) == DockIds(c.slice) ||
                (id in slices && Untouched(c.slice) && DockIds(r.slice) == SavedDockIds(slices[id])))
  {
    if id in slices && Untouched(c.slice) {
      var m, n := Merge(c.slice, slices[id]), Merge(EMPTY_SLICE, slices[id]);
      assert m.DockState() == n.DockState() && m.DrawerState() == n.DrawerState();
      hide Dock.DockOk, Drawers.DrawerOk;
    }
  }

  /** Each tab keeps its dock ids or takes those saved for it. */
  ghost predicate IdsFrom(v: View, r: View, slices: map<string, RestoredSlice>, x: string)
    requires x in v.tabs && x in r.tabs
  {
    || DockIds(r.tabs[x].slice) == DockIds(v.tabs[x].slice)
    || (Lands(v, slices, x) && DockIds(r.tabs[x].slice) == SavedDockIds(slices[x]))
  }

  lemma SessionOwners(v: View, r: View, slices: map<string, RestoredSlice>)
    requires OneOwner(v) && SessionAllowed(v, slices)
    requires forall x :: x in r.tabs <==> x in v.tabs
    requires forall x :: x in v.tabs ==> IdsFrom(v, r, slices, x)
    ensures OneOwner(r)
  {
    hide Slices.DockIds, SavedDockIds, SavedOk;
    forall a, b, x | a in r.tabs && b in r.tabs && x in DockIds(r.tabs[a].slice) && x in DockIds(r.tabs[b].slice)
      ensures a == b
    {
      assert IdsFrom(v, r, slices, a) && IdsFrom(v, r, slices, b);
    }
  }

  lemma SessionKeeps(v: View, vcs: seq<VirtualContext>, slices: map<string, RestoredSlice>)
    requires ViewInv(v, vcs) && SessionAllowed(v, slices)
    ensures ViewInv(SessionV(v, slices), vcs)
  {
    hide Slices.DockIds, SavedDockIds, SavedOk, Views.SessionContent, Slices.SliceOk;
    var r := SessionV(v, slices);
    forall x | x in v.tabs
      ensures ContentOk(r.tabs[x]) && IdsFrom(v, r, slices, x)
      ensures AnchorOf(r.tabs[x]) == AnchorOf(v.tabs[x]) && AnchorOk(r.tabs[x], vcs)
    {
      SessionContentOk(v.tabs[x], x, slices);
    }
    SessionOwners(v, r, slices);
    hide AnchorOf, AnchorOk, ContentOk, OneOwner, IdsFrom;
  }
}

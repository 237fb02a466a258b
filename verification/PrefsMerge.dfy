/** Hydrating the preferences into a store, on its logical contents: a tab opened
    while the file was loading stays, and is never duplicated. */
module PrefsMerge {
  import opened Lists
  import opened Scope
  import opened Slices
  import opened Tabs
  import opened Views
  import opened Invariants
  import opened Prefs
  import Dock
  import Drawers
  import L = Look

  predicate AnchorOpenV(v: View, t: ClusterTab) {
    exists id :: id in v.tabs && SameAnchors(t, v.tabs[id])
  }

  function NotOpenV(v: View, restored: seq<ClusterTab>): (r: seq<ClusterTab>)
    ensures forall t :: t in r <==> t in restored && !AnchorOpenV(v, t)
  {
    if restored == [] then []
    else if AnchorOpenV(v, restored[0]) then NotOpenV(v, restored[1..])
    else [restored[0]] + NotOpenV(v, restored[1..])
  }

  /** The live copy takes over a restored tab's anchor, kind and namespaces; the
      rest of the slice is whatever was live. */
  function Adopted(idle: Content, t: ClusterTab): Content {
    Content(t.selectedContext, t.selectedVirtualContextId, t.scopeExtras,
            idle.slice.(selectedKindId := t.slice.selectedKindId, selectedNamespaces := t.slice.selectedNamespaces))
  }

  function HydrateV(v: View, b: Boot, p: PrefsFile, uuids: seq<string>): View {
    var restored := RestoredTabs(b, p, uuids);
    if v.order != [] then
      var added := NotOpenV(v, restored);
      v.(order := v.order + Ids(added), tabs := v.tabs + Contents(added))
    else if restored == [] then
      View([], map[], None,
           Content(None, None, [], v.idle.slice.(selectedKindId := None, selectedNamespaces := {})))
    else
      var t := restored[RestoredActive(restored, p)];
      View(Ids(restored), Contents(restored)[t.id := Adopted(v.idle, t)], Some(t.id), FLEET_CONTENT)
  }

  /** The saved file is sane: ids and anchors distinct, no empty id anywhere,
      extras without duplicates, and a tab that would join an open set has an id
      of its own. */
  ghost predicate FileOk(v: View, b: Boot, p: PrefsFile, uuids: seq<string>) {
    var restored := RestoredTabs(b, p, uuids);
    && Distinct(Ids(restored))
    && "" !in Ids(restored)
    && (forall id :: id in Ids(NotOpenV(v, restored)) ==> id !in v.order)
    && (forall i, j :: 0 <= i < j < |restored| ==> !SameAnchor(restored[i], restored[j]))
    && (forall t :: t in restored ==> Distinct(t.scopeExtras) && t.selectedVirtualContextId != Some(""))
    && VirtualsOk(SavedVirtuals(p))
  }

  /** Every open tab on a virtual context finds it in the file: hydration
      replaces the saved list wholesale. */
  predicate LiveVirtualsSaved(v: View, p: PrefsFile) {
    forall id :: id in v.tabs && v.tabs[id].selectedVirtualContextId.Some? ==>
      v.tabs[id].selectedVirtualContextId.value in VirtualIds(SavedVirtuals(p))
  }

  // ----- Refinement -----

  lemma {:induction false} NotOpenRefines(s: AppState, restored: seq<ClusterTab>)
    requires Distinct(Ids(s.openTabs)) && Coupled(s)
    ensures NotOpen(s.openTabs, restored) == NotOpenV(ViewOf(s), restored)
  {
    hide ViewOf;
    if restored != [] {
      NotOpenRefines(s, restored[1..]);
      AnchorOpenRefines(s, restored[0]);
    }
  }

  lemma AnchorOpenRefines(s: AppState, t: ClusterTab)
    requires Distinct(Ids(s.openTabs)) && Coupled(s)
    ensures AnchorOpen(s.openTabs, t) <==> AnchorOpenV(ViewOf(s), t)
  {
    hide ViewOf;
    forall i | 0 <= i < |s.openTabs| ensures SameAnchors(s.openTabs[i], ViewOf(s).tabs[Ids(s.openTabs)[i]]) {
      CoupledAnchors(s, i);
    }
    if AnchorOpen(s.openTabs, t) {
      var o :| o in s.openTabs && SameAnchor(o, t);
      var i :| 0 <= i < |s.openTabs| && s.openTabs[i] == o;
      assert SameAnchors(t, ViewOf(s).tabs[Ids(s.openTabs)[i]]);
    }
    if AnchorOpenV(ViewOf(s), t) {
      var id :| id in ViewOf(s).tabs && SameAnchors(t, ViewOf(s).tabs[id]);
      var i := IndexOf(Ids(s.openTabs), id);
      assert s.openTabs[i] in s.openTabs && SameAnchor(s.openTabs[i], t);
    }
  }

  /** Appending tabs to a stashed list, the active tab unchanged. */
  lemma AppendAll(s: AppState, r: AppState, added: seq<ClusterTab>)
    requires Distinct(Ids(s.openTabs) + Ids(added))
    requires r.openTabs == StashActive(s) + added && r.activeTabId == s.activeTabId && LiveContent(r) == LiveContent(s)
    requires s.activeTabId.Some? && s.activeTabId.value in Ids(s.openTabs)
    ensures ViewOf(r) == ViewOf(s).(order := ViewOf(s).order + Ids(added), tabs := ViewOf(s).tabs + Contents(added))
    ensures UpToDate(r)
  {
    hide ViewOf, LiveContent, Contents, Tabs.Stashed;
    DistinctConcat(Ids(s.openTabs), Ids(added));
    StashContents(s);
    ContentsConcat(StashActive(s), added);
    var k := IndexOf(Ids(s.openTabs), s.activeTabId.value);
    assert r.openTabs[k] == StashActive(s)[k];
    assert ContentOf(StashActive(s)[k]) == LiveContent(s) by { StashedLive(s, k); }
    SettledView(r, k);
  }

  lemma StashedLive(s: AppState, k: nat)
    requires k < |s.openTabs| && s.activeTabId == Some(s.openTabs[k].id)
    ensures ContentOf(StashActive(s)[k]) == LiveContent(s)
  {
  }

  lemma LiveLook(s: AppState, look: L.Look, vcs: seq<VirtualContext>)
    ensures LiveContent(s.(look := look, virtualContexts := vcs)) == LiveContent(s)
  {
  }

  /** The live copy after adopting a restored list. */
  lemma LiveAdopt(s: AppState, tabs: seq<ClusterTab>, t: Option<ClusterTab>)
    ensures LiveContent(Adopt(s, tabs, t))
         == match t
            case Some(x) => Adopted(LiveContent(s), x)
            case None => Content(None, None, [], LiveContent(s).slice.(selectedKindId := None, selectedNamespaces := {}))
    ensures Adopt(s, tabs, t).openTabs == tabs
    ensures Adopt(s, tabs, t).activeTabId == if t.Some? then Some(t.value.id) else None
  {
  }

  lemma AdoptView(s: AppState, restored: seq<ClusterTab>, k: nat)
    requires Distinct(Ids(restored)) && k < |restored|
    ensures ViewOf(Adopt(s, restored, Some(restored[k])))
         == View(Ids(restored), Contents(restored)[restored[k].id := Adopted(LiveContent(s), restored[k])],
                 Some(restored[k].id), FLEET_CONTENT)
    ensures Coupled(Adopt(s, restored, Some(restored[k])))
  {
    hide ViewOf, LiveContent, Adopted, Contents, Prefs.Adopt;
    var r := Adopt(s, restored, Some(restored[k]));
    LiveAdopt(s, restored, Some(restored[k]));
    var m := Contents(restored)[restored[k].id := Adopted(LiveContent(s), restored[k])];
    forall i | 0 <= i < |restored| ensures m[Ids(restored)[i]] == ContentAt(r, i) {
      ContentsAt(restored, i);
    }
    ViewBy(r, m);
    AdoptCoupled(s, restored, k);
  }

  lemma AdoptCoupled(s: AppState, restored: seq<ClusterTab>, k: nat)
    requires Distinct(Ids(restored)) && k < |restored|
    ensures Coupled(Adopt(s, restored, Some(restored[k])))
  {
    forall i | 0 <= i < |restored| && restored[i].id == restored[k].id ensures i == k {
      DistinctIndex(Ids(restored), i);
      DistinctIndex(Ids(restored), k);
    }
  }

  lemma HydrateRefines(s: AppState, p: PrefsFile, uuids: seq<string>)
    requires Distinct(Ids(s.openTabs)) && Coupled(s)
    requires s.activeTabId.None? <==> s.openTabs == []
    requires s.activeTabId.Some? ==> s.activeTabId.value in Ids(s.openTabs)
    requires FileOk(ViewOf(s), BootOf(s), p, uuids)
    ensures ViewOf(HydratePrefs(s, p, uuids)) == HydrateV(ViewOf(s), BootOf(s), p, uuids)
    ensures Coupled(HydratePrefs(s, p, uuids))
  {
    hide ViewOf, LiveContent, RestoredTabs, Prefs.HydrateLook, Prefs.SavedVirtuals, Contents, Adopted, Prefs.Adopt, Prefs.BootOf,
      Tabs.StashActive, Prefs.NotOpen, NotOpenV, Coupled;
    if s.openTabs != [] {
      HydrateAppends(s, p, uuids);
    } else {
      var restored := RestoredTabs(BootOf(s), p, uuids);
      var s' := s.(look := HydrateLook(p), virtualContexts := SavedVirtuals(p));
      LiveLook(s, HydrateLook(p), SavedVirtuals(p));
      if restored == [] {
        AdoptNothing(s');
      } else {
        AdoptView(s', restored, RestoredActive(restored, p));
      }
    }
  }

  lemma AdoptNothing(s: AppState)
    ensures ViewOf(Adopt(s, [], None))
         == View([], map[], None, Content(None, None, [], LiveContent(s).slice.(selectedKindId := None, selectedNamespaces := {})))
    ensures Coupled(Adopt(s, [], None))
  {
    hide LiveContent, Contents, Prefs.Adopt;
    LiveAdopt(s, [], None);
    IdleView(Adopt(s, [], None));
    NoContents();
  }

  lemma NoContents()
    ensures Contents([]) == map[] && Ids([]) == []
  {
  }

  lemma HydrateAppends(s: AppState, p: PrefsFile, uuids: seq<string>)
    requires Distinct(Ids(s.openTabs)) && Coupled(s)
    requires s.openTabs != [] && s.activeTabId.Some? && s.activeTabId.value in Ids(s.openTabs)
    requires FileOk(ViewOf(s), BootOf(s), p, uuids)
    ensures ViewOf(HydratePrefs(s, p, uuids)) == HydrateV(ViewOf(s), BootOf(s), p, uuids)
    ensures Coupled(HydratePrefs(s, p, uuids))
  {
    hide ViewOf, LiveContent, RestoredTabs, Prefs.HydrateLook, Prefs.SavedVirtuals, Contents, Tabs.Stashed, Coupled, Prefs.Adopt, BootOf;
    var r := HydratePrefs(s, p, uuids);
    var restored := RestoredTabs(BootOf(s), p, uuids);
    NotOpenRefines(s, restored);
    var added := NotOpenV(ViewOf(s), restored);
    NotOpenIds(ViewOf(s), restored);
    DistinctConcat(Ids(s.openTabs), Ids(added));
    LiveLook(s, HydrateLook(p), SavedVirtuals(p));
    LiveSetTabs(s.(look := HydrateLook(p), virtualContexts := SavedVirtuals(p)), r.openTabs);
    AppendAll(s, r, added);
    UpToDateCoupled(r);
  }

  lemma {:induction false} NotOpenIds(v: View, restored: seq<ClusterTab>)
    requires Distinct(Ids(restored))
    ensures Distinct(Ids(NotOpenV(v, restored)))
    ensures forall id :: id in Ids(NotOpenV(v, restored)) ==> id in Ids(restored)
  {
    hide AnchorOpenV, Distinct;
    if restored != [] {
      var rest := NotOpenV(v, restored[1..]);
      assert Ids(restored) == [restored[0].id] + Ids(restored[1..]);
      DistinctTail(Ids(restored));
      assert Ids(restored)[1..] == Ids(restored[1..]);
      NotOpenIds(v, restored[1..]);
      DistinctHead(restored[0].id, Ids(rest));
      assert Ids([restored[0]] + rest) == [restored[0].id] + Ids(rest);
    }
  }

  lemma UpToDateCoupled(r: AppState)
    requires UpToDate(r)
    ensures Coupled(r)
  {
    forall i | 0 <= i < |r.openTabs| && r.activeTabId == Some(r.openTabs[i].id)
      ensures r.openTabs[i].selectedContext == r.selectedContext
      ensures r.openTabs[i].selectedVirtualContextId == r.selectedVirtualContextId
    {
      assert StashActive(r)[i] == Stashed(r, r.openTabs[i]);
    }
  }

  // ----- The invariant -----

  lemma RestoredTabOk(b: Boot, p: PrefsFile, uuids: seq<string>, t: ClusterTab)
    requires t in RestoredTabs(b, p, uuids) && t.selectedVirtualContextId != Some("")
    ensures AnchorOk(ContentOf(t), SavedVirtuals(p))
    ensures t.slice == EMPTY_SLICE.(selectedKindId := t.slice.selectedKindId, selectedNamespaces := t.slice.selectedNamespaces)
  {
    var refs := ResolvingRefs(b, p, Or(p.ui.openTabs, []));
    if Startup(p).LatestView? && refs != [] {
      var tabs := TabsFromRefs(b, p, refs, uuids);
      var i :| 0 <= i < |tabs| && tabs[i] == t;
      assert refs[i] in refs;
    }
  }

  lemma RestoredContentOk(b: Boot, p: PrefsFile, uuids: seq<string>, t: ClusterTab)
    requires t in RestoredTabs(b, p, uuids) && t.selectedVirtualContextId != Some("") && Distinct(t.scopeExtras)
    ensures AnchorOk(ContentOf(t), SavedVirtuals(p)) && ContentOk(ContentOf(t)) && DockIds(t.slice) == {}
  {
    hide RestoredTabs;
    RestoredTabOk(b, p, uuids, t);
    EmptySliceOk();
  }

  lemma RestoredContents(b: Boot, p: PrefsFile, uuids: seq<string>, tabs: seq<ClusterTab>, id: string)
    requires forall t :: t in tabs ==> t in RestoredTabs(b, p, uuids)
    requires forall t :: t in tabs ==> t.selectedVirtualContextId != Some("") && Distinct(t.scopeExtras)
    requires id in Ids(tabs)
    ensures var c := Contents(tabs)[id];
            AnchorOk(c, SavedVirtuals(p)) && ContentOk(c) && DockIds(c.slice) == {}
  {
    hide RestoredTabs, ContentOk, AnchorOk;
    var t := tabs[IndexOf(Ids(tabs), id)];
    assert t in tabs;
    RestoredContentOk(b, p, uuids, t);
  }

  /** Two restored tabs have different anchors. */
  lemma RestoredAnchors(b: Boot, p: PrefsFile, uuids: seq<string>, v: View, x: ClusterTab, y: ClusterTab)
    requires FileOk(v, b, p, uuids)
    requires x in RestoredTabs(b, p, uuids) && y in RestoredTabs(b, p, uuids) && x != y
    ensures AnchorOf(ContentOf(x)) != AnchorOf(ContentOf(y))
  {
    hide RestoredTabs, VirtualsOk, ContentOk;
    RestoredTabOk(b, p, uuids, x);
    RestoredTabOk(b, p, uuids, y);
    var restored := RestoredTabs(b, p, uuids);
    var i :| 0 <= i < |restored| && restored[i] == x;
    var j :| 0 <= j < |restored| && restored[j] == y;
    assert !SameAnchor(x, y) by {
      if i < j { assert !SameAnchor(restored[i], restored[j]); }
      else { assert !SameAnchor(restored[j], restored[i]); }
    }
  }

  /** A batch of tabs that can join: good contents without dock tabs, anchors
      distinct among themselves. */
  ghost predicate BatchOk(m: map<string, Content>, vcs: seq<VirtualContext>) {
    && (forall id :: id in m ==> AnchorOk(m[id], vcs) && ContentOk(m[id]) && DockIds(m[id].slice) == {})
    && (forall a, b :: a in m && b in m && a != b ==> AnchorOf(m[a]) != AnchorOf(m[b]))
  }

  lemma BatchRestored(v: View, b: Boot, p: PrefsFile, uuids: seq<string>, tabs: seq<ClusterTab>)
    requires FileOk(v, b, p, uuids)
    requires forall t :: t in tabs ==> t in RestoredTabs(b, p, uuids)
    ensures BatchOk(Contents(tabs), SavedVirtuals(p))
  {
    hide RestoredTabs, ContentOk, AnchorOk, AnchorOf, ContentOf, Slices.DockIds;
    forall id | id in Contents(tabs)
      ensures AnchorOk(Contents(tabs)[id], SavedVirtuals(p)) && ContentOk(Contents(tabs)[id])
      ensures DockIds(Contents(tabs)[id].slice) == {}
    {
      RestoredContents(b, p, uuids, tabs, id);
    }
    forall x, y | x in Contents(tabs) && y in Contents(tabs) && x != y
      ensures AnchorOf(Contents(tabs)[x]) != AnchorOf(Contents(tabs)[y])
    {
      var t, u := tabs[IndexOf(Ids(tabs), x)], tabs[IndexOf(Ids(tabs), y)];
      assert t in tabs && u in tabs && t.id != u.id;
      RestoredAnchors(b, p, uuids, v, t, u);
    }
  }

  lemma JoinOwners(v: View, order: seq<string>, m: map<string, Content>)
    requires OneOwner(v) && forall id :: id in m ==> DockIds(m[id].slice) == {}
    ensures OneOwner(v.(order := v.order + order, tabs := v.tabs + m))
  {
    hide Slices.DockIds;
  }

  lemma JoinKeeps(v: View, vcs: seq<VirtualContext>, vcs': seq<VirtualContext>, order: seq<string>, m: map<string, Content>)
    requires ViewInv(v, vcs) && v.order != []
    requires forall id :: id in v.tabs ==> AnchorOk(v.tabs[id], vcs')
    requires BatchOk(m, vcs')
    requires Distinct(order) && (forall id :: id in order <==> id in m) && "" !in order
    requires forall id :: id in order ==> id !in v.order
    requires forall a, b :: a in v.tabs && b in m ==> AnchorOf(v.tabs[a]) != AnchorOf(m[b])
    ensures ViewInv(v.(order := v.order + order, tabs := v.tabs + m), vcs')
  {
    hide ContentOk, AnchorOk, AnchorOf, Slices.DockIds, Distinct, OneOwner;
    DistinctConcat(v.order, order);
    var r := v.(order := v.order + order, tabs := v.tabs + m);
    JoinOwners(v, order, m);
    assert forall id :: id in r.tabs ==> (if id in m then r.tabs[id] == m[id] else id in v.tabs && r.tabs[id] == v.tabs[id]);
  }

  lemma AdoptKeeps(v: View, vcs: seq<VirtualContext>, vcs': seq<VirtualContext>, order: seq<string>, m: map<string, Content>, id: string, c: Content)
    requires ViewInv(v, vcs) && v.order == []
    requires BatchOk(m, vcs')
    requires Distinct(order) && (forall x :: x in order <==> x in m) && "" !in order
    requires id in order && AnchorOk(c, vcs') && ContentOk(c) && AnchorOf(c) == AnchorOf(m[id])
    ensures ViewInv(View(order, m[id := c], Some(id), FLEET_CONTENT), vcs')
  {
    hide ContentOk, AnchorOk, AnchorOf, Slices.DockIds;
    FleetContentOk();
  }

  lemma AdoptedOk(idle: Content, t: ClusterTab, vcs: seq<VirtualContext>)
    requires ContentOk(idle) && ContentOk(ContentOf(t)) && AnchorOk(ContentOf(t), vcs)
    ensures ContentOk(Adopted(idle, t)) && AnchorOk(Adopted(idle, t), vcs) && AnchorOf(Adopted(idle, t)) == AnchorOf(ContentOf(t))
  {
    hide Slices.SliceOk;
    SliceKindOk(idle.slice, t.slice.selectedKindId, t.slice.selectedNamespaces);
  }

  lemma SliceKindOk(sl: ScopeSlice, kind: Option<string>, names: set<string>)
    requires SliceOk(sl)
    ensures SliceOk(sl.(selectedKindId := kind, selectedNamespaces := names))
  {
    hide Dock.DockOk, Drawers.DrawerOk;
    var r := sl.(selectedKindId := kind, selectedNamespaces := names);
    assert r.DockState() == sl.DockState() && r.DrawerState() == sl.DrawerState();
  }

  /** With a sane file, hydration keeps the invariant exactly when the file still
      has every virtual context an open tab is anchored on. The list of saved
      virtual contexts is replaced, not merged, so a tab opened on one saved
      moments before would otherwise be left dangling. */
  lemma HydrateKeepsIff(v: View, vcs: seq<VirtualContext>, b: Boot, p: PrefsFile, uuids: seq<string>)
    requires ViewInv(v, vcs) && FileOk(v, b, p, uuids)
    ensures ViewInv(HydrateV(v, b, p, uuids), SavedVirtuals(p)) <==> LiveVirtualsSaved(v, p)
  {
    hide ContentOk, OneOwner, RestoredTabs, AnchorOf, FileOk, HydrateV;
    if LiveVirtualsSaved(v, p) {
      HydrateKeeps(v, vcs, b, p, uuids);
    } else {
      var id :| id in v.tabs && v.tabs[id].selectedVirtualContextId.Some? &&
                v.tabs[id].selectedVirtualContextId.value !in VirtualIds(SavedVirtuals(p));
      assert v.order != [];
      OpenTabsStay(v, b, p, uuids);
      assert HydrateV(v, b, p, uuids).tabs[id] == v.tabs[id];
    }
  }

  lemma OpenTabsStay(v: View, b: Boot, p: PrefsFile, uuids: seq<string>)
    requires (forall id :: id in v.tabs <==> id in v.order) && FileOk(v, b, p, uuids) && v.order != []
    ensures var r := HydrateV(v, b, p, uuids);
            && r.active == v.active
            && v.order <= r.order
            && (forall id :: id in v.tabs ==> id in r.tabs && r.tabs[id] == v.tabs[id])
  {
    hide RestoredTabs, NotOpenV, Contents;
    NotOpenIds(v, RestoredTabs(b, p, uuids));
  }

  lemma HydrateKeeps(v: View, vcs: seq<VirtualContext>, b: Boot, p: PrefsFile, uuids: seq<string>)
    requires ViewInv(v, vcs) && FileOk(v, b, p, uuids) && LiveVirtualsSaved(v, p)
    ensures ViewInv(HydrateV(v, b, p, uuids), SavedVirtuals(p))
  {
    hide RestoredTabs, ContentOk, OneOwner, AnchorOf, Contents, ContentOf, Slices.SliceOk;
    var vcs' := SavedVirtuals(p);
    var restored := RestoredTabs(b, p, uuids);
    if v.order != [] {
      var added := NotOpenV(v, restored);
      NotOpenIds(v, restored);
      BatchRestored(v, b, p, uuids, added);
      forall x, y | x in v.tabs && y in Ids(added) ensures AnchorOf(v.tabs[x]) != AnchorOf(Contents(added)[y]) {
        JoinedAnchor(v, vcs, b, p, uuids, x, y);
      }
      JoinKeeps(v, vcs, vcs', Ids(added), Contents(added));
    } else if restored == [] {
      HydrateEmptyKeeps(v, vcs, vcs');
    } else {
      var k := RestoredActive(restored, p);
      var t := restored[k];
      BatchRestored(v, b, p, uuids, restored);
      ContentsAt(restored, k);
      AdoptedOk(v.idle, t, vcs');
      AdoptKeeps(v, vcs, vcs', Ids(restored), Contents(restored), t.id, Adopted(v.idle, t));
    }
  }

  lemma HydrateEmptyKeeps(v: View, vcs: seq<VirtualContext>, vcs': seq<VirtualContext>)
    requires ViewInv(v, vcs) && v.order == []
    ensures ViewInv(View([], map[], None, Content(None, None, [], v.idle.slice.(selectedKindId := None, selectedNamespaces := {}))), vcs')
  {
    hide Slices.SliceOk;
    SliceKindOk(v.idle.slice, None, {});
  }

  /** A tab that was open before hydration is still there, unchanged and in
      place; the active tab stays active; no tab that comes in shares an anchor
      with one that was open; and no restored tab with another anchor is lost. */
  lemma OpenTabsWin(v: View, vcs: seq<VirtualContext>, b: Boot, p: PrefsFile, uuids: seq<string>)
    requires ViewInv(v, vcs) && FileOk(v, b, p, uuids) && v.order != []
    ensures var r := HydrateV(v, b, p, uuids);
            && r.active == v.active
            && v.order <= r.order
            && (forall id :: id in v.tabs ==> id in r.tabs && r.tabs[id] == v.tabs[id])
            && (forall x, y :: x in v.tabs && y in r.tabs && y !in v.tabs ==> AnchorOf(r.tabs[y]) != AnchorOf(v.tabs[x]))
            && (forall t :: t in RestoredTabs(b, p, uuids) && !AnchorOpenV(v, t) ==> t.id in r.tabs && r.tabs[t.id] == ContentOf(t))
  {
    hide RestoredTabs, ContentOk, OneOwner, NotOpenV, FileOk, AnchorOf;
    OpenTabsStay(v, b, p, uuids);
    var added := NotOpenV(v, RestoredTabs(b, p, uuids));
    var r := HydrateV(v, b, p, uuids);
    forall x, y | x in v.tabs && y in r.tabs && y !in v.tabs ensures AnchorOf(r.tabs[y]) != AnchorOf(v.tabs[x]) {
      JoinedAnchor(v, vcs, b, p, uuids, x, y);
    }
    forall t | t in RestoredTabs(b, p, uuids) && !AnchorOpenV(v, t) ensures t.id in r.tabs && r.tabs[t.id] == ContentOf(t) {
      RestoredJoins(v, b, p, uuids, t);
    }
  }

  /** Those that join keep the order of the file. */
  lemma {:induction false} JoinOrder(v: View, a: seq<ClusterTab>, b: seq<ClusterTab>)
    ensures NotOpenV(v, a + b) == NotOpenV(v, a) + NotOpenV(v, b)
  {
    hide AnchorOpenV;
    if a == [] {
      assert a + b == b;
    } else {
      assert (a + b)[1..] == a[1..] + b;
      JoinOrder(v, a[1..], b);
    }
  }

  lemma RestoredJoins(v: View, b: Boot, p: PrefsFile, uuids: seq<string>, t: ClusterTab)
    requires FileOk(v, b, p, uuids) && v.order != []
    requires t in RestoredTabs(b, p, uuids) && !AnchorOpenV(v, t)
    ensures var r := HydrateV(v, b, p, uuids);
            t.id in r.tabs && r.tabs[t.id] == ContentOf(t)
  {
    hide RestoredTabs, NotOpenV, AnchorOpenV, Contents, ContentOf;
    var added := NotOpenV(v, RestoredTabs(b, p, uuids));
    NotOpenIds(v, RestoredTabs(b, p, uuids));
    var i :| 0 <= i < |added| && added[i] == t;
    ContentsAt(added, i);
    assert Ids(added)[i] == t.id;
  }

  lemma JoinedAnchor(v: View, vcs: seq<VirtualContext>, b: Boot, p: PrefsFile, uuids: seq<string>, x: string, y: string)
    requires ViewInv(v, vcs) && FileOk(v, b, p, uuids)
    requires x in v.tabs && y in Ids(NotOpenV(v, RestoredTabs(b, p, uuids)))
    ensures AnchorOf(Contents(NotOpenV(v, RestoredTabs(b, p, uuids)))[y]) != AnchorOf(v.tabs[x])
  {
    hide RestoredTabs, ContentOk, OneOwner, VirtualsOk;
    var added := NotOpenV(v, RestoredTabs(b, p, uuids));
    var t := added[IndexOf(Ids(added), y)];
    assert t in added;
    RestoredTabOk(b, p, uuids, t);
    assert !SameAnchors(t, v.tabs[x]) && AnchorOk(v.tabs[x], vcs);
  }
}

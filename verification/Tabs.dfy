/** The cluster-tab reducers. The top-level fields of the store are the live
    working copy of the active tab; `openTabs` keeps a copy of every tab, and
    the active tab's copy there may be stale until the next stash. */
module Tabs {
  import opened Lists
  import opened Scope
  import opened Slices
  import Dock
  import Drawers
  import Look

  datatype ClusterTab = ClusterTab(
    id: string,
    selectedContext: Option<string>,
    selectedVirtualContextId: Option<string>,
    scopeExtras: seq<string>,
    slice: ScopeSlice)

  datatype AppState = AppState(
    contexts: seq<string>,
    virtualContexts: seq<VirtualContext>,
    kinds: seq<string>,
    clusterEpoch: map<string, nat>,
    look: Look.Look,
    openTabs: seq<ClusterTab>,
    activeTabId: Option<string>,
    // The live copy of the active tab: its anchor ...
    selectedContext: Option<string>,
    selectedVirtualContextId: Option<string>,
    scopeExtras: seq<string>,
    // ... and its slice, field by field.
    selectedKindId: Option<string>,
    selectedNamespaces: set<string>,
    selection: map<string, SelectionMeta>,
    pendingDetail: Option<DetailEntry>,
    tableFilter: string,
    filterEditing: bool,
    focusedClusterId: Option<string>,
    kindClusters: map<string, seq<string>>,
    dockTabs: seq<Dock.DockTab>,
    dockActive: Dock.PerPlacement<Option<string>>,
    dockMin: Dock.PerPlacement<bool>,
    drawer: Option<Drawers.Drawer>,
    drawerId: Option<string>,
    tray: seq<Drawers.TrayItem>,
    tableScroll: map<string, int>)

  function Ids(tabs: seq<ClusterTab>): (r: seq<string>)
    ensures |r| == |tabs|
    ensures forall i :: 0 <= i < |tabs| ==> r[i] == tabs[i].id
  {
    seq(|tabs|, i requires 0 <= i < |tabs| => tabs[i].id)
  }

  // ----- Moving the live copy in and out -----

  function Capture(s: AppState): ScopeSlice {
    ScopeSlice(s.selectedKindId, s.selectedNamespaces, s.selection, s.pendingDetail, s.tableFilter, s.filterEditing,
               s.focusedClusterId, s.kindClusters, s.dockTabs, s.dockActive, s.dockMin, s.drawer, s.drawerId, s.tray,
               s.tableScroll)
  }

  function Spread(s: AppState, sl: ScopeSlice): AppState {
    s.(selectedKindId := sl.selectedKindId, selectedNamespaces := sl.selectedNamespaces, selection := sl.selection,
    pendingDetail := sl.pendingDetail, tableFilter := sl.tableFilter, filterEditing := sl.filterEditing,
    focusedClusterId := sl.focusedClusterId, kindClusters := sl.kindClusters, dockTabs := sl.dockTabs,
    dockActive := sl.dockActive, dockMin := sl.dockMin, drawer := sl.drawer, drawerId := sl.drawerId,
    tray := sl.tray, tableScroll := sl.tableScroll)
  }

  /** Landing on Fleet: no tab open, the live copy emptied. */
  function Fleet(s: AppState): AppState {
    Spread(s.(openTabs := [], activeTabId := None, selectedContext := None, selectedVirtualContextId := None,
           scopeExtras := []), EMPTY_SLICE)
  }

  function Stashed(s: AppState, t: ClusterTab): ClusterTab {
    if s.activeTabId == Some(t.id)
    then ClusterTab(t.id, s.selectedContext, s.selectedVirtualContextId, s.scopeExtras, Capture(s))
    else t
  }

  /** Write the live copy back into the tab list. */
  function StashActive(s: AppState): (r: seq<ClusterTab>)
    ensures |r| == |s.openTabs|
    ensures Ids(r) == Ids(s.openTabs)
    ensures s.activeTabId == None ==> r == s.openTabs
    ensures forall i :: 0 <= i < |r| ==> r[i] == Stashed(s, s.openTabs[i])
  {
    var r := seq(|s.openTabs|, i requires 0 <= i < |s.openTabs| => Stashed(s, s.openTabs[i]));
    assert Ids(r) == Ids(s.openTabs);
    assert s.activeTabId == None ==> r == s.openTabs;
    r
  }

  /** Make `t` the active tab of the list `tabs`. */
  function Activate(s: AppState, tabs: seq<ClusterTab>, t: ClusterTab): AppState {
    Spread(s.(openTabs := tabs, activeTabId := Some(t.id), selectedContext := t.selectedContext,
           selectedVirtualContextId := t.selectedVirtualContextId, scopeExtras := t.scopeExtras), t.slice)
  }

  function SwitchToTab(s: AppState, id: string): AppState {
    if s.activeTabId == Some(id) then s
    else
      var k := IndexOf(Ids(s.openTabs), id);
      if k == |s.openTabs| then s else Activate(s, StashActive(s), s.openTabs[k])
  }

  function KeepTabs(tabs: seq<ClusterTab>, gone: seq<string>): (r: seq<ClusterTab>)
    ensures forall t :: t in r <==> t in tabs && t.id !in gone
    ensures Ids(r) == Without(Ids(tabs), gone)
  {
    if tabs == [] then []
    else
      var rest := KeepTabs(tabs[1..], gone);
      IdsCons(tabs[0], tabs[1..]);
      IdsCons(tabs[0], rest);
      assert tabs == [tabs[0]] + tabs[1..];
      if tabs[0].id in gone then rest else [tabs[0]] + rest
  }

  lemma IdsCons(t: ClusterTab, rest: seq<ClusterTab>)
    ensures Ids([t] + rest) == [t.id] + Ids(rest)
  {
  }

  /** Remove tabs from an already stashed list. If the active one goes, the tab
      that slid into its position (or the last one) takes over; with none left
      the store lands on Fleet. */
  function FocusAfterClose(s: AppState, stashed: seq<ClusterTab>, closeIds: seq<string>): AppState {
    var remaining := KeepTabs(stashed, closeIds);
    if s.activeTabId.None? || s.activeTabId.value !in closeIds then s.(openTabs := remaining)
    else if remaining == [] then Fleet(s)
    else Activate(s, remaining, remaining[Neighbour(Ids(stashed), s.activeTabId.value, |remaining|)])
  }

  /** The position `id` had (0 when absent), clamped to what remains. */
  function Neighbour(order: seq<string>, id: string, left: nat): (k: nat)
    requires left > 0
    ensures k < left
  {
    var k := if id in order then IndexOf(order, id) else 0;
    if k < left then k else left - 1
  }

  // ----- Opening and closing -----

  datatype Anchor = Context(contextId: string) | Virtual(virtualId: string)

  predicate HasAnchor(t: ClusterTab, a: Anchor) {
    match a
    case Context(c) => t.selectedContext == Some(c) && t.selectedVirtualContextId == None
    case Virtual(v) => t.selectedVirtualContextId == Some(v)
  }

  function FindAnchor(tabs: seq<ClusterTab>, a: Anchor): (r: Option<string>)
    ensures r.Some? <==> exists t :: t in tabs && HasAnchor(t, a)
    ensures r.Some? ==> exists t :: t in tabs && HasAnchor(t, a) && t.id == r.value
  {
    if tabs == [] then None
    else if HasAnchor(tabs[0], a) then Some(tabs[0].id)
    else FindAnchor(tabs[1..], a)
  }

  function FreshTab(s: AppState, a: Anchor, uuid: string): ClusterTab {
    ClusterTab(uuid,
               if a.Context? then Some(a.contextId) else None,
               if a.Virtual? then Some(a.virtualId) else None,
               [],
               EMPTY_SLICE.(selectedKindId := if s.kinds == [] then None else Some(s.kinds[0])))
  }

  function OpenTab(s: AppState, a: Anchor, uuid: string): AppState {
    var existing := FindAnchor(s.openTabs, a);
    if existing.Some? then SwitchToTab(s, existing.value)
    else if a.Virtual? && a.virtualId !in VirtualIds(s.virtualContexts) then s
    else
      var t := FreshTab(s, a, uuid);
      Activate(s, StashActive(s) + [t], t)
  }

  function CloseTab(s: AppState, id: string): AppState {
    FocusAfterClose(s, StashActive(s), [id])
  }

  // ----- The kubeconfig list changes -----

  /** A tab dies when its anchor no longer resolves; an empty list is taken for
      a file being rewritten, and a tab holding dock tabs is never closed. */
  predicate AnchorAlive(cs: seq<string>, vcs: seq<VirtualContext>, selectedContext: Option<string>,
                        selectedVirtual: Option<string>, dockTabs: seq<Dock.DockTab>) {
    if cs == [] || dockTabs != [] then true
    else if Truthy(selectedVirtual) then
      var v := FindVirtual(vcs, selectedVirtual.value);
      v.Some? && Within(v.value.members, cs) != []
    else selectedContext.None? || selectedContext.value in cs
  }

  function Pruned(t: ClusterTab, cs: seq<string>): ClusterTab {
    t.(scopeExtras := Within(t.scopeExtras, cs))
  }

  function PruneAll(tabs: seq<ClusterTab>, cs: seq<string>): (r: seq<ClusterTab>)
    ensures |r| == |tabs|
    ensures Ids(r) == Ids(tabs)
    ensures forall i :: 0 <= i < |r| ==> r[i] == Pruned(tabs[i], cs)
  {
    var r := seq(|tabs|, i requires 0 <= i < |tabs| => Pruned(tabs[i], cs));
    assert Ids(r) == Ids(tabs);
    r
  }

  predicate TabAlive(cs: seq<string>, vcs: seq<VirtualContext>, t: ClusterTab) {
    AnchorAlive(cs, vcs, t.selectedContext, t.selectedVirtualContextId, t.slice.dockTabs)
  }

  function DeadIds(cs: seq<string>, vcs: seq<VirtualContext>, tabs: seq<ClusterTab>): (r: seq<string>)
    ensures forall x :: x in r <==> exists t :: t in tabs && t.id == x && !TabAlive(cs, vcs, t)
  {
    if tabs == [] then []
    else if TabAlive(cs, vcs, tabs[0]) then DeadIds(cs, vcs, tabs[1..])
    else [tabs[0].id] + DeadIds(cs, vcs, tabs[1..])
  }

  function SetContexts(s: AppState, cs: seq<string>): AppState {
    var stashed := PruneAll(StashActive(s), cs);
    var dead := DeadIds(cs, s.virtualContexts, stashed);
    var mirrorAlive := AnchorAlive(cs, s.virtualContexts, s.selectedContext, s.selectedVirtualContextId, s.dockTabs);
    var base := s.(contexts := cs,
                selectedContext := if mirrorAlive then s.selectedContext else None,
                selectedVirtualContextId := if mirrorAlive then s.selectedVirtualContextId else None,
                scopeExtras := if mirrorAlive then Within(s.scopeExtras, cs) else []);
    if s.activeTabId.None? then base.(openTabs := KeepTabs(stashed, dead))
    else FocusAfterClose(base, stashed, dead)
  }

  // ----- Virtual contexts and scope extras -----

  function WithoutVirtual(vcs: seq<VirtualContext>, id: string): (r: seq<VirtualContext>)
    ensures forall v :: v in r <==> v in vcs && v.id != id
    ensures VirtualIds(r) == Without(VirtualIds(vcs), [id])
  {
    if vcs == [] then []
    else
      var rest := WithoutVirtual(vcs[1..], id);
      VirtualIdsCons(vcs[0], vcs[1..]);
      VirtualIdsCons(vcs[0], rest);
      assert vcs == [vcs[0]] + vcs[1..];
      if vcs[0].id == id then rest else [vcs[0]] + rest
  }

  function AnchoredOn(tabs: seq<ClusterTab>, id: string): (r: seq<string>)
    ensures forall x :: x in r <==> exists t :: t in tabs && t.id == x && t.selectedVirtualContextId == Some(id)
  {
    if tabs == [] then []
    else if tabs[0].selectedVirtualContextId == Some(id) then [tabs[0].id] + AnchoredOn(tabs[1..], id)
    else AnchoredOn(tabs[1..], id)
  }

  function DeleteVirtualContext(s: AppState, id: string): AppState {
    var s' := s.(virtualContexts := WithoutVirtual(s.virtualContexts, id));
    var closeIds := AnchoredOn(s.openTabs, id);
    if closeIds == [] then s' else FocusAfterClose(s', StashActive(s), closeIds)
  }

  function RenameVirtual(vcs: seq<VirtualContext>, id: string, name: string): (r: seq<VirtualContext>)
    ensures VirtualIds(r) == VirtualIds(vcs)
  {
    var r := seq(|vcs|, i requires 0 <= i < |vcs| => if vcs[i].id == id then vcs[i].(name := name) else vcs[i]);
    assert VirtualIds(r) == VirtualIds(vcs);
    r
  }

  function ActiveClusters(s: AppState): seq<string> {
    ActiveClusterIds(s.contexts, s.selectedContext, s.virtualContexts, s.selectedVirtualContextId, s.scopeExtras)
  }

  function TabClusterIds(s: AppState, t: ClusterTab): seq<string> {
    ActiveClusterIds(s.contexts, t.selectedContext, s.virtualContexts, t.selectedVirtualContextId, t.scopeExtras)
  }

  function AbsorbScopeExtras(s: AppState, id: string): AppState {
    var v := FindVirtual(s.virtualContexts, id);
    if v.None? || s.scopeExtras == [] then s
    else s.(virtualContexts := WithMembers(s.virtualContexts, id, AbsorbedMembers(v.value.members, s.scopeExtras)),
         scopeExtras := [])
  }

  predicate AcceptsExtra(s: AppState, id: string) {
    && id in s.contexts
    && !(s.selectedContext.None? && s.selectedVirtualContextId.None?)
    && id !in ActiveClusters(s)
  }

  function AddScopeExtra(s: AppState, id: string): AppState {
    if AcceptsExtra(s, id) then s.(scopeExtras := s.scopeExtras + [id]) else s
  }

  function RemoveScopeExtra(s: AppState, id: string): AppState {
    Spread(s.(scopeExtras := Without(s.scopeExtras, [id])), Edited(Capture(s), DropFocus(id)))
  }

  // ----- Edits that reach one tab -----

  function EditLive(s: AppState, e: SliceEdit): (r: AppState)
    ensures r.openTabs == s.openTabs && r.activeTabId == s.activeTabId
  {
    Spread(s, Edited(Capture(s), e))
  }

  function IsDynamicKindId(id: string): bool {
    "crd:" <= id || "wkcrd:" <= id
  }

  /** A new kind list: the selection survives if it is listed, or if it is a
      dynamic kind whose discovery has not finished; else the first kind. */
  function KindEdit(current: Option<string>, ks: seq<string>, discoveryPending: bool): SliceEdit {
    var keep := Truthy(current) && (current.value in ks || (discoveryPending && IsDynamicKindId(current.value)));
    SetKindId(if keep then current else if ks == [] then None else Some(ks[0]))
  }

  function SetKinds(s: AppState, ks: seq<string>, discoveryPending: bool): AppState {
    EditLive(s.(kinds := ks), KindEdit(s.selectedKindId, ks, discoveryPending))
  }

  function EditedTab(t: ClusterTab, e: SliceEdit): ClusterTab {
    t.(slice := Edited(t.slice, e))
  }

  function MapTab(tabs: seq<ClusterTab>, id: string, e: SliceEdit): (r: seq<ClusterTab>)
    ensures |r| == |tabs|
    ensures Ids(r) == Ids(tabs)
    ensures forall i :: 0 <= i < |r| ==> r[i] == if tabs[i].id == id then EditedTab(tabs[i], e) else tabs[i]
  {
    var r := seq(|tabs|, i requires 0 <= i < |tabs| => if tabs[i].id == id then EditedTab(tabs[i], e) else tabs[i]);
    assert Ids(r) == Ids(tabs);
    r
  }

  /** Write to a tab wherever its current copy is: the live fields when it is
      active (or none is named), its stashed slice otherwise. */
  function PatchTab(s: AppState, tabId: Option<string>, e: SliceEdit): (r: AppState)
    ensures Ids(r.openTabs) == Ids(s.openTabs) && r.activeTabId == s.activeTabId
  {
    if tabId.None? || tabId == s.activeTabId then EditLive(s, e)
    else s.(openTabs := MapTab(s.openTabs, tabId.value, e))
  }

  function MapOwners(tabs: seq<ClusterTab>, id: string, e: SliceEdit): (r: seq<ClusterTab>)
    ensures |r| == |tabs|
    ensures Ids(r) == Ids(tabs)
    ensures forall i :: 0 <= i < |r| ==>
      r[i] == if id in Dock.Ids(tabs[i].slice.dockTabs) then EditedTab(tabs[i], e) else tabs[i]
  {
    var r := seq(|tabs|, i requires 0 <= i < |tabs| =>
      if id in Dock.Ids(tabs[i].slice.dockTabs) then EditedTab(tabs[i], e) else tabs[i]);
    assert Ids(r) == Ids(tabs);
    r
  }

  /** Route a dock edit to whichever tab owns the dock tab `id`: the live copy
      first, else the stashed slices. */
  function EditOwner(s: AppState, id: string, e: SliceEdit): (r: AppState)
    ensures Ids(r.openTabs) == Ids(s.openTabs) && r.activeTabId == s.activeTabId
  {
    if id in Dock.Ids(s.dockTabs) then EditLive(s, e)
    else s.(openTabs := MapOwners(s.openTabs, id, e))
  }

  function CloseDockTab(s: AppState, id: string): AppState {
    EditOwner(s, id, DockEdit(Dock.Close({id})))
  }

  function PatchDockTab(s: AppState, id: string, patch: Dock.DockPatch): AppState {
    EditOwner(s, id, DockEdit(Dock.Edit(id, patch)))
  }

  // ----- Restoring a session -----

  /** What the session file holds for one tab. `uuid` is the instance id drawn
      for its drawer. */
  datatype RestoredSlice = RestoredSlice(
    dockTabs: seq<Dock.DockTab>, dockActive: Dock.PerPlacement<Option<string>>, dockMin: Dock.PerPlacement<bool>,
    drawer: Option<Drawers.Drawer>, tray: seq<Drawers.TrayItem>, uuid: string)

  predicate Untouched(sl: ScopeSlice) {
    sl.dockTabs == [] && sl.drawer.None? && sl.tray == []
  }

  function Merge(sl: ScopeSlice, r: RestoredSlice): ScopeSlice {
    sl.(dockTabs := r.dockTabs, dockActive := r.dockActive, dockMin := r.dockMin, drawer := r.drawer, tray := r.tray,
    drawerId := if r.drawer.Some? then Some(r.uuid) else None)
  }

  function Rehydrated(s: AppState, t: ClusterTab, slices: map<string, RestoredSlice>): ClusterTab {
    if t.id in slices && s.activeTabId != Some(t.id) && Untouched(t.slice)
    then t.(slice := Merge(t.slice, slices[t.id])) else t
  }

  function RehydrateAll(s: AppState, slices: map<string, RestoredSlice>): (r: seq<ClusterTab>)
    ensures |r| == |s.openTabs|
    ensures forall i :: 0 <= i < |r| ==> r[i] == Rehydrated(s, s.openTabs[i], slices)
  {
    seq(|s.openTabs|, i requires 0 <= i < |s.openTabs| => Rehydrated(s, s.openTabs[i], slices))
  }

  function HydrateSession(s: AppState, slices: map<string, RestoredSlice>): AppState {
    var s' := s.(openTabs := RehydrateAll(s, slices));
    if Truthy(s.activeTabId) && s.activeTabId.value in slices && Untouched(Capture(s))
    then Spread(s', Merge(Capture(s), slices[s.activeTabId.value])) else s'
  }
}

/** Every tab action as a step of the store and as a step on its logical
    contents, and what holds over all runs. */
module Runs {
  import opened Lists
  import opened Scope
  import opened Slices
  import opened Tabs
  import opened Views
  import opened Invariants
  import P = Prefs
  import M = PrefsMerge
  import L = Look
  import Dock

  /** Actions on the set of open tabs. */
  datatype TabAction =
    | SetContextList(cs: seq<string>)
    | Open(anchor: Anchor, uuid: string)
    | Switch(id: string)
    | Close(id: string)
    | GoFleet
    | DeleteVirtual(id: string)

  /** Actions on what a tab holds. */
  datatype SliceAction =
    | SetKindList(ks: seq<string>, discoveryPending: bool)
    | Live(edit: SliceEdit)
    | PatchOne(tabId: Option<string>, edit: SliceEdit)
    | CloseDock(id: string)
    | PatchDock(id: string, patch: Dock.DockPatch)
    | RestoreSession(slices: map<string, RestoredSlice>)

  /** Actions on scopes and saved virtual contexts, and the startup read. */
  datatype ScopeAction =
    | SaveVirtual(name: string, members: seq<string>, uuid: string)
    | Rename(id: string, name: string)
    | SetMembers(id: string, members: seq<string>)
    | Absorb(id: string)
    | AddExtra(id: string)
    | RemoveExtra(id: string)
    | Reconnect(id: string)
    | Hydrate(p: P.PrefsFile, uuids: seq<string>)

  datatype Action = OnTabs(t: TabAction) | OnSlice(e: SliceAction) | OnScope(c: ScopeAction)

  function StepTabs(s: AppState, a: TabAction): AppState {
    match a
    case SetContextList(cs) => SetContexts(s, cs)
    case Open(anchor, uuid) => OpenTab(s, anchor, uuid)
    case Switch(id) => SwitchToTab(s, id)
    case Close(id) => CloseTab(s, id)
    case GoFleet => Fleet(s)
    case DeleteVirtual(id) => DeleteVirtualContext(s, id)
  }

  function StepSlice(s: AppState, a: SliceAction): AppState {
    match a
    case SetKindList(ks, pending) => SetKinds(s, ks, pending)
    case Live(e) => EditLive(s, e)
    case PatchOne(tabId, e) => PatchTab(s, tabId, e)
    case CloseDock(id) => CloseDockTab(s, id)
    case PatchDock(id, patch) => PatchDockTab(s, id, patch)
    case RestoreSession(slices) => HydrateSession(s, slices)
  }

  function StepScope(s: AppState, a: ScopeAction): AppState {
    match a
    case SaveVirtual(name, members, uuid) => s.(virtualContexts := s.virtualContexts + [VirtualContext(uuid, name, members)])
    case Rename(id, name) => s.(virtualContexts := RenameVirtual(s.virtualContexts, id, name))
    case SetMembers(id, members) => s.(virtualContexts := WithMembers(s.virtualContexts, id, members))
    case Absorb(id) => AbsorbScopeExtras(s, id)
    case AddExtra(id) => AddScopeExtra(s, id)
    case RemoveExtra(id) => RemoveScopeExtra(s, id)
    case Reconnect(id) => s.(clusterEpoch := Bump(s.clusterEpoch, id))
    case Hydrate(p, uuids) => P.HydratePrefs(s, p, uuids)
  }

  function Step(s: AppState, a: Action): AppState {
    match a
    case OnTabs(t) => StepTabs(s, t)
    case OnSlice(e) => StepSlice(s, e)
    case OnScope(c) => StepScope(s, c)
  }

  // ----- The logical machine -----

  /** The store with the live copy and the stale copies forgotten. */
  datatype Model = Model(
    view: View, contexts: seq<string>, virtualContexts: seq<VirtualContext>, kinds: seq<string>,
    clusterEpoch: map<string, nat>, look: L.Look)

  function ModelOf(s: AppState): Model {
    Model(ViewOf(s), s.contexts, s.virtualContexts, s.kinds, s.clusterEpoch, s.look)
  }

  ghost predicate WellPointed(v: View) {
    && (forall id :: id in v.tabs <==> id in v.order)
    && (v.active.Some? ==> v.active.value in v.tabs)
  }

  function SetExtrasV(v: View, extras: seq<string>): View
    requires WellPointed(v)
  {
    SetLiveV(v, LiveOf(v).(scopeExtras := extras))
  }

  function LiveClusters(m: Model): seq<string>
    requires WellPointed(m.view)
  {
    var c := LiveOf(m.view);
    ActiveClusterIds(m.contexts, c.selectedContext, m.virtualContexts, c.selectedVirtualContextId, c.scopeExtras)
  }

  function AddExtraM(m: Model, id: string): Model
    requires WellPointed(m.view)
  {
    var c := LiveOf(m.view);
    if id in m.contexts && (c.selectedContext.Some? || c.selectedVirtualContextId.Some?) && id !in LiveClusters(m)
    then m.(view := SetExtrasV(m.view, c.scopeExtras + [id])) else m
  }

  function AbsorbM(m: Model, id: string): Model
    requires WellPointed(m.view)
  {
    var v, extras := FindVirtual(m.virtualContexts, id), LiveOf(m.view).scopeExtras;
    if v.None? || extras == [] then m
    else m.(virtualContexts := WithMembers(m.virtualContexts, id, AbsorbedMembers(v.value.members, extras)),
         view := SetExtrasV(m.view, []))
  }

  /** `removeScopeExtra` also drops the row selection and a focus on the gone
      cluster. */
  function RemoveExtraV(v: View, id: string): View
    requires WellPointed(v)
  {
    var c := LiveOf(v);
    SetLiveV(v, EditContent(c, DropFocus(id)).(scopeExtras := Without(c.scopeExtras, [id])))
  }

  function StepTabsM(m: Model, a: TabAction): Model
    requires WellPointed(m.view)
  {
    match a
    case SetContextList(cs) => m.(contexts := cs, view := SetContextsV(m.view, cs, m.virtualContexts))
    case Open(anchor, uuid) => m.(view := OpenV(m.view, anchor, uuid, m.kinds, m.virtualContexts))
    case Switch(id) => m.(view := SwitchV(m.view, id))
    case Close(id) => m.(view := CloseV(m.view, [id]))
    case GoFleet => m.(view := NO_TABS)
    case DeleteVirtual(id) => m.(virtualContexts := WithoutVirtual(m.virtualContexts, id), view := DeleteVirtualV(m.view, id))
  }

  function StepSliceM(m: Model, a: SliceAction): Model
    requires WellPointed(m.view)
  {
    match a
    case SetKindList(ks, pending) =>
      m.(kinds := ks, view := EditV(m.view, None, KindEdit(LiveOf(m.view).slice.selectedKindId, ks, pending)))
    case Live(e) => m.(view := EditV(m.view, None, e))
    case PatchOne(tabId, e) => m.(view := EditV(m.view, tabId, e))
    case CloseDock(id) => m.(view := OwnerV(m.view, id, DockEdit(Dock.Close({id}))))
    case PatchDock(id, patch) => m.(view := OwnerV(m.view, id, DockEdit(Dock.Edit(id, patch))))
    case RestoreSession(slices) => m.(view := SessionV(m.view, slices))
  }

  function StepScopeM(m: Model, a: ScopeAction): Model
    requires WellPointed(m.view)
  {
    match a
    case SaveVirtual(name, members, uuid) => m.(virtualContexts := m.virtualContexts + [VirtualContext(uuid, name, members)])
    case Rename(id, name) => m.(virtualContexts := RenameVirtual(m.virtualContexts, id, name))
    case SetMembers(id, members) => m.(virtualContexts := WithMembers(m.virtualContexts, id, members))
    case Absorb(id) => AbsorbM(m, id)
    case AddExtra(id) => AddExtraM(m, id)
    case RemoveExtra(id) => m.(view := RemoveExtraV(m.view, id))
    case Reconnect(id) => m.(clusterEpoch := Bump(m.clusterEpoch, id))
    case Hydrate(p, uuids) =>
      m.(view := M.HydrateV(m.view, BootM(m), p, uuids), virtualContexts := P.SavedVirtuals(p), look := P.HydrateLook(p))
  }

  function StepM(m: Model, a: Action): Model
    requires WellPointed(m.view)
  {
    match a
    case OnTabs(t) => StepTabsM(m, t)
    case OnSlice(e) => StepSliceM(m, e)
    case OnScope(c) => StepScopeM(m, c)
  }

  function BootM(m: Model): P.Boot
    requires WellPointed(m.view)
  {
    P.Boot(m.contexts, m.kinds, LiveOf(m.view).selectedContext)
  }

  /** What the environment guarantees about an action in a logical state: random
      ids are new, files are sane, and hydration does not lose a virtual context
      an open tab is anchored on. */
  ghost predicate AllowedSlice(m: Model, a: SliceAction)
    requires WellPointed(m.view)
  {
    match a
    case Live(e) => TabEditAllowed(m.view, None, e)
    case PatchOne(tabId, e) => TabEditAllowed(m.view, tabId, e)
    case PatchDock(id, patch) => OwnerPatchFits(m.view, id, patch)
    case RestoreSession(slices) => SessionAllowed(m.view, slices)
    case _ => true
  }

  ghost predicate AllowedScope(m: Model, a: ScopeAction)
    requires WellPointed(m.view)
  {
    match a
    case SaveVirtual(_, _, uuid) => uuid != ""
    case Hydrate(p, uuids) => M.FileOk(m.view, BootM(m), p, uuids) && M.LiveVirtualsSaved(m.view, p)
    case _ => true
  }

  ghost predicate Allowed(m: Model, a: Action)
    requires WellPointed(m.view)
  {
    match a
    case OnTabs(t) => t.Open? ==> t.uuid !in m.view.order && t.uuid != ""
    case OnSlice(e) => AllowedSlice(m, e)
    case OnScope(c) => AllowedScope(m, c)
  }

  ghost predicate InvM(m: Model) {
    ViewInv(m.view, m.virtualContexts) && VirtualsOk(m.virtualContexts)
  }

  lemma InvPointed(m: Model)
    requires InvM(m)
    ensures WellPointed(m.view)
  {
    hide ContentsOk;
  }

  lemma InvParts(s: AppState)
    requires Inv(s)
    ensures InvM(ModelOf(s)) && WellPointed(ViewOf(s)) && Coupled(s)
    ensures Distinct(Ids(s.openTabs)) && OneOwner(ViewOf(s))
    ensures s.activeTabId.None? <==> s.openTabs == []
    ensures s.activeTabId.Some? ==> s.activeTabId.value in Ids(s.openTabs) && s.activeTabId.value != ""
    ensures s.activeTabId.None? ==> s.selectedContext.None? && s.selectedVirtualContextId.None? && s.scopeExtras == []
  {
    hide ContentOk, OneOwner, Slices.EMPTY_SLICE, Tabs.Capture;
    assert |ViewOf(s).order| == |s.openTabs|;
  }

  // ----- Each step of the store is the logical step -----

  lemma LiveIsLive(s: AppState)
    requires Distinct(Ids(s.openTabs))
    requires s.activeTabId.Some? ==> s.activeTabId.value in Ids(s.openTabs)
    ensures LiveOf(ViewOf(s)) == LiveContent(s)
  {
    hide LiveContent, ViewOf;
    if s.activeTabId.Some? {
      ViewAt(s, IndexOf(Ids(s.openTabs), s.activeTabId.value));
    }
  }

  /** Only the live copy differs: the view differs only there. */
  lemma SetLiveRefines(s: AppState, r: AppState)
    requires Distinct(Ids(s.openTabs))
    requires s.activeTabId.Some? ==> s.activeTabId.value in Ids(s.openTabs)
    requires r.openTabs == s.openTabs && r.activeTabId == s.activeTabId
    ensures ViewOf(r) == SetLiveV(ViewOf(s), LiveContent(r))
  {
    hide LiveContent, ViewOf;
    var m := SetLiveV(ViewOf(s), LiveContent(r)).tabs;
    forall i | 0 <= i < |r.openTabs| ensures m[Ids(r.openTabs)[i]] == ContentAt(r, i) {
      ViewAt(s, i);
    }
    ViewBy(r, m);
  }

  lemma LiveExtras(s: AppState, extras: seq<string>)
    ensures LiveContent(s.(scopeExtras := extras)) == LiveContent(s).(scopeExtras := extras)
  {
  }

  lemma ExtrasRefine(s: AppState, extras: seq<string>)
    requires Distinct(Ids(s.openTabs))
    requires s.activeTabId.Some? ==> s.activeTabId.value in Ids(s.openTabs)
    ensures WellPointed(ViewOf(s))
    ensures ViewOf(s.(scopeExtras := extras)) == SetExtrasV(ViewOf(s), extras)
  {
    hide LiveContent, ViewOf;
    LiveIsLive(s);
    LiveExtras(s, extras);
    SetLiveRefines(s, s.(scopeExtras := extras));
  }

  lemma RemoveExtraRefines(s: AppState, id: string)
    requires Inv(s)
    ensures WellPointed(ViewOf(s))
    ensures ViewOf(RemoveScopeExtra(s, id)) == RemoveExtraV(ViewOf(s), id)
  {
    hide Inv, LiveContent, ViewOf, Slices.Edited;
    InvParts(s);
    var r := RemoveScopeExtra(s, id);
    LiveIsLive(s);
    LiveFields(s);
    LiveRemove(s, id);
    SetLiveRefines(s, r);
  }

  lemma LiveRemove(s: AppState, id: string)
    ensures var r := RemoveScopeExtra(s, id);
            && LiveContent(r) == EditContent(LiveContent(s), DropFocus(id)).(scopeExtras := Without(s.scopeExtras, [id]))
            && r.openTabs == s.openTabs && r.activeTabId == s.activeTabId
  {
    hide Slices.Edited;
    CaptureSpread(s.(scopeExtras := Without(s.scopeExtras, [id])), Edited(Capture(s), DropFocus(id)));
    hide Tabs.Capture;
  }

  lemma KindsLive(s: AppState, ks: seq<string>)
    ensures LiveContent(s.(kinds := ks)) == LiveContent(s)
    ensures ViewOf(s.(kinds := ks)) == ViewOf(s)
  {
  }

  lemma SetKindsRefines(s: AppState, ks: seq<string>, pending: bool)
    requires Inv(s)
    ensures WellPointed(ViewOf(s))
    ensures ViewOf(SetKinds(s, ks, pending))
         == EditV(ViewOf(s), None, KindEdit(LiveOf(ViewOf(s)).slice.selectedKindId, ks, pending))
  {
    hide Inv, ViewOf, InvM, OneOwner, Coupled, LiveContent, Tabs.EditLive, Views.EditV, Tabs.KindEdit;
    InvParts(s);
    LiveIsLive(s);
    LiveFields(s);
    KindsLive(s, ks);
    EditLiveRefines(s.(kinds := ks), KindEdit(s.selectedKindId, ks, pending));
  }

  lemma EnvironmentLive(s: AppState, r: AppState)
    requires r == s.(virtualContexts := r.virtualContexts, clusterEpoch := r.clusterEpoch)
    ensures ViewOf(r) == ViewOf(s)
    ensures LiveContent(r) == LiveContent(s)
  {
    hide LiveContent, Contents;
    EnvironmentCopy(s, r);
  }

  lemma EnvironmentCopy(s: AppState, r: AppState)
    requires r == s.(virtualContexts := r.virtualContexts, clusterEpoch := r.clusterEpoch)
    ensures LiveContent(r) == LiveContent(s)
  {
  }

  lemma ScopeEdit(s: AppState, vcs: seq<VirtualContext>, extras: seq<string>)
    requires Inv(s)
    ensures WellPointed(ViewOf(s))
    ensures ModelOf(s.(virtualContexts := vcs, scopeExtras := extras))
         == ModelOf(s).(virtualContexts := vcs, view := SetExtrasV(ViewOf(s), extras))
  {
    hide Inv, ViewOf, InvM, OneOwner, Coupled, LiveContent, SetExtrasV;
    InvParts(s);
    var s' := s.(virtualContexts := vcs);
    EnvironmentLive(s, s');
    ExtrasRefine(s', extras);
  }

  lemma AbsorbRefines(s: AppState, id: string)
    requires Inv(s)
    ensures WellPointed(ViewOf(s))
    ensures ModelOf(AbsorbScopeExtras(s, id)) == AbsorbM(ModelOf(s), id)
  {
    hide Inv, ViewOf, InvM, OneOwner, Coupled, LiveContent, SetExtrasV, Tabs.Capture, WithMembers, AbsorbedMembers;
    InvParts(s);
    LiveIsLive(s);
    LiveFields(s);
    var v := FindVirtual(s.virtualContexts, id);
    if v.Some? {
      ScopeEdit(s, WithMembers(s.virtualContexts, id, AbsorbedMembers(v.value.members, s.scopeExtras)), []);
    }
  }

  lemma LiveFields(s: AppState)
    ensures LiveContent(s).selectedContext == s.selectedContext
    ensures LiveContent(s).selectedVirtualContextId == s.selectedVirtualContextId
    ensures LiveContent(s).scopeExtras == s.scopeExtras
    ensures LiveContent(s).slice == Capture(s)
  {
  }

  lemma AddExtraRefines(s: AppState, id: string)
    requires Inv(s)
    ensures WellPointed(ViewOf(s))
    ensures ModelOf(AddScopeExtra(s, id)) == AddExtraM(ModelOf(s), id)
  {
    hide Inv, ViewOf, LiveContent, SetExtrasV;
    InvParts(s);
    LiveIsLive(s);
    LiveFields(s);
    ExtrasRefine(s, s.scopeExtras + [id]);
  }

  /** What the tab actions read but (mostly) do not write. */
  datatype Env = Env(
    contexts: seq<string>, virtualContexts: seq<VirtualContext>, kinds: seq<string>, clusterEpoch: map<string, nat>,
    look: L.Look)

  function EnvOf(s: AppState): Env {
    Env(s.contexts, s.virtualContexts, s.kinds, s.clusterEpoch, s.look)
  }

  lemma SpreadEnv(s: AppState, sl: ScopeSlice)
    ensures EnvOf(Spread(s, sl)) == EnvOf(s)
  {
  }

  lemma EditEnv(s: AppState, e: SliceEdit)
    ensures EnvOf(EditLive(s, e)) == EnvOf(s)
  {
    hide Slices.Edited, Tabs.Spread;
    SpreadEnv(s, Edited(Capture(s), e));
  }

  lemma ActivateEnv(s: AppState, tabs: seq<ClusterTab>, t: ClusterTab)
    ensures EnvOf(Activate(s, tabs, t)) == EnvOf(s)
  {
  }

  lemma FleetEnv(s: AppState)
    ensures EnvOf(Fleet(s)) == EnvOf(s)
  {
  }

  lemma SwitchEnv(s: AppState, id: string)
    ensures EnvOf(SwitchToTab(s, id)) == EnvOf(s)
  {
    hide Tabs.Activate, Tabs.Stashed;
    var k := IndexOf(Ids(s.openTabs), id);
    if k < |s.openTabs| { ActivateEnv(s, StashActive(s), s.openTabs[k]); }
  }

  lemma FocusEnv(s: AppState, stashed: seq<ClusterTab>, closeIds: seq<string>)
    ensures EnvOf(FocusAfterClose(s, stashed, closeIds)) == EnvOf(s)
  {
    hide Tabs.Activate, Tabs.Fleet;
    var remaining := KeepTabs(stashed, closeIds);
    FleetEnv(s);
    if s.activeTabId.Some? && remaining != [] {
      ActivateEnv(s, remaining, remaining[Neighbour(Ids(stashed), s.activeTabId.value, |remaining|)]);
    }
  }

  lemma OpenEnv(s: AppState, a: Anchor, uuid: string)
    ensures EnvOf(OpenTab(s, a, uuid)) == EnvOf(s)
  {
    hide Tabs.Activate, Tabs.SwitchToTab, Tabs.Stashed;
    var existing := FindAnchor(s.openTabs, a);
    if existing.Some? { SwitchEnv(s, existing.value); }
    ActivateEnv(s, StashActive(s) + [FreshTab(s, a, uuid)], FreshTab(s, a, uuid));
  }

  lemma SetContextsEnv(s: AppState, cs: seq<string>)
    ensures EnvOf(SetContexts(s, cs)) == EnvOf(s).(contexts := cs)
  {
    hide Tabs.FocusAfterClose;
    var stashed := PruneAll(StashActive(s), cs);
    var dead := DeadIds(cs, s.virtualContexts, stashed);
    var mirrorAlive := AnchorAlive(cs, s.virtualContexts, s.selectedContext, s.selectedVirtualContextId, s.dockTabs);
    FocusEnv(s.(contexts := cs,
             selectedContext := if mirrorAlive then s.selectedContext else None,
             selectedVirtualContextId := if mirrorAlive then s.selectedVirtualContextId else None,
             scopeExtras := if mirrorAlive then Within(s.scopeExtras, cs) else []), stashed, dead);
  }

  lemma DeleteEnv(s: AppState, id: string)
    ensures EnvOf(DeleteVirtualContext(s, id)) == EnvOf(s).(virtualContexts := WithoutVirtual(s.virtualContexts, id))
  {
    hide Tabs.FocusAfterClose, Tabs.Stashed;
    FocusEnv(s.(virtualContexts := WithoutVirtual(s.virtualContexts, id)), StashActive(s), AnchoredOn(s.openTabs, id));
  }

  lemma SetKindsEnv(s: AppState, ks: seq<string>, pending: bool)
    ensures EnvOf(SetKinds(s, ks, pending)) == EnvOf(s).(kinds := ks)
  {
    hide Tabs.EditLive;
    var e := KindEdit(s.selectedKindId, ks, pending);
    EditEnv(s.(kinds := ks), e);
    assert SetKinds(s, ks, pending) == EditLive(s.(kinds := ks), e);
  }

  lemma PatchEnv(s: AppState, tabId: Option<string>, e: SliceEdit)
    ensures EnvOf(PatchTab(s, tabId, e)) == EnvOf(s)
  {
    hide Tabs.EditLive;
    EditEnv(s, e);
  }

  lemma OwnerEnv(s: AppState, id: string, e: SliceEdit)
    ensures EnvOf(EditOwner(s, id, e)) == EnvOf(s)
  {
    hide Tabs.EditLive;
    EditEnv(s, e);
  }

  lemma SessionEnv(s: AppState, slices: map<string, RestoredSlice>)
    ensures EnvOf(HydrateSession(s, slices)) == EnvOf(s)
  {
    hide Tabs.Merge, Tabs.Spread, Tabs.RehydrateAll;
    var tabs := RehydrateAll(s, slices);
    if s.activeTabId.Some? && s.activeTabId.value in slices {
      SpreadEnv(s.(openTabs := tabs), Merge(Capture(s), slices[s.activeTabId.value]));
    }
  }

  lemma RemoveEnv(s: AppState, id: string)
    ensures EnvOf(RemoveScopeExtra(s, id)) == EnvOf(s)
  {
    hide Slices.Edited, Tabs.Spread;
    SpreadEnv(s.(scopeExtras := Without(s.scopeExtras, [id])), Edited(Capture(s), DropFocus(id)));
  }

  lemma AdoptEnv(s: AppState, tabs: seq<ClusterTab>, t: Option<ClusterTab>)
    ensures EnvOf(P.Adopt(s, tabs, t)) == EnvOf(s)
  {
  }

  lemma HydrateEnv(s: AppState, p: P.PrefsFile, uuids: seq<string>)
    ensures EnvOf(P.HydratePrefs(s, p, uuids))
         == EnvOf(s).(virtualContexts := P.SavedVirtuals(p), look := P.HydrateLook(p))
  {
    hide P.RestoredTabs, P.HydrateLook, P.SavedVirtuals, Tabs.StashActive, P.NotOpen, P.BootOf, Tabs.Ids, P.Adopt, P.RestoredActive;
    var s' := s.(look := P.HydrateLook(p), virtualContexts := P.SavedVirtuals(p));
    var restored := P.RestoredTabs(P.BootOf(s), p, uuids);
    AdoptEnv(s', [], None);
    if restored != [] { AdoptEnv(s', restored, Some(restored[P.RestoredActive(restored, p)])); }
  }

  lemma OwnerParts(s: AppState, id: string, e: SliceEdit)
    requires Inv(s)
    ensures ViewOf(EditOwner(s, id, e)) == OwnerV(ViewOf(s), id, e)
  {
    hide Inv;
    InvParts(s);
    OwnerRefines(s, id, e);
  }

  lemma FleetView(s: AppState)
    ensures ViewOf(Fleet(s)) == NO_TABS
  {
    hide LiveContent, Tabs.Fleet;
    LiveFleet(s);
    IdleView(Fleet(s));
    M.NoContents();
  }

  lemma BootRefines(s: AppState)
    requires Inv(s)
    ensures WellPointed(ViewOf(s)) && BootM(ModelOf(s)) == P.BootOf(s)
  {
    hide Inv, ViewOf, LiveContent;
    InvParts(s);
    LiveIsLive(s);
    LiveFields(s);
  }

  lemma SetContextsStep(s: AppState, cs: seq<string>)
    requires Inv(s)
    ensures ModelOf(SetContexts(s, cs)) == ModelOf(s).(contexts := cs, view := SetContextsV(ViewOf(s), cs, s.virtualContexts))
  {
    hide Inv, ViewOf, InvM, Coupled, OneOwner, UpToDate, LiveContent, Tabs.SetContexts, Views.SetContextsV;
    InvParts(s);
    SetContextsEnv(s, cs);
    SetContextsRefines(s, cs);
  }

  lemma OpenStep(s: AppState, a: Anchor, uuid: string)
    requires Inv(s) && uuid !in Ids(s.openTabs)
    ensures ModelOf(OpenTab(s, a, uuid)) == ModelOf(s).(view := OpenV(ViewOf(s), a, uuid, s.kinds, s.virtualContexts))
  {
    hide Inv, ViewOf, InvM, Coupled, OneOwner, UpToDate, LiveContent, Tabs.OpenTab, Views.OpenV;
    InvParts(s);
    OpenEnv(s, a, uuid);
    OpenRefines(s, a, uuid);
  }

  lemma SwitchStep(s: AppState, id: string)
    requires Inv(s)
    ensures ModelOf(SwitchToTab(s, id)) == ModelOf(s).(view := SwitchV(ViewOf(s), id))
  {
    hide Inv, ViewOf, InvM, Coupled, OneOwner, UpToDate, LiveContent, Tabs.SwitchToTab, Views.SwitchV;
    InvParts(s);
    SwitchEnv(s, id);
    SwitchRefines(s, id);
  }

  lemma CloseEnv(s: AppState, id: string)
    ensures EnvOf(CloseTab(s, id)) == EnvOf(s)
  {
    hide Tabs.FocusAfterClose, Tabs.Stashed;
    FocusEnv(s, StashActive(s), [id]);
  }

  lemma CloseStep(s: AppState, id: string)
    requires Inv(s)
    ensures ModelOf(CloseTab(s, id)) == ModelOf(s).(view := CloseV(ViewOf(s), [id]))
  {
    hide Inv, ViewOf, InvM, Coupled, OneOwner, UpToDate, LiveContent, Tabs.CloseTab, Views.CloseV;
    InvParts(s);
    CloseEnv(s, id);
    CloseRefines(s, id);
  }

  lemma DeleteStep(s: AppState, id: string)
    requires Inv(s)
    ensures ModelOf(DeleteVirtualContext(s, id)) == ModelOf(s).(virtualContexts := WithoutVirtual(s.virtualContexts, id), view := DeleteVirtualV(ViewOf(s), id))
  {
    hide Inv, ViewOf, InvM, Coupled, OneOwner, UpToDate, LiveContent, Tabs.DeleteVirtualContext, Views.DeleteVirtualV, WithoutVirtual;
    InvParts(s);
    DeleteEnv(s, id);
    DeleteVirtualRefines(s, id);
  }

  lemma LiveStep(s: AppState, e: SliceEdit)
    requires Inv(s)
    ensures WellPointed(ViewOf(s))
    ensures ModelOf(EditLive(s, e)) == ModelOf(s).(view := EditV(ViewOf(s), None, e))
  {
    hide Inv, ViewOf, InvM, Coupled, OneOwner, UpToDate, LiveContent, Tabs.EditLive, Views.EditV;
    InvParts(s);
    EditEnv(s, e);
    EditLiveRefines(s, e);
  }

  lemma PatchStep(s: AppState, tabId: Option<string>, e: SliceEdit)
    requires Inv(s)
    ensures WellPointed(ViewOf(s))
    ensures ModelOf(PatchTab(s, tabId, e)) == ModelOf(s).(view := EditV(ViewOf(s), tabId, e))
  {
    hide Inv, ViewOf, InvM, Coupled, OneOwner, UpToDate, LiveContent, Tabs.PatchTab, Views.EditV;
    InvParts(s);
    PatchEnv(s, tabId, e);
    PatchRefines(s, tabId, e);
  }

  lemma OwnerStep(s: AppState, id: string, e: SliceEdit)
    requires Inv(s)
    ensures ModelOf(EditOwner(s, id, e)) == ModelOf(s).(view := OwnerV(ViewOf(s), id, e))
  {
    hide Inv, ViewOf, InvM, Coupled, OneOwner, UpToDate, LiveContent, Tabs.EditOwner, Views.OwnerV;
    InvParts(s);
    OwnerEnv(s, id, e);
    OwnerParts(s, id, e);
  }

  lemma SessionStep(s: AppState, slices: map<string, RestoredSlice>)
    requires Inv(s)
    ensures ModelOf(HydrateSession(s, slices)) == ModelOf(s).(view := SessionV(ViewOf(s), slices))
  {
    hide Inv, ViewOf, InvM, Coupled, OneOwner, UpToDate, LiveContent, Tabs.HydrateSession, Views.SessionV;
    InvParts(s);
    SessionEnv(s, slices);
    SessionRefines(s, slices);
  }

  lemma RemoveStep(s: AppState, id: string)
    requires Inv(s)
    ensures WellPointed(ViewOf(s))
    ensures ModelOf(RemoveScopeExtra(s, id)) == ModelOf(s).(view := RemoveExtraV(ViewOf(s), id))
  {
    hide Inv, ViewOf, InvM, Coupled, OneOwner, UpToDate, LiveContent, Tabs.RemoveScopeExtra, RemoveExtraV;
    InvParts(s);
    RemoveEnv(s, id);
    RemoveExtraRefines(s, id);
  }

  lemma KindsStep(s: AppState, ks: seq<string>, pending: bool)
    requires Inv(s)
    ensures WellPointed(ViewOf(s))
    ensures ModelOf(SetKinds(s, ks, pending))
         == ModelOf(s).(kinds := ks, view := EditV(ViewOf(s), None, KindEdit(LiveOf(ViewOf(s)).slice.selectedKindId, ks, pending)))
  {
    SetKindsRefines(s, ks, pending);
    hide Inv, ViewOf, InvM, Coupled, OneOwner, LiveContent, Tabs.SetKinds, Views.EditV, Tabs.KindEdit;
    SetKindsEnv(s, ks, pending);
  }

  lemma FleetStep(s: AppState)
    ensures ModelOf(Fleet(s)) == ModelOf(s).(view := NO_TABS)
  {
    hide ViewOf, Tabs.Fleet;
    FleetEnv(s);
    FleetView(s);
  }

  lemma HydrateStep(s: AppState, p: P.PrefsFile, uuids: seq<string>)
    requires Inv(s) && M.FileOk(ViewOf(s), P.BootOf(s), p, uuids)
    ensures ModelOf(P.HydratePrefs(s, p, uuids))
         == ModelOf(s).(view := M.HydrateV(ViewOf(s), P.BootOf(s), p, uuids), virtualContexts := P.SavedVirtuals(p), look := P.HydrateLook(p))
    ensures Coupled(P.HydratePrefs(s, p, uuids))
  {
    hide Inv, ViewOf, InvM, OneOwner, Coupled, LiveContent, P.HydratePrefs, M.HydrateV, P.HydrateLook, P.SavedVirtuals, M.FileOk;
    InvParts(s);
    HydrateEnv(s, p, uuids);
    M.HydrateRefines(s, p, uuids);
  }

  lemma EnvironmentStep(s: AppState, vcs: seq<VirtualContext>, epochs: map<string, nat>)
    ensures ModelOf(s.(virtualContexts := vcs)) == ModelOf(s).(virtualContexts := vcs)
    ensures ModelOf(s.(clusterEpoch := epochs)) == ModelOf(s).(clusterEpoch := epochs)
  {
    hide ViewOf;
    EnvironmentLive(s, s.(virtualContexts := vcs));
    EnvironmentLive(s, s.(clusterEpoch := epochs));
  }

  lemma TabStepRefines(s: AppState, a: TabAction)
    requires Inv(s) && (a.Open? ==> a.uuid !in Ids(s.openTabs))
    ensures WellPointed(ViewOf(s))
    ensures ModelOf(StepTabs(s, a)) == StepTabsM(ModelOf(s), a)
  {
    hide Inv, ViewOf, InvM, Coupled, OneOwner, LiveContent, Tabs.SetContexts, Tabs.OpenTab, Tabs.SwitchToTab, Tabs.CloseTab,
      Tabs.Fleet, Tabs.DeleteVirtualContext, Views.SetContextsV, Views.OpenV, Views.SwitchV, Views.CloseV, Views.DeleteVirtualV;
    InvParts(s);
    match a
    case SetContextList(cs) => SetContextsStep(s, cs);
    case Open(anchor, uuid) => OpenStep(s, anchor, uuid);
    case Switch(id) => SwitchStep(s, id);
    case Close(id) => CloseStep(s, id);
    case GoFleet => FleetStep(s);
    case DeleteVirtual(id) => DeleteStep(s, id);
  }

  lemma SliceStepRefines(s: AppState, a: SliceAction)
    requires Inv(s)
    ensures WellPointed(ViewOf(s))
    ensures ModelOf(StepSlice(s, a)) == StepSliceM(ModelOf(s), a)
  {
    hide Inv, ViewOf, InvM, Coupled, OneOwner, LiveContent, Tabs.SetKinds, Tabs.EditLive, Tabs.PatchTab, Tabs.EditOwner,
      Tabs.HydrateSession, Views.EditV, Views.OwnerV, Views.SessionV, Tabs.KindEdit;
    InvParts(s);
    match a
    case SetKindList(ks, pending) => KindsStep(s, ks, pending);
    case Live(e) => LiveStep(s, e);
    case PatchOne(tabId, e) => PatchStep(s, tabId, e);
    case CloseDock(id) => OwnerStep(s, id, DockEdit(Dock.Close({id})));
    case PatchDock(id, patch) => OwnerStep(s, id, DockEdit(Dock.Edit(id, patch)));
    case RestoreSession(slices) => SessionStep(s, slices);
  }

  lemma ScopeStepRefines(s: AppState, a: ScopeAction)
    requires Inv(s) && (a.Hydrate? ==> M.FileOk(ViewOf(s), P.BootOf(s), a.p, a.uuids))
    ensures WellPointed(ViewOf(s))
    ensures ModelOf(StepScope(s, a)) == StepScopeM(ModelOf(s), a)
  {
    hide Inv, ViewOf, InvM, Coupled, OneOwner, LiveContent, Tabs.AbsorbScopeExtras, Tabs.AddScopeExtra, Tabs.RemoveScopeExtra,
      P.HydratePrefs, M.HydrateV, M.FileOk, P.SavedVirtuals, P.HydrateLook, P.BootOf, BootM, AbsorbM, AddExtraM, RemoveExtraV;
    InvParts(s);
    BootRefines(s);
    match a
    case SaveVirtual(_, _, _) => EnvironmentStep(s, StepScope(s, a).virtualContexts, s.clusterEpoch);
    case Rename(_, _) => EnvironmentStep(s, StepScope(s, a).virtualContexts, s.clusterEpoch);
    case SetMembers(_, _) => EnvironmentStep(s, StepScope(s, a).virtualContexts, s.clusterEpoch);
    case Absorb(id) => AbsorbRefines(s, id);
    case AddExtra(id) => AddExtraRefines(s, id);
    case RemoveExtra(id) => RemoveStep(s, id);
    case Reconnect(_) => EnvironmentStep(s, s.virtualContexts, StepScope(s, a).clusterEpoch);
    case Hydrate(p, uuids) => HydrateStep(s, p, uuids);
  }

  /** One step of the store is the same step on its logical contents: whichever
      copies are stale, every action reads and writes the current ones. */
  lemma StepRefines(s: AppState, a: Action)
    requires Inv(s) && WellPointed(ViewOf(s)) && Allowed(ModelOf(s), a)
    ensures ModelOf(Step(s, a)) == StepM(ModelOf(s), a)
  {
    hide Inv, ViewOf, StepTabs, StepTabsM, StepSlice, StepSliceM, StepScope, StepScopeM, AllowedSlice, M.FileOk,
      M.LiveVirtualsSaved, WellPointed, BootM, P.BootOf;
    BootRefines(s);
    match a
    case OnTabs(t) => TabStepRefines(s, t);
    case OnSlice(e) => SliceStepRefines(s, e);
    case OnScope(c) => ScopeStepRefines(s, c);
  }

  // ----- The invariant over runs -----

  lemma TabStepKeeps(m: Model, a: TabAction)
    requires InvM(m) && WellPointed(m.view)
    requires a.Open? ==> a.uuid !in m.view.order && a.uuid != ""
    ensures InvM(StepTabsM(m, a))
  {
    hide ViewInv, Views.SetContextsV, Views.OpenV, Views.SwitchV, Views.CloseV, Views.DeleteVirtualV;
    match a
    case SetContextList(cs) => SetContextsKeeps(m.view, m.virtualContexts, cs);
    case Open(anchor, uuid) => OpenKeeps(m.view, m.virtualContexts, anchor, uuid, m.kinds);
    case Switch(id) => SwitchKeeps(m.view, m.virtualContexts, id);
    case Close(id) => CloseKeeps(m.view, m.virtualContexts, [id]);
    case GoFleet => NoTabsOk(m.virtualContexts);
    case DeleteVirtual(id) => DeleteVirtualKeeps(m.view, m.virtualContexts, id);
  }

  lemma NoTabsOk(vcs: seq<VirtualContext>)
    ensures ViewInv(NO_TABS, vcs)
  {
    hide ContentOk;
    FleetContentOk();
  }

  lemma SliceStepKeeps(m: Model, a: SliceAction)
    requires InvM(m) && WellPointed(m.view) && AllowedSlice(m, a)
    ensures InvM(StepSliceM(m, a))
  {
    hide ViewInv, Views.EditV, Views.OwnerV, Views.SessionV, SessionAllowed;
    match a
    case SetKindList(ks, pending) => EditKeeps(m.view, m.virtualContexts, None, KindEdit(LiveOf(m.view).slice.selectedKindId, ks, pending));
    case Live(e) => EditKeeps(m.view, m.virtualContexts, None, e);
    case PatchOne(tabId, e) => EditKeeps(m.view, m.virtualContexts, tabId, e);
    case CloseDock(id) => OwnerCloseKeeps(m.view, m.virtualContexts, id);
    case PatchDock(id, patch) => OwnerPatchIff(m.view, m.virtualContexts, id, patch);
    case RestoreSession(slices) => SessionKeeps(m.view, m.virtualContexts, slices);
  }

  lemma LiveExtrasDistinct(v: View, vcs: seq<VirtualContext>)
    requires ViewInv(v, vcs) && WellPointed(v)
    ensures Distinct(LiveOf(v).scopeExtras)
    ensures v.active.None? ==> LiveOf(v).scopeExtras == [] && LiveOf(v).selectedContext.None? && LiveOf(v).selectedVirtualContextId.None?
  {
    hide Slices.SliceOk, OneOwner;
  }

  lemma AbsorbKeeps(m: Model, id: string)
    requires InvM(m) && WellPointed(m.view)
    ensures InvM(AbsorbM(m, id))
  {
    hide ViewInv;
    var v := FindVirtual(m.virtualContexts, id);
    if v.Some? && LiveOf(m.view).scopeExtras != [] {
      var vcs' := WithMembers(m.virtualContexts, id, AbsorbedMembers(v.value.members, LiveOf(m.view).scopeExtras));
      VirtualsMonotone(m.view, m.virtualContexts, vcs');
      ExtrasKeep(m.view, vcs', []);
    }
  }

  lemma AddExtraKeeps(m: Model, id: string)
    requires InvM(m) && WellPointed(m.view)
    ensures InvM(AddExtraM(m, id))
  {
    hide ViewInv;
    var c := LiveOf(m.view);
    LiveExtrasDistinct(m.view, m.virtualContexts);
    if id in m.contexts && (c.selectedContext.Some? || c.selectedVirtualContextId.Some?) && id !in LiveClusters(m) {
      ResolvedList(m.contexts, c.selectedContext, m.virtualContexts, c.selectedVirtualContextId, c.scopeExtras);
      DistinctSnoc(c.scopeExtras, id);
      ExtrasKeep(m.view, m.virtualContexts, c.scopeExtras + [id]);
    }
  }

  lemma RemoveExtraKeeps(m: Model, id: string)
    requires InvM(m) && WellPointed(m.view)
    ensures InvM(m.(view := RemoveExtraV(m.view, id)))
  {
    hide ViewInv, Slices.Edited, Views.SetLiveV;
    var v := m.view;
    FocusBringsNoDock(LiveOf(v).slice, id);
    EditKeeps(v, m.virtualContexts, None, DropFocus(id));
    LiveExtrasDistinct(v, m.virtualContexts);
    var extras := Without(LiveOf(v).scopeExtras, [id]);
    WithoutDistinct(LiveOf(v).scopeExtras, [id]);
    var w := EditV(v, None, DropFocus(id));
    TwoLiveEdits(v, EditContent(LiveOf(v), DropFocus(id)), extras);
    ExtrasKeep(w, m.virtualContexts, extras);
  }

  lemma FocusBringsNoDock(s: ScopeSlice, id: string)
    ensures NewDockIds(s, DropFocus(id)) == {}
  {
  }

  lemma TwoLiveEdits(v: View, c: Content, extras: seq<string>)
    requires WellPointed(v)
    ensures WellPointed(SetLiveV(v, c)) && SetLiveV(v, c).active == v.active && LiveOf(SetLiveV(v, c)) == c
    ensures SetExtrasV(SetLiveV(v, c), extras) == SetLiveV(v, c.(scopeExtras := extras))
  {
  }

  lemma ScopeStepKeeps(m: Model, a: ScopeAction)
    requires InvM(m) && WellPointed(m.view) && AllowedScope(m, a)
    ensures InvM(StepScopeM(m, a))
  {
    hide ViewInv, AbsorbM, AddExtraM, RemoveExtraV, M.HydrateV, BootM;
    match a
    case SaveVirtual(name, members, uuid) =>
      var vcs' := m.virtualContexts + [VirtualContext(uuid, name, members)];
      assert VirtualIds(vcs') == VirtualIds(m.virtualContexts) + [uuid];
      VirtualsMonotone(m.view, m.virtualContexts, vcs');
    case Rename(id, name) => VirtualsMonotone(m.view, m.virtualContexts, RenameVirtual(m.virtualContexts, id, name));
    case SetMembers(id, members) => VirtualsMonotone(m.view, m.virtualContexts, WithMembers(m.virtualContexts, id, members));
    case Absorb(id) => AbsorbKeeps(m, id);
    case AddExtra(id) => AddExtraKeeps(m, id);
    case RemoveExtra(id) => RemoveExtraKeeps(m, id);
    case Reconnect(_) =>
    case Hydrate(p, uuids) => M.HydrateKeeps(m.view, m.virtualContexts, BootM(m), p, uuids);
  }

  /** Every allowed logical step keeps the invariant. */
  lemma ModelStepKeeps(m: Model, a: Action)
    requires InvM(m) && WellPointed(m.view) && Allowed(m, a)
    ensures InvM(StepM(m, a)) && WellPointed(StepM(m, a).view)
  {
    hide InvM, StepTabsM, StepSliceM, StepScopeM, AllowedSlice, AllowedScope, WellPointed;
    match a {
      case OnTabs(t) => TabStepKeeps(m, t);
      case OnSlice(e) => SliceStepKeeps(m, e);
      case OnScope(c) => ScopeStepKeeps(m, c);
    }
    InvPointed(StepM(m, a));
  }

  // ----- The stored anchor of the active tab -----

  lemma SameAnchorsCoupled(s: AppState, r: AppState)
    requires Coupled(s) && |r.openTabs| == |s.openTabs| && r.activeTabId == s.activeTabId
    requires r.selectedContext == s.selectedContext && r.selectedVirtualContextId == s.selectedVirtualContextId
    requires forall i :: 0 <= i < |s.openTabs| ==>
      r.openTabs[i].id == s.openTabs[i].id && r.openTabs[i].selectedContext == s.openTabs[i].selectedContext &&
      r.openTabs[i].selectedVirtualContextId == s.openTabs[i].selectedVirtualContextId
    ensures Coupled(r)
  {
  }

  lemma TabStepCoupled(s: AppState, a: TabAction)
    requires Inv(s) && (a.Open? ==> a.uuid !in Ids(s.openTabs))
    ensures Coupled(StepTabs(s, a))
  {
    hide Inv, ViewOf, InvM, OneOwner, UpToDate, Coupled, Tabs.SetContexts, Tabs.OpenTab, Tabs.SwitchToTab, Tabs.CloseTab,
      Tabs.Fleet, Tabs.FocusAfterClose;
    InvParts(s);
    match a
    case SetContextList(cs) => SetContextsRefines(s, cs); M.UpToDateCoupled(SetContexts(s, cs));
    case Open(anchor, uuid) =>
      OpenRefines(s, anchor, uuid);
      if OpenTab(s, anchor, uuid) != s { M.UpToDateCoupled(OpenTab(s, anchor, uuid)); }
    case Switch(id) =>
      SwitchRefines(s, id);
      if SwitchToTab(s, id) != s { M.UpToDateCoupled(SwitchToTab(s, id)); }
    case Close(id) => CloseRefines(s, id); M.UpToDateCoupled(CloseTab(s, id));
    case GoFleet => FleetCoupled(s);
    case DeleteVirtual(id) =>
      DeleteVirtualRefines(s, id);
      if AnchoredOn(s.openTabs, id) != [] { M.UpToDateCoupled(DeleteVirtualContext(s, id)); }
      else { SameAnchorsCoupled(s, DeleteVirtualContext(s, id)); }
  }

  lemma FleetCoupled(s: AppState)
    ensures Coupled(Fleet(s))
  {
  }

  lemma SpreadAnchors(s: AppState, sl: ScopeSlice)
    ensures Spread(s, sl).selectedContext == s.selectedContext
    ensures Spread(s, sl).selectedVirtualContextId == s.selectedVirtualContextId
    ensures Spread(s, sl).openTabs == s.openTabs && Spread(s, sl).activeTabId == s.activeTabId
  {
  }

  lemma EditLiveCoupled(s: AppState, e: SliceEdit)
    requires Coupled(s)
    ensures Coupled(EditLive(s, e))
  {
    hide Slices.Edited, Tabs.Spread, Tabs.Capture, Coupled;
    SpreadAnchors(s, Edited(Capture(s), e));
    SameAnchorsCoupled(s, EditLive(s, e));
  }

  lemma OwnerCoupled(s: AppState, id: string, e: SliceEdit)
    requires Coupled(s)
    ensures Coupled(EditOwner(s, id, e))
  {
    hide Slices.Edited, Tabs.EditLive, Coupled;
    EditLiveCoupled(s, e);
    SameAnchorsCoupled(s, s.(openTabs := MapOwners(s.openTabs, id, e)));
  }

  lemma PatchCoupled(s: AppState, tabId: Option<string>, e: SliceEdit)
    requires Coupled(s)
    ensures Coupled(PatchTab(s, tabId, e))
  {
    hide Slices.Edited, Tabs.EditLive, Coupled;
    EditLiveCoupled(s, e);
    if tabId.Some? { SameAnchorsCoupled(s, s.(openTabs := MapTab(s.openTabs, tabId.value, e))); }
  }

  lemma SessionFrame(s: AppState, slices: map<string, RestoredSlice>)
    ensures var r := HydrateSession(s, slices);
            && |r.openTabs| == |s.openTabs| && r.activeTabId == s.activeTabId
            && r.selectedContext == s.selectedContext && r.selectedVirtualContextId == s.selectedVirtualContextId
            && forall i :: 0 <= i < |s.openTabs| ==> r.openTabs[i] == Rehydrated(s, s.openTabs[i], slices)
  {
    hide Tabs.Merge, Tabs.Spread, Tabs.Capture, Tabs.Rehydrated, Tabs.RehydrateAll, Tabs.Untouched;
    var tabs := RehydrateAll(s, slices);
    if s.activeTabId.Some? && s.activeTabId.value in slices {
      SpreadAnchors(s.(openTabs := tabs), Merge(Capture(s), slices[s.activeTabId.value]));
    }
  }

  lemma RehydratedAnchor(s: AppState, t: ClusterTab, slices: map<string, RestoredSlice>)
    ensures var r := Rehydrated(s, t, slices);
            r.id == t.id && r.selectedContext == t.selectedContext && r.selectedVirtualContextId == t.selectedVirtualContextId
  {
    hide Tabs.Merge;
  }

  lemma SessionCoupled(s: AppState, slices: map<string, RestoredSlice>)
    requires Coupled(s)
    ensures Coupled(HydrateSession(s, slices))
  {
    hide Tabs.HydrateSession, Tabs.Rehydrated, Coupled;
    SessionFrame(s, slices);
    forall i | 0 <= i < |s.openTabs| { RehydratedAnchor(s, s.openTabs[i], slices); }
    SameAnchorsCoupled(s, HydrateSession(s, slices));
  }

  lemma SliceStepCoupled(s: AppState, a: SliceAction)
    requires Coupled(s)
    ensures Coupled(StepSlice(s, a))
  {
    hide Tabs.EditLive, Tabs.PatchTab, Tabs.EditOwner, Tabs.HydrateSession, Coupled, Tabs.KindEdit;
    match a
    case SetKindList(ks, pending) =>
      SameAnchorsCoupled(s, s.(kinds := ks));
      EditLiveCoupled(s.(kinds := ks), KindEdit(s.selectedKindId, ks, pending));
    case Live(e) => EditLiveCoupled(s, e);
    case PatchOne(tabId, e) => PatchCoupled(s, tabId, e);
    case CloseDock(id) => OwnerCoupled(s, id, DockEdit(Dock.Close({id})));
    case PatchDock(id, patch) => OwnerCoupled(s, id, DockEdit(Dock.Edit(id, patch)));
    case RestoreSession(slices) => SessionCoupled(s, slices);
  }

  lemma ScopeFrameCoupled(s: AppState, vcs: seq<VirtualContext>, extras: seq<string>, epochs: map<string, nat>)
    requires Coupled(s)
    ensures Coupled(s.(virtualContexts := vcs)) && Coupled(s.(virtualContexts := vcs, scopeExtras := extras))
    ensures Coupled(s.(scopeExtras := extras)) && Coupled(s.(clusterEpoch := epochs))
  {
  }

  lemma RemoveCoupled(s: AppState, id: string)
    requires Coupled(s)
    ensures Coupled(RemoveScopeExtra(s, id))
  {
    hide Slices.Edited, Tabs.Spread, Tabs.Capture, Coupled;
    var t := s.(scopeExtras := Without(s.scopeExtras, [id]));
    SpreadAnchors(t, Edited(Capture(s), DropFocus(id)));
    SameAnchorsCoupled(s, RemoveScopeExtra(s, id));
  }

  lemma ScopeStepCoupled(s: AppState, a: ScopeAction)
    requires Coupled(s) && !a.Hydrate?
    ensures Coupled(StepScope(s, a))
  {
    hide Coupled, P.HydratePrefs, Tabs.RemoveScopeExtra;
    var r := StepScope(s, a);
    if a.RemoveExtra? { RemoveCoupled(s, a.id); }
    else { ScopeFrameCoupled(s, r.virtualContexts, r.scopeExtras, r.clusterEpoch); }
  }

  lemma HydrateCoupled(s: AppState, a: ScopeAction)
    requires Inv(s) && (a.Hydrate? ==> M.FileOk(ViewOf(s), P.BootOf(s), a.p, a.uuids))
    ensures Coupled(StepScope(s, a))
  {
    hide Inv, InvM, ViewOf, OneOwner, Coupled, M.FileOk, P.BootOf, StepScope;
    InvParts(s);
    if a.Hydrate? { HydrateStep(s, a.p, a.uuids); StepIsHydrate(s, a); } else { ScopeStepCoupled(s, a); }
  }

  lemma StepIsHydrate(s: AppState, a: ScopeAction)
    requires a.Hydrate?
    ensures StepScope(s, a) == P.HydratePrefs(s, a.p, a.uuids)
  {
    hide P.HydratePrefs;
  }

  lemma StepCoupled(s: AppState, a: Action)
    requires Inv(s) && WellPointed(ViewOf(s)) && Allowed(ModelOf(s), a)
    ensures Coupled(Step(s, a))
  {
    hide Inv, InvM, ViewOf, OneOwner, Coupled, StepTabs, StepSlice, StepScope, AllowedSlice, M.FileOk, M.LiveVirtualsSaved,
      WellPointed, BootM, P.BootOf;
    InvParts(s);
    BootRefines(s);
    match a
    case OnTabs(t) => TabStepCoupled(s, t);
    case OnSlice(e) => SliceStepCoupled(s, e);
    case OnScope(c) => HydrateCoupled(s, c);
  }

  /** The invariant of the store is the logical one plus the stored anchor. */
  lemma InvSplit(s: AppState)
    ensures Inv(s) <==> InvM(ModelOf(s)) && Coupled(s)
  {
    hide ViewOf, ViewInv, Coupled;
  }

  /** Every allowed action keeps the invariant of the store. */
  lemma StepKeeps(s: AppState, a: Action)
    requires Inv(s) && WellPointed(ViewOf(s)) && Allowed(ModelOf(s), a)
    ensures Inv(Step(s, a)) && WellPointed(ViewOf(Step(s, a)))
  {
    hide Inv, InvM, ViewOf, Coupled, Step, StepM, Allowed, WellPointed;
    InvSplit(s);
    StepRefines(s, a);
    ModelStepKeeps(ModelOf(s), a);
    StepCoupled(s, a);
    InvSplit(Step(s, a));
    assert ModelOf(Step(s, a)).view == ViewOf(Step(s, a));
  }

  // ----- Runs -----

  function Run(s: AppState, actions: seq<Action>): AppState
    decreases actions
  {
    if actions == [] then s else Run(Step(s, actions[0]), actions[1..])
  }

  /** Each action of the run is allowed when its turn comes. */
  ghost predicate RunAllowed(m: Model, actions: seq<Action>)
    decreases actions
  {
    actions != [] ==>
      WellPointed(m.view) && Allowed(m, actions[0]) && RunAllowed(StepM(m, actions[0]), actions[1..])
  }

  ghost function RunM(m: Model, actions: seq<Action>): Model
    requires RunAllowed(m, actions)
    decreases actions
  {
    if actions == [] then m else RunM(StepM(m, actions[0]), actions[1..])
  }

  /** Over every allowed run the store refines the plain map from tab ids to
      contents, and its invariant holds at the end. */
  lemma {:induction false} RunRefines(s: AppState, actions: seq<Action>)
    requires Inv(s) && RunAllowed(ModelOf(s), actions)
    ensures Inv(Run(s, actions)) && ModelOf(Run(s, actions)) == RunM(ModelOf(s), actions)
    decreases actions
  {
    hide Inv, InvM, ViewOf, Step, StepM, Allowed, WellPointed;
    if actions != [] {
      StepRefines(s, actions[0]);
      StepKeeps(s, actions[0]);
      RunRefines(Step(s, actions[0]), actions[1..]);
    }
  }

  /** One more action at the end of a run. */
  lemma {:induction false} RunSnoc(s: AppState, actions: seq<Action>, a: Action)
    requires Inv(s) && RunAllowed(ModelOf(s), actions)
    requires WellPointed(ViewOf(Run(s, actions))) && Allowed(ModelOf(Run(s, actions)), a)
    ensures RunAllowed(ModelOf(s), actions + [a]) && Run(s, actions + [a]) == Step(Run(s, actions), a)
    decreases actions
  {
    hide Inv, InvM, ViewOf, Step, StepM, Allowed, WellPointed;
    InvParts(s);
    if actions == [] {
      assert [a][1..] == [] && actions + [a] == [a];
    } else {
      StepRefines(s, actions[0]);
      StepKeeps(s, actions[0]);
      RunSnoc(Step(s, actions[0]), actions[1..], a);
      assert (actions + [a])[1..] == actions[1..] + [a];
    }
  }
}

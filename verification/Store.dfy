/** The store as components use it: one object whose actions replace its state.
    Every action's effect is stated on the logical contents, so no caller needs to
    know which copies of a tab are stale. */
module Store {
  import opened Lists
  import opened Scope
  import opened Slices
  import opened Tabs
  import opened Views
  import opened Invariants
  import opened Runs
  import RT = PrefsRoundTrip
  import T = TabTheorems
  import P = Prefs
  import M = PrefsMerge
  import Dock

  lemma Pointed(s: AppState)
    requires Inv(s)
    ensures WellPointed(ViewOf(s))
  {
    InvParts(s);
  }

  /** `r` is in order, and its logical contents are `m`. */
  ghost predicate Is(r: AppState, m: Model)
    ensures Is(r, m) <==> Inv(r) && ModelOf(r) == m
  {
    Inv(r) && ModelOf(r) == m
  }

  // ----- What each action makes of the state -----

  lemma TabActs(s: AppState, a: TabAction)
    requires Inv(s) && (a.Open? ==> a.uuid !in Ids(s.openTabs) && a.uuid != "")
    ensures var m, v := ModelOf(s), ViewOf(s);
            match a
            case SetContextList(cs) => Is(SetContexts(s, cs), m.(contexts := cs, view := SetContextsV(v, cs, s.virtualContexts)))
            case Open(anchor, uuid) => Is(OpenTab(s, anchor, uuid), m.(view := OpenV(v, anchor, uuid, s.kinds, s.virtualContexts)))
            case Switch(id) => Is(SwitchToTab(s, id), m.(view := SwitchV(v, id)))
            case Close(id) => Is(CloseTab(s, id), m.(view := CloseV(v, [id])))
            case GoFleet => Is(Fleet(s), m.(view := NO_TABS))
            case DeleteVirtual(id) =>
              Is(DeleteVirtualContext(s, id), m.(virtualContexts := WithoutVirtual(s.virtualContexts, id), view := DeleteVirtualV(v, id)))
  {
    hide Inv, ViewOf, WellPointed, Tabs.SetContexts, Tabs.OpenTab, Tabs.SwitchToTab, Tabs.CloseTab, Tabs.Fleet, Tabs.DeleteVirtualContext,
      Views.SetContextsV, Views.OpenV, Views.SwitchV, Views.CloseV, Views.DeleteVirtualV, WithoutVirtual;
    Pointed(s);
    TabStepRefines(s, a);
    StepKeeps(s, OnTabs(a));
  }

  lemma SliceActs(s: AppState, a: SliceAction)
    requires Inv(s) && WellPointed(ViewOf(s))
    requires !a.SetKindList?
    requires match a
             case Live(e) => TabEditAllowed(ViewOf(s), None, e)
             case PatchOne(tabId, e) => TabEditAllowed(ViewOf(s), tabId, e)
             case PatchDock(id, patch) => OwnerPatchFits(ViewOf(s), id, patch)
             case RestoreSession(slices) => SessionAllowed(ViewOf(s), slices)
             case _ => true
    ensures var m, v := ModelOf(s), ViewOf(s);
            match a
            case SetKindList(_, _) => true
            case Live(e) => Is(EditLive(s, e), m.(view := EditV(v, None, e)))
            case PatchOne(tabId, e) => Is(PatchTab(s, tabId, e), m.(view := EditV(v, tabId, e)))
            case CloseDock(id) => Is(CloseDockTab(s, id), m.(view := OwnerV(v, id, DockEdit(Dock.Close({id})))))
            case PatchDock(id, patch) => Is(PatchDockTab(s, id, patch), m.(view := OwnerV(v, id, DockEdit(Dock.Edit(id, patch)))))
            case RestoreSession(slices) => Is(HydrateSession(s, slices), m.(view := SessionV(v, slices)))
  {
    hide Inv, ViewOf, WellPointed, TabEditAllowed, OwnerPatchFits, SessionAllowed, Tabs.SetKinds, Tabs.EditLive, Tabs.PatchTab, Tabs.EditOwner, Tabs.HydrateSession,
      Views.EditV, Views.OwnerV, Views.SessionV, Tabs.KindEdit;
    SliceStepRefines(s, a);
    StepKeeps(s, OnSlice(a));
  }

  lemma KindsActs(s: AppState, ks: seq<string>, pending: bool)
    requires Inv(s) && WellPointed(ViewOf(s))
    ensures Is(SetKinds(s, ks, pending), StepSliceM(ModelOf(s), SetKindList(ks, pending)))
  {
    hide Inv, ViewOf, WellPointed, Tabs.SetKinds, StepSliceM, StepTabs, StepScope, AllowedScope;
    SliceStepRefines(s, SetKindList(ks, pending));
    StepKeeps(s, OnSlice(SetKindList(ks, pending)));
  }

  lemma ScopeActs(s: AppState, a: ScopeAction)
    requires Inv(s) && WellPointed(ViewOf(s)) && (a.Absorb? || a.AddExtra? || a.RemoveExtra?)
    ensures var m := ModelOf(s);
            match a
            case Absorb(id) => Is(AbsorbScopeExtras(s, id), AbsorbM(m, id))
            case AddExtra(id) => Is(AddScopeExtra(s, id), AddExtraM(m, id))
            case RemoveExtra(id) => Is(RemoveScopeExtra(s, id), m.(view := RemoveExtraV(ViewOf(s), id)))
            case _ => true
  {
    hide Inv, ViewOf, WellPointed, Tabs.AbsorbScopeExtras, Tabs.AddScopeExtra, Tabs.RemoveScopeExtra, AbsorbM, AddExtraM, RemoveExtraV,
      StepTabs, StepTabsM, StepSlice, StepSliceM, AllowedSlice, P.HydratePrefs, M.HydrateV;
    StepRefines(s, OnScope(a));
    StepKeeps(s, OnScope(a));
  }

  /** Saved virtual contexts change beside the tabs. */
  lemma SavedActs(s: AppState, vcs: seq<VirtualContext>, a: ScopeAction)
    requires Inv(s) && (a.Rename? || a.SetMembers? || (a.SaveVirtual? && a.uuid != ""))
    requires vcs == match a
                    case SaveVirtual(name, members, uuid) => s.virtualContexts + [VirtualContext(uuid, name, members)]
                    case Rename(id, name) => RenameVirtual(s.virtualContexts, id, name)
                    case SetMembers(id, members) => WithMembers(s.virtualContexts, id, members)
                    case _ => []
    ensures Is(s.(virtualContexts := vcs), ModelOf(s).(virtualContexts := vcs))
  {
    hide Inv, ViewOf, WellPointed, WithMembers, RenameVirtual, StepTabs, StepSlice, AllowedSlice, ModelOf, Tabs.AbsorbScopeExtras,
      Tabs.AddScopeExtra, Tabs.RemoveScopeExtra, P.HydratePrefs, Bump;
    Pointed(s);
    EnvironmentStep(s, vcs, s.clusterEpoch);
    StepKeeps(s, OnScope(a));
  }

  /** And so do the reconnect counters. */
  lemma ReconnectActs(s: AppState, id: string)
    requires Inv(s)
    ensures var epochs := Bump(s.clusterEpoch, id);
            Is(s.(clusterEpoch := epochs), ModelOf(s).(clusterEpoch := epochs))
  {
    hide Inv, ViewOf, WellPointed, Bump, StepTabs, StepSlice, AllowedSlice, ModelOf;
    Pointed(s);
    EnvironmentStep(s, s.virtualContexts, Bump(s.clusterEpoch, id));
    StepKeeps(s, OnScope(Reconnect(id)));
  }

  lemma HydrateActs(s: AppState, p: P.PrefsFile, uuids: seq<string>)
    requires Inv(s) && WellPointed(ViewOf(s)) && AllowedScope(ModelOf(s), Hydrate(p, uuids))
    ensures Is(P.HydratePrefs(s, p, uuids), StepScopeM(ModelOf(s), Hydrate(p, uuids)))
  {
    hide Inv, ViewOf, WellPointed, AllowedScope, StepScopeM, P.HydratePrefs;
    StepRefines(s, OnScope(Hydrate(p, uuids)));
    StepKeeps(s, OnScope(Hydrate(p, uuids)));
  }

  /** Closing a dock tab of the live copy, field by field. */
  lemma DockClosed(s: AppState, id: string)
    ensures CloseDockTab(s, id)
         == if id in Dock.Ids(s.dockTabs) then
              var d := Dock.Removed(Dock.DockState(s.dockTabs, s.dockActive, s.dockMin), set x | x in [id]);
              s.(dockTabs := d.tabs, dockActive := d.active, dockMin := d.min)
            else s.(openTabs := MapOwners(s.openTabs, id, DockEdit(Dock.Close({id}))))
  {
    hide Dock.Removed, Tabs.MapOwners;
    assert (set x | x in [id]) == {id};
    assert Capture(s).DockState() == Dock.DockState(s.dockTabs, s.dockActive, s.dockMin);
  }

  lemma ExtraAdded(s: AppState, id: string)
    ensures AddScopeExtra(s, id)
         == if id in s.contexts && !(s.selectedContext.None? && s.selectedVirtualContextId.None?)
               && id !in ActiveClusterIds(s.contexts, s.selectedContext, s.virtualContexts, s.selectedVirtualContextId, s.scopeExtras)
            then s.(scopeExtras := s.scopeExtras + [id]) else s
  {
    hide ActiveClusterIds;
  }

  /** Saving a virtual context changes no scope in view, not even when its id is
      taken: the first of that id counts. */
  lemma SavingKeepsScope(s: AppState, added: VirtualContext)
    requires Inv(s)
    ensures ActiveClusters(s.(virtualContexts := s.virtualContexts + [added])) == ActiveClusters(s)
  {
    hide ActiveClusterIds, Inv, ViewOf;
    T.LiveAnchorOk(s);
    SavedScope(s, added);
  }

  lemma SavedScope(s: AppState, added: VirtualContext)
    requires s.selectedVirtualContextId.Some? ==> s.selectedVirtualContextId.value in VirtualIds(s.virtualContexts)
    ensures ActiveClusters(s.(virtualContexts := s.virtualContexts + [added])) == ActiveClusters(s)
  {
    hide AppendNew, Surviving;
    if s.selectedVirtualContextId.Some? { FindFirst(s.virtualContexts, added, s.selectedVirtualContextId.value); }
  }

  lemma {:induction false} FindFirst(vcs: seq<VirtualContext>, added: VirtualContext, id: string)
    requires id in VirtualIds(vcs)
    ensures FindVirtual(vcs + [added], id) == FindVirtual(vcs, id)
  {
    assert (vcs + [added])[0] == vcs[0];
    if vcs[0].id != id {
      assert (vcs + [added])[1..] == vcs[1..] + [added];
      assert VirtualIds(vcs) == [vcs[0].id] + VirtualIds(vcs[1..]);
      FindFirst(vcs[1..], added, id);
    }
  }

  lemma {:induction false} FindRenamed(vcs: seq<VirtualContext>, id: string, name: string, other: string)
    ensures FindVirtual(RenameVirtual(vcs, id, name), other)
         == match FindVirtual(vcs, other)
            case Some(v) => Some(if other == id then v.(name := name) else v)
            case None => None
  {
    if vcs != [] {
      assert RenameVirtual(vcs, id, name)[1..] == RenameVirtual(vcs[1..], id, name);
      FindRenamed(vcs[1..], id, name, other);
    }
  }

  lemma RenamingKeepsScope(s: AppState, id: string, name: string)
    ensures ActiveClusters(s.(virtualContexts := RenameVirtual(s.virtualContexts, id, name))) == ActiveClusters(s)
  {
    hide AppendNew, Surviving, FindVirtual, RenameVirtual;
    if s.selectedVirtualContextId.Some? { FindRenamed(s.virtualContexts, id, name, s.selectedVirtualContextId.value); }
  }

  /** The list begins with `first`, then has each of `more` that is not in it once. */
  ghost predicate Shows(list: seq<string>, first: seq<string>, more: seq<string>) {
    && first <= list
    && Distinct(list[|first|..])
    && forall x :: x in list[|first|..] <==> x in more && x !in first
  }

  lemma NewMembersScope(s: AppState, id: string, members: seq<string>)
    requires Inv(s)
    ensures var r := s.(virtualContexts := WithMembers(s.virtualContexts, id, members));
            if s.selectedVirtualContextId == Some(id)
            then Shows(ActiveClusters(r), Surviving(s.contexts, members), Surviving(s.contexts, s.scopeExtras))
            else ActiveClusters(r) == ActiveClusters(s)
  {
    hide AppendNew, Surviving, FindVirtual, WithMembers, Inv, ViewOf;
    T.LiveAnchorOk(s);
    if s.selectedVirtualContextId.Some? { FindWithMembers(s.virtualContexts, id, members, s.selectedVirtualContextId.value); }
    var first, more := Surviving(s.contexts, members), Surviving(s.contexts, s.scopeExtras);
    var tail := AppendNewShape(first, more);
    assert (first + tail)[|first|..] == tail;
  }

  lemma SumsAfter(epochs: map<string, nat>, id: string)
    ensures Epoch(Bump(epochs, id), id) == Epoch(epochs, id) + 1
    ensures forall ids :: EpochSum(Bump(epochs, id), ids) == EpochSum(epochs, ids) <==> id !in ids
  {
    forall ids: seq<string> ensures EpochSum(Bump(epochs, id), ids) == EpochSum(epochs, ids) <==> id !in ids {
      EpochSumBump(epochs, ids, id);
    }
  }

  class AppStore {
    var state: AppState

    ghost predicate Valid()
      reads this
      ensures Valid() <==> Inv(state)
      ensures Valid() ==> WellPointed(ViewOf(state))
    {
      assert Inv(state) ==> WellPointed(ViewOf(state)) by {
        if Inv(state) { Pointed(state); }
      }
      Inv(state)
    }

    /** The app's initial store; the kubeconfig and kind lists may already be in. */
    constructor (contexts: seq<string>, kinds: seq<string>)
      ensures Valid()
      ensures ViewOf(state) == NO_TABS
      ensures state.contexts == contexts && state.kinds == kinds && state.virtualContexts == []
    {
      T.FreshStoreOk(contexts, kinds);
      state := RT.FreshStore(contexts, kinds);
    }

    // ----- Tabs -----

    method SetContexts(cs: seq<string>)
      requires Valid()
      modifies this
      ensures Valid()
      ensures ModelOf(state) == old(ModelOf(state)).(contexts := cs, view := SetContextsV(old(ViewOf(state)), cs, old(state.virtualContexts)))
      ensures FocusPlaced(old(ViewOf(state)), ViewOf(state))
    {
      hide *;
      T.SetContextsExact(state, cs);
      TabActs(state, SetContextList(cs));
      state := Tabs.SetContexts(state, cs);
    }

    /** `uuid` is the random id drawn for a new tab. */
    method OpenTab(a: Anchor, uuid: string)
      requires Valid() && uuid !in Ids(state.openTabs) && uuid != ""
      modifies this
      ensures Valid()
      ensures ModelOf(state) == old(ModelOf(state)).(view := OpenV(old(ViewOf(state)), a, uuid, old(state.kinds), old(state.virtualContexts)))
    {
      hide *;
      TabActs(state, Open(a, uuid));
      state := Tabs.OpenTab(state, a, uuid);
    }

    method SwitchTab(id: string)
      requires Valid()
      modifies this
      ensures Valid()
      ensures ModelOf(state) == old(ModelOf(state)).(view := SwitchV(old(ViewOf(state)), id))
    {
      hide *;
      TabActs(state, Switch(id));
      state := SwitchToTab(state, id);
    }

    method CloseTab(id: string)
      requires Valid()
      modifies this
      ensures Valid()
      ensures ModelOf(state) == old(ModelOf(state)).(view := CloseV(old(ViewOf(state)), [id]))
      ensures FocusPlaced(old(ViewOf(state)), ViewOf(state))
    {
      hide *;
      T.CloseFocused(state, id);
      TabActs(state, Close(id));
      state := Tabs.CloseTab(state, id);
    }

    /** Back to Fleet: every tab closes. */
    method GoFleet()
      requires Valid()
      modifies this
      ensures Valid()
      ensures ModelOf(state) == old(ModelOf(state)).(view := NO_TABS)
    {
      hide *;
      TabActs(state, TabAction.GoFleet);
      state := Fleet(state);
    }

    method DeleteVirtualContext(id: string)
      requires Valid()
      modifies this
      ensures Valid()
      ensures ModelOf(state) == old(ModelOf(state)).(virtualContexts := WithoutVirtual(old(state.virtualContexts), id),
                                                 view := DeleteVirtualV(old(ViewOf(state)), id))
      ensures FocusPlaced(old(ViewOf(state)), ViewOf(state))
    {
      hide *;
      T.DeleteVirtualExact(state, id);
      TabActs(state, DeleteVirtual(id));
      state := Tabs.DeleteVirtualContext(state, id);
    }

    // ----- What a tab holds -----

    method SetKinds(ks: seq<string>, discoveryPending: bool)
      requires Valid()
      modifies this
      ensures Valid()
      ensures ModelOf(state) == StepSliceM(old(ModelOf(state)), SetKindList(ks, discoveryPending))
    {
      hide *;
      KindsActs(state, ks, discoveryPending);
      state := Tabs.SetKinds(state, ks, discoveryPending);
    }

    /** Any edit of the live copy: kind, namespaces, selection, filter, drawer,
        tray, history, dock. */
    method EditActive(e: SliceEdit)
      requires Valid() && TabEditAllowed(ViewOf(state), None, e)
      modifies this
      ensures Valid()
      ensures ModelOf(state) == old(ModelOf(state)).(view := EditV(old(ViewOf(state)), None, e))
    {
      hide *;
      SliceActs(state, Live(e));
      state := EditLive(state, e);
    }

    method PatchTab(tabId: Option<string>, e: SliceEdit)
      requires Valid() && TabEditAllowed(ViewOf(state), tabId, e)
      modifies this
      ensures Valid()
      ensures ModelOf(state) == old(ModelOf(state)).(view := EditV(old(ViewOf(state)), tabId, e))
    {
      hide *;
      SliceActs(state, PatchOne(tabId, e));
      state := Tabs.PatchTab(state, tabId, e);
    }

    /** Close a dock tab in whichever cluster tab owns it. */
    method CloseDockTab(id: string)
      requires Valid()
      modifies this
      ensures Valid()
      ensures ModelOf(state) == old(ModelOf(state)).(view := OwnerV(old(ViewOf(state)), id, DockEdit(Dock.Close({id}))))
    {
      hide *;
      SliceActs(state, CloseDock(id));
      DockClosed(state, id);
      if id in Dock.Ids(state.dockTabs) {
        var d := Dock.RemoveDockTabs(Dock.DockState(state.dockTabs, state.dockActive, state.dockMin), [id]);
        state := state.(dockTabs := d.tabs, dockActive := d.active, dockMin := d.min);
      } else {
        state := state.(openTabs := MapOwners(state.openTabs, id, DockEdit(Dock.Close({id}))));
      }
    }

    /** Rewrite a dock tab in whichever cluster tab owns it. */
    method PatchDockTab(id: string, patch: Dock.DockPatch)
      requires Valid() && OwnerPatchFits(ViewOf(state), id, patch)
      modifies this
      ensures Valid()
      ensures ModelOf(state) == old(ModelOf(state)).(view := OwnerV(old(ViewOf(state)), id, DockEdit(Dock.Edit(id, patch))))
    {
      hide *;
      SliceActs(state, PatchDock(id, patch));
      state := Tabs.PatchDockTab(state, id, patch);
    }

    method HydrateSession(slices: map<string, RestoredSlice>)
      requires Valid() && SessionAllowed(ViewOf(state), slices)
      modifies this
      ensures Valid()
      ensures ModelOf(state) == old(ModelOf(state)).(view := SessionV(old(ViewOf(state)), slices))
    {
      hide *;
      SliceActs(state, RestoreSession(slices));
      state := Tabs.HydrateSession(state, slices);
    }

    // ----- Scopes, saved virtual contexts, startup -----

    /** One more virtual context is saved; what is in view stays. */
    method SaveVirtualContext(name: string, members: seq<string>, uuid: string)
      requires Valid() && uuid != ""
      modifies this
      ensures Valid()
      ensures ActiveClusters(state) == old(ActiveClusters(state))
      ensures ModelOf(state) == old(ModelOf(state)).(virtualContexts := old(state.virtualContexts) + [VirtualContext(uuid, name, members)])
    {
      hide *;
      var vcs := state.virtualContexts + [VirtualContext(uuid, name, members)];
      SavedActs(state, vcs, SaveVirtual(name, members, uuid));
      SavingKeepsScope(state, VirtualContext(uuid, name, members));
      state := state.(virtualContexts := vcs);
    }

    /** A new name leaves the clusters in view as they were. */
    method RenameVirtualContext(id: string, name: string)
      requires Valid()
      modifies this
      ensures Valid()
      ensures ModelOf(state) == old(ModelOf(state)).(virtualContexts := RenameVirtual(old(state.virtualContexts), id, name))
      ensures ActiveClusters(state) == old(ActiveClusters(state))
    {
      hide *;
      RenamingKeepsScope(state, id, name);
      var vcs := RenameVirtual(state.virtualContexts, id, name);
      SavedActs(state, vcs, Rename(id, name));
      state := state.(virtualContexts := vcs);
    }

    /** New members change what is in view exactly for the tab on that context: the
        known members first, then each known extra that is not one of them. */
    method SetVirtualContextMembers(id: string, members: seq<string>)
      requires Valid()
      modifies this
      ensures Valid()
      ensures ModelOf(state) == old(ModelOf(state)).(virtualContexts := WithMembers(old(state.virtualContexts), id, members))
      ensures old(state.selectedVirtualContextId) != Some(id) ==> ActiveClusters(state) == old(ActiveClusters(state))
      ensures old(state.selectedVirtualContextId) == Some(id) ==>
                Shows(ActiveClusters(state), Surviving(old(state.contexts), members), Surviving(old(state.contexts), old(state.scopeExtras)))
    {
      hide *;
      NewMembersScope(state, id, members);
      var vcs := WithMembers(state.virtualContexts, id, members);
      SavedActs(state, vcs, SetMembers(id, members));
      state := state.(virtualContexts := vcs);
    }

    method AbsorbScopeExtras(id: string)
      requires Valid()
      modifies this
      ensures Valid()
      ensures ModelOf(state) == AbsorbM(old(ModelOf(state)), id)
    {
      hide *;
      ScopeActs(state, Absorb(id));
      state := Tabs.AbsorbScopeExtras(state, id);
    }

    method AddScopeExtra(contextId: string)
      requires Valid()
      modifies this
      ensures Valid()
      ensures ModelOf(state) == AddExtraM(old(ModelOf(state)), contextId)
    {
      hide *;
      ScopeActs(state, AddExtra(contextId));
      var inView := SelectActiveClusterIds(state.contexts, state.selectedContext, state.virtualContexts,
                                           state.selectedVirtualContextId, state.scopeExtras);
      ExtraAdded(state, contextId);
      if contextId in state.contexts && !(state.selectedContext.None? && state.selectedVirtualContextId.None?) && contextId !in inView {
        state := state.(scopeExtras := state.scopeExtras + [contextId]);
      }
    }

    method RemoveScopeExtra(contextId: string)
      requires Valid()
      modifies this
      ensures Valid()
      ensures ModelOf(state) == old(ModelOf(state)).(view := RemoveExtraV(old(ViewOf(state)), contextId))
    {
      hide *;
      ScopeActs(state, RemoveExtra(contextId));
      state := Tabs.RemoveScopeExtra(state, contextId);
    }

    /** The cluster was reconnected: the sum of counters moves for exactly the lists
        it is in. */
    method ClearClusterHealth(clusterId: string)
      requires Valid()
      modifies this
      ensures Valid()
      ensures Epoch(state.clusterEpoch, clusterId) == old(Epoch(state.clusterEpoch, clusterId)) + 1
      ensures forall ids :: EpochSum(state.clusterEpoch, ids) == EpochSum(old(state.clusterEpoch), ids) <==> clusterId !in ids
      ensures ModelOf(state) == old(ModelOf(state)).(clusterEpoch := state.clusterEpoch)
    {
      hide *;
      ReconnectActs(state, clusterId);
      SumsAfter(state.clusterEpoch, clusterId);
      state := state.(clusterEpoch := Bump(state.clusterEpoch, clusterId));
    }

    /** The startup read of the preferences file. */
    method HydratePrefs(p: P.PrefsFile, uuids: seq<string>)
      requires Valid() && AllowedScope(ModelOf(state), Hydrate(p, uuids))
      modifies this
      ensures Valid()
      ensures ModelOf(state) == StepScopeM(old(ModelOf(state)), Hydrate(p, uuids))
    {
      hide *;
      HydrateActs(state, p, uuids);
      state := P.HydratePrefs(state, p, uuids);
    }

    // ----- Any run -----

    /** A run of allowed actions: the logical contents follow the plain map. */
    method Dispatch(actions: seq<Action>)
      requires Valid() && RunAllowed(ModelOf(state), actions)
      modifies this
      ensures Valid()
      ensures ModelOf(state) == RunM(old(ModelOf(state)), actions)
    {
      hide Inv, ViewOf, Runs.Step, StepM, Runs.Allowed, WellPointed;
      ghost var start := state;
      RunRefines(start, actions);
      for k := 0 to |actions|
        invariant Runs.Run(state, actions[k..]) == Runs.Run(start, actions)
      {
        state := Runs.Step(state, actions[k]);
        assert actions[k..][1..] == actions[k + 1..];
      }
      assert actions[|actions|..] == [];
    }
  }
}

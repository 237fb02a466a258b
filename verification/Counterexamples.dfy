/** Where the code does not do what a comment or a caller expects: for each, the
    exact condition under which it does, and a short run that shows it failing. */
module Counterexamples {
  import opened Lists
  import opened Scope
  import opened Slices
  import opened Tabs
  import opened Views
  import opened Invariants
  import opened Runs
  import opened TabTheorems
  import opened PrefsRoundTrip
  import P = Prefs
  import D = Disconnect
  import C = Reconcile

  predicate NoExtras(v: View) {
    forall id :: id in v.tabs ==> v.tabs[id].scopeExtras == []
  }

  /** An empty kubeconfig list closes no tab and moves no focus, but it is not
      the no-op its comment promises: nothing is pruned exactly when no tab has
      an extra to lose. */
  lemma EmptyListIff(s: AppState)
    requires Inv(s)
    ensures var v, w := ViewOf(s), ViewOf(SetContexts(s, []));
            && w.order == v.order && w.active == v.active
            && (w == v <==> NoExtras(v))
  {
    hide Inv, ViewOf, Tabs.SetContexts, Views.SetContextsV, Views.PruneV, NoExtras;
    InvParts(s);
    SetContextsRefines(s, []);
    EmptyListView(ViewOf(s), s.virtualContexts);
    EmptyPrune(ViewOf(s));
  }

  lemma EmptyListView(v: View, vcs: seq<VirtualContext>)
    requires WellPointed(v)
    ensures SetContextsV(v, [], vcs) == PruneV(v, [])
    ensures PruneV(v, []).order == v.order && PruneV(v, []).active == v.active
  {
    hide Views.ContentAlive, Views.CloseV;
    var p := PruneV(v, []);
    AllAlive(vcs, p.order, p.tabs);
    CloseNothing(p);
  }

  lemma EmptyPrune(v: View)
    ensures PruneV(v, []) == v <==> NoExtras(v)
  {
    var p := PruneV(v, []);
    forall id | id in v.tabs ensures p.tabs[id] == v.tabs[id] <==> v.tabs[id].scopeExtras == [] {
      WithinNone(v.tabs[id].scopeExtras);
    }
    if NoExtras(v) {
      assert p.tabs == v.tabs;
    } else {
      var id :| id in v.tabs && v.tabs[id].scopeExtras != [];
      assert p.tabs[id] != v.tabs[id];
    }
  }

  lemma {:induction false} WithinNone(xs: seq<string>)
    ensures Within(xs, []) == []
  {
    if xs != [] {
      WithinNone(xs[1..]);
    }
  }

  lemma {:induction false} AllAlive(vcs: seq<VirtualContext>, order: seq<string>, tabs: map<string, Content>)
    requires forall id :: id in order ==> id in tabs
    ensures DeadV([], vcs, order, tabs) == []
  {
    if order != [] {
      AllAlive(vcs, order[1..], tabs);
    }
  }

  // ----- Concrete runs -----

  /** Nothing in the run needs more than this: the ids drawn are new. */
  predicate DrawsNew(s: AppState, a: Action) {
    match a
    case OnTabs(t) => t.Open? ==> t.uuid !in Ids(s.openTabs) && t.uuid != ""
    case OnSlice(e) => e.SetKindList?
    case OnScope(c) => !c.Hydrate? && (c.SaveVirtual? ==> c.uuid != "")
  }

  /** The first `k` actions of a run from a fresh store that knows `contexts`. */
  function After(contexts: seq<string>, actions: seq<Action>, k: nat): AppState
    requires k <= |actions|
  {
    Run(FreshStore(contexts, []), actions[..k])
  }

  ghost predicate AllowedFor(contexts: seq<string>, actions: seq<Action>, k: nat)
    requires k <= |actions|
  {
    RunAllowed(ModelOf(FreshStore(contexts, [])), actions[..k])
  }

  lemma AtStart(contexts: seq<string>, actions: seq<Action>)
    ensures After(contexts, actions, 0) == FreshStore(contexts, []) && AllowedFor(contexts, actions, 0)
  {
    hide FreshStore, ModelOf, Step, StepM, Allowed, WellPointed;
  }

  /** One action on. */
  lemma Onward(contexts: seq<string>, actions: seq<Action>, k: nat)
    requires k < |actions| && AllowedFor(contexts, actions, k)
    requires DrawsNew(After(contexts, actions, k), actions[k])
    ensures AllowedFor(contexts, actions, k + 1)
    ensures After(contexts, actions, k + 1) == Step(After(contexts, actions, k), actions[k])
  {
    hide FreshStore, Run, RunAllowed, Step, Inv, ViewOf, DrawsNew, Allowed, StepM, WellPointed, ModelOf, InvM, RunM, Coupled, OneOwner;
    var f, s, a := FreshStore(contexts, []), After(contexts, actions, k), actions[k];
    FreshStoreOk(contexts, []);
    RunRefines(f, actions[..k]);
    InvParts(s);
    NewIsAllowed(s, a);
    RunSnoc(f, actions[..k], a);
    assert actions[..k + 1] == actions[..k] + [a];
  }

  lemma NewIsAllowed(s: AppState, a: Action)
    requires WellPointed(ViewOf(s)) && DrawsNew(s, a)
    ensures Allowed(ModelOf(s), a)
  {
    hide WellPointed;
  }

  /** Two known clusters, no kinds, and a tab with an empty slice active. */
  function Showing(vcs: seq<VirtualContext>, tabs: seq<ClusterTab>, active: ClusterTab, extras: seq<string>): AppState {
    FreshStore(BOTH, []).(virtualContexts := vcs, openTabs := tabs, activeTabId := Some(active.id),
    selectedContext := active.selectedContext, selectedVirtualContextId := active.selectedVirtualContextId, scopeExtras := extras)
  }

  const BOTH := ["a", "b"]
  const FIRST := ClusterTab("t1", Some("a"), None, [], EMPTY_SLICE)
  const SECOND := ClusterTab("t2", Some("b"), None, [], EMPTY_SLICE)
  const ON_SAVED := ClusterTab("t", None, Some("v"), [], EMPTY_SLICE)

  function Saved(members: seq<string>): seq<VirtualContext> {
    [VirtualContext("v", "saved", members)]
  }

  /** A tab on the second cluster, then a tab on the first, which is active and is
      widened by the second. */
  const WIDENING := [
    OnTabs(Open(Context("b"), "t2")),
    OnTabs(Open(Context("a"), "t1")),
    OnScope(AddExtra("b"))
  ]

  function Widened(): AppState {
    After(BOTH, WIDENING, 3)
  }

  lemma OpenSecond()
    ensures OpenTab(FreshStore(BOTH, []), Context("b"), "t2") == Showing([], [SECOND], SECOND, [])
  {
  }

  lemma OpenFirst()
    ensures OpenTab(Showing([], [SECOND], SECOND, []), Context("a"), "t1") == Showing([], [SECOND, FIRST], FIRST, [])
  {
    assert "a" != "b" by { assert "a"[0] != "b"[0]; }
  }

  /** A scope without "b" takes it as an extra. */
  lemma Widen(s: AppState)
    requires s.contexts == BOTH && (s.selectedContext.Some? || s.selectedVirtualContextId.Some?) && "b" !in ActiveClusters(s)
    ensures AddScopeExtra(s, "b") == s.(scopeExtras := s.scopeExtras + ["b"])
  {
    hide ActiveClusters;
    SecondOfBoth();
  }

  lemma FirstAlone()
    ensures "b" !in ActiveClusters(Showing([], [SECOND, FIRST], FIRST, []))
  {
    assert Surviving(BOTH, []) == [];
    assert ActiveClusters(Showing([], [SECOND, FIRST], FIRST, [])) == ["a"];
    assert "a" != "b" by { assert "a"[0] != "b"[0]; }
  }

  lemma WidenedShape()
    ensures AllowedFor(BOTH, WIDENING, 3)
    ensures Widened() == Showing([], [SECOND, FIRST], FIRST, ["b"])
  {
    hide AllowedFor, After, FreshStore, Tabs.OpenTab, Tabs.AddScopeExtra, ActiveClusters, StepSlice, P.HydratePrefs, Tabs.Fleet,
      Tabs.SetContexts, Tabs.CloseTab, Tabs.DeleteVirtualContext, Run;
    AtStart(BOTH, WIDENING);
    NoTabsYet();
    Onward(BOTH, WIDENING, 0);
    OpenSecond();
    assert "t1" != "t2" by { assert "t1"[1] != "t2"[1]; }
    Onward(BOTH, WIDENING, 1);
    OpenFirst();
    Onward(BOTH, WIDENING, 2);
    FirstAlone();
    Widen(Showing([], [SECOND, FIRST], FIRST, []));
  }

  lemma NoTabsYet()
    ensures FreshStore(BOTH, []).openTabs == [] && FreshStore(BOTH, []).contexts == BOTH
  {
  }

  /** A tab on "a" widened by "b": an empty list takes the extra away. */
  lemma EmptyListLosesExtra()
    ensures Widened().scopeExtras == ["b"]
    ensures SetContexts(Widened(), []).scopeExtras == []
  {
    hide Widened, AllowedFor;
    WidenedShape();
    WithinNone(["b"]);
    assert SetContexts(Widened(), []).scopeExtras == [];
  }

  lemma PlainScope(s: AppState, t: ClusterTab)
    requires Truthy(t.selectedContext) && t.selectedVirtualContextId.None? && t.scopeExtras == []
    ensures TabClusterIds(s, t) == [t.selectedContext.value]
  {
  }

  lemma OtherTabs(s: AppState)
    ensures KeepTabs([SECOND, FIRST], ["t2"]) == [FIRST]
    ensures D.Union(s, [FIRST]) == {"a"}
  {
    assert [SECOND, FIRST][1..] == [FIRST] && [FIRST][1..] == [];
    PlainScope(s, FIRST);
    assert D.Union(s, [FIRST][1..]) == {};
  }

  /** The extra reached the live copy only, so the stored list still says that
      closing the other tab frees "b", although the store goes on showing it. */
  lemma StaleDisconnect()
    ensures D.ToDisconnect(Widened(), "t2") == ["b"]
    ensures "b" in ActiveClusters(CloseTab(Widened(), "t2"))
  {
    hide Widened, AllowedFor, TabClusterIds, KeepTabs, D.Union, Tabs.StashActive, Slices.EMPTY_SLICE;
    WidenedShape();
    var s := Widened();
    assert s.openTabs == [SECOND, FIRST];
    PlainScope(s, SECOND);
    OtherTabs(s);
    assert D.FindTab(s.openTabs, "t2") == Some(SECOND) by { assert Ids(s.openTabs)[0] == "t2"; }
    OutsideOne();
    LiveStays(s);
  }

  lemma OutsideOne()
    ensures D.Outside(["b"], {"a"}) == ["b"]
  {
    assert ["b"][1..] == [];
    assert D.Outside(["b"][1..], {"a"}) == [];
    assert "a" != "b" by { assert "a"[0] != "b"[0]; }
  }

  lemma LiveStays(s: AppState)
    requires s.contexts == BOTH && s.activeTabId == Some("t1") && s.scopeExtras == ["b"]
    ensures "b" in ActiveClusters(CloseTab(s, "t2"))
  {
    hide Tabs.StashActive, Tabs.Activate, Tabs.Fleet, Tabs.KeepTabs, ActiveClusterIds;
    ResolvedList(s.contexts, s.selectedContext, s.virtualContexts, s.selectedVirtualContextId, s.scopeExtras);
    assert "t1" != "t2" by { assert "t1"[1] != "t2"[1]; }
    assert "t1" !in ["t2"];
    SecondOfBoth();
  }

  /** A virtual context of "a" is saved and opened, the tab is widened by "b" in
      the live copy, and "b" is joined to the saved members and taken out again. */
  const RESAVING := [
    OnScope(SaveVirtual("saved", ["a"], "v")),
    OnTabs(Open(Virtual("v"), "t")),
    OnScope(AddExtra("b")),
    OnScope(SetMembers("v", BOTH)),
    OnScope(SetMembers("v", ["a"]))
  ]

  /** The store after saving and opening, before the preferences arrive. */
  function SavedAndOpen(contexts: seq<string>): AppState {
    After(contexts, RESAVING, 2)
  }

  lemma SaveStep(contexts: seq<string>)
    ensures Step(FreshStore(contexts, []), RESAVING[0]) == FreshStore(contexts, []).(virtualContexts := Saved(["a"]))
    ensures FreshStore(contexts, []).openTabs == []
  {
    assert [] + Saved(["a"]) == Saved(["a"]);
  }

  lemma OpenSaved(contexts: seq<string>)
    ensures var s := FreshStore(contexts, []).(virtualContexts := Saved(["a"]));
            OpenTab(s, Virtual("v"), "t") == s.(openTabs := [ON_SAVED], activeTabId := Some("t"), selectedVirtualContextId := Some("v"))
  {
    assert VirtualIds(Saved(["a"]))[0] == "v";
  }

  lemma SavedAndOpenShape(contexts: seq<string>)
    ensures AllowedFor(contexts, RESAVING, 2)
    ensures SavedAndOpen(contexts)
         == FreshStore(contexts, []).(virtualContexts := Saved(["a"]), openTabs := [ON_SAVED], activeTabId := Some("t"),
                                      selectedVirtualContextId := Some("v"))
  {
    hide AllowedFor, After, FreshStore, Tabs.OpenTab, Saved;
    AtStart(contexts, RESAVING);
    SaveStep(contexts);
    Onward(contexts, RESAVING, 0);
    Onward(contexts, RESAVING, 1);
    OpenSaved(contexts);
  }

  /** A file without the saved context leaves that tab active on an anchor that no
      longer resolves: the saved list is replaced, not merged. */
  lemma HydrateDangles(contexts: seq<string>, p: P.PrefsFile, uuids: seq<string>)
    requires P.SavedVirtuals(p) == []
    ensures var r := P.HydratePrefs(SavedAndOpen(contexts), p, uuids);
            && r.activeTabId == Some("t") && r.selectedVirtualContextId == Some("v")
            && FindVirtual(r.virtualContexts, "v").None?
  {
    hide SavedAndOpen, AllowedFor, P.RestoredTabs, P.HydrateLook, P.NotOpen, Tabs.StashActive, P.Adopt;
    SavedAndOpenShape(contexts);
  }

  /** A kind list that arrives on Fleet selects a kind in the idle copy, which a
      restart does not bring back. */
  lemma FleetKindIsLost(uuids: seq<string>)
    ensures var run := [OnSlice(SetKindList(["pods"], false))];
            var s := After([], run, 1);
            && s.openTabs == [] && s.selectedKindId == Some("pods")
            && P.BuildPrefs(P.HydratePrefs(FreshStore([], []), P.BuildPrefs(s), uuids)) != Snapped(P.BuildPrefs(s))
  {
    hide After, AllowedFor, P.BuildPrefs, P.HydratePrefs;
    var run := [OnSlice(SetKindList(["pods"], false))];
    AtStart([], run);
    Onward([], run, 0);
    FleetRoundTrip(After([], run, 1), [], [], uuids);
  }

  lemma KindsAllowed()
    ensures AllowedFor([], [OnSlice(SetKindList(["pods"], false))], 1)
  {
    hide AllowedFor;
    var run := [OnSlice(SetKindList(["pods"], false))];
    AtStart([], run);
    Onward([], run, 0);
  }

  /** What a scope on the saved context shows. */
  lemma SavedScope(members: seq<string>, extras: seq<string>, c: string)
    ensures c in ActiveClusterIds(BOTH, None, Saved(members), Some("v"), extras) <==> c in BOTH && (c in members || c in extras)
  {
    hide AppendNew;
    ResolvedList(BOTH, None, Saved(members), Some("v"), extras);
    assert FindVirtual(Saved(members), "v") == Some(Saved(members)[0]);
  }

  /** The widened tab while the saved members are `members`. */
  function Resaved(members: seq<string>): AppState {
    Showing(Saved(members), [ON_SAVED], ON_SAVED, ["b"])
  }

  lemma ResavedSpans(members: seq<string>)
    ensures C.InScope(Resaved(members), "b") <==> "b" in members
    ensures "b" in ActiveClusters(Resaved(members))
  {
    hide ActiveClusterIds;
    var s := Resaved(members);
    SavedScope(members, [], "b");
    SavedScope(members, ["b"], "b");
    SecondOfBoth();
    assert s.openTabs[0] in s.openTabs;
  }

  lemma WidenSaved()
    ensures AddScopeExtra(SavedAndOpen(BOTH), "b") == Resaved(["a"])
  {
    hide SavedAndOpen, AllowedFor, ActiveClusterIds;
    SavedAndOpenShape(BOTH);
    SavedScope(["a"], [], "b");
    SecondOfBoth();
    Widen(SavedAndOpen(BOTH));
  }

  lemma MembersStep(members: seq<string>, next: seq<string>)
    ensures Step(Resaved(members), OnScope(SetMembers("v", next))) == Resaved(next)
  {
    assert WithMembers(Saved(members), "v", next) == Saved(next);
  }

  lemma ResavingShape()
    ensures |RESAVING| == 5
    ensures AllowedFor(BOTH, RESAVING, 5)
    ensures After(BOTH, RESAVING, 3) == Resaved(["a"])
    ensures After(BOTH, RESAVING, 4) == Resaved(BOTH)
    ensures After(BOTH, RESAVING, 5) == Resaved(["a"])
  {
    hide AllowedFor, After, Resaved, Tabs.AddScopeExtra, FreshStore;
    SavedAndOpenShape(BOTH);
    Onward(BOTH, RESAVING, 2);
    WidenSaved();
    Onward(BOTH, RESAVING, 3);
    MembersStep(["a"], BOTH);
    Onward(BOTH, RESAVING, 4);
    MembersStep(BOTH, ["a"]);
  }

  /** Every state of the run, the fresh store first. */
  function States(contexts: seq<string>, actions: seq<Action>): (r: seq<AppState>)
    ensures |r| == |actions| + 1
    ensures forall k :: 0 <= k <= |actions| ==> r[k] == After(contexts, actions, k)
  {
    seq(|actions| + 1, k requires 0 <= k <= |actions| => After(contexts, actions, k))
  }

  lemma SecondOfBoth()
    ensures "b" in BOTH && "b" !in ["a"]
  {
    assert BOTH[1] == "b";
    assert "b"[0] != "a"[0];
  }

  lemma ResavedDrop(states: seq<AppState>)
    requires |states| == 6 && states[4] == Resaved(BOTH) && states[5] == Resaved(["a"])
    ensures "b" in C.Drops([], C.ListsOf(states))[5]
  {
    hide *;
    ResavedSpans(["a"]);
    ResavedSpans(BOTH);
    SecondOfBoth();
    C.ReconcileExact(states, 5, "b");
  }

  /** The effect reads the stored copy, which never saw the extra: "b" is dropped
      at the last step of the run, while the tab has been showing it since it was
      widened. */
  lemma DroppedWhileShown()
    ensures var states := States(BOTH, RESAVING);
            && "b" in C.Drops([], C.ListsOf(states))[5]
            && forall k :: 3 <= k <= 5 ==> "b" in ActiveClusters(states[k])
  {
    hide *;
    var states := States(BOTH, RESAVING);
    ResavingShape();
    ResavedDrop(states);
    forall k | 3 <= k <= 5 ensures "b" in ActiveClusters(states[k]) {
      ResavedSpans(if k == 4 then BOTH else ["a"]);
    }
  }

  /** All the runs above are allowed ones. */
  lemma RunsAllowed(contexts: seq<string>)
    ensures AllowedFor(BOTH, WIDENING, 3) && AllowedFor(BOTH, RESAVING, 5) && AllowedFor(contexts, RESAVING, 2)
    ensures AllowedFor([], [OnSlice(SetKindList(["pods"], false))], 1)
  {
    hide AllowedFor, After, Resaved, Widened, SavedAndOpen;
    WidenedShape();
    ResavingShape();
    SavedAndOpenShape(contexts);
    KindsAllowed();
  }
}

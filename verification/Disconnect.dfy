/** Which clusters lose their last open tab when a tab closes. */
module Disconnect {
  import opened Lists
  import opened Scope
  import opened Tabs
  import opened Views
  import opened Invariants
  import opened Runs

  /** Every cluster some listed tab's scope spans. */
  function Union(s: AppState, tabs: seq<ClusterTab>): (r: set<string>)
    ensures forall c :: c in r <==> exists t :: t in tabs && c in TabClusterIds(s, t)
  {
    if tabs == [] then {}
    else
      var rest := Union(s, tabs[1..]);
      assert forall t :: t in tabs <==> t == tabs[0] || t in tabs[1..];
      (set c | c in TabClusterIds(s, tabs[0])) + rest
  }

  function Outside(xs: seq<string>, used: set<string>): (r: seq<string>)
    ensures forall x :: x in r <==> x in xs && x !in used
  {
    if xs == [] then []
    else if xs[0] in used then Outside(xs[1..], used)
    else [xs[0]] + Outside(xs[1..], used)
  }

  function FindTab(tabs: seq<ClusterTab>, id: string): (r: Option<ClusterTab>)
    ensures r.Some? <==> id in Ids(tabs)
    ensures r.Some? ==> r.value in tabs && r.value.id == id
  {
    var k := IndexOf(Ids(tabs), id);
    if k < |tabs| then Some(tabs[k]) else None
  }

  /** What is outside keeps its order. */
  lemma {:induction false} OutsideConcat(a: seq<string>, b: seq<string>, used: set<string>)
    ensures Outside(a + b, used) == Outside(a, used) + Outside(b, used)
  {
    if a == [] {
      assert a + b == b;
    } else {
      assert (a + b)[1..] == a[1..] + b;
      OutsideConcat(a[1..], b, used);
    }
  }

  /** Clusters of the tab that no other tab's scope contains, in scope order. */
  function ToDisconnect(s: AppState, id: string): seq<string> {
    match FindTab(s.openTabs, id)
    case None => []
    case Some(t) => Outside(TabClusterIds(s, t), Union(s, KeepTabs(s.openTabs, [id])))
  }

  /** The selector as the source runs it: collect what the other tabs use, then
      filter. */
  method SelectClustersToDisconnect(s: AppState, tabId: string) returns (r: seq<string>)
    ensures r == ToDisconnect(s, tabId)
  {
    hide KeepTabs, Union, Ids, ActiveClusterIds;
    var tab := FindTab(s.openTabs, tabId);
    if tab.None? { return []; }
    var mine := SelectActiveClusterIds(s.contexts, tab.value.selectedContext, s.virtualContexts,
                                       tab.value.selectedVirtualContextId, tab.value.scopeExtras);
    var othersUse: set<string> := {};
    for k := 0 to |s.openTabs|
      invariant forall c :: c in othersUse <==> UsedBefore(s, tabId, k, c)
    {
      var t := s.openTabs[k];
      if t.id != tabId {
        var theirs := SelectActiveClusterIds(s.contexts, t.selectedContext, s.virtualContexts,
                                             t.selectedVirtualContextId, t.scopeExtras);
        othersUse := othersUse + (set c | c in theirs);
      }
    }
    assert othersUse == Union(s, KeepTabs(s.openTabs, [tabId])) by {
      forall c ensures UsedBefore(s, tabId, |s.openTabs|, c) <==> c in Union(s, KeepTabs(s.openTabs, [tabId])) {
        UsedByOthers(s, tabId, c);
      }
    }
    r := Outside(mine, othersUse);
  }

  ghost predicate UsedBefore(s: AppState, tabId: string, k: nat, c: string)
    requires k <= |s.openTabs|
  {
    exists i :: 0 <= i < k && s.openTabs[i].id != tabId && c in TabClusterIds(s, s.openTabs[i])
  }

  lemma UsedByOthers(s: AppState, tabId: string, c: string)
    ensures UsedBefore(s, tabId, |s.openTabs|, c) <==> c in Union(s, KeepTabs(s.openTabs, [tabId]))
  {
    hide TabClusterIds, Tabs.KeepTabs, Union;
    var kept := KeepTabs(s.openTabs, [tabId]);
    forall t ensures t in kept <==> t.id != tabId && exists i :: 0 <= i < |s.openTabs| && s.openTabs[i] == t {}
    assert c in Union(s, kept) <==> exists t :: t in kept && c in TabClusterIds(s, t);
  }

  /** What the connection effect will see leave: the union before minus the union
      of the list that closing the tab leaves. */
  function Departed(s: AppState, id: string): set<string> {
    Union(s, s.openTabs) - Union(s, KeepTabs(StashActive(s), [id]))
  }

  lemma CloseTabList(s: AppState, id: string)
    ensures CloseTab(s, id).openTabs == KeepTabs(StashActive(s), [id])
    ensures CloseTab(s, id).contexts == s.contexts && CloseTab(s, id).virtualContexts == s.virtualContexts
  {
    hide Tabs.Activate, Tabs.Fleet;
    var stashed := StashActive(s);
    var remaining := KeepTabs(stashed, [id]);
    LiveFleet(s);
    FocusEnv(s, stashed, [id]);
    if s.activeTabId.Some? && remaining != [] {
      LiveActivate(s, remaining, remaining[Neighbour(Ids(stashed), s.activeTabId.value, |remaining|)]);
    }
  }

  function ScopeOf(s: AppState, tabs: seq<ClusterTab>, id: string): set<string> {
    match FindTab(tabs, id)
    case None => {}
    case Some(t) => set c | c in TabClusterIds(s, t)
  }

  function LiveScope(s: AppState): set<string> {
    set c | c in ActiveClusters(s)
  }

  /** Clusters of the tabs that are neither `id` nor the active one `a`. */
  function Rest(s: AppState, id: string, a: string): set<string> {
    Union(s, KeepTabs(KeepTabs(s.openTabs, [id]), [a]))
  }

  lemma ToDisconnectSet(s: AppState, id: string)
    ensures (set c | c in ToDisconnect(s, id)) == ScopeOf(s, s.openTabs, id) - Union(s, KeepTabs(s.openTabs, [id]))
  {
    hide TabClusterIds, Union, KeepTabs;
  }

  /** A union is one tab's scope plus the union of the others. */
  lemma UnionSplit(s: AppState, tabs: seq<ClusterTab>, id: string)
    requires Distinct(Ids(tabs))
    ensures Union(s, tabs) == Union(s, KeepTabs(tabs, [id])) + ScopeOf(s, tabs, id)
  {
    hide TabClusterIds, KeepTabs, Union;
    var others := KeepTabs(tabs, [id]);
    forall c ensures c in Union(s, tabs) <==> c in Union(s, others) || c in ScopeOf(s, tabs, id) {
      if c in Union(s, tabs) {
        var t :| t in tabs && c in TabClusterIds(s, t);
        if t.id == id { FoundTab(tabs, t); } else { assert t in others; }
      }
      if c in Union(s, others) {
        var t :| t in others && c in TabClusterIds(s, t);
        assert t in tabs;
      }
    }
  }

  lemma FoundTab(tabs: seq<ClusterTab>, t: ClusterTab)
    requires Distinct(Ids(tabs)) && t in tabs
    ensures FindTab(tabs, t.id) == Some(t)
  {
    var i :| 0 <= i < |tabs| && tabs[i] == t;
    DistinctIndex(Ids(tabs), i);
  }

  lemma SameTab(tabs: seq<ClusterTab>, id: string, a: string)
    requires Distinct(Ids(tabs)) && a != id
    ensures Distinct(Ids(KeepTabs(tabs, [id])))
    ensures FindTab(KeepTabs(tabs, [id]), a) == FindTab(tabs, a)
  {
    hide KeepTabs;
    WithoutDistinct(Ids(tabs), [id]);
    if a in Ids(tabs) { FoundTab(tabs, FindTab(KeepTabs(tabs, [id]), a).value); }
  }

  lemma {:induction false} OthersAgree(x: seq<ClusterTab>, y: seq<ClusterTab>, a: string)
    requires |x| == |y|
    requires forall i :: 0 <= i < |x| ==> x[i].id == y[i].id && (x[i].id != a ==> x[i] == y[i])
    ensures KeepTabs(x, [a]) == KeepTabs(y, [a])
  {
    if x != [] {
      OthersAgree(x[1..], y[1..], a);
    }
  }

  lemma {:induction false} KeepSwaps(tabs: seq<ClusterTab>, id: string, a: string)
    ensures KeepTabs(KeepTabs(tabs, [id]), [a]) == KeepTabs(KeepTabs(tabs, [a]), [id])
  {
    if tabs != [] {
      KeepSwaps(tabs[1..], id, a);
    }
  }

  /** Stashing changes only the active tab's entry, and makes it the live scope. */
  lemma StashedOthers(s: AppState, a: string)
    requires Distinct(Ids(s.openTabs)) && s.activeTabId == Some(a) && a in Ids(s.openTabs)
    ensures KeepTabs(StashActive(s), [a]) == KeepTabs(s.openTabs, [a])
    ensures ScopeOf(s, StashActive(s), a) == LiveScope(s)
  {
    OthersAgree(StashActive(s), s.openTabs, a);
    var k := IndexOf(Ids(s.openTabs), a);
    assert StashActive(s)[k] in StashActive(s);
    FoundTab(StashActive(s), StashActive(s)[k]);
  }

  lemma StashedUnion(s: AppState, id: string, a: string)
    requires Distinct(Ids(s.openTabs)) && s.activeTabId == Some(a) && a in Ids(s.openTabs) && a != id
    ensures Union(s, KeepTabs(StashActive(s), [id])) == LiveScope(s) + Rest(s, id, a)
  {
    hide Union, KeepTabs, TabClusterIds, Tabs.Stashed, LiveScope, FindTab;
    StashedOthers(s, a);
    var stash := StashActive(s);
    SameTab(stash, id, a);
    UnionSplit(s, KeepTabs(stash, [id]), a);
    KeepSwaps(stash, id, a);
    KeepSwaps(s.openTabs, id, a);
  }

  lemma StoredUnion(s: AppState, id: string, a: string)
    requires Distinct(Ids(s.openTabs)) && a != id
    ensures Union(s, KeepTabs(s.openTabs, [id])) == ScopeOf(s, s.openTabs, a) + Rest(s, id, a)
    ensures Union(s, s.openTabs) == ScopeOf(s, s.openTabs, id) + ScopeOf(s, s.openTabs, a) + Rest(s, id, a)
  {
    hide Union, KeepTabs, TabClusterIds, FindTab;
    UnionSplit(s, s.openTabs, id);
    SameTab(s.openTabs, id, a);
    UnionSplit(s, KeepTabs(s.openTabs, [id]), a);
  }

  /** On an up-to-date tab list the selector names exactly the clusters that
      leave the union when the tab closes. */
  lemma DisconnectExact(s: AppState, id: string)
    requires Distinct(Ids(s.openTabs)) && UpToDate(s)
    ensures (set c | c in ToDisconnect(s, id)) == Departed(s, id)
  {
    hide Union, KeepTabs, TabClusterIds, ToDisconnect, ScopeOf;
    ToDisconnectSet(s, id);
    UnionSplit(s, s.openTabs, id);
  }

  /** On a list whose active entry may be stale, the selector is right exactly
      when (a) no cluster is kept alive by the stale copy alone, and (b) the live
      copy has not taken up a cluster the closing tab thinks is its own. Closing
      the active tab itself is always right. */
  lemma DisconnectIff(s: AppState, id: string)
    requires Distinct(Ids(s.openTabs)) && s.activeTabId.Some? && s.activeTabId.value in Ids(s.openTabs)
    ensures (set c | c in ToDisconnect(s, id)) == Departed(s, id)
       <==> s.activeTabId == Some(id)
            || (var a := s.activeTabId.value;
                var stale, live, rest := ScopeOf(s, s.openTabs, a), LiveScope(s), Rest(s, id, a);
                stale <= live + rest && live * ScopeOf(s, s.openTabs, id) <= stale + rest)
  {
    hide Union, KeepTabs, TabClusterIds, ToDisconnect, ScopeOf, LiveScope, Rest, Tabs.Stashed;
    var a := s.activeTabId.value;
    ToDisconnectSet(s, id);
    if a == id {
      StashedOthers(s, a);
      UnionSplit(s, s.openTabs, id);
    } else {
      StashedUnion(s, id, a);
      StoredUnion(s, id, a);
      SetAlgebra(ScopeOf(s, s.openTabs, id), ScopeOf(s, s.openTabs, a), LiveScope(s), Rest(s, id, a));
    }
  }

  lemma SetAlgebra(mine: set<string>, stale: set<string>, live: set<string>, rest: set<string>)
    ensures mine - (stale + rest) == (mine + stale + rest) - (live + rest)
       <==> stale <= live + rest && live * mine <= stale + rest
  {
    var lhs, rhs := mine - (stale + rest), (mine + stale + rest) - (live + rest);
    if lhs == rhs {
      forall c | c in stale ensures c in live + rest { assert c in rhs <==> c in lhs; }
      forall c | c in live * mine ensures c in stale + rest { assert c in lhs <==> c in rhs; }
    }
  }

  // ----- Stored and current scopes -----

  /** The clusters the tabs span now: the union once the live copy is stashed. */
  function CurrentUnion(s: AppState): set<string> {
    Union(s, StashActive(s))
  }

  /** Clusters of the tabs other than the active one. */
  function Others(s: AppState): set<string>
    requires s.activeTabId.Some?
  {
    Union(s, KeepTabs(s.openTabs, [s.activeTabId.value]))
  }

  /** Told from the scopes: the stored and the live scope of the active tab add the
      same clusters to those of the other tabs. */
  predicate ScopesAgree(s: AppState) {
    s.activeTabId.Some? ==> ScopeOf(s, s.openTabs, s.activeTabId.value) + Others(s) == LiveScope(s) + Others(s)
  }

  /** The union read from the stored tabs is the current one exactly then. */
  lemma StoredUnionIff(s: AppState)
    requires Distinct(Ids(s.openTabs)) && (s.activeTabId.Some? ==> s.activeTabId.value in Ids(s.openTabs))
    ensures Union(s, s.openTabs) == CurrentUnion(s) <==> ScopesAgree(s)
  {
    hide Union, KeepTabs, TabClusterIds, ScopeOf, LiveScope, Tabs.Stashed, Distinct;
    if s.activeTabId.Some? {
      var a := s.activeTabId.value;
      UnionSplit(s, s.openTabs, a);
      StashedOthers(s, a);
      UnionSplit(s, StashActive(s), a);
    }
  }

  // ----- What a caller sees -----

  /** The extras stored for the active tab are its live ones. */
  predicate ExtrasStored(s: AppState) {
    s.activeTabId.Some? ==>
      match FindTab(s.openTabs, s.activeTabId.value)
      case None => true
      case Some(t) => t.scopeExtras == s.scopeExtras
  }

  predicate ActiveOpen(s: AppState) {
    s.activeTabId.Some? && s.activeTabId.value in Ids(s.openTabs)
  }

  lemma StoredScope(s: AppState)
    requires Distinct(Ids(s.openTabs)) && Coupled(s) && ActiveOpen(s) && ExtrasStored(s)
    ensures ScopeOf(s, s.openTabs, s.activeTabId.value) == LiveScope(s)
  {
    hide ActiveClusterIds;
    var a := s.activeTabId.value;
    var t := FindTab(s.openTabs, a).value;
    var i :| 0 <= i < |s.openTabs| && s.openTabs[i] == t;
    assert s.activeTabId == Some(s.openTabs[i].id);
  }

  /** Equal stored and live extras are enough. */
  lemma StoredExtrasAgree(s: AppState)
    requires Distinct(Ids(s.openTabs)) && Coupled(s) && (s.activeTabId.Some? ==> ActiveOpen(s)) && ExtrasStored(s)
    ensures ScopesAgree(s)
  {
    hide ScopeOf, LiveScope, Others, ExtrasStored;
    if s.activeTabId.Some? { StoredScope(s); }
  }

  /** Only the known contexts and the saved virtual contexts matter to a union. */
  lemma {:induction false} UnionFrame(s: AppState, r: AppState, tabs: seq<ClusterTab>)
    requires r.contexts == s.contexts && r.virtualContexts == s.virtualContexts
    ensures Union(r, tabs) == Union(s, tabs)
  {
    if tabs != [] {
      UnionFrame(s, r, tabs[1..]);
    }
  }

  lemma FrameAgrees(s: AppState, r: AppState)
    requires Distinct(Ids(s.openTabs)) && Coupled(s) && ActiveOpen(s) && ExtrasStored(s)
    requires r.contexts == s.contexts && r.virtualContexts == s.virtualContexts
    requires r.openTabs == s.openTabs && r.activeTabId == s.activeTabId
    ensures ScopesAgree(r) <==> LiveScope(s) + Others(s) == LiveScope(r) + Others(s)
  {
    hide LiveScope, Union, KeepTabs, ExtrasStored, Coupled, ActiveClusterIds;
    StoredScope(s);
    UnionFrame(s, r, KeepTabs(s.openTabs, [s.activeTabId.value]));
    assert ScopeOf(r, r.openTabs, r.activeTabId.value) == ScopeOf(s, s.openTabs, s.activeTabId.value);
  }

  /** Accepting an extra while the extras agree leaves the scopes agreeing exactly
      when another tab spans that cluster already. */
  lemma AddAgreesIff(s: AppState, id: string)
    requires Distinct(Ids(s.openTabs)) && Coupled(s) && ActiveOpen(s) && ExtrasStored(s)
    requires AcceptsExtra(s, id)
    ensures ScopesAgree(AddScopeExtra(s, id)) <==> id in Others(s)
  {
    hide ScopesAgree, Union, KeepTabs, ExtrasStored, Coupled, ActiveClusterIds, Distinct, ActiveOpen, Others;
    var r := AddScopeExtra(s, id);
    AddThenRemoveExtra(s.contexts, s.selectedContext, s.virtualContexts, s.selectedVirtualContextId, s.scopeExtras, id);
    FrameAgrees(s, r);
    assert LiveScope(r) == LiveScope(s) + {id};
    assert id !in LiveScope(s);
  }

  /** The cluster is in view as an extra only. */
  predicate LeavesView(s: AppState, id: string) {
    && id in s.scopeExtras && Known(s.contexts, id)
    && id !in BaseIds(s.contexts, s.selectedContext, s.virtualContexts, s.selectedVirtualContextId)
  }

  lemma RemovedScope(s: AppState, id: string)
    ensures var r := RemoveScopeExtra(s, id);
            && r.contexts == s.contexts && r.virtualContexts == s.virtualContexts
            && r.openTabs == s.openTabs && r.activeTabId == s.activeTabId
            && LiveScope(r) == if LeavesView(s, id) then LiveScope(s) - {id} else LiveScope(s)
  {
    hide AppendNew, BaseIds, Surviving, Without, Slices.Edited, Tabs.Capture;
    var r := RemoveScopeExtra(s, id);
    RemoveEnv(s, id);
    SpreadAnchors(s.(scopeExtras := Without(s.scopeExtras, [id])), Slices.Edited(Capture(s), Slices.DropFocus(id)));
    RemovedExtras(s, id);
    ResolvedList(s.contexts, s.selectedContext, s.virtualContexts, s.selectedVirtualContextId, s.scopeExtras);
    ResolvedList(s.contexts, s.selectedContext, s.virtualContexts, s.selectedVirtualContextId, r.scopeExtras);
  }

  lemma RemovedExtras(s: AppState, id: string)
    ensures RemoveScopeExtra(s, id).scopeExtras == Without(s.scopeExtras, [id])
  {
    hide Slices.Edited, Tabs.Capture;
  }

  /** Removing an extra while the extras agree leaves the scopes agreeing exactly
      when the cluster stays in view, was not in view, or another tab spans it. */
  lemma RemoveAgreesIff(s: AppState, id: string)
    requires Distinct(Ids(s.openTabs)) && Coupled(s) && ActiveOpen(s) && ExtrasStored(s)
    ensures ScopesAgree(RemoveScopeExtra(s, id)) <==> !LeavesView(s, id) || id in Others(s)
  {
    hide ScopesAgree, Union, KeepTabs, ExtrasStored, Coupled, Distinct, ActiveOpen, LeavesView, Tabs.RemoveScopeExtra, LiveScope, Others;
    RemovedScope(s, id);
    FrameAgrees(s, RemoveScopeExtra(s, id));
    if LeavesView(s, id) { InView(s, id); }
  }

  lemma InView(s: AppState, id: string)
    requires LeavesView(s, id)
    ensures id in LiveScope(s)
  {
    hide AppendNew, BaseIds;
    ResolvedList(s.contexts, s.selectedContext, s.virtualContexts, s.selectedVirtualContextId, s.scopeExtras);
  }
}

/** The effect that keeps backend connections in step with the open tabs. */
module Reconcile {
  import opened Lists
  import opened Tabs
  import opened Invariants
  import R = Runs
  import D = Disconnect
  import Names

  /** Lists the joined key tells apart: no id contains the separator, and the list
      is not the single empty id, which joins to the same text as no id at all. */
  predicate NulFree(ids: seq<string>) {
    forall i :: 0 <= i < |ids| ==> NUL !in ids[i]
  }

  predicate CleanIds(ids: seq<string>) {
    NulFree(ids) && ids != [""]
  }

  function Key(ids: seq<string>): string {
    Join(ids, NUL)
  }

  /** Two lists without NULs have the same key exactly when they are the same, or
      one is empty and the other holds just an empty id. */
  lemma KeySharedIff(a: seq<string>, b: seq<string>)
    requires NulFree(a) && NulFree(b)
    ensures Key(a) == Key(b) <==> a == b || (a == [] && b == [""]) || (a == [""] && b == [])
  {
    if a != [] && b != [] {
      assert forall p :: p in a ==> NUL !in p;
      assert forall p :: p in b ==> NUL !in p;
      if Key(a) == Key(b) { JoinInjective(a, b, NUL); }
    } else {
      KeyEmpty(a);
      KeyEmpty(b);
    }
  }

  lemma KeyEmpty(a: seq<string>)
    ensures Key(a) == "" <==> a == [] || a == [""]
  {
    if |a| > 1 { assert Key(a)[|a[0]|] == NUL; }
  }

  /** The sorted list the effect depends on: the union over all open tabs. */
  ghost function OpenTabClusterIds(s: AppState): seq<string> {
    Names.SortedNames(D.Union(s, s.openTabs))
  }

  /** The effect's ref and last seen key, and the log of clusters it has told the
      backend to drop. */
  class ConnectionReconciler {
    var prevOpenClusterIds: seq<string>
    var lastKey: Option<string>
    var dropped: seq<string>

    ghost predicate Valid()
      reads this
    {
      lastKey.Some? ==> lastKey.value == Key(prevOpenClusterIds)
    }

    constructor ()
      ensures Valid() && prevOpenClusterIds == [] && dropped == [] && lastKey.None?
    {
      prevOpenClusterIds, lastKey, dropped := [], None, [];
    }

    /** One render: the effect body runs only if the joined key changed. Between
        lists their keys tell apart, the tracked list is the current one afterwards
        and exactly the clusters that left it are dropped, even so. */
    method Render(openTabClusterIds: seq<string>)
      requires Valid()
      modifies this
      ensures Valid() && lastKey == Some(Key(openTabClusterIds))
      ensures if old(lastKey) == Some(Key(openTabClusterIds))
              then prevOpenClusterIds == old(prevOpenClusterIds) && dropped == old(dropped)
              else prevOpenClusterIds == openTabClusterIds && dropped == old(dropped) + Without(old(prevOpenClusterIds), openTabClusterIds)
      ensures CleanIds(old(prevOpenClusterIds)) && CleanIds(openTabClusterIds) ==>
                prevOpenClusterIds == openTabClusterIds && dropped == old(dropped) + Without(old(prevOpenClusterIds), openTabClusterIds)
    {
      var key := Key(openTabClusterIds);
      if lastKey == Some(key) {
        if CleanIds(prevOpenClusterIds) && CleanIds(openTabClusterIds) {
          KeySharedIff(prevOpenClusterIds, openTabClusterIds);
          NothingLeft(prevOpenClusterIds, prevOpenClusterIds);
        }
        return;
      }
      var departed := Without(prevOpenClusterIds, openTabClusterIds);
      for k := 0 to |departed|
        invariant dropped == old(dropped) + departed[..k]
        invariant prevOpenClusterIds == old(prevOpenClusterIds)
      {
        dropped := dropped + [departed[k]];
        assert departed[..k + 1] == departed[..k] + [departed[k]];
      }
      assert departed[..|departed|] == departed;
      prevOpenClusterIds, lastKey := openTabClusterIds, Some(key);
    }

    function State(): Effect
      reads this
    {
      Effect(prevOpenClusterIds, lastKey, dropped)
    }

    /** A run of renders of any lists. */
    method RenderAll(lists: seq<seq<string>>)
      requires Valid()
      modifies this
      ensures Valid() && State() == RenderedAll(old(State()), lists)
    {
      for k := 0 to |lists|
        invariant Valid() && State() == RenderedAll(old(State()), lists[..k])
      {
        Render(lists[k]);
        RenderedSnoc(old(State()), lists[..k], lists[k]);
        assert lists[..k + 1] == lists[..k] + [lists[k]];
      }
      assert lists[..|lists|] == lists;
    }

    /** Over any run of store states whose clusters have proper ids, the object ends
        up tracking exactly what the last state's tabs span, and has dropped exactly
        the clusters that stopped being spanned at some step. */
    method Follow(ghost states: seq<AppState>, lists: seq<seq<string>>)
      requires Valid() && State() == Effect([], None, [])
      requires lists == ListsOf(states) && forall k :: 0 <= k < |states| ==> ProperIds(states[k])
      modifies this
      ensures Valid()
      ensures states != [] ==> forall c :: c in prevOpenClusterIds <==> InScope(states[|states| - 1], c)
      ensures forall c :: c in dropped <==> exists k :: Leaves(states, k, c)
    {
      RenderAll(lists);
      FollowExact(states);
    }
  }

  // ----- The object as a fold -----

  datatype Effect = Effect(tracked: seq<string>, key: Option<string>, dropped: seq<string>)

  function Rendered(e: Effect, list: seq<string>): Effect {
    if e.key == Some(Key(list)) then e else Effect(list, Some(Key(list)), e.dropped + Without(e.tracked, list))
  }

  function RenderedAll(e: Effect, lists: seq<seq<string>>): Effect {
    if lists == [] then e else Rendered(RenderedAll(e, lists[..|lists| - 1]), lists[|lists| - 1])
  }

  lemma RenderedSnoc(e: Effect, lists: seq<seq<string>>, next: seq<string>)
    ensures RenderedAll(e, lists + [next]) == Rendered(RenderedAll(e, lists), next)
  {
    assert (lists + [next])[..|lists|] == lists;
  }

  predicate EffectOk(e: Effect) {
    CleanIds(e.tracked) && (e.key.Some? ==> e.key.value == Key(e.tracked))
  }

  lemma RenderedOnce(e: Effect, list: seq<string>)
    requires EffectOk(e) && CleanIds(list)
    ensures EffectOk(Rendered(e, list)) && Rendered(e, list).tracked == list
    ensures Rendered(e, list).dropped == e.dropped + Without(e.tracked, list)
  {
    if e.key == Some(Key(list)) {
      KeySharedIff(e.tracked, list);
      NothingLeft(list, list);
    }
  }

  /** Over lists their keys tell apart, the object tracks the last list and has
      dropped, step by step, what left. */
  lemma {:induction false} RenderedClean(e: Effect, lists: seq<seq<string>>)
    requires EffectOk(e) && forall k :: 0 <= k < |lists| ==> CleanIds(lists[k])
    ensures EffectOk(RenderedAll(e, lists))
    ensures RenderedAll(e, lists).tracked == Tracked(e.tracked, lists)
    ensures RenderedAll(e, lists).dropped == e.dropped + Flatten(Drops(e.tracked, lists))
  {
    hide Rendered, CleanIds, Without, Flatten, Drops;
    if lists == [] {
      FlattenNone(e.tracked);
    } else {
      var front, last := lists[..|lists| - 1], lists[|lists| - 1];
      RenderedClean(e, front);
      RenderedOnce(RenderedAll(e, front), last);
      DropsSnoc(e.tracked, front, last);
      assert lists == front + [last];
    }
  }

  lemma FlattenNone(prev: seq<string>)
    ensures Flatten(Drops(prev, [])) == []
  {
  }

  lemma {:induction false} FlattenMembers(xs: seq<seq<string>>, c: string)
    ensures c in Flatten(xs) <==> exists k :: 0 <= k < |xs| && c in xs[k]
  {
    if xs != [] {
      FlattenMembers(xs[1..], c);
      if c in xs[0] { assert c in xs[0]; }
      if k :| 0 <= k < |xs[1..]| && c in xs[1..][k] { assert xs[k + 1] == xs[1..][k]; }
      if k :| 0 <= k < |xs| && c in xs[k] {
        if k > 0 { assert xs[1..][k - 1] == xs[k]; }
      }
    }
  }

  /** Every cluster a listed tab spans has a non-empty id without a NUL. */
  predicate ProperIds(s: AppState) {
    forall c :: c in D.Union(s, s.openTabs) ==> c != "" && NUL !in c
  }

  lemma ProperIsClean(s: AppState)
    requires ProperIds(s)
    ensures CleanIds(OpenTabClusterIds(s))
  {
    var ids := OpenTabClusterIds(s);
    Names.SortedNamesMembers(D.Union(s, s.openTabs));
    forall i | 0 <= i < |ids| ensures ids[i] != "" && NUL !in ids[i] { assert ids[i] in ids; }
  }

  ghost predicate Leaves(states: seq<AppState>, k: int, c: string) {
    0 < k < |states| && InScope(states[k - 1], c) && !InScope(states[k], c)
  }

  lemma FollowExact(states: seq<AppState>)
    requires forall k :: 0 <= k < |states| ==> ProperIds(states[k])
    ensures var e := RenderedAll(Effect([], None, []), ListsOf(states));
            && (states != [] ==> forall c :: c in e.tracked <==> InScope(states[|states| - 1], c))
            && (forall c :: c in e.dropped <==> exists k :: Leaves(states, k, c))
  {
    hide InScope, ProperIds, CleanIds, RenderedAll, Drops, Flatten, OpenTabClusterIds;
    var lists := ListsOf(states);
    forall k | 0 <= k < |states| ensures CleanIds(lists[k]) { ProperIsClean(states[k]); }
    NoIdsClean();
    RenderedClean(Effect([], None, []), lists);
    if states != [] {
      var n := |states| - 1;
      assert lists[..n + 1] == lists;
      forall c ensures c in Tracked([], lists) <==> InScope(states[n], c) { ReconcileExact(states, n, c); }
    }
    forall c ensures c in Flatten(Drops([], lists)) <==> exists k :: Leaves(states, k, c) { DroppedIff(states, c); }
  }

  lemma NoIdsClean()
    ensures CleanIds([])
  {
  }

  lemma DroppedIff(states: seq<AppState>, c: string)
    ensures c in Flatten(Drops([], ListsOf(states))) <==> exists k :: Leaves(states, k, c)
  {
    hide InScope, OpenTabClusterIds;
    var drops := Drops([], ListsOf(states));
    FlattenMembers(drops, c);
    forall k | 0 <= k < |states| ensures c in drops[k] <==> Leaves(states, k, c) { ReconcileExact(states, k, c); }
  }

  lemma {:induction false} NothingLeft(xs: seq<string>, all: seq<string>)
    requires forall x :: x in xs ==> x in all
    ensures Without(xs, all) == []
  {
    if xs != [] {
      NothingLeft(xs[1..], all);
    }
  }

  /** The list tracked after a run of lists. */
  function Tracked(prev: seq<string>, lists: seq<seq<string>>): seq<string> {
    if lists == [] then prev else lists[|lists| - 1]
  }

  /** What is dropped at each step of a run. */
  function Drops(prev: seq<string>, lists: seq<seq<string>>): (r: seq<seq<string>>)
    ensures |r| == |lists|
    decreases lists
  {
    if lists == [] then [] else [Without(prev, lists[0])] + Drops(lists[0], lists[1..])
  }

  function Flatten(xs: seq<seq<string>>): seq<string> {
    if xs == [] then [] else xs[0] + Flatten(xs[1..])
  }

  lemma {:induction false} FlattenSnoc(xs: seq<seq<string>>, y: seq<string>)
    ensures Flatten(xs + [y]) == Flatten(xs) + y
  {
    if xs == [] {
      assert xs + [y] == [y];
      assert ([y])[1..] == [];
    } else {
      assert (xs + [y])[1..] == xs[1..] + [y];
      FlattenSnoc(xs[1..], y);
    }
  }

  lemma {:induction false} DropsSnoc(prev: seq<string>, lists: seq<seq<string>>, next: seq<string>)
    ensures Drops(prev, lists + [next]) == Drops(prev, lists) + [Without(Tracked(prev, lists), next)]
    ensures Flatten(Drops(prev, lists + [next])) == Flatten(Drops(prev, lists)) + Without(Tracked(prev, lists), next)
    decreases lists
  {
    if lists == [] {
      assert lists + [next] == [next];
      assert ([next])[1..] == [];
    } else {
      assert (lists + [next])[1..] == lists[1..] + [next];
      DropsSnoc(lists[0], lists[1..], next);
    }
    FlattenSnoc(Drops(prev, lists), Without(Tracked(prev, lists), next));
  }

  /** A cluster is dropped exactly at the steps where it leaves the list: it was
      in the previous one and is not in this one. */
  lemma {:induction false} DropsExact(prev: seq<string>, lists: seq<seq<string>>, k: nat, c: string)
    requires k < |lists|
    ensures c in Drops(prev, lists)[k] <==> c in (if k == 0 then prev else lists[k - 1]) && c !in lists[k]
    decreases k
  {
    if k > 0 {
      DropsExact(lists[0], lists[1..], k - 1, c);
    }
  }

  ghost function ListsOf(states: seq<AppState>): (r: seq<seq<string>>)
    ensures |r| == |states|
    ensures forall k :: 0 <= k < |states| ==> r[k] == OpenTabClusterIds(states[k])
  {
    seq(|states|, k requires 0 <= k < |states| => OpenTabClusterIds(states[k]))
  }

  predicate InScope(s: AppState, c: string) {
    exists t :: t in s.openTabs && c in TabClusterIds(s, t)
  }

  /** Over any run of store states: the tracked list always holds exactly the
      clusters some listed tab spans, and a cluster is dropped exactly at the
      step where it stops being spanned by any, never while one still spans it. */
  lemma ReconcileExact(states: seq<AppState>, k: nat, c: string)
    requires k < |states|
    ensures var lists := ListsOf(states);
            && (c in Tracked([], lists[..k + 1]) <==> InScope(states[k], c))
            && (c in Drops([], lists)[k] <==> k > 0 && InScope(states[k - 1], c) && !InScope(states[k], c))
  {
    hide TabClusterIds;
    var lists := ListsOf(states);
    DropsExact([], lists, k, c);
    Names.SortedNamesMembers(D.Union(states[k], states[k].openTabs));
    if k > 0 { Names.SortedNamesMembers(D.Union(states[k - 1], states[k - 1].openTabs)); }
  }

  /** A tab spans the cluster now, read from whichever copy is current. */
  predicate Spanned(s: AppState, c: string) {
    c in D.CurrentUnion(s)
  }

  function Members(ids: seq<string>): set<string> {
    set c | c in ids
  }

  /** The effect reads stored scopes. After any run what it tracks is what the tabs
      span now exactly when the stored and the live scope of the active tab agree;
      and between two states where they do, a cluster is dropped exactly when it
      stops being spanned. */
  lemma TrackedIsCurrentIff(states: seq<AppState>, k: nat)
    requires k < |states| && Inv(states[k])
    ensures Members(Tracked([], ListsOf(states)[..k + 1])) == D.CurrentUnion(states[k]) <==> D.ScopesAgree(states[k])
  {
    hide Inv, InScope, D.ScopesAgree, D.CurrentUnion, TabClusterIds;
    var tracked := Tracked([], ListsOf(states)[..k + 1]);
    R.InvParts(states[k]);
    D.StoredUnionIff(states[k]);
    forall c ensures c in tracked <==> c in D.Union(states[k], states[k].openTabs) {
      ReconcileExact(states, k, c);
      ScopeUnion(states[k], c);
    }
  }

  lemma ScopeUnion(s: AppState, c: string)
    ensures InScope(s, c) <==> c in D.Union(s, s.openTabs)
  {
    hide TabClusterIds;
  }

  lemma DropsAreCurrent(states: seq<AppState>, k: nat, c: string)
    requires 0 < k < |states| && Inv(states[k - 1]) && Inv(states[k])
    requires D.ScopesAgree(states[k - 1]) && D.ScopesAgree(states[k])
    ensures c in Drops([], ListsOf(states))[k] <==> Spanned(states[k - 1], c) && !Spanned(states[k], c)
  {
    hide Inv, InScope, D.ScopesAgree, D.CurrentUnion, TabClusterIds;
    R.InvParts(states[k - 1]);
    R.InvParts(states[k]);
    D.StoredUnionIff(states[k - 1]);
    D.StoredUnionIff(states[k]);
    ReconcileExact(states, k, c);
    ScopeUnion(states[k - 1], c);
    ScopeUnion(states[k], c);
  }
}

/** Which physical clusters a tab's anchor and ad-hoc extras resolve to, and the
    per-cluster reconnect counters summed over that list. */
module Scope {
  import opened Lists

  datatype VirtualContext = VirtualContext(id: string, name: string, members: seq<string>)

  /** A kubeconfig list that has not loaded yet (empty) filters nothing. */
  predicate Known(contexts: seq<string>, id: string) {
    contexts == [] || id in contexts
  }

  function Surviving(contexts: seq<string>, ids: seq<string>): (r: seq<string>)
    ensures forall x :: x in r <==> x in ids && Known(contexts, x)
  {
    if contexts == [] then ids else Within(ids, contexts)
  }

  function VirtualIds(vcs: seq<VirtualContext>): (r: seq<string>)
    ensures |r| == |vcs|
    ensures forall i :: 0 <= i < |vcs| ==> r[i] == vcs[i].id
  {
    seq(|vcs|, i requires 0 <= i < |vcs| => vcs[i].id)
  }

  lemma VirtualIdsCons(v: VirtualContext, rest: seq<VirtualContext>)
    ensures VirtualIds([v] + rest) == [v.id] + VirtualIds(rest)
  {
  }

  /** The first saved virtual context with this id. */
  function FindVirtual(vcs: seq<VirtualContext>, id: string): (r: Option<VirtualContext>)
    ensures r.Some? <==> id in VirtualIds(vcs)
    ensures r.Some? ==> r.value in vcs && r.value.id == id
  {
    if vcs == [] then None
    else
      VirtualIdsCons(vcs[0], vcs[1..]);
      assert vcs == [vcs[0]] + vcs[1..];
      if vcs[0].id == id then Some(vcs[0]) else FindVirtual(vcs[1..], id)
  }

  function BaseIds(contexts: seq<string>, selectedContext: Option<string>,
                   vcs: seq<VirtualContext>, selectedVirtual: Option<string>): seq<string> {
    if Truthy(selectedVirtual) then
      match FindVirtual(vcs, selectedVirtual.value)
      case Some(v) => Surviving(contexts, v.members)
      case None => []
    else if Truthy(selectedContext) then [selectedContext.value]
    else []
  }

  /** Push each of `extras` that is not in the list yet. */
  function AppendNew(base: seq<string>, extras: seq<string>): seq<string>
    decreases extras
  {
    if extras == [] then base
    else AppendNew(if extras[0] in base then base else base + [extras[0]], extras[1..])
  }

  function ActiveClusterIds(contexts: seq<string>, selectedContext: Option<string>, vcs: seq<VirtualContext>,
                            selectedVirtual: Option<string>, scopeExtras: seq<string>): seq<string> {
    AppendNew(BaseIds(contexts, selectedContext, vcs, selectedVirtual), Surviving(contexts, scopeExtras))
  }

  lemma {:induction false} AppendNewSnoc(base: seq<string>, extras: seq<string>, e: string)
    ensures AppendNew(base, extras + [e])
         == if e in AppendNew(base, extras) then AppendNew(base, extras) else AppendNew(base, extras) + [e]
    decreases extras
  {
    if extras == [] {
      assert ([e])[1..] == [];
      assert extras + [e] == [e];
    } else {
      assert (extras + [e])[1..] == extras[1..] + [e];
      AppendNewSnoc(if extras[0] in base then base else base + [extras[0]], extras[1..], e);
    }
  }

  lemma {:induction false} SurvivingSnoc(contexts: seq<string>, ids: seq<string>, e: string)
    ensures Surviving(contexts, ids + [e])
         == if Known(contexts, e) then Surviving(contexts, ids) + [e] else Surviving(contexts, ids)
  {
    if contexts != [] {
      WithinConcat(ids, [e], contexts);
      assert Within([e], contexts) == if e in contexts then [e] else [] by {
        assert ([e])[1..] == [];
        assert Within([e][1..], contexts) == [];
      }
    }
  }

  lemma NothingToAppend(contexts: seq<string>, base: seq<string>)
    ensures AppendNew(base, Surviving(contexts, [])) == base
  {
  }

  /** The resolver as the source runs it: a growing list, one extra at a time. */
  method SelectActiveClusterIds(contexts: seq<string>, selectedContext: Option<string>, vcs: seq<VirtualContext>,
                                selectedVirtual: Option<string>, scopeExtras: seq<string>)
    returns (base: seq<string>)
    ensures base == ActiveClusterIds(contexts, selectedContext, vcs, selectedVirtual, scopeExtras)
  {
    hide AppendNew, BaseIds, Surviving;
    base := BaseIds(contexts, selectedContext, vcs, selectedVirtual);
    ghost var start := base;
    NothingToAppend(contexts, base);
    for k := 0 to |scopeExtras|
      invariant base == AppendNew(start, Surviving(contexts, scopeExtras[..k]))
    {
      var id := scopeExtras[k];
      assert scopeExtras[..k + 1] == scopeExtras[..k] + [id];
      SurvivingSnoc(contexts, scopeExtras[..k], id);
      AppendNewSnoc(start, Surviving(contexts, scopeExtras[..k]), id);
      if Known(contexts, id) && id !in base {
        base := base + [id];
      }
    }
    assert scopeExtras[..|scopeExtras|] == scopeExtras;
  }

  lemma DistinctNone()
    ensures Distinct<string>([])
  {
  }

  lemma AppendNewStep(base: seq<string>, extras: seq<string>)
    ensures AppendNew(base, extras)
         == if extras == [] then base else AppendNew(if extras[0] in base then base else base + [extras[0]], extras[1..])
  {
  }

  /** What was pushed: a duplicate-free tail, disjoint from the base, that
      together with the base holds exactly the requested ids. */
  lemma {:induction false} AppendNewShape(base: seq<string>, extras: seq<string>)
    returns (tail: seq<string>)
    ensures AppendNew(base, extras) == base + tail
    ensures Distinct(tail)
    ensures forall x :: x in tail <==> x in extras && x !in base
    decreases extras
  {
    hide Distinct, AppendNew;
    DistinctNone();
    AppendNewStep(base, extras);
    if extras == [] {
      tail := [];
    } else if extras[0] in base {
      tail := AppendNewShape(base, extras[1..]);
    } else {
      var rest := AppendNewShape(base + [extras[0]], extras[1..]);
      tail := [extras[0]] + rest;
      assert base + tail == base + [extras[0]] + rest;
      DistinctHead(extras[0], rest);
    }
  }

  /** The resolved list: the base unchanged in front, then every known extra
      once; nothing else; and no duplicates if the base has none. */
  lemma ResolvedList(contexts: seq<string>, selectedContext: Option<string>, vcs: seq<VirtualContext>,
                     selectedVirtual: Option<string>, scopeExtras: seq<string>)
    ensures var base := BaseIds(contexts, selectedContext, vcs, selectedVirtual);
            var r := ActiveClusterIds(contexts, selectedContext, vcs, selectedVirtual, scopeExtras);
            && base <= r
            && (forall x :: x in r <==> x in base || (x in scopeExtras && Known(contexts, x)))
            && (Distinct(r) <==> Distinct(base))
  {
    var base := BaseIds(contexts, selectedContext, vcs, selectedVirtual);
    var tail := AppendNewShape(base, Surviving(contexts, scopeExtras));
    DistinctConcat(base, tail);
  }

  predicate IsShownExtra(contexts: seq<string>, scopeExtras: seq<string>, x: string) {
    x in scopeExtras && (contexts == [] || x in contexts)
  }

  /** What a selection shows: for a virtual context its known members, in their
      order, then extras (a context that is gone shows extras only); else its plain
      cluster, listed or not, then extras; else extras only. An extra shows if it is
      known. */
  lemma ScopeExact(contexts: seq<string>, selectedContext: Option<string>, vcs: seq<VirtualContext>,
                   selectedVirtual: Option<string>, scopeExtras: seq<string>)
    ensures var r := ActiveClusterIds(contexts, selectedContext, vcs, selectedVirtual, scopeExtras);
            if selectedVirtual.Some? && selectedVirtual.value != "" then
              match FindVirtual(vcs, selectedVirtual.value)
              case Some(v) =>
                && (if contexts == [] then v.members else Within(v.members, contexts)) <= r
                && forall x :: x in r <==> IsShownExtra(contexts, scopeExtras, x) || (x in v.members && (contexts == [] || x in contexts))
              case None => forall x :: x in r <==> IsShownExtra(contexts, scopeExtras, x)
            else if selectedContext.Some? && selectedContext.value != "" then
              [selectedContext.value] <= r && forall x :: x in r <==> IsShownExtra(contexts, scopeExtras, x) || x == selectedContext.value
            else forall x :: x in r <==> IsShownExtra(contexts, scopeExtras, x)
  {
    hide AppendNew;
    ResolvedList(contexts, selectedContext, vcs, selectedVirtual, scopeExtras);
  }

  /** The list resolved for a virtual context whose saved members are distinct
      never repeats a cluster; nor does one resolved for a plain context. */
  lemma ResolvedDistinct(contexts: seq<string>, selectedContext: Option<string>, vcs: seq<VirtualContext>,
                         selectedVirtual: Option<string>, scopeExtras: seq<string>)
    requires forall v :: v in vcs ==> Distinct(v.members)
    ensures Distinct(ActiveClusterIds(contexts, selectedContext, vcs, selectedVirtual, scopeExtras))
  {
    ResolvedList(contexts, selectedContext, vcs, selectedVirtual, scopeExtras);
    if Truthy(selectedVirtual) && selectedVirtual.value in VirtualIds(vcs) {
      var v := FindVirtual(vcs, selectedVirtual.value).value;
      WithinDistinct(v.members, contexts);
    }
  }

  /** Dropping repeats and unknown ids from the extras beforehand, as a restored
      file's extras are, does not change the resolved list. */
  lemma {:induction false} CleanedExtras(contexts: seq<string>, base: seq<string>, extras: seq<string>)
    ensures AppendNew(base, Surviving(contexts, Surviving(contexts, AppendNew([], extras))))
         == AppendNew(base, Surviving(contexts, extras))
  {
    hide AppendNew, Surviving;
    SurvivingTwice(contexts, AppendNew([], extras));
    if extras == [] {
      AppendNothing();
    } else {
      var front, e := extras[..|extras| - 1], extras[|extras| - 1];
      assert extras == front + [e];
      CleanedExtras(contexts, base, front);
      SurvivingTwice(contexts, AppendNew([], front));
      AppendNewSnoc([], front, e);
      SurvivingSnoc(contexts, front, e);
      SurvivingSnoc(contexts, AppendNew([], front), e);
      AppendNewSnoc(base, Surviving(contexts, front), e);
      AppendNewSnoc(base, Surviving(contexts, AppendNew([], front)), e);
      var t := AppendNewShape([], front);
      var u := AppendNewShape(base, Surviving(contexts, front));
    }
  }

  lemma AppendNothing()
    ensures AppendNew([], []) == []
  {
  }

  lemma SurvivingTwice(contexts: seq<string>, ids: seq<string>)
    ensures Surviving(contexts, Surviving(contexts, ids)) == Surviving(contexts, ids)
  {
    WithinAll(Within(ids, contexts), contexts);
  }

  // ----- Editing the scope -----

  /** `members` of every virtual context with this id replaced. */
  function WithMembers(vcs: seq<VirtualContext>, id: string, members: seq<string>): (r: seq<VirtualContext>)
    ensures VirtualIds(r) == VirtualIds(vcs)
  {
    var r := seq(|vcs|, i requires 0 <= i < |vcs| => if vcs[i].id == id then vcs[i].(members := members) else vcs[i]);
    assert VirtualIds(r) == VirtualIds(vcs);
    r
  }

  lemma {:induction false} FindWithMembers(vcs: seq<VirtualContext>, id: string, members: seq<string>, other: string)
    ensures FindVirtual(WithMembers(vcs, id, members), other)
         == match FindVirtual(vcs, other)
            case Some(v) => Some(if other == id then v.(members := members) else v)
            case None => None
  {
    if vcs != [] {
      assert WithMembers(vcs, id, members)[1..] == WithMembers(vcs[1..], id, members);
      FindWithMembers(vcs[1..], id, members, other);
    }
  }

  /** Members of the virtual context after folding the extras in. */
  function AbsorbedMembers(members: seq<string>, scopeExtras: seq<string>): seq<string> {
    members + Without(scopeExtras, members)
  }

  lemma {:induction false} AppendNewIsConcat(base: seq<string>, extras: seq<string>)
    ensures AppendNew(base, extras) == base + Without(extras, base) <==> Distinct(Without(extras, base))
    decreases extras
  {
    var tail := AppendNewShape(base, extras);
    if Distinct(Without(extras, base)) {
      AppendNewDistinct(base, extras);
    } else {
      assert (base + tail)[|base|..] == tail;
      assert (base + Without(extras, base))[|base|..] == Without(extras, base);
    }
  }

  lemma {:induction false} AppendNewDistinct(base: seq<string>, extras: seq<string>)
    requires Distinct(Without(extras, base))
    ensures AppendNew(base, extras) == base + Without(extras, base)
    decreases extras
  {
    if extras != [] {
      var rest := Without(extras[1..], base);
      if extras[0] in base {
        AppendNewDistinct(base, extras[1..]);
      } else {
        DistinctHead(extras[0], rest);
        WithoutIgnores(extras[1..], base, extras[0]);
        AppendNewDistinct(base + [extras[0]], extras[1..]);
        assert base + ([extras[0]] + rest) == base + [extras[0]] + rest;
      }
    }
  }

  lemma {:induction false} WithoutIgnores(xs: seq<string>, gone: seq<string>, y: string)
    requires y !in Without(xs, gone)
    ensures Without(xs, gone + [y]) == Without(xs, gone)
  {
    if xs != [] {
      WithoutIgnores(xs[1..], gone, y);
    }
  }

  lemma {:induction false} FilterSwap(contexts: seq<string>, xs: seq<string>, members: seq<string>)
    ensures Within(Without(xs, members), contexts) == Without(Within(xs, contexts), Within(members, contexts))
  {
    if xs != [] {
      FilterSwap(contexts, xs[1..], members);
    }
  }

  /** Folding the extras into the active virtual context resolves to the very
      same list of clusters exactly when the folded extras that still exist are
      free of duplicates. Both directions: a duplicate would show up twice among
      the saved members. */
  lemma AbsorbKeepsScope(contexts: seq<string>, vcs: seq<VirtualContext>, id: string, scopeExtras: seq<string>)
    requires id != "" && id in VirtualIds(vcs)
    ensures var members := FindVirtual(vcs, id).value.members;
            var vcs' := WithMembers(vcs, id, AbsorbedMembers(members, scopeExtras));
            ActiveClusterIds(contexts, None, vcs', Some(id), []) == ActiveClusterIds(contexts, None, vcs, Some(id), scopeExtras)
            <==> Distinct(Surviving(contexts, Without(scopeExtras, members)))
  {
    var members := FindVirtual(vcs, id).value.members;
    var added := Without(scopeExtras, members);
    FindWithMembers(vcs, id, AbsorbedMembers(members, scopeExtras), id);
    WithinConcat(members, added, contexts);
    FilterSwap(contexts, scopeExtras, members);
    var base := Surviving(contexts, members);
    assert Surviving(contexts, members + added) == base + Surviving(contexts, added);
    assert Surviving(contexts, added) == Without(Surviving(contexts, scopeExtras), base);
    AppendNewIsConcat(base, Surviving(contexts, scopeExtras));
  }

  /** An extra that is known and not in scope lands at the end of the resolved
      list, and dropping it again gives back the previous extras and list. */
  lemma AddThenRemoveExtra(contexts: seq<string>, selectedContext: Option<string>, vcs: seq<VirtualContext>,
                           selectedVirtual: Option<string>, scopeExtras: seq<string>, id: string)
    requires id in contexts
    requires id !in ActiveClusterIds(contexts, selectedContext, vcs, selectedVirtual, scopeExtras)
    ensures ActiveClusterIds(contexts, selectedContext, vcs, selectedVirtual, scopeExtras + [id])
         == ActiveClusterIds(contexts, selectedContext, vcs, selectedVirtual, scopeExtras) + [id]
    ensures Without(scopeExtras + [id], [id]) == scopeExtras
  {
    var base := BaseIds(contexts, selectedContext, vcs, selectedVirtual);
    ResolvedList(contexts, selectedContext, vcs, selectedVirtual, scopeExtras);
    SurvivingSnoc(contexts, scopeExtras, id);
    AppendNewSnoc(base, Surviving(contexts, scopeExtras), id);
    WithoutConcat(scopeExtras, [id], [id]);
    WithoutAbsent(scopeExtras, [id]);
    assert Without([id], [id]) == [] by { assert ([id])[1..] == []; }
  }

  // ----- Reconnect epochs -----

  function Epoch(epochs: map<string, nat>, id: string): nat {
    if id in epochs then epochs[id] else 0
  }

  /** `clearClusterHealth` bumps one cluster's counter. */
  function Bump(epochs: map<string, nat>, id: string): map<string, nat> {
    epochs[id := Epoch(epochs, id) + 1]
  }

  function BumpAll(epochs: map<string, nat>, ids: seq<string>): map<string, nat>
    decreases ids
  {
    if ids == [] then epochs else BumpAll(Bump(epochs, ids[0]), ids[1..])
  }

  /** A cluster's counter grows by its reconnects, and by no other cluster's. */
  lemma {:induction false} EpochCounts(epochs: map<string, nat>, bumped: seq<string>, id: string)
    ensures Epoch(BumpAll(epochs, bumped), id) == Epoch(epochs, id) + multiset(bumped)[id]
    decreases bumped
  {
    if bumped != [] {
      EpochCounts(Bump(epochs, bumped[0]), bumped[1..], id);
      assert bumped == [bumped[0]] + bumped[1..];
    }
  }

  function EpochSum(epochs: map<string, nat>, ids: seq<string>): nat {
    if ids == [] then 0 else Epoch(epochs, ids[0]) + EpochSum(epochs, ids[1..])
  }

  lemma {:induction false} EpochSumBump(epochs: map<string, nat>, ids: seq<string>, id: string)
    ensures EpochSum(Bump(epochs, id), ids) >= EpochSum(epochs, ids)
    ensures EpochSum(Bump(epochs, id), ids) == EpochSum(epochs, ids) <==> id !in ids
  {
    if ids != [] {
      EpochSumBump(epochs, ids[1..], id);
      assert id in ids <==> id == ids[0] || id in ids[1..];
    }
  }

  /** The sum over a fixed list of clusters never falls, and it stands still
      exactly when none of the listed clusters was reconnected. */
  lemma {:induction false} EpochSumDetects(epochs: map<string, nat>, ids: seq<string>, bumped: seq<string>)
    ensures EpochSum(BumpAll(epochs, bumped), ids) >= EpochSum(epochs, ids)
    ensures EpochSum(BumpAll(epochs, bumped), ids) == EpochSum(epochs, ids) <==> forall b :: b in bumped ==> b !in ids
    decreases bumped
  {
    if bumped != [] {
      EpochSumBump(epochs, ids, bumped[0]);
      EpochSumDetects(Bump(epochs, bumped[0]), ids, bumped[1..]);
      assert forall b :: b in bumped <==> b == bumped[0] || b in bumped[1..];
    }
  }
}

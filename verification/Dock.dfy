/** The two-placement dock of one cluster tab: which tabs are open in the bottom
    strip and the right panel, which one each placement shows, and which
    placements are minimised. */
module Dock {
  import opened Lists

  datatype Placement = Bottom | Right

  datatype DockKind = Terminal | Yaml | Chat

  datatype DockTab = DockTab(id: string, kind: DockKind, title: string, placement: Option<Placement>, state: map<string, string>)

  datatype PerPlacement<T> = PerPlacement(bottom: T, right: T) {
    function Get(p: Placement): T {
      match p case Bottom => bottom case Right => right
    }

    function Set(p: Placement, v: T): (r: PerPlacement<T>)
      ensures r.Get(p) == v
      ensures forall q :: q != p ==> r.Get(q) == Get(q)
    {
      match p case Bottom => this.(bottom := v) case Right => this.(right := v)
    }
  }

  datatype DockState = DockState(tabs: seq<DockTab>, active: PerPlacement<Option<string>>, min: PerPlacement<bool>)

  const EMPTY_DOCK := DockState([], PerPlacement(None, None), PerPlacement(false, false))

  /** Tabs saved before the placement axis existed live at the bottom. */
  function PlacementOf(t: DockTab): Placement {
    if t.placement.Some? then t.placement.value else Bottom
  }

  function Ids(tabs: seq<DockTab>): (r: seq<string>)
    ensures |r| == |tabs|
    ensures forall i :: 0 <= i < |tabs| ==> r[i] == tabs[i].id
    ensures forall t :: t in tabs ==> t.id in r
  {
    var r := seq(|tabs|, i requires 0 <= i < |tabs| => tabs[i].id);
    assert forall t :: t in tabs ==> t.id in r by {
      forall t | t in tabs ensures t.id in r {
        var i :| 0 <= i < |tabs| && tabs[i] == t;
        assert r[i] == t.id;
      }
    }
    r
  }

  /** The tab behind an id of the list. */
  lemma TabOf(tabs: seq<DockTab>, id: string) returns (t: DockTab)
    requires id in Ids(tabs)
    ensures t in tabs && t.id == id
  {
    t := tabs[IndexOf(Ids(tabs), id)];
  }

  function InPlacement(tabs: seq<DockTab>, p: Placement): (r: seq<DockTab>)
    ensures forall t :: t in r <==> t in tabs && PlacementOf(t) == p
  {
    if tabs == [] then []
    else if PlacementOf(tabs[0]) == p then [tabs[0]] + InPlacement(tabs[1..], p)
    else InPlacement(tabs[1..], p)
  }

  function KeepTabs(tabs: seq<DockTab>, gone: set<string>): (r: seq<DockTab>)
    ensures forall t :: t in r <==> t in tabs && t.id !in gone
  {
    if tabs == [] then []
    else if tabs[0].id in gone then KeepTabs(tabs[1..], gone)
    else [tabs[0]] + KeepTabs(tabs[1..], gone)
  }

  /** What a placement shows once only `left` remains in it: the tab it showed
      if that survived, else the last survivor. */
  function ActiveAmong(left: seq<DockTab>, was: Option<string>): Option<string> {
    if was.Some? && was.value in Ids(left) then was
    else if left == [] then None
    else Some(left[|left| - 1].id)
  }

  /** The dock with the tabs named in `gone` removed. */
  function Removed(s: DockState, gone: set<string>): DockState {
    var tabs := KeepTabs(s.tabs, gone);
    var bottom, right := InPlacement(tabs, Bottom), InPlacement(tabs, Right);
    DockState(tabs,
              PerPlacement(ActiveAmong(bottom, s.active.bottom), ActiveAmong(right, s.active.right)),
              PerPlacement(bottom != [] && s.min.bottom, right != [] && s.min.right))
  }

  /** `removeDockTabs`: the source updates copies of the two records placement
      by placement. */
  method RemoveDockTabs(s: DockState, ids: seq<string>) returns (r: DockState)
    ensures r == Removed(s, set x | x in ids)
  {
    hide Removed, KeepTabs, InPlacement, Ids;
    var dockTabs := KeepTabs(s.tabs, set x | x in ids);
    var dockActive, dockMin := s.active, s.min;
    ghost var want := Removed(s, set x | x in ids);
    RemovedShape(s, set x | x in ids);
    var order := [Bottom, Right];
    for k := 0 to 2
      invariant forall p :: if Reached(p, k) then dockActive.Get(p) == want.active.Get(p) && dockMin.Get(p) == want.min.Get(p)
                                             else dockActive.Get(p) == s.active.Get(p) && dockMin.Get(p) == s.min.Get(p)
    {
      var p := order[k];
      assert Settled(s, dockTabs, want, p);
      var left := InPlacement(dockTabs, p);
      if !(dockActive.Get(p).Some? && dockActive.Get(p).value in Ids(left)) {
        dockActive := dockActive.Set(p, if left == [] then None else Some(left[|left| - 1].id));
      }
      if left == [] {
        dockMin := dockMin.Set(p, false);
      }
    }
    assert Reached(Bottom, 2) && Reached(Right, 2);
    r := DockState(dockTabs, dockActive, dockMin);
  }

  lemma RemovedShape(s: DockState, gone: set<string>)
    ensures Removed(s, gone).tabs == KeepTabs(s.tabs, gone)
    ensures forall p :: Settled(s, KeepTabs(s.tabs, gone), Removed(s, gone), p)
  {
  }

  predicate Reached(p: Placement, k: nat) {
    k >= (if p.Bottom? then 1 else 2)
  }

  /** What `want` shows at one placement of the remaining tabs. */
  predicate Settled(s: DockState, tabs: seq<DockTab>, want: DockState, p: Placement) {
    && want.active.Get(p) == ActiveAmong(InPlacement(tabs, p), s.active.Get(p))
    && want.min.Get(p) == (InPlacement(tabs, p) != [] && s.min.Get(p))
  }

  lemma {:induction false} KeepTabsTwice(tabs: seq<DockTab>, a: set<string>, b: set<string>)
    ensures KeepTabs(KeepTabs(tabs, a), b) == KeepTabs(tabs, a + b)
  {
    if tabs != [] {
      KeepTabsTwice(tabs[1..], a, b);
    }
  }

  lemma {:induction false} PlacementKeeps(tabs: seq<DockTab>, gone: set<string>, p: Placement)
    ensures InPlacement(KeepTabs(tabs, gone), p) == KeepTabs(InPlacement(tabs, p), gone)
  {
    if tabs != [] {
      PlacementKeeps(tabs[1..], gone, p);
    }
  }

  lemma {:induction false} LastSurvives(left: seq<DockTab>, gone: set<string>)
    requires left != [] && left[|left| - 1].id !in gone
    ensures KeepTabs(left, gone) != []
    ensures KeepTabs(left, gone)[|KeepTabs(left, gone)| - 1] == left[|left| - 1]
  {
    hide KeepTabs;
    var rest := left[1..];
    assert left == [left[0]] + rest;
    KeepCons(left[0], rest, gone);
    if rest != [] {
      assert rest[|rest| - 1] == left[|left| - 1];
      LastSurvives(rest, gone);
    } else {
      KeepNothing(gone);
    }
  }

  lemma KeepCons(t: DockTab, rest: seq<DockTab>, gone: set<string>)
    ensures KeepTabs([t] + rest, gone) == (if t.id in gone then [] else [t]) + KeepTabs(rest, gone)
  {
    assert ([t] + rest)[1..] == rest;
  }

  lemma KeptIds(left: seq<DockTab>, gone: set<string>, x: string)
    requires x in Ids(KeepTabs(left, gone))
    ensures x in Ids(left) && x !in gone
  {
    var t := TabOf(KeepTabs(left, gone), x);
  }

  lemma KeepNothing(gone: set<string>)
    ensures KeepTabs([], gone) == []
  {
  }

  /** Choosing after one batch and again after a second is choosing once. */
  lemma ActiveAmongTwice(left: seq<DockTab>, gone: set<string>, was: Option<string>)
    ensures ActiveAmong(KeepTabs(left, gone), ActiveAmong(left, was)) == ActiveAmong(KeepTabs(left, gone), was)
  {
    hide Ids, KeepTabs;
    KeepNothing(gone);
    var kept := KeepTabs(left, gone);
    if was.Some? && was.value in Ids(kept) { KeptIds(left, gone, was.value); }
    if left != [] {
      var last := left[|left| - 1];
      if last.id in Ids(kept) {
        KeptIds(left, gone, last.id);
        LastSurvives(left, gone);
      }
    }
  }

  /** Removing batch `a` and then batch `b` is removing both at once, so the two
      batches may come in either order: same tabs, same shown tab and same
      minimised flag in each placement. */
  lemma RemovalComposes(s: DockState, a: set<string>, b: set<string>)
    ensures Removed(Removed(s, a), b) == Removed(s, a + b)
    ensures Removed(Removed(s, a), b) == Removed(Removed(s, b), a)
  {
    RemovalMerges(s, a, b);
    RemovalMerges(s, b, a);
    assert a + b == b + a;
  }

  lemma RemovalMerges(s: DockState, a: set<string>, b: set<string>)
    ensures Removed(Removed(s, a), b) == Removed(s, a + b)
  {
    KeepTabsTwice(s.tabs, a, b);
    var one := KeepTabs(s.tabs, a);
    PlacementKeeps(one, b, Bottom);
    PlacementKeeps(one, b, Right);
    ActiveAmongTwice(InPlacement(one, Bottom), b, s.active.bottom);
    ActiveAmongTwice(InPlacement(one, Right), b, s.active.right);
  }

  /** Position `i` holds a tab of this placement that is to stay. */
  predicate StaysAt(tabs: seq<DockTab>, gone: set<string>, p: Placement, i: nat) {
    i < |tabs| && PlacementOf(tabs[i]) == p && tabs[i].id !in gone
  }

  predicate LastStaysAt(tabs: seq<DockTab>, gone: set<string>, p: Placement, i: nat) {
    StaysAt(tabs, gone, p, i) && forall j :: i < j < |tabs| ==> !StaysAt(tabs, gone, p, j)
  }

  /** The last survivor of a placement, located in the original list. */
  lemma {:induction false} LastSurvivor(tabs: seq<DockTab>, gone: set<string>, p: Placement) returns (i: nat)
    ensures var left := InPlacement(KeepTabs(tabs, gone), p);
            if left == [] then forall j: nat :: !StaysAt(tabs, gone, p, j)
            else LastStaysAt(tabs, gone, p, i) && left[|left| - 1] == tabs[i]
  {
    hide Ids, InPlacement, KeepTabs, StaysAt;
    i := 0;
    LeftCons(tabs, gone, p);
    StaysAtTail(tabs, gone, p);
    if tabs != [] {
      var rest := tabs[1..];
      var k := LastSurvivor(rest, gone, p);
      assert forall j: nat :: j > 0 ==> (StaysAt(tabs, gone, p, j) <==> StaysAt(rest, gone, p, j - 1));
      if InPlacement(KeepTabs(rest, gone), p) != [] { i := k + 1; }
    }
  }

  lemma StaysAtTail(tabs: seq<DockTab>, gone: set<string>, p: Placement)
    ensures forall j: nat :: StaysAt(tabs, gone, p, j) ==> j < |tabs|
    ensures tabs != [] ==> forall j: nat :: j > 0 ==> (StaysAt(tabs, gone, p, j) <==> StaysAt(tabs[1..], gone, p, j - 1))
  {
  }

  lemma LeftCons(tabs: seq<DockTab>, gone: set<string>, p: Placement)
    ensures InPlacement(KeepTabs(tabs, gone), p)
         == if tabs == [] then []
            else (if StaysAt(tabs, gone, p, 0) then [tabs[0]] else []) + InPlacement(KeepTabs(tabs[1..], gone), p)
  {
    if tabs != [] {
      var rest := KeepTabs(tabs[1..], gone);
      assert ([tabs[0]] + rest)[1..] == rest;
    }
  }

  /** What a placement shows after a removal: the tab it showed if that is to
      stay, else its last tab that is to stay, or nothing if none is. */
  lemma ShownAfterRemoval(s: DockState, gone: set<string>, p: Placement)
    requires DockOk(s)
    ensures var shown := Removed(s, gone).active.Get(p);
            if s.active.Get(p).Some? && s.active.Get(p).value !in gone then shown == s.active.Get(p)
            else match shown
                 case None => forall i: nat :: !StaysAt(s.tabs, gone, p, i)
                 case Some(id) => exists i: nat :: LastStaysAt(s.tabs, gone, p, i) && s.tabs[i].id == id
  {
    hide Ids, InPlacement, KeepTabs, Removed, LastStaysAt;
    RemovedPlacement(s, gone, p);
    var left := InPlacement(KeepTabs(s.tabs, gone), p);
    var was := s.active.Get(p);
    assert ShownOk(s, p);
    if was.Some? && was.value !in gone {
      var t := TabOf(InPlacement(s.tabs, p), was.value);
      PlacementKeeps(s.tabs, gone, p);
      assert t in left;
    } else {
      if was.Some? && was.value in Ids(left) { PlacementKeeps(s.tabs, gone, p); KeptIds(InPlacement(s.tabs, p), gone, was.value); }
      var i := LastSurvivor(s.tabs, gone, p);
      PlacementKeeps(s.tabs, gone, p);
    }
  }

  // ----- The dock as a state machine -----

  datatype DockOp =
    | Add(tab: DockTab)
    | Close(ids: set<string>)
    | CloseAll
    | CloseByPlacement(where: Placement)
    | Focus(id: string)
    | SetMin(place: Placement, min: bool)
    | Edit(target: string, patch: DockPatch)

  /** A patch of a dock tab: local state merged in, or any of its fields replaced
      (a placement may also be taken away). */
  datatype DockPatch =
    | StatePatch(merge: map<string, string>)
    | FieldPatch(id: Option<string>, kind: Option<DockKind>, title: Option<string>, placement: Option<Option<Placement>>,
                 state: Option<map<string, string>>)

  function Patched(t: DockTab, patch: DockPatch): DockTab {
    match patch
    case StatePatch(m) => t.(state := t.state + m)
    case FieldPatch(id, kind, title, placement, state) =>
      DockTab(if id.Some? then id.value else t.id,
              if kind.Some? then kind.value else t.kind,
              if title.Some? then title.value else t.title,
              if placement.Some? then placement.value else t.placement,
              if state.Some? then state.value else t.state)
  }

  /** The id a tab has after the patch. */
  function PatchedId(id: string, patch: DockPatch): string {
    if patch.FieldPatch? && patch.id.Some? then patch.id.value else id
  }

  function PatchTabs(tabs: seq<DockTab>, id: string, patch: DockPatch): (r: seq<DockTab>)
    ensures |r| == |tabs|
    ensures forall i :: 0 <= i < |tabs| ==> r[i] == if tabs[i].id == id then Patched(tabs[i], patch) else tabs[i]
  {
    seq(|tabs|, i requires 0 <= i < |tabs| => if tabs[i].id == id then Patched(tabs[i], patch) else tabs[i])
  }

  function FindTab(tabs: seq<DockTab>, id: string): (r: Option<DockTab>)
    ensures r.Some? <==> id in Ids(tabs)
    ensures r.Some? ==> r.value in tabs && r.value.id == id
  {
    var k := IndexOf(Ids(tabs), id);
    if k < |tabs| then Some(tabs[k]) else None
  }

  function Apply(s: DockState, op: DockOp): DockState {
    match op
    case Add(tab) =>
      var p := PlacementOf(tab);
      DockState(s.tabs + [tab], s.active.Set(p, Some(tab.id)), s.min.Set(p, false))
    case Close(ids) => Removed(s, ids)
    case CloseAll => EMPTY_DOCK
    case CloseByPlacement(p) => Removed(s, IdsIn(s.tabs, p))
    case Focus(id) =>
      var t := FindTab(s.tabs, id);
      if t.Some? then s.(active := s.active.Set(PlacementOf(t.value), Some(id))) else s
    case SetMin(p, min) => s.(min := s.min.Set(p, min))
    case Edit(id, patch) => s.(tabs := PatchTabs(s.tabs, id, patch))
  }

  /** A patch that fits the dock: it renames a tab only to an unused id, renames or
      moves only a tab that is not showing, and moves it only next to one that is. */
  predicate PatchFits(s: DockState, id: string, patch: DockPatch) {
    match FindTab(s.tabs, id)
    case None => true
    case Some(t) =>
      var u := Patched(t, patch);
      var p, q := PlacementOf(t), PlacementOf(u);
      && (u.id == id || u.id !in Ids(s.tabs))
      && ((u.id == id && p == q) || s.active.Get(p) != Some(id))
      && (p == q || s.active.Get(q).Some?)
  }

  /** New tabs arrive with an unused id (the dock counts ids upwards), and patches
      fit. */
  predicate Allowed(s: DockState, op: DockOp) {
    && (op.Add? ==> op.tab.id !in Ids(s.tabs))
    && (op.Edit? ==> PatchFits(s, op.target, op.patch))
  }

  /** Ids are unique, and each placement shows nothing exactly when it is empty
      and otherwise shows one of its own tabs. */
  ghost predicate DockOk(s: DockState) {
    && Distinct(Ids(s.tabs))
    && forall p :: ShownOk(s, p)
  }

  ghost predicate ShownOk(s: DockState, p: Placement) {
    var left := InPlacement(s.tabs, p);
    match s.active.Get(p)
    case None => left == []
    case Some(id) => id in Ids(left)
  }

  lemma {:induction false} KeepTabsIds(tabs: seq<DockTab>, gone: set<string>)
    requires Distinct(Ids(tabs))
    ensures Distinct(Ids(KeepTabs(tabs, gone)))
  {
    hide Ids, Distinct;
    if tabs != [] {
      var rest := KeepTabs(tabs[1..], gone);
      assert tabs == [tabs[0]] + tabs[1..];
      IdsCons(tabs[0], tabs[1..]);
      DistinctHead(tabs[0].id, Ids(tabs[1..]));
      KeepTabsIds(tabs[1..], gone);
      if tabs[0].id !in gone {
        IdsCons(tabs[0], rest);
        if tabs[0].id in Ids(rest) { KeptIds(tabs[1..], gone, tabs[0].id); }
        DistinctHead(tabs[0].id, Ids(rest));
      }
    }
  }

  lemma RemovedOk(s: DockState, gone: set<string>)
    requires DockOk(s)
    ensures DockOk(Removed(s, gone))
  {
    hide KeepTabs, InPlacement, Distinct;
    KeepTabsIds(s.tabs, gone);
    var r := Removed(s, gone);
    forall p ensures ShownOk(r, p) {
      var left := InPlacement(r.tabs, p);
      if left != [] { assert left[|left| - 1] in left; }
    }
  }

  lemma {:induction false} InPlacementSnoc(tabs: seq<DockTab>, t: DockTab, p: Placement)
    ensures InPlacement(tabs + [t], p) == InPlacement(tabs, p) + if PlacementOf(t) == p then [t] else []
  {
    if tabs == [] {
      assert tabs + [t] == [t];
      assert ([t])[1..] == [];
    } else {
      assert (tabs + [t])[1..] == tabs[1..] + [t];
      InPlacementSnoc(tabs[1..], t, p);
    }
  }

  lemma IdsCons(t: DockTab, rest: seq<DockTab>)
    ensures Ids([t] + rest) == [t.id] + Ids(rest)
  {
  }

  /** A placement seen from the list: nothing shown exactly when no tab is there,
      else a tab that is there. */
  ghost predicate ShownIn(tabs: seq<DockTab>, shown: Option<string>, p: Placement) {
    match shown
    case None => forall t :: t in tabs ==> PlacementOf(t) != p
    case Some(id) => exists t :: t in tabs && t.id == id && PlacementOf(t) == p
  }

  lemma ShownInIff(s: DockState, p: Placement)
    ensures ShownOk(s, p) <==> ShownIn(s.tabs, s.active.Get(p), p)
  {
    hide Ids, InPlacement;
    var left := InPlacement(s.tabs, p);
    match s.active.Get(p)
    case None =>
      if left != [] { assert left[0] in left; }
    case Some(id) =>
      if id in Ids(left) { var t := TabOf(left, id); }
  }

  lemma DistinctUpdate<T>(xs: seq<T>, k: nat, y: T)
    requires Distinct(xs) && k < |xs|
    ensures Distinct(xs[k := y]) <==> y == xs[k] || y !in xs
  {
    var ys := xs[k := y];
    if y in xs && y != xs[k] {
      var i :| 0 <= i < |xs| && xs[i] == y;
      assert ys[i] == ys[k];
    }
  }

  /** The one tab of this id is replaced. */
  lemma PatchedList(tabs: seq<DockTab>, t: DockTab, patch: DockPatch)
    requires Distinct(Ids(tabs)) && t in tabs
    ensures var r, u := PatchTabs(tabs, t.id, patch), Patched(t, patch);
            && (Distinct(Ids(r)) <==> u.id == t.id || u.id !in Ids(tabs))
            && (forall x :: x in r <==> x == u || (x in tabs && x.id != t.id))
  {
    hide Patched;
    var r, u := PatchTabs(tabs, t.id, patch), Patched(t, patch);
    var k :| 0 <= k < |tabs| && tabs[k] == t;
    forall i | 0 <= i < |tabs| && tabs[i].id == t.id ensures i == k {
      DistinctIndex(Ids(tabs), i);
      DistinctIndex(Ids(tabs), k);
    }
    assert Ids(r) == Ids(tabs)[k := u.id];
    DistinctUpdate(Ids(tabs), k, u.id);
    assert r == tabs[k := u];
    UpdateMembers(tabs, k, u);
  }

  lemma UpdateMembers(tabs: seq<DockTab>, k: nat, u: DockTab)
    requires k < |tabs| && forall i :: 0 <= i < |tabs| && tabs[i].id == tabs[k].id ==> i == k
    ensures forall x :: x in tabs[k := u] <==> x == u || (x in tabs && x.id != tabs[k].id)
  {
    var r := tabs[k := u];
    assert r[k] == u;
    forall x | x in tabs && x.id != tabs[k].id ensures x in r {
      var i :| 0 <= i < |tabs| && tabs[i] == x;
      assert r[i] == x;
    }
  }

  /** One placement before and after the replacement. */
  lemma ShownPatched(tabs: seq<DockTab>, r: seq<DockTab>, t: DockTab, u: DockTab, shown: Option<string>, p: Placement)
    requires t in tabs && ShownIn(tabs, shown, p)
    requires forall x :: x in tabs && x.id == t.id ==> x == t
    requires forall x :: x in r <==> x == u || (x in tabs && x.id != t.id)
    requires u.id == t.id || forall x :: x in tabs ==> x.id != u.id
    ensures ShownIn(r, shown, p) <==>
      && (p == PlacementOf(t) && !(u.id == t.id && p == PlacementOf(u)) ==> shown != Some(t.id))
      && (p == PlacementOf(u) != PlacementOf(t) ==> shown.Some?)
  {
    hide PlacementOf;
    assert u in r;
    if shown.Some? {
      var x :| x in tabs && x.id == shown.value && PlacementOf(x) == p;
      if x != t { assert x in r; }
    }
  }

  /** What a patch asks of one placement. */
  predicate PlacementFits(s: DockState, t: DockTab, u: DockTab, p: Placement) {
    && (p == PlacementOf(t) && !(u.id == t.id && p == PlacementOf(u)) ==> s.active.Get(p) != Some(t.id))
    && (p == PlacementOf(u) != PlacementOf(t) ==> s.active.Get(p).Some?)
  }

  lemma FitsIff(s: DockState, t: DockTab, patch: DockPatch)
    requires FindTab(s.tabs, t.id) == Some(t)
    ensures var u := Patched(t, patch);
            PatchFits(s, t.id, patch) <==> (u.id == t.id || u.id !in Ids(s.tabs)) && forall p :: PlacementFits(s, t, u, p)
  {
    hide Ids, Patched, PlacementOf;
    var u := Patched(t, patch);
    assert PlacementFits(s, t, u, PlacementOf(t)) && PlacementFits(s, t, u, PlacementOf(u)) ==> forall p :: PlacementFits(s, t, u, p);
  }

  lemma PatchShownIff(s: DockState, t: DockTab, patch: DockPatch, p: Placement)
    requires DockOk(s) && t in s.tabs
    requires Patched(t, patch).id == t.id || Patched(t, patch).id !in Ids(s.tabs)
    ensures ShownOk(s.(tabs := PatchTabs(s.tabs, t.id, patch)), p) <==> PlacementFits(s, t, Patched(t, patch), p)
  {
    hide Ids, Patched, InPlacement, PatchTabs, ShownIn, ShownOk, Distinct;
    var r := s.(tabs := PatchTabs(s.tabs, t.id, patch));
    PatchedList(s.tabs, t, patch);
    forall x | x in s.tabs && x.id == t.id ensures x == t { SameId(s.tabs, x, t); }
    assert ShownOk(s, p);
    ShownInIff(s, p);
    ShownInIff(r, p);
    ShownPatched(s.tabs, r.tabs, t, Patched(t, patch), s.active.Get(p), p);
  }

  /** A patch keeps the dock well formed exactly when it fits. */
  lemma PatchOkIff(s: DockState, id: string, patch: DockPatch)
    requires DockOk(s)
    ensures DockOk(Apply(s, Edit(id, patch))) <==> PatchFits(s, id, patch)
  {
    hide Ids, Patched, PatchTabs, ShownOk, Distinct, PatchFits, PlacementFits;
    var found := FindTab(s.tabs, id);
    if found.None? {
      PatchAbsent(s.tabs, id, patch);
      NoTabFits(s, id, patch);
    } else {
      var t := found.value;
      var u := Patched(t, patch);
      FitsIff(s, t, patch);
      PatchedList(s.tabs, t, patch);
      if u.id == id || u.id !in Ids(s.tabs) {
        forall p: Placement ensures ShownOk(Apply(s, Edit(id, patch)), p) <==> PlacementFits(s, t, u, p) {
          PatchShownIff(s, t, patch, p);
        }
      }
    }
  }

  lemma NoTabFits(s: DockState, id: string, patch: DockPatch)
    requires FindTab(s.tabs, id).None?
    ensures PatchFits(s, id, patch)
  {
  }

  lemma PatchAbsent(tabs: seq<DockTab>, id: string, patch: DockPatch)
    requires id !in Ids(tabs)
    ensures PatchTabs(tabs, id, patch) == tabs
  {
    hide Patched;
    assert forall i :: 0 <= i < |tabs| ==> Ids(tabs)[i] == tabs[i].id;
  }

  /** The only tab at the bottom moved to the right: the bottom goes on showing
      it. */
  lemma MovedTabDangles(t: DockTab)
    requires PlacementOf(t) == Bottom
    ensures var s := Apply(EMPTY_DOCK, Add(t));
            DockOk(s) && !DockOk(Apply(s, Edit(t.id, FieldPatch(None, None, None, Some(Some(Right)), None))))
  {
    hide InPlacement, PatchTabs, DockOk, Ids;
    EmptyDockOk();
    assert Ids([]) == [];
    AddOk(EMPTY_DOCK, t);
    var s := Apply(EMPTY_DOCK, Add(t));
    assert s.tabs == [t];
    assert t.id in Ids(s.tabs) by { assert t in s.tabs; }
    PatchOkIff(s, t.id, FieldPatch(None, None, None, Some(Some(Right)), None));
  }

  lemma AddOk(s: DockState, tab: DockTab)
    requires DockOk(s) && tab.id !in Ids(s.tabs)
    ensures DockOk(Apply(s, Add(tab)))
  {
    var r := Apply(s, Add(tab));
    assert Ids(s.tabs + [tab]) == Ids(s.tabs) + [tab.id];
    DistinctSnoc(Ids(s.tabs), tab.id);
    forall p ensures ShownOk(r, p) {
      assert ShownOk(s, p);
      InPlacementSnoc(s.tabs, tab, p);
      if PlacementOf(tab) == p { assert tab in InPlacement(r.tabs, p); }
    }
  }

  lemma FocusOk(s: DockState, id: string)
    requires DockOk(s)
    ensures DockOk(Apply(s, Focus(id)))
  {
    var t := FindTab(s.tabs, id);
    if t.Some? {
      assert t.value in InPlacement(s.tabs, PlacementOf(t.value));
      forall p ensures ShownOk(Apply(s, Focus(id)), p) { assert ShownOk(s, p); }
    }
  }

  /** Adding a tab shows it in its placement; closing it again gives back the
      tabs, leaves the other placement alone, and falls back to the last tab of
      its own. */
  lemma AddThenClose(s: DockState, tab: DockTab, q: Placement)
    requires DockOk(s) && tab.id !in Ids(s.tabs) && q != PlacementOf(tab)
    ensures var p, a := PlacementOf(tab), Apply(s, Add(tab));
            var r := Apply(a, Close({tab.id}));
            && a.active.Get(p) == Some(tab.id) && !a.min.Get(p) && tab in InPlacement(a.tabs, p)
            && a.active.Get(q) == s.active.Get(q) && a.min.Get(q) == s.min.Get(q)
            && r.tabs == s.tabs
            && r.active.Get(q) == s.active.Get(q)
            && r.active.Get(p) == ActiveAmong(InPlacement(s.tabs, p), None)
  {
    hide Removed, KeepTabs, InPlacement, Ids;
    var p, a, gone := PlacementOf(tab), Apply(s, Add(tab)), {tab.id};
    InPlacementSnoc(s.tabs, tab, p);
    KeepTabsSnoc(s.tabs, tab);
    RemovedPlacement(a, gone, p);
    RemovedPlacement(a, gone, q);
    RemovedShape(a, gone);
    assert ShownOk(s, q);
    if tab.id in Ids(InPlacement(s.tabs, p)) { PlacementIds(s.tabs, p, tab.id); }
  }

  lemma {:induction false} KeepTabsSnoc(tabs: seq<DockTab>, tab: DockTab)
    requires forall t :: t in tabs ==> t.id != tab.id
    ensures KeepTabs(tabs + [tab], {tab.id}) == tabs
  {
    if tabs == [] {
      assert tabs + [tab] == [tab] && [tab][1..] == [];
    } else {
      assert (tabs + [tab])[1..] == tabs[1..] + [tab];
      KeepTabsSnoc(tabs[1..], tab);
    }
  }

  lemma PlacementIds(tabs: seq<DockTab>, p: Placement, x: string)
    requires x in Ids(InPlacement(tabs, p))
    ensures x in Ids(tabs)
  {
    var t := TabOf(InPlacement(tabs, p), x);
  }

  /** Every dock operation keeps the dock well formed. */
  lemma ApplyOk(s: DockState, op: DockOp)
    requires DockOk(s) && Allowed(s, op)
    ensures DockOk(Apply(s, op))
  {
    match op
    case Add(tab) => AddOk(s, tab);
    case Close(ids) => RemovedOk(s, ids);
    case CloseAll =>
      assert forall p: Placement :: InPlacement([], p) == [];
    case CloseByPlacement(p) => RemovedOk(s, IdsIn(s.tabs, p));
    case Focus(id) => FocusOk(s, id);
    case SetMin(_, _) => assert forall p :: ShownOk(s, p) ==> ShownOk(Apply(s, op), p);
    case Edit(id, patch) => PatchOkIff(s, id, patch);
  }

  /** A run of dock operations, and what it takes for each to be allowed. */
  function Run(s: DockState, ops: seq<DockOp>): DockState
    decreases ops
  {
    if ops == [] then s else Run(Apply(s, ops[0]), ops[1..])
  }

  predicate RunAllowed(s: DockState, ops: seq<DockOp>)
    decreases ops
  {
    ops == [] || (Allowed(s, ops[0]) && RunAllowed(Apply(s, ops[0]), ops[1..]))
  }

  /** Over every run from an empty dock, each placement shows nothing exactly
      when it is empty and otherwise shows one of its tabs. */
  lemma {:induction false} RunOk(s: DockState, ops: seq<DockOp>)
    requires DockOk(s) && RunAllowed(s, ops)
    ensures DockOk(Run(s, ops))
    decreases ops
  {
    if ops != [] {
      ApplyOk(s, ops[0]);
      RunOk(Apply(s, ops[0]), ops[1..]);
    }
  }

  lemma EmptyDockOk()
    ensures DockOk(EMPTY_DOCK)
  {
    assert forall p: Placement :: InPlacement([], p) == [];
  }

  function IdsIn(tabs: seq<DockTab>, p: Placement): set<string> {
    set t | t in InPlacement(tabs, p) :: t.id
  }

  lemma IdsInDisjoint(tabs: seq<DockTab>, p: Placement, q: Placement)
    requires Distinct(Ids(tabs)) && p != q
    ensures KeepTabs(InPlacement(tabs, p), IdsIn(tabs, p)) == []
    ensures KeepTabs(InPlacement(tabs, q), IdsIn(tabs, p)) == InPlacement(tabs, q)
  {
    var gone := IdsIn(tabs, p);
    KeepTabsNone(InPlacement(tabs, p), gone);
    forall t | t in InPlacement(tabs, q) ensures t.id !in gone {
      forall u | u in InPlacement(tabs, p) ensures u.id != t.id {
        if u.id == t.id { SameId(tabs, t, u); }
      }
    }
    KeepTabsAll(InPlacement(tabs, q), gone);
  }

  /** Closing one placement empties it, restores it, and leaves the other
      placement's tabs, shown tab and minimised flag alone. */
  lemma CloseByPlacementExact(s: DockState, p: Placement, q: Placement)
    requires DockOk(s) && p != q
    ensures var r := Apply(s, CloseByPlacement(p));
            && InPlacement(r.tabs, p) == []
            && r.active.Get(p) == None
            && !r.min.Get(p)
            && InPlacement(r.tabs, q) == InPlacement(s.tabs, q)
            && r.active.Get(q) == s.active.Get(q)
            && (InPlacement(s.tabs, q) != [] ==> r.min.Get(q) == s.min.Get(q))
  {
    hide Removed, KeepTabs, InPlacement, IdsIn, Ids;
    var gone := IdsIn(s.tabs, p);
    IdsInDisjoint(s.tabs, p, q);
    assert ShownOk(s, q);
    RemovedPlacement(s, gone, p);
    RemovedPlacement(s, gone, q);
  }

  /** A removal seen from one placement. */
  lemma RemovedPlacement(s: DockState, gone: set<string>, p: Placement)
    ensures var r := Removed(s, gone);
            && InPlacement(r.tabs, p) == KeepTabs(InPlacement(s.tabs, p), gone)
            && r.active.Get(p) == ActiveAmong(InPlacement(r.tabs, p), s.active.Get(p))
            && r.min.Get(p) == (InPlacement(r.tabs, p) != [] && s.min.Get(p))
  {
    PlacementKeeps(s.tabs, gone, p);
  }

  lemma SameId(tabs: seq<DockTab>, t: DockTab, u: DockTab)
    requires Distinct(Ids(tabs)) && t in tabs && u in tabs && t.id == u.id
    ensures t == u
  {
    var i :| 0 <= i < |tabs| && tabs[i] == t;
    var j :| 0 <= j < |tabs| && tabs[j] == u;
    DistinctIndex(Ids(tabs), i);
    DistinctIndex(Ids(tabs), j);
  }

  lemma {:induction false} KeepTabsNone(tabs: seq<DockTab>, gone: set<string>)
    requires forall t :: t in tabs ==> t.id in gone
    ensures KeepTabs(tabs, gone) == []
  {
    if tabs != [] {
      KeepTabsNone(tabs[1..], gone);
    }
  }

  lemma {:induction false} KeepTabsAll(tabs: seq<DockTab>, gone: set<string>)
    requires forall t :: t in tabs ==> t.id !in gone
    ensures KeepTabs(tabs, gone) == tabs
  {
    if tabs != [] {
      KeepTabsAll(tabs[1..], gone);
    }
  }
}

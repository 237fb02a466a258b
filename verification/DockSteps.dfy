/** What each dock action does to the tabs, to the tab each placement shows and to
    its minimised flag, exactly. */
module DockSteps {
  import opened Lists
  import opened Dock

  /** The placement `p` shows this and is minimised so. */
  predicate Shows(s: DockState, p: Placement, shown: Option<string>, minimised: bool) {
    match p
    case Bottom => s.active.bottom == shown && s.min.bottom == minimised
    case Right => s.active.right == shown && s.min.right == minimised
  }

  /** The placement shows what it did, and is minimised as it was. */
  predicate SameAt(s: DockState, r: DockState, p: Placement) {
    match p
    case Bottom => r.active.bottom == s.active.bottom && r.min.bottom == s.min.bottom
    case Right => r.active.right == s.active.right && r.min.right == s.min.right
  }

  function Other(p: Placement): Placement {
    match p
    case Bottom => Right
    case Right => Bottom
  }

  /** A new tab goes last, is shown by its placement (the bottom one if it names
      none) and restores it; the other placement stays. */
  lemma AddExact(s: DockState, tab: DockTab)
    ensures var r, p := Apply(s, Add(tab)), if tab.placement == Some(Right) then Right else Bottom;
            r.tabs == s.tabs + [tab] && Shows(r, p, Some(tab.id), false) && SameAt(s, r, Other(p))
  {
  }

  /** Focusing a listed tab shows it in its own placement and changes nothing else;
      an unlisted id changes nothing. */
  lemma FocusExact(s: DockState, id: string)
    requires DockOk(s)
    ensures var r := Apply(s, Focus(id));
            && (id !in Ids(s.tabs) ==> r == s)
            && r.tabs == s.tabs && r.min == s.min
            && forall i :: 0 <= i < |s.tabs| && s.tabs[i].id == id ==>
                 var p := if s.tabs[i].placement == Some(Right) then Right else Bottom;
                 (if p.Right? then r.active.right else r.active.bottom) == Some(id) && SameAt(s, r, Other(p))
  {
    hide InPlacement;
    forall i | 0 <= i < |s.tabs| && s.tabs[i].id == id ensures FindTab(s.tabs, id) == Some(s.tabs[i]) {
      assert Ids(s.tabs)[i] == id;
      assert s.tabs[i] in s.tabs;
      SameId(s.tabs, s.tabs[i], FindTab(s.tabs, id).value);
    }
  }

  /** Minimising and restoring sets the flag of one placement and nothing else. */
  lemma SetMinExact(s: DockState, p: Placement, min: bool)
    ensures var r := Apply(s, SetMin(p, min));
            && r.tabs == s.tabs && r.active == s.active && SameAt(s, r, Other(p))
            && (if p.Right? then r.min.right else r.min.bottom) == min
  {
  }

  /** Closing everything leaves no tab, nothing shown and nothing minimised. */
  lemma CloseAllExact(s: DockState)
    ensures var r := Apply(s, CloseAll);
            r.tabs == [] && Shows(r, Bottom, None, false) && Shows(r, Right, None, false)
  {
  }

  // ----- Closing -----

  /** Every tab of the placement is to go. */
  ghost predicate Empties(tabs: seq<DockTab>, gone: set<string>, p: Placement) {
    forall i: nat :: !StaysAt(tabs, gone, p, i)
  }

  lemma {:induction false} KeepConcat(front: seq<DockTab>, back: seq<DockTab>, gone: set<string>)
    ensures KeepTabs(front + back, gone) == KeepTabs(front, gone) + KeepTabs(back, gone)
  {
    if front == [] {
      assert front + back == back;
    } else {
      assert (front + back)[1..] == front[1..] + back;
      KeepConcat(front[1..], back, gone);
    }
  }

  lemma KeepOne(t: DockTab, gone: set<string>)
    ensures KeepTabs([t], gone) == if t.id in gone then [] else [t]
  {
    KeepNothing(gone);
    assert [t][1..] == [];
  }

  lemma KeepAround(front: seq<DockTab>, t: DockTab, back: seq<DockTab>)
    requires KeepTabs(front, {t.id}) == front && KeepTabs(back, {t.id}) == back
    ensures KeepTabs(front + [t] + back, {t.id}) == front + back
  {
    hide *;
    KeepOne(t, {t.id});
    KeepConcat(front, [t], {t.id});
    KeepConcat(front + [t], back, {t.id});
  }

  lemma CutAt(tabs: seq<DockTab>, k: nat)
    requires k < |tabs|
    ensures tabs[..k] + [tabs[k]] + tabs[k + 1..] == tabs
  {
  }

  lemma ClosedTabs(s: DockState, gone: set<string>)
    ensures Apply(s, Close(gone)).tabs == KeepTabs(s.tabs, gone)
  {
  }

  lemma DistinctTabs(s: DockState)
    requires DockOk(s)
    ensures Distinct(Ids(s.tabs))
  {
  }

  /** Closing the tab at position `k` takes it out of the list, and no other. */
  lemma CloseAt(s: DockState, k: nat)
    requires DockOk(s) && k < |s.tabs|
    ensures Apply(s, Close({s.tabs[k].id})).tabs == s.tabs[..k] + s.tabs[k + 1..]
  {
    hide *;
    DistinctTabs(s);
    OthersKept(s.tabs, k);
    CutAt(s.tabs, k);
    KeepAround(s.tabs[..k], s.tabs[k], s.tabs[k + 1..]);
    ClosedTabs(s, {s.tabs[k].id});
  }

  lemma OthersKept(tabs: seq<DockTab>, k: nat)
    requires Distinct(Ids(tabs)) && k < |tabs|
    ensures KeepTabs(tabs[..k], {tabs[k].id}) == tabs[..k]
    ensures KeepTabs(tabs[k + 1..], {tabs[k].id}) == tabs[k + 1..]
  {
    forall j | 0 <= j < |tabs| && j != k ensures tabs[j].id != tabs[k].id {
      assert Ids(tabs)[j] != Ids(tabs)[k];
    }
    KeepTabsAll(tabs[..k], {tabs[k].id});
    KeepTabsAll(tabs[k + 1..], {tabs[k].id});
  }

  /** A closed batch leaves a placement minimised exactly if it was and a tab is
      left in it. */
  lemma FlagAfterRemoval(s: DockState, gone: set<string>, p: Placement)
    ensures var r := Apply(s, Close(gone));
            (if p.Right? then r.min.right else r.min.bottom) <==>
            (if p.Right? then s.min.right else s.min.bottom) && !Empties(s.tabs, gone, p)
  {
    hide InPlacement, KeepTabs, ActiveAmong, Ids;
    RemovedPlacement(s, gone, p);
    var i := LastSurvivor(s.tabs, gone, p);
    var left := InPlacement(KeepTabs(s.tabs, gone), p);
    assert left != [] ==> StaysAt(s.tabs, gone, p, i);
  }

  // ----- Patching -----

  /** Patching local state gives each patched key the new value, keeps every other
      key, and touches no other field and no other tab. */
  lemma StatePatchExact(s: DockState, id: string, m: map<string, string>)
    ensures var r := Apply(s, Edit(id, StatePatch(m)));
            && r.active == s.active && r.min == s.min && |r.tabs| == |s.tabs|
            && forall i :: 0 <= i < |s.tabs| ==>
                 var t, u := s.tabs[i], r.tabs[i];
                 if t.id != id then u == t
                 else
                   && u == t.(state := u.state)
                   && (forall k :: k in u.state <==> k in t.state || k in m)
                   && forall k :: k in u.state ==> u.state[k] == if k in m then m[k] else t.state[k]
  {
  }

  /** Patching fields replaces exactly the fields given. */
  lemma FieldPatchExact(s: DockState, id: string, p: DockPatch)
    requires p.FieldPatch?
    ensures var r := Apply(s, Edit(id, p));
            && r.active == s.active && r.min == s.min && |r.tabs| == |s.tabs|
            && forall i :: 0 <= i < |s.tabs| ==>
                 var t, u := s.tabs[i], r.tabs[i];
                 if t.id != id then u == t
                 else
                   && (p.id == Some(u.id) || (p.id.None? && u.id == t.id))
                   && (p.kind == Some(u.kind) || (p.kind.None? && u.kind == t.kind))
                   && (p.title == Some(u.title) || (p.title.None? && u.title == t.title))
                   && (p.placement == Some(u.placement) || (p.placement.None? && u.placement == t.placement))
                   && (p.state == Some(u.state) || (p.state.None? && u.state == t.state))
  {
  }
}

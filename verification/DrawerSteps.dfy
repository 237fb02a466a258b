/** What each drawer action does to the open drawer and to the tray, exactly, and
    where the arrows of a detail lead. */
module DrawerSteps {
  import opened Lists
  import opened Drawers

  // ----- Opening and closing -----

  /** Opening shows the drawer asked for and leaves the tray alone. The instance
      goes on for the same subject, and for a detail after a detail of one kind. */
  lemma OpenExact(s: DrawerState, d: Drawer, uuid: string)
    ensures var r := Apply(s, Open(d, uuid));
            && r.drawer == Some(d) && r.tray == s.tray
            && (s.drawer.None? ==> r.drawerId == Some(uuid))
            && (s.drawer.Some? ==>
                  var was := s.drawer.value;
                  var same := DrawerKey(was) == DrawerKey(d) || (was.Detail? && d.Detail? && was.at.kindId == d.at.kindId);
                  r.drawerId == if same then s.drawerId else Some(uuid))
  {
  }

  /** Closing leaves no drawer, and parks nothing. */
  lemma CloseExact(s: DrawerState)
    ensures Apply(s, CloseDrawer) == DrawerState(None, None, s.tray)
  {
  }

  // ----- The tray -----

  /** `after` is `before` with a drawer parked last: in place of the entry of its
      subject, or at the cost of the oldest when twelve others are parked. */
  ghost predicate Parked(before: seq<TrayItem>, d: Drawer, id: string, after: seq<TrayItem>) {
    && (DrawerKey(d) !in ItemKeys(before) ==> after == (if |before| < 12 then before else before[1..]) + [TrayItem(id, d)])
    && (forall k :: 0 <= k < |before| && DrawerKey(before[k].drawer) == DrawerKey(d) ==>
          after == before[..k] + before[k + 1..] + [TrayItem(id, d)])
  }

  lemma {:induction false} DropKeyConcat(front: seq<TrayItem>, back: seq<TrayItem>, key: string)
    ensures DropKey(front + back, key) == DropKey(front, key) + DropKey(back, key)
  {
    hide DrawerKey;
    if front == [] {
      assert front + back == back;
    } else {
      assert (front + back)[1..] == front[1..] + back;
      DropKeyConcat(front[1..], back, key);
    }
  }

  lemma {:induction false} NoKey(tray: seq<TrayItem>, key: string)
    requires key !in ItemKeys(tray)
    ensures DropKey(tray, key) == tray
  {
    hide DrawerKey;
    if tray != [] {
      TraySplit(tray);
      NoKey(tray[1..], key);
    }
  }

  lemma OneOfKey(tray: seq<TrayItem>, k: nat)
    requires Distinct(ItemKeys(tray)) && k < |tray|
    ensures DrawerKey(tray[k].drawer) !in ItemKeys(tray[..k]) && DrawerKey(tray[k].drawer) !in ItemKeys(tray[k + 1..])
  {
    hide DrawerKey;
    forall j | 0 <= j < |tray| && j != k ensures DrawerKey(tray[j].drawer) != DrawerKey(tray[k].drawer) {
      assert ItemKeys(tray)[j] != ItemKeys(tray)[k];
    }
  }

  lemma DropOfKey(front: seq<TrayItem>, x: TrayItem, back: seq<TrayItem>)
    requires DrawerKey(x.drawer) !in ItemKeys(front) && DrawerKey(x.drawer) !in ItemKeys(back)
    ensures DropKey(front + [x] + back, DrawerKey(x.drawer)) == front + back
  {
    hide *;
    var key := DrawerKey(x.drawer);
    NoKey(front, key);
    NoKey(back, key);
    DropKeyConcat(front + [x], back, key);
    DropKeyConcat(front, [x], key);
    DropKeyOne(x);
  }

  lemma DropKeyOne(x: TrayItem)
    ensures DropKey([x], DrawerKey(x.drawer)) == []
  {
    assert [x][1..] == [];
  }

  lemma DropKeyAt(tray: seq<TrayItem>, k: nat)
    requires TrayOk(tray) && k < |tray|
    ensures DropKey(tray, DrawerKey(tray[k].drawer)) == tray[..k] + tray[k + 1..]
  {
    hide *;
    TrayIds(tray);
    OneOfKey(tray, k);
    CutAt(tray, k);
    DropOfKey(tray[..k], tray[k], tray[k + 1..]);
  }

  lemma ParkExact(tray: seq<TrayItem>, d: Drawer, id: string)
    requires TrayOk(tray)
    ensures Parked(tray, d, id, TrayWith(tray, d, id))
  {
    hide DrawerKey, TrayOk, ItemKeys, DropKey, TrayWith;
    TrayWithShape(tray, d, id);
    DropKeyOk(tray, DrawerKey(d));
    TraySize(tray);
    forall k | 0 <= k < |tray| && DrawerKey(tray[k].drawer) == DrawerKey(d)
      ensures TrayWith(tray, d, id) == tray[..k] + tray[k + 1..] + [TrayItem(id, d)]
    {
      DropKeyAt(tray, k);
    }
  }

  lemma TraySize(tray: seq<TrayItem>)
    requires TrayOk(tray)
    ensures |tray| <= 12
  {
  }

  /** Minimising closes the drawer and parks it under its own id, a detail with the
      view recorded; without an open drawer nothing happens. */
  lemma MinimizeExact(s: DrawerState, view: Option<DetailView>, uuid: string)
    requires DrawerOk(s)
    ensures var r := Apply(s, Minimize(view, uuid));
            if s.drawer.None? then r == s
            else
              var d := s.drawer.value;
              && r.drawer.None? && r.drawerId.None?
              && Parked(s.tray, if d.Detail? && view.Some? then d.(view := view) else d, s.drawerId.value, r.tray)
  {
    if s.drawer.Some? { ParkExact(s.tray, WithView(s.drawer.value, view), s.drawerId.value); }
  }

  lemma {:induction false} DropItemConcat(front: seq<TrayItem>, back: seq<TrayItem>, id: string)
    ensures DropItem(front + back, id) == DropItem(front, id) + DropItem(back, id)
  {
    if front == [] {
      assert front + back == back;
    } else {
      assert (front + back)[1..] == front[1..] + back;
      DropItemConcat(front[1..], back, id);
    }
  }

  lemma OneOfId(tray: seq<TrayItem>, k: nat)
    requires Distinct(ItemIds(tray)) && k < |tray|
    ensures tray[k].id !in ItemIds(tray[..k]) && tray[k].id !in ItemIds(tray[k + 1..])
  {
    forall j | 0 <= j < |tray| && j != k ensures tray[j].id != tray[k].id {
      assert ItemIds(tray)[j] != ItemIds(tray)[k];
    }
  }

  lemma DropOne(front: seq<TrayItem>, x: TrayItem, back: seq<TrayItem>)
    requires x.id !in ItemIds(front) && x.id !in ItemIds(back)
    ensures DropItem(front + [x] + back, x.id) == front + back
  {
    hide DrawerKey, ItemIds, ItemKeys;
    NoItem(front, x.id);
    NoItem(back, x.id);
    DropItemConcat(front + [x], back, x.id);
    DropItemLast(front, x);
  }

  lemma DropItemAt(tray: seq<TrayItem>, k: nat)
    requires Distinct(ItemIds(tray)) && k < |tray|
    ensures DropItem(tray, tray[k].id) == tray[..k] + tray[k + 1..]
  {
    hide *;
    OneOfId(tray, k);
    CutAt(tray, k);
    DropOne(tray[..k], tray[k], tray[k + 1..]);
  }

  lemma CutAt(tray: seq<TrayItem>, k: nat)
    requires k < |tray|
    ensures tray[..k] + [tray[k]] + tray[k + 1..] == tray
  {
  }

  lemma {:induction false} NoItem(tray: seq<TrayItem>, id: string)
    requires id !in ItemIds(tray)
    ensures DropItem(tray, id) == tray
  {
    if tray != [] {
      TraySplit(tray);
      NoItem(tray[1..], id);
    }
  }

  /** Closing a parked drawer takes out that entry; the others keep their order and
      the open drawer stays. */
  lemma CloseItemExact(s: DrawerState, id: string)
    requires DrawerOk(s)
    ensures var r := Apply(s, CloseItem(id));
            && r.drawer == s.drawer && r.drawerId == s.drawerId
            && (id !in ItemIds(s.tray) ==> r == s)
            && forall k :: 0 <= k < |s.tray| && s.tray[k].id == id ==> r.tray == s.tray[..k] + s.tray[k + 1..]
  {
    hide TrayOk;
    assert Distinct(ItemIds(s.tray)) by { TrayIds(s.tray); }
    if id !in ItemIds(s.tray) { NoItem(s.tray, id); }
    forall k | 0 <= k < |s.tray| && s.tray[k].id == id ensures DropItem(s.tray, id) == s.tray[..k] + s.tray[k + 1..] {
      DropItemAt(s.tray, k);
    }
  }

  lemma TrayIds(tray: seq<TrayItem>)
    requires TrayOk(tray)
    ensures Distinct(ItemIds(tray)) && Distinct(ItemKeys(tray))
  {
  }

  /** Closing them all empties the tray; the open drawer stays. */
  lemma CloseAllExact(s: DrawerState)
    ensures Apply(s, CloseAllItems) == DrawerState(s.drawer, s.drawerId, [])
  {
  }

  /** Restoring entry `k` opens it under its id, and parks the drawer it displaces
      among the other entries; an unknown id does nothing. */
  lemma RestoreExact(s: DrawerState, id: string, uuid: string)
    requires DrawerOk(s)
    ensures var r := Apply(s, Restore(id, uuid));
            && (id !in ItemIds(s.tray) ==> r == s)
            && forall k :: 0 <= k < |s.tray| && s.tray[k].id == id ==>
                 var rest := s.tray[..k] + s.tray[k + 1..];
                 && r.drawer == Some(s.tray[k].drawer) && r.drawerId == Some(id)
                 && (s.drawer.None? ==> r.tray == rest)
                 && (s.drawer.Some? ==> Parked(rest, s.drawer.value, s.drawerId.value, r.tray))
  {
    hide TrayOk, DrawerKey, TrayWith, Parked, FindItem, DropItem;
    TrayIds(s.tray);
    forall k | 0 <= k < |s.tray| && s.tray[k].id == id
      ensures DropItem(s.tray, id) == s.tray[..k] + s.tray[k + 1..] && FindItem(s.tray, id) == Some(s.tray[k])
      ensures s.drawer.Some? ==>
                Parked(DropItem(s.tray, id), s.drawer.value, s.drawerId.value, TrayWith(DropItem(s.tray, id), s.drawer.value, s.drawerId.value))
    {
      DropItemAt(s.tray, k);
      assert s.tray[k] in s.tray;
      assert ItemIds(s.tray)[k] == id;
      OneItem(s.tray, s.tray[k]);
      DropItemOk(s.tray, id);
      if s.drawer.Some? { ParkExact(DropItem(s.tray, id), s.drawer.value, s.drawerId.value); }
    }
  }

  /** A saved view is written to the one instance named, open or parked, if it is
      the detail the key stands for; nothing else changes. */
  lemma SaveViewExact(s: DrawerState, instanceId: string, key: string, view: DetailView)
    requires DrawerOk(s)
    ensures var r := Apply(s, SaveView(instanceId, key, view));
            && r.drawerId == s.drawerId && |r.tray| == |s.tray| && (r.drawer.Some? <==> s.drawer.Some?)
            && (s.drawer.Some? ==>
                  var d := s.drawer.value;
                  r.drawer.value == if s.drawerId.value == instanceId && d.Detail? && DrawerKey(d) == key then d.(view := Some(view)) else d)
            && forall k :: 0 <= k < |s.tray| ==>
                 var x := s.tray[k];
                 r.tray[k] == if x.id == instanceId && x.drawer.Detail? && DrawerKey(x.drawer) == key
                              then TrayItem(x.id, x.drawer.(view := Some(view))) else x
  {
    hide DrawerKey;
    forall k | 0 <= k < |s.tray| && s.tray[k].id == instanceId ensures k == IndexOf(ItemIds(s.tray), instanceId) {
      DistinctIndex(ItemIds(s.tray), k);
    }
  }

  // ----- The arrows -----

  /** A detail is open. */
  predicate OnDetail(s: DrawerState) {
    s.drawer.Some? && s.drawer.value.Detail?
  }

  function DetailOf(s: DrawerState): (d: Drawer)
    requires OnDetail(s)
    ensures d.Detail?
  {
    s.drawer.value
  }

  /** The same slot with the saved view of its detail forgotten. */
  function Unviewed(s: DrawerState): DrawerState
    requires OnDetail(s)
  {
    s.(drawer := Some(StripView(s.drawer.value)))
  }

  /** Only a detail has arrows and links. */
  lemma NoDetail(s: DrawerState, to: DetailRef)
    requires !OnDetail(s)
    ensures Apply(s, Back) == s && Apply(s, Forward) == s && Apply(s, Navigate(to)) == s
  {
  }

  /** `r` is `s` with the cursor of its detail at place `n` of the same timeline. */
  ghost predicate MovedTo(s: DrawerState, r: DrawerState, n: nat) {
    && OnDetail(s) && OnDetail(r)
    && r.drawerId == s.drawerId && r.tray == s.tray
    && Timeline(DetailOf(r)) == Timeline(DetailOf(s)) && |DetailOf(r).back| == n
    && (n < |Timeline(DetailOf(s))| ==> DetailOf(r).at == Timeline(DetailOf(s))[n])
  }

  /** Back goes one place earlier on an unchanged timeline and forward one place
      later, each staying put at its end; either press undoes the other up to the
      saved view. */
  lemma ArrowStep(s: DrawerState)
    requires OnDetail(s)
    ensures var d, b, f := DetailOf(s), Apply(s, Back), Apply(s, Forward);
            && MovedTo(s, b, if d.back == [] then 0 else |d.back| - 1)
            && MovedTo(s, f, if d.forward == [] then |d.back| else |d.back| + 1)
            && (if d.back == [] then b == s else DetailOf(b).view.None? && Apply(b, Forward) == Unviewed(s))
            && (if d.forward == [] then f == s else DetailOf(f).view.None? && Apply(f, Back) == Unviewed(s))
  {
    var d := DetailOf(s);
    HistoryStep(d);
    AtCursor(GoBack(d));
    AtCursor(GoForward(d));
  }

  lemma AtCursor(d: Drawer)
    requires d.Detail?
    ensures |d.back| < |Timeline(d)| && Timeline(d)[|d.back|] == d.at
  {
  }

  /** `k` presses of one arrow. */
  function Pressed(s: DrawerState, arrow: DrawerOp, k: nat): DrawerState
    decreases k
  {
    if k == 0 then s else Pressed(Apply(s, arrow), arrow, k - 1)
  }

  lemma {:induction false} PressedBack(s: DrawerState, k: nat)
    requires OnDetail(s)
    ensures Pressed(s, Back, k) == s.(drawer := Some(Backs(DetailOf(s), k)))
    decreases k
  {
    if k > 0 { PressedBack(Apply(s, Back), k - 1); }
  }

  lemma {:induction false} PressedForward(s: DrawerState, k: nat)
    requires OnDetail(s)
    ensures Pressed(s, Forward, k) == s.(drawer := Some(Forwards(DetailOf(s), k)))
    decreases k
  {
    if k > 0 { PressedForward(Apply(s, Forward), k - 1); }
  }

  /** `k` presses of back land `k` places earlier, or on the oldest entry; as many
      presses of forward return to where they began, up to the saved view. */
  lemma BacksThenForwards(s: DrawerState, k: nat)
    requires OnDetail(s)
    ensures var n := |DetailOf(s).back|;
            var b := Pressed(s, Back, k);
            && MovedTo(s, b, if k <= n then n - k else 0)
            && (k <= n ==> OnDetail(Pressed(b, Forward, k)) && Unviewed(Pressed(b, Forward, k)) == Unviewed(s))
  {
    var d := DetailOf(s);
    PressedBack(s, k);
    BacksMove(d, k);
    AtCursor(Backs(d, k));
    PressedForward(Pressed(s, Back, k), k);
    if k <= |d.back| { BacksReturn(d, k); }
  }

  /** Following a link shows it, without a view; forgets the future, keeps the
      latest fifty of the past, and one press of back returns. */
  lemma NavigateExact(s: DrawerState, to: DetailRef)
    requires OnDetail(s)
    ensures var d, r := DetailOf(s), Apply(s, Navigate(to));
            var past := d.back + [d.at];
            && OnDetail(r) && r.drawerId == s.drawerId && r.tray == s.tray
            && DetailOf(r) == Detail(to, None, if |past| <= 50 then past else past[|past| - 50..], [])
            && DetailOf(Apply(r, Back)).at == d.at
            && (|d.back| < 50 ==> DetailOf(Apply(r, Back)) == Detail(d.at, None, d.back, [to]))
  {
    NavigateTruncates(DetailOf(s), to);
  }
}

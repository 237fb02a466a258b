/** The right-hand drawer of one cluster tab, the tray of minimised drawers, and
    the back/forward history each detail drawer carries. */
module Drawers {
  import opened Lists

  datatype DetailRef = DetailRef(kindId: string, clusterId: string, uid: string, ns: Option<string>, name: string)

  datatype DetailView = DetailView(tab: Option<string>, scrollTop: Option<int>)

  datatype ObserveTarget = ObserveTarget(clusterId: string, kindId: string, ns: string, name: string)

  datatype CompareSide = CompareSide(clusterId: string, ns: Option<string>, name: string)

  datatype Drawer =
    | Detail(at: DetailRef, view: Option<DetailView>, back: seq<DetailRef>, forward: seq<DetailRef>)
    | Logs(targets: seq<ObserveTarget>, initialTab: Option<string>, defaultContainer: Option<string>)
    | Compare(kindId: string, a: CompareSide, b: CompareSide)
    | Inspect(kindId: string, subjects: seq<string>)

  const DETAIL_HISTORY_CAP: nat := 50
  const TRAY_CAP: nat := 12

  function OrEmpty(o: Option<string>): string {
    if o.Some? then o.value else ""
  }

  function TargetKey(t: ObserveTarget): string {
    t.clusterId + "/" + t.kindId + "/" + t.ns + "/" + t.name
  }

  function SideKey(x: CompareSide): string {
    x.clusterId + "/" + OrEmpty(x.ns) + "/" + x.name
  }

  function DetailKey(at: DetailRef): string {
    "detail|" + at.clusterId + "|" + at.kindId + "|" + OrEmpty(at.ns) + "|" + at.name
  }

  /** Identity of a drawer's subject: what it shows, not how. */
  function DrawerKey(d: Drawer): string {
    match d
    case Detail(at, _, _, _) => DetailKey(at)
    case Logs(targets, _, _) => "logs|" + Join(seq(|targets|, i requires 0 <= i < |targets| => TargetKey(targets[i])), ',')
    case Compare(kindId, a, b) => "compare|" + kindId + "|" + Join([SideKey(a), SideKey(b)], ',')
    case Inspect(kindId, subjects) => "inspect|" + kindId + "|" + Join(subjects, ',')
  }

  // ----- The tray -----

  datatype TrayItem = TrayItem(id: string, drawer: Drawer)

  function ItemIds(tray: seq<TrayItem>): (r: seq<string>)
    ensures |r| == |tray|
    ensures forall i :: 0 <= i < |tray| ==> r[i] == tray[i].id
  {
    seq(|tray|, i requires 0 <= i < |tray| => tray[i].id)
  }

  function ItemKeys(tray: seq<TrayItem>): (r: seq<string>)
    ensures |r| == |tray|
    ensures forall i :: 0 <= i < |tray| ==> r[i] == DrawerKey(tray[i].drawer)
  {
    seq(|tray|, i requires 0 <= i < |tray| => DrawerKey(tray[i].drawer))
  }

  function DropKey(tray: seq<TrayItem>, key: string): (r: seq<TrayItem>)
    ensures forall x :: x in r <==> x in tray && DrawerKey(x.drawer) != key
  {
    if tray == [] then []
    else if DrawerKey(tray[0].drawer) == key then DropKey(tray[1..], key)
    else [tray[0]] + DropKey(tray[1..], key)
  }

  function DropItem(tray: seq<TrayItem>, id: string): (r: seq<TrayItem>)
    ensures forall x :: x in r <==> x in tray && x.id != id
  {
    if tray == [] then []
    else if tray[0].id == id then DropItem(tray[1..], id)
    else [tray[0]] + DropItem(tray[1..], id)
  }

  /** The last `n` entries, as a negative slice takes them. */
  function LastN<T>(xs: seq<T>, n: nat): (r: seq<T>)
    ensures |r| == if |xs| <= n then |xs| else n
  {
    if |xs| <= n then xs else xs[|xs| - n..]
  }

  /** Park `d`: an entry for the same subject is replaced and moves to the end;
      past the cap the oldest entries fall off. */
  function TrayWith(tray: seq<TrayItem>, d: Drawer, id: string): seq<TrayItem> {
    LastN(DropKey(tray, DrawerKey(d)) + [TrayItem(id, d)], TRAY_CAP)
  }

  // ----- The drawer slot as a state machine -----

  datatype DrawerState = DrawerState(drawer: Option<Drawer>, drawerId: Option<string>, tray: seq<TrayItem>)

  const EMPTY_DRAWER := DrawerState(None, None, [])

  /** `uuid` is the id `crypto.randomUUID` would hand out in that call. */
  datatype DrawerOp =
    | Open(d: Drawer, uuid: string)
    | CloseDrawer
    | Minimize(view: Option<DetailView>, uuid: string)
    | SaveView(instanceId: string, key: string, saved: DetailView)
    | Restore(id: string, uuid: string)
    | CloseItem(id: string)
    | CloseAllItems
    | Navigate(to: DetailRef)
    | Back
    | Forward

  /** A drawer instance is reused for the same subject, and for a detail that
      replaces a detail of the same kind. */
  predicate KeepsInstance(open: Option<Drawer>, d: Drawer) {
    open.Some? &&
    (DrawerKey(open.value) == DrawerKey(d) ||
     (open.value.Detail? && d.Detail? && open.value.at.kindId == d.at.kindId))
  }

  function WithView(d: Drawer, view: Option<DetailView>): Drawer {
    if view.Some? && d.Detail? then d.(view := view) else d
  }

  function FindItem(tray: seq<TrayItem>, id: string): (r: Option<TrayItem>)
    ensures r.Some? <==> id in ItemIds(tray)
    ensures r.Some? ==> r.value in tray && r.value.id == id
  {
    var k := IndexOf(ItemIds(tray), id);
    if k < |tray| then Some(tray[k]) else None
  }

  function NavigateTo(d: Drawer, to: DetailRef): Drawer
    requires d.Detail?
  {
    Detail(to, None, LastN(d.back + [d.at], DETAIL_HISTORY_CAP), [])
  }

  function GoBack(d: Drawer): Drawer
    requires d.Detail?
  {
    if d.back == [] then d
    else Detail(d.back[|d.back| - 1], None, d.back[..|d.back| - 1], [d.at] + d.forward)
  }

  function GoForward(d: Drawer): Drawer
    requires d.Detail?
  {
    if d.forward == [] then d else Detail(d.forward[0], None, d.back + [d.at], d.forward[1..])
  }

  /** The drawer `d` with the view saved, if it is the detail the key names. */
  predicate TakesView(d: Drawer, key: string) {
    d.Detail? && DrawerKey(d) == key
  }

  function SavedView(s: DrawerState, instanceId: string, key: string, view: DetailView): DrawerState {
    if s.drawerId == Some(instanceId) && s.drawer.Some? then
      if TakesView(s.drawer.value, key) then s.(drawer := Some(s.drawer.value.(view := Some(view)))) else s
    else
      var i := IndexOf(ItemIds(s.tray), instanceId);
      if i < |s.tray| && TakesView(s.tray[i].drawer, key) then
        s.(tray := s.tray[i := s.tray[i].(drawer := s.tray[i].drawer.(view := Some(view)))])
      else s
  }

  /** Reopen a parked drawer; the one showing now is parked in its place. */
  function Restored(s: DrawerState, id: string, uuid: string): DrawerState {
    var item := FindItem(s.tray, id);
    if item.None? then s
    else
      var rest := DropItem(s.tray, id);
      DrawerState(Some(item.value.drawer), Some(item.value.id),
                  if s.drawer.None? then rest
                  else TrayWith(rest, s.drawer.value, if s.drawerId.Some? then s.drawerId.value else uuid))
  }

  function Apply(s: DrawerState, op: DrawerOp): DrawerState {
    match op
    case Open(d, uuid) =>
      s.(drawer := Some(d), drawerId := if KeepsInstance(s.drawer, d) then s.drawerId else Some(uuid))
    case CloseDrawer => s.(drawer := None, drawerId := None)
    case Minimize(view, uuid) =>
      if s.drawer.None? then s
      else DrawerState(None, None,
                       TrayWith(s.tray, WithView(s.drawer.value, view), if s.drawerId.Some? then s.drawerId.value else uuid))
    case SaveView(instanceId, key, view) => SavedView(s, instanceId, key, view)
    case Restore(id, uuid) => Restored(s, id, uuid)
    case CloseItem(id) => s.(tray := DropItem(s.tray, id))
    case CloseAllItems => s.(tray := [])
    case Navigate(to) =>
      if s.drawer.Some? && s.drawer.value.Detail? then s.(drawer := Some(NavigateTo(s.drawer.value, to))) else s
    case Back =>
      if s.drawer.Some? && s.drawer.value.Detail? then s.(drawer := Some(GoBack(s.drawer.value))) else s
    case Forward =>
      if s.drawer.Some? && s.drawer.value.Detail? then s.(drawer := Some(GoForward(s.drawer.value))) else s
  }

  /** A random id is new to the tray, and a drawer opened from outside does not
      bring along more history than the cap. */
  ghost predicate Allowed(s: DrawerState, op: DrawerOp) {
    op.Open? ==> op.uuid !in ItemIds(s.tray) && HistoryOk(op.d)
  }

  predicate HistoryOk(d: Drawer) {
    d.Detail? ==> |d.back| + |d.forward| <= DETAIL_HISTORY_CAP
  }

  ghost predicate TrayOk(tray: seq<TrayItem>) {
    && |tray| <= TRAY_CAP
    && Distinct(ItemKeys(tray))
    && Distinct(ItemIds(tray))
    && forall i :: 0 <= i < |tray| ==> HistoryOk(tray[i].drawer)
  }

  ghost predicate DrawerOk(s: DrawerState) {
    && (s.drawer.Some? <==> s.drawerId.Some?)
    && TrayOk(s.tray)
    && (s.drawerId.Some? ==> s.drawerId.value !in ItemIds(s.tray))
    && (s.drawer.Some? ==> HistoryOk(s.drawer.value))
  }

  // ----- Tray lemmas -----

  lemma {:induction false} DropKeyOk(tray: seq<TrayItem>, key: string)
    requires TrayOk(tray)
    ensures TrayOk(DropKey(tray, key))
    ensures forall x :: x in ItemIds(DropKey(tray, key)) ==> x in ItemIds(tray)
    ensures forall x :: x in ItemKeys(DropKey(tray, key)) <==> x in ItemKeys(tray) && x != key
    ensures key !in ItemKeys(tray) ==> DropKey(tray, key) == tray
    ensures key in ItemKeys(tray) ==> |DropKey(tray, key)| < |tray|
    ensures |DropKey(tray, key)| <= |tray|
  {
    hide DrawerKey, HistoryOk, Distinct, ItemIds, ItemKeys, TrayOk, DropKey;
    DropKeyStep(tray, key);
    if tray != [] {
      TrayTail(tray);
      DropKeyOk(tray[1..], key);
      var rest := DropKey(tray[1..], key);
      TraySplit(tray);
      if DrawerKey(tray[0].drawer) != key { TrayCons(tray[0], rest); }
    }
  }

  lemma DropKeyStep(tray: seq<TrayItem>, key: string)
    ensures DropKey(tray, key)
         == if tray == [] then []
            else if DrawerKey(tray[0].drawer) == key then DropKey(tray[1..], key)
            else [tray[0]] + DropKey(tray[1..], key)
  {
  }

  lemma {:induction false} DropItemOk(tray: seq<TrayItem>, id: string)
    requires TrayOk(tray)
    ensures TrayOk(DropItem(tray, id))
    ensures forall x :: x in ItemIds(DropItem(tray, id)) <==> x in ItemIds(tray) && x != id
    ensures forall x :: x in ItemKeys(DropItem(tray, id)) ==> x in ItemKeys(tray)
    ensures |DropItem(tray, id)| <= |tray|
  {
    hide DrawerKey, HistoryOk, Distinct, ItemIds, ItemKeys, TrayOk;
    NoTrayOk();
    if tray != [] {
      TrayTail(tray);
      DropItemOk(tray[1..], id);
      var rest := DropItem(tray[1..], id);
      TraySplit(tray);
      if tray[0].id != id { TrayCons(tray[0], rest); }
    }
  }

  lemma NoTrayOk()
    ensures TrayOk([])
  {
  }

  lemma TraySplit(tray: seq<TrayItem>)
    requires tray != []
    ensures ItemIds(tray) == [tray[0].id] + ItemIds(tray[1..])
    ensures ItemKeys(tray) == [DrawerKey(tray[0].drawer)] + ItemKeys(tray[1..])
  {
  }

  lemma TrayTail(tray: seq<TrayItem>)
    requires TrayOk(tray) && tray != []
    ensures TrayOk(tray[1..]) && tray[0].id !in ItemIds(tray[1..]) && DrawerKey(tray[0].drawer) !in ItemKeys(tray[1..])
    ensures HistoryOk(tray[0].drawer) && |tray[1..]| < TRAY_CAP
  {
    TraySplit(tray);
    DistinctHead(tray[0].id, ItemIds(tray[1..]));
    DistinctHead(DrawerKey(tray[0].drawer), ItemKeys(tray[1..]));
  }

  lemma TrayCons(x: TrayItem, rest: seq<TrayItem>)
    requires TrayOk(rest) && |rest| < TRAY_CAP && HistoryOk(x.drawer)
    requires x.id !in ItemIds(rest) && DrawerKey(x.drawer) !in ItemKeys(rest)
    ensures TrayOk([x] + rest)
    ensures ItemIds([x] + rest) == [x.id] + ItemIds(rest)
    ensures ItemKeys([x] + rest) == [DrawerKey(x.drawer)] + ItemKeys(rest)
  {
    assert ([x] + rest)[1..] == rest;
    TraySplit([x] + rest);
    DistinctHead(x.id, ItemIds(rest));
    DistinctHead(DrawerKey(x.drawer), ItemKeys(rest));
  }

  lemma TraySnoc(front: seq<TrayItem>, x: TrayItem)
    requires TrayOk(front) && |front| < TRAY_CAP && HistoryOk(x.drawer)
    requires x.id !in ItemIds(front) && DrawerKey(x.drawer) !in ItemKeys(front)
    ensures TrayOk(front + [x])
    ensures ItemIds(front + [x]) == ItemIds(front) + [x.id]
  {
    assert ItemIds(front + [x]) == ItemIds(front) + [x.id];
    assert ItemKeys(front + [x]) == ItemKeys(front) + [DrawerKey(x.drawer)];
    DistinctSnoc(ItemIds(front), x.id);
    DistinctSnoc(ItemKeys(front), DrawerKey(x.drawer));
  }

  /** What stays in front when a drawer with this key is parked. */
  function Front(tray: seq<TrayItem>, key: string): seq<TrayItem> {
    var kept := DropKey(tray, key);
    if |kept| < TRAY_CAP then kept else kept[1..]
  }

  lemma FrontOk(tray: seq<TrayItem>, key: string)
    requires TrayOk(tray)
    ensures TrayOk(Front(tray, key)) && |Front(tray, key)| < TRAY_CAP
    ensures key !in ItemKeys(Front(tray, key))
    ensures forall x :: x in ItemIds(Front(tray, key)) ==> x in ItemIds(tray)
    ensures Front(tray, key) == tray <==> |tray| < TRAY_CAP && key !in ItemKeys(tray)
  {
    DropKeyOk(tray, key);
    var kept := DropKey(tray, key);
    if kept != [] {
      TrayTail(kept);
      TraySplit(kept);
    }
  }

  lemma TrayWithShape(tray: seq<TrayItem>, d: Drawer, id: string)
    requires TrayOk(tray)
    ensures TrayWith(tray, d, id) == Front(tray, DrawerKey(d)) + [TrayItem(id, d)]
  {
    hide DrawerKey, HistoryOk, Distinct, DropKey, ItemIds, ItemKeys;
    DropKeyOk(tray, DrawerKey(d));
    var kept := DropKey(tray, DrawerKey(d));
    assert kept + [TrayItem(id, d)] != [];
    if |kept| == TRAY_CAP { assert (kept + [TrayItem(id, d)])[1..] == kept[1..] + [TrayItem(id, d)]; }
  }

  /** Parking keeps the tray within its cap and free of repeated subjects and
      ids; the parked drawer is its last entry. */
  lemma TrayWithOk(tray: seq<TrayItem>, d: Drawer, id: string)
    requires TrayOk(tray) && HistoryOk(d) && id !in ItemIds(tray)
    ensures var r := TrayWith(tray, d, id);
            && TrayOk(r)
            && r[|r| - 1] == TrayItem(id, d)
            && forall x :: x in ItemIds(r) ==> x == id || x in ItemIds(tray)
  {
    TrayWithShape(tray, d, id);
    FrontOk(tray, DrawerKey(d));
    TraySnoc(Front(tray, DrawerKey(d)), TrayItem(id, d));
  }

  /** Saving a view changes no id, no subject and no history. */
  lemma SavedViewKeeps(s: DrawerState, instanceId: string, key: string, view: DetailView)
    ensures var r := SavedView(s, instanceId, key, view);
            && ItemIds(r.tray) == ItemIds(s.tray)
            && ItemKeys(r.tray) == ItemKeys(s.tray)
            && r.drawerId == s.drawerId
            && (r.drawer.Some? <==> s.drawer.Some?)
            && (r.drawer.Some? ==> HistoryOk(r.drawer.value) == HistoryOk(s.drawer.value))
            && forall i :: 0 <= i < |s.tray| ==> HistoryOk(r.tray[i].drawer) == HistoryOk(s.tray[i].drawer)
  {
    var r := SavedView(s, instanceId, key, view);
    forall i | 0 <= i < |s.tray|
      ensures DrawerKey(r.tray[i].drawer) == DrawerKey(s.tray[i].drawer) && HistoryOk(r.tray[i].drawer) == HistoryOk(s.tray[i].drawer)
    {
      ViewKeepsKey(s.tray[i].drawer, Some(view));
    }
    assert ItemIds(r.tray) == ItemIds(s.tray);
    assert ItemKeys(r.tray) == ItemKeys(s.tray);
  }

  lemma SaveViewOk(s: DrawerState, op: DrawerOp)
    requires DrawerOk(s) && op.SaveView?
    ensures DrawerOk(Apply(s, op))
  {
    SavedViewKeeps(s, op.instanceId, op.key, op.saved);
    hide DrawerKey, SavedView, ItemIds, ItemKeys;
    var r := Apply(s, op);
    assert r.tray == SavedView(s, op.instanceId, op.key, op.saved).tray;
  }

  lemma RestoreOk(s: DrawerState, id: string, uuid: string)
    requires DrawerOk(s)
    ensures DrawerOk(Apply(s, Restore(id, uuid)))
  {
    var item := FindItem(s.tray, id);
    if item.Some? {
      DropItemOk(s.tray, id);
      var rest := DropItem(s.tray, id);
      if s.drawer.Some? { TrayWithOk(rest, s.drawer.value, s.drawerId.value); }
    }
  }

  /** Every drawer operation keeps the slot well formed: at most 12 parked
      entries with distinct subjects, ids unique across drawer and tray, an open
      drawer exactly when there is an instance id, history within its cap. */
  lemma ApplyOk(s: DrawerState, op: DrawerOp)
    requires DrawerOk(s) && Allowed(s, op)
    ensures DrawerOk(Apply(s, op))
  {
    match op
    case Open(d, uuid) =>
    case CloseDrawer =>
    case Minimize(view, uuid) =>
      if s.drawer.Some? { TrayWithOk(s.tray, WithView(s.drawer.value, view), s.drawerId.value); }
    case SaveView(_, _, _) => SaveViewOk(s, op);
    case Restore(id, uuid) => RestoreOk(s, id, uuid);
    case CloseItem(id) => DropItemOk(s.tray, id);
    case CloseAllItems =>
    case Navigate(to) =>
    case Back =>
    case Forward =>
  }

  function Run(s: DrawerState, ops: seq<DrawerOp>): DrawerState
    decreases ops
  {
    if ops == [] then s else Run(Apply(s, ops[0]), ops[1..])
  }

  ghost predicate RunAllowed(s: DrawerState, ops: seq<DrawerOp>)
    decreases ops
  {
    ops == [] || (Allowed(s, ops[0]) && RunAllowed(Apply(s, ops[0]), ops[1..]))
  }

  lemma {:induction false} RunOk(s: DrawerState, ops: seq<DrawerOp>)
    requires DrawerOk(s) && RunAllowed(s, ops)
    ensures DrawerOk(Run(s, ops))
    decreases ops
  {
    if ops != [] {
      ApplyOk(s, ops[0]);
      RunOk(Apply(s, ops[0]), ops[1..]);
    }
  }

  lemma {:induction false} DropItemLast(front: seq<TrayItem>, last: TrayItem)
    requires forall x :: x in front ==> x.id != last.id
    ensures DropItem(front + [last], last.id) == front
  {
    if front == [] {
      assert ([last])[1..] == [];
      assert front + [last] == [last];
    } else {
      assert (front + [last])[1..] == front[1..] + [last];
      DropItemLast(front[1..], last);
    }
  }

  /** Minimising and restoring the same instance gives back the drawer (with the
      view recorded on the way) under the same id. The tray comes back unchanged
      exactly when it was below its cap and held no entry for that subject. */
  lemma MinimizeRestore(s: DrawerState, view: Option<DetailView>, f: string, g: string)
    requires DrawerOk(s) && s.drawer.Some?
    ensures var r := Apply(Apply(s, Minimize(view, f)), Restore(s.drawerId.value, g));
            && r.drawer == Some(WithView(s.drawer.value, view))
            && r.drawerId == s.drawerId
            && (r.tray == s.tray <==> |s.tray| < TRAY_CAP && DrawerKey(s.drawer.value) !in ItemKeys(s.tray))
  {
    var id, d := s.drawerId.value, WithView(s.drawer.value, view);
    MinimizeParks(s, view, f);
    ParkThenTake(s.tray, d, id);
    RestoreTakes(TrayWith(s.tray, d, id), Front(s.tray, DrawerKey(d)), TrayItem(id, d), g);
    ViewKeepsKey(s.drawer.value, view);
    FrontOk(s.tray, DrawerKey(d));
  }

  /** Every drawer instance the slot holds, open or parked. */
  function Instances(s: DrawerState): set<TrayItem> {
    (set x | x in s.tray) + (if s.drawer.Some? && s.drawerId.Some? then {TrayItem(s.drawerId.value, s.drawer.value)} else {})
  }

  /** Restoring a parked drawer opens it and parks the open one; the cap evicts
      nothing. No drawer is lost exactly when no other parked entry shows the
      subject of the drawer that has to make room. */
  lemma RestoreConserves(s: DrawerState, id: string, uuid: string)
    requires DrawerOk(s) && id in ItemIds(s.tray)
    ensures var r := Apply(s, Restore(id, uuid));
            && r.drawerId == Some(id) && r.drawer.Some? && TrayItem(id, r.drawer.value) in s.tray
            && Instances(r) <= Instances(s)
            && (Instances(r) == Instances(s) <==>
                s.drawer.None? || DrawerKey(s.drawer.value) !in ItemKeys(DropItem(s.tray, id)))
  {
    hide DrawerKey, HistoryOk, TrayWith, FindItem, DropItem, DropKey, Front, TrayOk, ItemIds, ItemKeys, Restored;
    var item := RestoreShape(s, id, uuid);
    if s.drawer.Some? {
      var mine := TrayItem(s.drawerId.value, s.drawer.value);
      var rest := DropItem(s.tray, id);
      var kept := DropKey(rest, DrawerKey(s.drawer.value));
      Refill(s.tray, rest, item);
      SetSnoc(kept, mine);
      KeyHolders(rest, DrawerKey(s.drawer.value));
      IdHolders(s.tray, mine.id);
      assert Instances(s) == (set y | y in rest) + {item, mine};
      var after := Instances(Apply(s, Restore(id, uuid)));
      assert after == (set y | y in kept) + {item, mine};
      if x :| x in rest && DrawerKey(x.drawer) == DrawerKey(s.drawer.value) {
        assert x !in kept && x.id != item.id && x.id != mine.id;
        assert x in Instances(s) && x !in after;
      } else {
        assert forall x :: x in kept <==> x in rest;
      }
    } else {
      Refill(s.tray, DropItem(s.tray, id), item);
    }
  }

  lemma RestoreShape(s: DrawerState, id: string, uuid: string) returns (item: TrayItem)
    requires DrawerOk(s) && id in ItemIds(s.tray)
    ensures item in s.tray && item.id == id && forall x :: x in s.tray && x.id == id ==> x == item
    ensures Restored(s, id, uuid)
         == (var rest := DropItem(s.tray, id);
             DrawerState(Some(item.drawer), Some(id),
                         if s.drawer.None? then rest
                         else DropKey(rest, DrawerKey(s.drawer.value)) + [TrayItem(s.drawerId.value, s.drawer.value)]))
  {
    hide DrawerKey, HistoryOk, TrayWith, FindItem, DropItem, DropKey, Front;
    item := FindItem(s.tray, id).value;
    OneItem(s.tray, item);
    DropItemOk(s.tray, id);
    DropItemShorter(s.tray, id);
    if s.drawer.Some? {
      TrayWithShape(DropItem(s.tray, id), s.drawer.value, s.drawerId.value);
      ShortFront(DropItem(s.tray, id), DrawerKey(s.drawer.value));
    }
  }

  lemma Refill(tray: seq<TrayItem>, rest: seq<TrayItem>, item: TrayItem)
    requires item in tray && forall x :: x in tray && x.id == item.id ==> x == item
    requires forall x :: x in rest <==> x in tray && x.id != item.id
    ensures (set y | y in tray) == (set y | y in rest) + {item}
  {
  }

  lemma SetSnoc(xs: seq<TrayItem>, x: TrayItem)
    ensures (set y | y in xs + [x]) == (set y | y in xs) + {x}
  {
  }

  lemma KeyHolders(tray: seq<TrayItem>, key: string)
    ensures key in ItemKeys(tray) <==> exists x :: x in tray && DrawerKey(x.drawer) == key
  {
    hide DrawerKey;
    if key in ItemKeys(tray) {
      assert tray[IndexOf(ItemKeys(tray), key)] in tray;
    }
  }

  lemma IdHolders(tray: seq<TrayItem>, id: string)
    ensures id in ItemIds(tray) <==> exists x :: x in tray && x.id == id
  {
    if id in ItemIds(tray) {
      assert tray[IndexOf(ItemIds(tray), id)] in tray;
    }
  }

  lemma ShortFront(tray: seq<TrayItem>, key: string)
    requires TrayOk(tray) && |tray| < TRAY_CAP
    ensures Front(tray, key) == DropKey(tray, key)
  {
    DropKeyOk(tray, key);
  }

  lemma {:induction false} DropItemShorter(tray: seq<TrayItem>, id: string)
    requires id in ItemIds(tray)
    ensures |DropItem(tray, id)| < |tray|
  {
    TraySplit(tray);
    if tray[0].id == id {
      DropItemAtMost(tray[1..], id);
    } else {
      DropItemShorter(tray[1..], id);
    }
  }

  lemma {:induction false} DropItemAtMost(tray: seq<TrayItem>, id: string)
    ensures |DropItem(tray, id)| <= |tray|
  {
    if tray != [] {
      DropItemAtMost(tray[1..], id);
    }
  }

  /** An id belongs to one entry of the tray. */
  lemma OneItem(tray: seq<TrayItem>, item: TrayItem)
    requires TrayOk(tray) && item in tray
    ensures forall x :: x in tray && x.id == item.id ==> x == item
  {
    var i :| 0 <= i < |tray| && tray[i] == item;
    forall x | x in tray && x.id == item.id ensures x == item {
      var j :| 0 <= j < |tray| && tray[j] == x;
      DistinctIndex(ItemIds(tray), i);
      DistinctIndex(ItemIds(tray), j);
    }
  }

  lemma MinimizeParks(s: DrawerState, view: Option<DetailView>, f: string)
    requires s.drawer.Some? && s.drawerId.Some?
    ensures Apply(s, Minimize(view, f))
         == DrawerState(None, None, TrayWith(s.tray, WithView(s.drawer.value, view), s.drawerId.value))
  {
  }

  lemma RestoreTakes(tray: seq<TrayItem>, front: seq<TrayItem>, item: TrayItem, g: string)
    requires FindItem(tray, item.id) == Some(item) && DropItem(tray, item.id) == front
    ensures Apply(DrawerState(None, None, tray), Restore(item.id, g)) == DrawerState(Some(item.drawer), Some(item.id), front)
  {
    hide FindItem, DropItem, TrayWith, SavedView;
  }

  lemma ViewKeepsKey(d: Drawer, view: Option<DetailView>)
    ensures DrawerKey(WithView(d, view)) == DrawerKey(d)
  {
  }

  lemma ParkThenTake(tray: seq<TrayItem>, d: Drawer, id: string)
    requires TrayOk(tray) && id !in ItemIds(tray)
    ensures FindItem(TrayWith(tray, d, id), id) == Some(TrayItem(id, d))
    ensures DropItem(TrayWith(tray, d, id), id) == Front(tray, DrawerKey(d))
  {
    hide DrawerKey, HistoryOk, Front, TrayWith;
    var front, item := Front(tray, DrawerKey(d)), TrayItem(id, d);
    TrayWithShape(tray, d, id);
    FrontOk(tray, DrawerKey(d));
    assert ItemIds(front + [item]) == ItemIds(front) + [id];
    IndexOfConcat(ItemIds(front), [id], id);
    forall x | x in front ensures x.id != id {
      var i :| 0 <= i < |front| && front[i] == x;
      assert ItemIds(front)[i] == x.id;
    }
    DropItemLast(front, item);
  }

  // ----- Detail history -----

  /** Everything the panel can reach with its arrows, oldest first. */
  function Timeline(d: Drawer): seq<DetailRef>
    requires d.Detail?
  {
    d.back + [d.at] + d.forward
  }

  function StripView(d: Drawer): Drawer
    requires d.Detail?
  {
    d.(view := None)
  }

  function Backs(d: Drawer, k: nat): (r: Drawer)
    requires d.Detail?
    ensures r.Detail?
    decreases k
  {
    if k == 0 then d else Backs(GoBack(d), k - 1)
  }

  function Forwards(d: Drawer, k: nat): (r: Drawer)
    requires d.Detail?
    ensures r.Detail?
    decreases k
  {
    if k == 0 then d else Forwards(GoForward(d), k - 1)
  }

  /** One arrow press moves the cursor by one over an unchanged timeline, and
      the opposite press undoes it up to the saved view. */
  lemma HistoryStep(d: Drawer)
    requires d.Detail?
    ensures Timeline(GoBack(d)) == Timeline(d) && Timeline(GoForward(d)) == Timeline(d)
    ensures d.back != [] ==> GoForward(GoBack(d)) == StripView(d)
    ensures d.forward != [] ==> GoBack(GoForward(d)) == StripView(d)
  {
    if d.back != [] {
      assert d.back[..|d.back| - 1] + [d.back[|d.back| - 1]] == d.back;
      assert Timeline(GoBack(d)) == Timeline(d);
      assert ([d.at] + d.forward)[1..] == d.forward;
    }
    if d.forward != [] {
      assert [d.forward[0]] + d.forward[1..] == d.forward;
      assert Timeline(GoForward(d)) == Timeline(d);
      assert (d.back + [d.at])[..|d.back|] == d.back;
    }
  }

  /** After `k` presses of back the cursor sits `k` places earlier in the same
      timeline; pressing past the oldest entry stays there. */
  lemma {:induction false} BacksMove(d: Drawer, k: nat)
    requires d.Detail?
    ensures Timeline(Backs(d, k)) == Timeline(d)
    ensures |Backs(d, k).back| == if k <= |d.back| then |d.back| - k else 0
    decreases k
  {
    hide Timeline;
    if k > 0 {
      HistoryStep(d);
      BacksMove(GoBack(d), k - 1);
    }
  }

  lemma {:induction false} ForwardsMove(d: Drawer, k: nat)
    requires d.Detail?
    ensures Timeline(Forwards(d, k)) == Timeline(d)
    ensures |Forwards(d, k).back| == if k <= |d.forward| then |d.back| + k else |d.back| + |d.forward|
    decreases k
  {
    hide Timeline;
    if k > 0 {
      HistoryStep(d);
      ForwardsMove(GoForward(d), k - 1);
    }
  }

  /** A drawer is its timeline plus the cursor. */
  lemma CursorDetermines(d: Drawer, e: Drawer)
    requires d.Detail? && e.Detail?
    requires Timeline(d) == Timeline(e) && |d.back| == |e.back|
    ensures StripView(d) == StripView(e)
  {
    var t := Timeline(d);
    assert d.back == t[..|d.back|] && d.at == t[|d.back|] && d.forward == t[|d.back| + 1..];
    assert e.back == t[..|d.back|] && e.at == t[|d.back|] && e.forward == t[|d.back| + 1..];
  }

  /** `k` steps back and `k` steps forward return to the start, up to the saved
      view, for every `k` the history allows. */
  lemma BacksReturn(d: Drawer, k: nat)
    requires d.Detail? && k <= |d.back|
    ensures StripView(Forwards(Backs(d, k), k)) == StripView(d)
  {
    var b := Backs(d, k);
    BacksMove(d, k);
    ForwardsMove(b, k);
    assert |Timeline(b)| == |b.back| + 1 + |b.forward|;
    CursorDetermines(Forwards(b, k), d);
  }

  /** Following a link forgets the future, keeps the most recent past within the
      cap, and one back returns to where the link was. */
  lemma NavigateTruncates(d: Drawer, to: DetailRef)
    requires d.Detail?
    ensures var r := NavigateTo(d, to);
            && HistoryOk(r)
            && Timeline(r) == LastN(d.back + [d.at], DETAIL_HISTORY_CAP) + [to]
            && GoBack(r).at == d.at
            && (|d.back| < DETAIL_HISTORY_CAP ==> GoBack(r) == Detail(d.at, None, d.back, [to]))
  {
    var r := NavigateTo(d, to);
    assert r.back[|r.back| - 1] == d.at;
    assert (d.back + [d.at])[..|d.back|] == d.back;
    assert Timeline(r) == r.back + [to];
  }
}

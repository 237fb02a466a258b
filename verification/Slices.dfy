/** The UI state one cluster tab keeps while another is showing, and the edits
    made to the copy that is live. */
module Slices {
  import opened Lists
  import Dock
  import Drawers

  datatype SelectionMeta = SelectionMeta(clusterId: string, ns: Option<string>, name: string)

  datatype DetailEntry = DetailEntry(clusterId: Option<string>, kindId: string, ns: Option<string>, name: string)

  datatype ScopeSlice = ScopeSlice(
    selectedKindId: Option<string>,
    selectedNamespaces: set<string>,
    selection: map<string, SelectionMeta>,
    pendingDetail: Option<DetailEntry>,
    tableFilter: string,
    filterEditing: bool,
    focusedClusterId: Option<string>,
    kindClusters: map<string, seq<string>>,
    dockTabs: seq<Dock.DockTab>,
    dockActive: Dock.PerPlacement<Option<string>>,
    dockMin: Dock.PerPlacement<bool>,
    drawer: Option<Drawers.Drawer>,
    drawerId: Option<string>,
    tray: seq<Drawers.TrayItem>,
    tableScroll: map<string, int>)
  {
    function DockState(): Dock.DockState {
      Dock.DockState(dockTabs, dockActive, dockMin)
    }

    function WithDock(d: Dock.DockState): ScopeSlice {
      this.(dockTabs := d.tabs, dockActive := d.active, dockMin := d.min)
    }

    function DrawerState(): Drawers.DrawerState {
      Drawers.DrawerState(drawer, drawerId, tray)
    }

    function WithDrawer(d: Drawers.DrawerState): ScopeSlice {
      this.(drawer := d.drawer, drawerId := d.drawerId, tray := d.tray)
    }
  }

  const EMPTY_SLICE := ScopeSlice(None, {}, map[], None, "", false, None, map[],
                                  [], Dock.PerPlacement(None, None), Dock.PerPlacement(false, false),
                                  None, None, [], map[])

  /** Fields a component may write to its own tab while hidden; an absent field
      is left alone. */
  datatype SlicePatch = SlicePatch(
    selectedKindId: Option<Option<string>>,
    selectedNamespaces: Option<set<string>>,
    selection: Option<map<string, SelectionMeta>>,
    pendingDetail: Option<Option<DetailEntry>>,
    tableFilter: Option<string>,
    filterEditing: Option<bool>,
    focusedClusterId: Option<Option<string>>,
    kindClusters: Option<map<string, seq<string>>>,
    dockTabs: Option<seq<Dock.DockTab>>,
    dockActive: Option<Dock.PerPlacement<Option<string>>>,
    dockMin: Option<Dock.PerPlacement<bool>>,
    drawer: Option<Option<Drawers.Drawer>>,
    drawerId: Option<Option<string>>,
    tray: Option<seq<Drawers.TrayItem>>,
    tableScroll: Option<map<string, int>>)

  datatype SliceEdit =
    | SelectKind(kindId: string)
    | SetKindId(kind: Option<string>)
    | SetKindClusters(m: map<string, seq<string>>)
    | SetNamespaces(names: set<string>)
    | SetSelection(sel: map<string, SelectionMeta>)
    | ToggleSelection(sid: string, meta: SelectionMeta)
    | SetTableFilter(q: string)
    | SetFilterEditing(open: bool)
    | ToggleFocus(clusterId: string)
    | ClearFocus
    | DropFocus(gone: string)
    | NavigateToDetail(target: DetailEntry)
    | ConsumePending
    | DrawerEdit(drawerOp: Drawers.DrawerOp)
    | DockEdit(dockOp: Dock.DockOp)
    | Patch(patch: SlicePatch)

  /** A navigation target's namespace must be visible: extend a filter that
      excludes it, leave "all namespaces" (the empty set) alone. */
  function NamespacesIncluding(current: set<string>, ns: Option<string>): (r: set<string>)
    ensures current <= r
    ensures ns.Some? ==> r == {} || ns.value in r
    ensures current == {} ==> r == {}
  {
    if ns.None? || current == {} || ns.value in current then current else current + {ns.value}
  }

  function Or<T>(o: Option<T>, default: T): T {
    if o.Some? then o.value else default
  }

  function ApplyPatch(s: ScopeSlice, p: SlicePatch): ScopeSlice {
    ScopeSlice(Or(p.selectedKindId, s.selectedKindId), Or(p.selectedNamespaces, s.selectedNamespaces),
               Or(p.selection, s.selection), Or(p.pendingDetail, s.pendingDetail), Or(p.tableFilter, s.tableFilter),
               Or(p.filterEditing, s.filterEditing), Or(p.focusedClusterId, s.focusedClusterId),
               Or(p.kindClusters, s.kindClusters), Or(p.dockTabs, s.dockTabs), Or(p.dockActive, s.dockActive),
               Or(p.dockMin, s.dockMin), Or(p.drawer, s.drawer), Or(p.drawerId, s.drawerId), Or(p.tray, s.tray),
               Or(p.tableScroll, s.tableScroll))
  }

  function Toggled(sel: map<string, SelectionMeta>, sid: string, meta: SelectionMeta): map<string, SelectionMeta> {
    if sid in sel then sel - {sid} else sel[sid := meta]
  }

  function Edited(s: ScopeSlice, e: SliceEdit): ScopeSlice {
    match e
    case SelectKind(k) => s.(selectedKindId := Some(k), selection := map[], pendingDetail := None, filterEditing := false)
    case SetKindId(k) => s.(selectedKindId := k)
    case SetKindClusters(m) => s.(kindClusters := m)
    case SetNamespaces(ns) => s.(selectedNamespaces := ns, selection := map[])
    case SetSelection(sel) => s.(selection := sel)
    case ToggleSelection(sid, meta) =>
      s.(selection := Toggled(s.selection, sid, meta))
    case SetTableFilter(q) => s.(tableFilter := q)
    case SetFilterEditing(open) => s.(filterEditing := open)
    case ToggleFocus(c) => s.(focusedClusterId := if s.focusedClusterId == Some(c) then None else Some(c))
    case ClearFocus => s.(focusedClusterId := None)
    case DropFocus(c) =>
      s.(selection := map[], focusedClusterId := if s.focusedClusterId == Some(c) then None else s.focusedClusterId)
    case NavigateToDetail(t) =>
      s.(selectedKindId := Some(t.kindId), selection := map[], pendingDetail := Some(t),
      selectedNamespaces := NamespacesIncluding(s.selectedNamespaces, t.ns))
    case ConsumePending => s.(pendingDetail := None)
    case DrawerEdit(op) => s.WithDrawer(Drawers.Apply(s.DrawerState(), op))
    case DockEdit(op) => s.WithDock(Dock.Apply(s.DockState(), op))
    case Patch(p) => ApplyPatch(s, p)
  }

  ghost predicate SliceOk(s: ScopeSlice) {
    Dock.DockOk(s.DockState()) && Drawers.DrawerOk(s.DrawerState())
  }

  /** What the environment guarantees about an edit: random ids are new, a drawer
      handed in from outside respects the history cap, and a patch that writes
      dock, drawer or tray fields writes well formed ones. */
  ghost predicate EditAllowed(s: ScopeSlice, e: SliceEdit) {
    match e
    case DrawerEdit(op) => Drawers.Allowed(s.DrawerState(), op)
    case DockEdit(op) => Dock.Allowed(s.DockState(), op)
    case Patch(p) => SliceOk(ApplyPatch(s, p))
    case _ => true
  }

  lemma EditOk(s: ScopeSlice, e: SliceEdit)
    requires SliceOk(s) && EditAllowed(s, e)
    ensures SliceOk(Edited(s, e))
  {
    match e
    case DrawerEdit(op) => Drawers.ApplyOk(s.DrawerState(), op);
    case DockEdit(op) => Dock.ApplyOk(s.DockState(), op);
    case Patch(p) =>
    case _ =>
      assert Edited(s, e).DockState() == s.DockState();
      assert Edited(s, e).DrawerState() == s.DrawerState();
  }

  lemma EmptySliceOk()
    ensures SliceOk(EMPTY_SLICE)
    ensures forall k: Option<string>, ns: set<string> ::
      SliceOk(EMPTY_SLICE.(selectedKindId := k, selectedNamespaces := ns))
  {
    Dock.EmptyDockOk();
  }

  function DockIds(s: ScopeSlice): set<string> {
    set x | x in Dock.Ids(s.dockTabs)
  }

  /** Dock tab ids an edit brings into the slice. */
  function NewDockIds(s: ScopeSlice, e: SliceEdit): set<string> {
    DockIds(Edited(s, e)) - DockIds(s)
  }

  /** Toggling a row twice gives the slice back exactly when no other description
      stood under it. */
  lemma RowToggleUndo(s: ScopeSlice, sid: string, meta: SelectionMeta)
    ensures Edited(Edited(s, ToggleSelection(sid, meta)), ToggleSelection(sid, meta)) == s
       <==> (sid in s.selection ==> s.selection[sid] == meta)
  {
    hide Drawers.Apply, Dock.Apply, ApplyPatch, NamespacesIncluding, Toggled;
    ToggleTwice(s.selection, sid, meta);
  }

  /** Toggling the focus on a cluster twice gives the slice back exactly when no
      other cluster was focused. */
  lemma FocusToggleUndo(s: ScopeSlice, c: string)
    ensures Edited(Edited(s, ToggleFocus(c)), ToggleFocus(c)) == s
       <==> (s.focusedClusterId.None? || s.focusedClusterId == Some(c))
  {
    hide Drawers.Apply, Dock.Apply, ApplyPatch, NamespacesIncluding, Toggled;
  }

  lemma ToggleTwice(sel: map<string, SelectionMeta>, sid: string, meta: SelectionMeta)
    ensures Toggled(Toggled(sel, sid, meta), sid, meta) == sel <==> (sid in sel ==> sel[sid] == meta)
  {
    var twice := Toggled(Toggled(sel, sid, meta), sid, meta);
    if sid in sel {
      assert twice[sid] == meta;
      if sel[sid] == meta { assert twice == sel; }
    } else {
      assert twice == sel;
    }
  }
}

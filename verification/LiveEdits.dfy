/** Which top-level fields of the store each edit of the live copy writes, and with
    what. */
module LiveEdits {
  import opened Lists
  import opened Slices
  import opened Tabs
  import Dock
  import Drawers

  /** An absent field of a patch leaves the old value. */
  predicate Given<T(==)>(field: Option<T>, was: T, now: T) {
    match field
    case Some(v) => now == v
    case None => now == was
  }

  /** A namespace filter that would hide the target is extended by its namespace;
      a filter that shows everything (the empty one), or has it, stays. */
  predicate Reveals(was: set<string>, ns: Option<string>, now: set<string>) {
    if ns.Some? && was != {} && ns.value !in was then now == was + {ns.value} else now == was
  }

  /** Edits of the table: kind, namespaces, selection, filter and focus. Each sets
      the fields named here and leaves every other field of the store. */
  lemma TableEditExact(s: AppState, e: SliceEdit)
    ensures var r := EditLive(s, e);
            match e
            case SelectKind(k) => r == s.(selectedKindId := Some(k), selection := map[], pendingDetail := None, filterEditing := false)
            case SetKindId(k) => r == s.(selectedKindId := k)
            case SetKindClusters(m) => r == s.(kindClusters := m)
            case SetNamespaces(ns) => r == s.(selectedNamespaces := ns, selection := map[])
            case SetSelection(sel) => r == s.(selection := sel)
            case SetTableFilter(q) => r == s.(tableFilter := q)
            case SetFilterEditing(open) => r == s.(filterEditing := open)
            case ClearFocus => r == s.(focusedClusterId := None)
            case ConsumePending => r == s.(pendingDetail := None)
            case _ => true
  {
    hide Drawers.Apply, Dock.Apply, ApplyPatch, Toggled, NamespacesIncluding;
  }

  /** Toggling takes a selected row out, or puts the row in with its description;
      every other row stays. */
  lemma ToggleExact(s: AppState, sid: string, meta: SelectionMeta)
    ensures var r := EditLive(s, ToggleSelection(sid, meta));
            && r == s.(selection := r.selection)
            && (sid in r.selection <==> sid !in s.selection)
            && (sid in r.selection ==> r.selection[sid] == meta)
            && forall x :: x != sid ==> (x in r.selection <==> x in s.selection) && (x in s.selection ==> r.selection[x] == s.selection[x])
  {
    hide Drawers.Apply, Dock.Apply, ApplyPatch, NamespacesIncluding;
  }

  /** Toggling the focus on a cluster drops it if it is there, else puts it there. */
  lemma FocusExact(s: AppState, c: string)
    ensures EditLive(s, ToggleFocus(c)) == s.(focusedClusterId := if s.focusedClusterId == Some(c) then None else Some(c))
    ensures EditLive(s, DropFocus(c))
         == s.(selection := map[], focusedClusterId := if s.focusedClusterId == Some(c) then None else s.focusedClusterId)
  {
    hide Drawers.Apply, Dock.Apply, ApplyPatch, Toggled, NamespacesIncluding;
  }

  /** Navigating to an object selects its kind, leaves the object pending, clears
      the selection and reveals its namespace. */
  lemma NavigateExact(s: AppState, t: DetailEntry)
    ensures var r := EditLive(s, NavigateToDetail(t));
            && r == s.(selectedKindId := Some(t.kindId), selection := map[], pendingDetail := Some(t), selectedNamespaces := r.selectedNamespaces)
            && Reveals(s.selectedNamespaces, t.ns, r.selectedNamespaces)
  {
    hide Drawers.Apply, Dock.Apply, ApplyPatch, Toggled;
  }

  /** Drawer and dock actions write the drawer and the dock fields only. */
  lemma PanelEditExact(s: AppState, e: SliceEdit)
    ensures var r := EditLive(s, e);
            match e
            case DrawerEdit(op) =>
              var d := Drawers.Apply(Drawers.DrawerState(s.drawer, s.drawerId, s.tray), op);
              r == s.(drawer := d.drawer, drawerId := d.drawerId, tray := d.tray)
            case DockEdit(op) =>
              var d := Dock.Apply(Dock.DockState(s.dockTabs, s.dockActive, s.dockMin), op);
              r == s.(dockTabs := d.tabs, dockActive := d.active, dockMin := d.min)
            case _ => true
  {
    hide Drawers.Apply, Dock.Apply, ApplyPatch, Toggled, NamespacesIncluding;
  }

  /** A patch writes the fields it gives and no other, and none outside the live
      copy. */
  lemma PatchExact(s: AppState, p: SlicePatch)
    ensures var r := EditLive(s, Patch(p));
            && r == Spread(s, Capture(r))
            && Given(p.selectedKindId, s.selectedKindId, r.selectedKindId)
            && Given(p.selectedNamespaces, s.selectedNamespaces, r.selectedNamespaces)
            && Given(p.selection, s.selection, r.selection)
            && Given(p.pendingDetail, s.pendingDetail, r.pendingDetail)
            && Given(p.tableFilter, s.tableFilter, r.tableFilter)
            && Given(p.filterEditing, s.filterEditing, r.filterEditing)
            && Given(p.focusedClusterId, s.focusedClusterId, r.focusedClusterId)
            && Given(p.kindClusters, s.kindClusters, r.kindClusters)
            && Given(p.dockTabs, s.dockTabs, r.dockTabs)
            && Given(p.dockActive, s.dockActive, r.dockActive)
            && Given(p.dockMin, s.dockMin, r.dockMin)
            && Given(p.drawer, s.drawer, r.drawer)
            && Given(p.drawerId, s.drawerId, r.drawerId)
            && Given(p.tray, s.tray, r.tray)
            && Given(p.tableScroll, s.tableScroll, r.tableScroll)
  {
    hide Drawers.Apply, Dock.Apply, Toggled, NamespacesIncluding;
  }

  /** An extra is taken if the cluster is listed, something is in view, and it is
      not in view already; removing one drops every mention of it, the selection and
      a focus on it. */
  lemma ExtrasExact(s: AppState, id: string)
    ensures AddScopeExtra(s, id)
         == if id in s.contexts && (s.selectedContext.Some? || s.selectedVirtualContextId.Some?) && id !in ActiveClusters(s)
            then s.(scopeExtras := s.scopeExtras + [id]) else s
    ensures RemoveScopeExtra(s, id)
         == s.(scopeExtras := Without(s.scopeExtras, [id]), selection := map[],
               focusedClusterId := if s.focusedClusterId == Some(id) then None else s.focusedClusterId)
  {
    hide ActiveClusters, Drawers.Apply, Dock.Apply, ApplyPatch, Toggled, NamespacesIncluding;
  }

  /** A kind list: the selected kind stays if it is listed, or if it is a dynamic
      one and discovery is still running; otherwise the first listed kind is
      selected, or none. Nothing else changes. */
  lemma SetKindsExact(s: AppState, ks: seq<string>, pending: bool)
    ensures var k := s.selectedKindId;
            var stays := k.Some? && k.value != "" && (k.value in ks || (pending && ("crd:" <= k.value || "wkcrd:" <= k.value)));
            SetKinds(s, ks, pending) == s.(kinds := ks, selectedKindId := if stays then k else if ks == [] then None else Some(ks[0]))
  {
    hide Drawers.Apply, Dock.Apply, ApplyPatch, Toggled, NamespacesIncluding;
  }
}

# Cluster tabs, verified

A Dafny model of the hard parts of FerrisScope: the cluster-tab state machine of
the UI store, the connection and namespace effects around it, the preferences
file, the atomic file writer, the OAuth callback codec, and the theme resolver
with its colour printer.

## What is modelled

**Tabs and their two copies.** Every open cluster tab has an anchor (a plain
context or a saved virtual context), ad-hoc extras and a large slice of UI state.
The active tab's state is live in top-level fields of the store; `openTabs` keeps
a copy of every tab, and the active tab's copy there is stale until the next
stash. `Tabs` has the reducers as the store has them, both copies included.
`Views.ViewOf` forgets the copies: it is the plain map from tab id to contents,
plus order and active id, reading the active tab from the live fields (what
`tabViewOf` does for components). `Views` gives each action a one-line meaning on
that map, `Runs` proves that every action of the store is that operation whatever
is stale, and that the invariant of `Invariants.Inv` holds over all runs. `TabTheorems` states
the results a reader wants: what switching, closing and a new kubeconfig list do
exactly, that any tour of tabs ending where it began restores the store, and that
summed reconnect counters detect reconnects. `Store.AppStore` is the object
itself: each of its actions replaces the state and is specified on the map.

Nested inside a tab are the drawer with its tray of minimised drawers and
back/forward history (`Drawers`), the two-placement dock (`Dock`), and the scope
resolver (`Scope`). Beside the invariants, `DrawerSteps`, `DockSteps` and
`LiveEdits` say for every action what it changes and what it leaves, and
`DrawerKeys` when two drawers count as one subject.

**Preferences.** `Prefs` has the writer and the reader of the preferences file,
legacy shapes and startup modes included; `PrefsRoundTrip` says exactly when a
restart reproduces the file, `PrefsMerge` what hydration does to tabs opened while
the file was loading, and `Rehydrate` that a store reads its own file back without
duplicating a tab, once or twice, and that a restart lands in order again.
`Restart` says which tabs come back, exactly, in each startup mode, and `OldFiles`
what a field missing from an old file stands for.

**Effects.** `Disconnect` and `Reconcile` cover which clusters lose their last tab
and when the backend is told; `Namespaces` the incremental namespace index, by
key, and `NamespaceObjects` the same by cluster and object.

**The rest.** `AtomicWrite` is an interleaving model of any number of writers,
readers, crashes and process restarts; `Oauth` the percent codec and callback
parser (sections 2.1 and 2.3 of RFC 3986, section 4.1.2 of RFC 6749); `ThemeCache`
the memoised theme resolver; `Color` the colour parser and hex printer; `Semver`
the version comparison.

## Where the code falls short of a comment, a type or an expectation

The model follows the code. Each entry names the exact condition and, where one
helps, a run that fails it.

- A comment says an empty kubeconfig list "prunes nothing"
  (ui/src/store.ts:1102), but the pruning of extras does not look at the list's
  length (ui/src/store.ts:1116): every extra goes.
  `Counterexamples.EmptyListIff`, `Counterexamples.EmptyListLosesExtra`.
- `addScopeExtra` writes the live copy only (ui/src/store.ts:1276), while the
  disconnect selector and the connection effect read `openTabs`. The selector is
  exact under the condition of `Disconnect.DisconnectIff`
  (`Counterexamples.StaleDisconnect` fails it); what the effect tracks is what the
  tabs span now under that of `Reconcile.TrackedIsCurrentIff`, which an added or
  removed extra keeps under those of `Disconnect.AddAgreesIff` and
  `Disconnect.RemoveAgreesIff`
  (`Counterexamples.DroppedWhileShown` drops a cluster a tab has been showing all
  along).
- `hydratePrefs` replaces the saved virtual contexts (ui/src/store.ts:1898). A
  tab opened on one saved moments before is left on an anchor that does not
  resolve: `PrefsMerge.HydrateKeepsIff`, `Counterexamples.HydrateDangles`.
- The declaration of `goFleet` says it drops to Fleet "without losing any open
  tab's state" (ui/src/store.ts:589-590); the action closes every tab
  (ui/src/store.ts:1204-1214), so nothing is lost exactly when none is open:
  `TabTheorems.GoFleetIff`.
- `patchDockTab` takes any field of a dock tab (ui/src/store.ts:702). A patch of the
  id or the placement can leave a placement showing a tab it does not hold, or two
  dock tabs with one id: `Dock.PatchOkIff`, `TabTheorems.PatchDockIff`,
  `Dock.MovedTabDangles`.
- The prefs payload is documented to round-trip every field
  (ui/src/store.ts:2060-2064). Kind and namespaces selected while no tab is open
  are written but not read back: `PrefsRoundTrip.FleetRoundTrip`,
  `Counterexamples.FleetKindIsLost`. With a tab open, a tab whose anchor or kind
  the reading store does not know is dropped or loses its kind:
  `PrefsRoundTrip.RoundTrip`, `Restart.RestartExact`.
- Folding duplicated extras into a virtual context would repeat a cluster
  (`Scope.AbsorbKeepsScope`); in reachable states extras are distinct, so it does
  not happen (`TabTheorems.AbsorbMeaning`).
- The namespace index is accumulated in a plain object (ui/src/App.tsx:675-683). A
  namespace named like a member every object inherits, and "constructor" is a name
  a cluster accepts, makes the rebuild throw, and nothing is published for any name
  while it lives: `Namespaces.PublishedIff`, `Namespaces.ConstructorBlocks`.
- The percent decoder reads each byte as one character, so only ASCII text comes
  back as it was: `Oauth.TextRoundTrip`, `Oauth.AccentIsLost`.
- A request has its theme cache key to itself exactly when neither of its ids
  contains a NUL (`ThemeCache.KeyUnsharedIff`); otherwise it may be answered with
  the theme of another request (`ThemeCache.ThemeResolver.AskBoth`,
  `ThemeCache.WrongTheme`).
- `toHexColor` of an `rgb()` colour is stable when printed again under the
  condition of `Color.RgbaRoundTrip`: not on an alpha just below 1 that rounds to
  255, and with a channel above 255 only if exactly eight digits come out that do
  not end in "ff" (`Color.WideChannelFails` prints seven, which do not parse).
- The joined key of the connection effect takes the single empty id for no id at
  all: `Reconcile.KeySharedIff`.
- Tempfile names repeat after 2^64 draws of one process
  (`AtomicWrite.TmpNameInjective`).

## Assumptions about the environment

They are the `Allowed`, `FileOk`, `SessionAllowed` and `Sane` predicates: random
UUIDs are new and not empty; dock-tab ids handed to `addDockTab` are new to every
tab; a patch of a dock tab fits (the exact condition above); a patch of a slice
that writes dock, drawer or tray fields writes well formed ones; a saved
preferences file has distinct tab ids and anchors, no repeated extras within a tab,
no empty id, and a tab of it that joins an open set brings an id of its own
(`Rehydrate.WrittenFileOk` proves this of every file the store itself writes for a
fresh store); restored session slices that land in a tab are well formed
and share no dock tab; ids
used as keys of plain objects elsewhere (cluster ids, which contain "::", and tab
UUIDs) are not names of inherited members; a process does not outlive 2^64
tempfile draws, and process ids of live processes differ; targets of the atomic
writer are not themselves named like its tempfiles.

## Model

| member | source | states |
|---|---|---|
| Views.SwitchRefines | ui/src/store.ts:851-863 | switching stashes the live copy, loads the target and so moves only the focus of the logical map; the stored entry of the new active tab is up to date |
| Views.FocusRefines | ui/src/store.ts:868-891 | removing tabs from a stashed list removes exactly the named tabs from the map; focus moves only if the active one went, to its old position clamped, or to an emptied Fleet |
| Views.StashContents | ui/src/store.ts:834-846 | stashing turns the list into the logical contents: the stale copy is overwritten, no other entry changes |
| Views.EditLiveRefines | ui/src/store.ts:1278-1460 | every edit of the live fields edits the active tab of the map and no other |
| Views.PatchRefines | ui/src/store.ts:1436-1444 | a patch addressed to a tab changes exactly that tab, wherever its current copy is |
| Views.OwnerRefines | ui/src/store.ts:954-979 | a dock edit routed by dock-tab id reaches exactly the tab owning it, even though a stale copy of the active tab may be edited too |
| Views.OpenRefines | ui/src/store.ts:1153-1197 | opening switches to the tab that has the anchor, refuses an unknown virtual context, and otherwise appends one fresh tab |
| Views.DeleteVirtualRefines | ui/src/store.ts:1252-1265 | deleting a virtual context closes exactly the tabs anchored on it |
| Views.SetContextsRefines | ui/src/store.ts:1097-1138 | pruning both copies and closing dead tabs is: prune the map, close the tabs dead in it; live copy and stored entry agree afterwards |
| Views.SessionRefines | ui/src/store.ts:1461-1479 | a restored session lands in the current copy of each untouched tab and nowhere else |
| Runs.StepRefines | ui/src/store.ts:1090-1932 | one action of the store is one operation on the logical map, for every reachable state of the two copies |
| Runs.ModelStepKeeps | ui/src/store.ts:1090-1932 | every allowed operation on the map keeps the tab-set and contents invariant |
| Runs.StepKeeps | ui/src/store.ts:1090-1932 | every allowed action of the store keeps its invariant, the anchor stored for the active tab included |
| Runs.RunRefines | ui/src/store.ts:1090-1932 | over every allowed run the store refines the plain map, and the invariant holds at the end |
| TabTheorems.ReachableOk | ui/src/store.ts:1097-1265 | in every state reached from a fresh store: ids distinct and non-empty, an active tab exactly when one is open, one resolving anchor per tab, no anchor twice, docks, drawers and trays well formed, no dock tab owned twice |
| TabTheorems.FreshStoreOk | ui/src/store.ts:997-1095 | the store as the app starts it satisfies the invariant, so it holds of some state and runs can begin |
| TabTheorems.SwitchesRestore | ui/src/store.ts:851-863 | any sequence of switches ending on the tab it began with restores every top-level field, and the tab list up to the stash |
| TabTheorems.OpenExact | ui/src/store.ts:1153-1197 | opening goes to the tab that has the anchor and changes nothing else, or is refused, or adds one tab last and active: on that anchor, without extras, empty but for the first listed kind |
| TabTheorems.CloseExact | ui/src/store.ts:1201-1202 | closing the k-th tab removes it and nothing else; the focus goes to the tab after it, else before it, else Fleet, and only if it was active |
| TabTheorems.SetContextsExact | ui/src/store.ts:1097-1138 | a tab closes iff the list is non-empty, it holds no dock tab and its anchor is gone; survivors keep order, slice and the extras still listed; if the active one goes, the survivor now standing at its old position is active, or the last, or the store is on Fleet; both copies agree |
| TabTheorems.DeleteVirtualExact | ui/src/store.ts:1252-1265 | exactly the tabs on the deleted context close; every other stays as it was, in order; the focus is placed likewise |
| TabTheorems.AliveIff | ui/src/store.ts:1099-1114 | a tab's anchor counts as alive iff the list is empty, the tab has dock tabs, or its context, or some member of its virtual context, is listed |
| TabTheorems.OwnerTouchesOne | ui/src/store.ts:954-979 | a dock edit addressed by dock-tab id changes the one tab owning it and no other, and nothing if none does |
| TabTheorems.PatchDockIff | ui/src/store.ts:1569-1578 | on the store: patching a dock tab keeps its invariant iff the patch fits and its new id is free |
| TabTheorems.GoFleetIff | ui/src/store.ts:1209-1214 | going to Fleet leaves no tab and an empty live copy; it loses nothing iff no tab was open |
| TabTheorems.SetKindsSettles | ui/src/store.ts:1296-1320 | with a complete kind list the kind in view is listed, none iff the list is empty; a listed selection survives; the same list again changes nothing |
| TabTheorems.SessionExact | ui/src/store.ts:1461-1479 | an unused tab gets exactly the dock, drawer and tray saved for it, its drawer under the id drawn; anything else stays |
| TabTheorems.SessionOnce | ui/src/store.ts:1461-1479 | a session leaves used tabs alone, and restoring it again, with drawer and dock ids drawn anew, changes nothing |
| TabTheorems.SecondRestoreAllowed | ui/src/store.ts:1461-1479 | whatever ids it draws, that second restore is allowed after a first, so runs may contain it |
| TabTheorems.AbsorbMeaning | ui/src/store.ts:1234-1251 | folding the extras into the active virtual context leaves the resolved cluster list identical, in every reachable state |
| TabTheorems.AbsorbExact | ui/src/store.ts:1234-1251 | the saved members grow, at the end, by exactly the extras that are not among them, and no extra is left; no other saved context changes |
| TabTheorems.AddRemoveExtra | ui/src/store.ts:1266-1287 | an accepted extra is appended to the clusters in view, and removing it gives the previous state back except selection and focus |
| TabTheorems.RunEpoch | ui/src/store.ts:1610-1624 | after any run a cluster's epoch is its old one plus the number of its reconnects in the run |
| TabTheorems.EpochSumsDetect | ui/src/store.ts:2232-2238 | for two states of a run with the same clusters in view, the epoch sums are equal iff none of them was reconnected in between |
| Scope.SelectActiveClusterIds | ui/src/store.ts:2155-2177 | the loop computes the resolved list |
| Scope.ResolvedList | ui/src/store.ts:2155-2177 | the resolved list starts with the base, holds exactly base and known extras, and is duplicate-free iff the base is |
| Scope.ScopeExact | ui/src/store.ts:2155-2177 | what each kind of selection shows: known members of a virtual context in order, or the plain cluster whether listed or not, or neither; then the known extras |
| Scope.ResolvedDistinct | ui/src/store.ts:2155-2177 | no cluster is listed twice when the saved members are distinct |
| Scope.CleanedExtras | ui/src/store.ts:1753-1760 | deduplicating and filtering the extras when restoring them does not change the resolved list |
| Scope.AbsorbKeepsScope | ui/src/store.ts:1234-1251 | folding extras in keeps the resolved list iff the surviving new extras are distinct |
| Scope.AddThenRemoveExtra | ui/src/store.ts:1266-1279 | an extra that is known and not in view goes to the end of the list, and dropping it restores the extras |
| Scope.EpochSumDetects | ui/src/store.ts:2226-2238 | the sum never falls, and stands still iff no listed cluster was bumped |
| Scope.EpochCounts | ui/src/store.ts:1618-1621 | a cluster's counter grows by its own reconnects and by no other's |
| Dock.RemoveDockTabs | ui/src/store.ts:940-952 | the placement loop computes the removal |
| Dock.RemovalComposes | ui/src/store.ts:940-952 | removing batch A then B is removing both at once, in either order: tabs, shown tabs and minimised flags |
| Dock.ShownAfterRemoval | ui/src/store.ts:935-952 | a placement keeps its shown tab if it survives, else shows the last survivor, or nothing iff none is left |
| Dock.CloseByPlacementExact | ui/src/store.ts:1552-1558 | closing a placement empties and restores it and leaves the other one alone |
| Dock.ApplyOk | ui/src/store.ts:1523-1578 | every dock action, patches under the exact condition of `Dock.PatchOkIff`, keeps ids unique and each placement showing nothing iff empty, else one of its own tabs |
| Dock.RunOk | ui/src/store.ts:1523-1578 | the same over every run of dock actions |
| Dock.PatchOkIff | ui/src/store.ts:1569-1577 | a patch of any fields keeps the dock well formed iff it renames only to an unused id, renames or moves only a tab that is not showing, and moves it only next to one that is |
| Dock.MovedTabDangles | ui/src/store.ts:1576-1577 | the only bottom tab patched to the right leaves the bottom showing it |
| Dock.AddThenClose | ui/src/store.ts:1523-1545 | a new tab shows, unminimised, in its placement; closing it restores the tabs, never disturbs the other placement, and falls back to its own last tab |
| DockSteps.AddExact | ui/src/store.ts:1523-1533 | a new tab goes last, is shown by its placement, the bottom one if it names none, and restores it; the other placement stays |
| DockSteps.FocusExact | ui/src/store.ts:1559-1564 | focusing a listed tab shows it in its own placement and changes nothing else; an unlisted id changes nothing |
| DockSteps.SetMinExact | ui/src/store.ts:1565-1566 | minimising sets the flag of one placement and nothing else |
| DockSteps.CloseAt | ui/src/store.ts:1534-1545 | closing a tab takes out its entry of the list and no other |
| DockSteps.FlagAfterRemoval | ui/src/store.ts:940-952 | after a removal a placement is minimised iff it was and a tab is left in it |
| DockSteps.CloseAllExact | ui/src/store.ts:1546-1551 | closing everything leaves no tab, nothing shown, nothing minimised |
| DockSteps.StatePatchExact | ui/src/store.ts:1569-1575 | a state patch gives each patched key the new value, keeps every other key, and touches no other field and no other tab |
| DockSteps.FieldPatchExact | ui/src/store.ts:1576-1577 | a field patch replaces exactly the fields given |
| Slices.RowToggleUndo | ui/src/store.ts:1580-1586 | toggling a row twice restores the slice iff no other description stood under it |
| Slices.FocusToggleUndo | ui/src/store.ts:1289-1292 | toggling the focus on a cluster twice restores the slice iff no other cluster was focused |
| LiveEdits.TableEditExact | ui/src/store.ts:1326-1402 | each edit of kind, namespaces, selection, filter or focus sets the named top-level fields and leaves every other field of the store |
| LiveEdits.ToggleExact | ui/src/store.ts:1580-1586 | toggling takes a selected row out or puts it in with its description; every other row stays |
| LiveEdits.FocusExact | ui/src/store.ts:1289-1293 | toggling the focus drops it from the focused cluster, else moves it there |
| LiveEdits.NavigateExact | ui/src/store.ts:1991-1999 | navigating selects the kind, leaves the object pending, clears the selection and extends a filter that would hide it |
| LiveEdits.PanelEditExact | ui/src/store.ts:1403-1460 | drawer and dock actions write the drawer and the dock fields only |
| LiveEdits.PatchExact | ui/src/store.ts:1436-1444 | a patch writes exactly the fields it gives, fifteen of them |
| LiveEdits.ExtrasExact | ui/src/store.ts:1266-1288 | an extra is taken iff it is listed, something is in view and it is not; removing one drops its every mention, the selection and a focus on it |
| LiveEdits.SetKindsExact | ui/src/store.ts:1296-1320 | for complete and running discovery: the kind in view stays iff it is listed, or dynamic while discovery runs; else the first listed kind or none |
| Drawers.TrayWithOk | ui/src/store.ts:162-166 | parking keeps at most 12 entries with distinct subjects and ids, the parked drawer last |
| Drawers.ApplyOk | ui/src/store.ts:1403-1460 | every drawer action keeps the tray well formed, ids unique across drawer and tray, a drawer open iff it has an id, and the history within its cap |
| Drawers.RunOk | ui/src/store.ts:1403-1460 | the same over every run of drawer actions |
| Drawers.MinimizeRestore | ui/src/store.ts:1415-1458 | minimise then restore returns the same drawer and id; the tray is unchanged iff it was below its cap and held no entry of that subject |
| Drawers.RestoreConserves | ui/src/store.ts:1445-1458 | restoring swaps drawer instances between slot and tray without losing one, iff no other parked entry has the displaced drawer's subject |
| DrawerSteps.OpenExact | ui/src/store.ts:1403-1413 | the drawer asked for is shown and the tray stays; the instance goes on exactly for the same subject, or a detail after a detail of one kind |
| DrawerSteps.CloseExact | ui/src/store.ts:1414 | closing leaves no drawer and parks nothing |
| DrawerSteps.MinimizeExact | ui/src/store.ts:1415-1420 | the open drawer is parked last under its id, a detail with its view, in place of its subject's entry, or at the cost of the oldest of twelve |
| DrawerSteps.RestoreExact | ui/src/store.ts:1445-1458 | entry k opens under its id and the displaced drawer is parked among the others; an unknown id does nothing |
| DrawerSteps.CloseItemExact | ui/src/store.ts:1459 | one entry goes, the others keep their order, the open drawer stays |
| DrawerSteps.CloseAllExact | ui/src/store.ts:1460 | the tray is emptied, the open drawer stays |
| DrawerSteps.SaveViewExact | ui/src/store.ts:1421-1435 | the view is written to the one instance named, open or parked, iff it is the detail the key stands for |
| DrawerKeys.KeyIff | ui/src/store.ts:143-158 | two drawers share a key iff they show the same subject, for ids free of the separators |
| DrawerSteps.ArrowStep | ui/src/store.ts:2007-2034 | back goes one place earlier on an unchanged timeline, forward one later, each staying at its end; tray and id stay, and either press undoes the other up to the saved view |
| DrawerSteps.BacksThenForwards | ui/src/store.ts:2007-2034 | k presses of back land k places earlier or on the oldest entry, and k presses of forward return |
| DrawerSteps.NavigateExact | ui/src/store.ts:2000-2006 | following a link shows it, forgets the future, keeps the latest 50 of the past, and one back returns |
| Invariants.EditKeeps | ui/src/store.ts:1403-1568 | any allowed edit of one tab keeps the whole invariant |
| Invariants.OwnerPatchIff | ui/src/store.ts:954-979 | a patch of a dock tab keeps the whole invariant iff it fits its dock and takes no other cluster tab's dock id |
| Invariants.OpenKeeps | ui/src/store.ts:1153-1197 | opening never duplicates an anchor or leaves one unresolved |
| Invariants.DeleteVirtualKeeps | ui/src/store.ts:1252-1265 | after deleting a virtual context every remaining anchor still resolves |
| Invariants.SessionKeeps | ui/src/store.ts:1461-1479 | restoring slices keeps docks, drawers and dock-tab ownership well formed, whenever those that land are well formed and share no dock tab |
| Names.SortedNamesExact | ui/src/store.ts:2108 | the namespaces are written ascending, each once, and read back to the same set |
| Look.ClampUiScaleSnaps | ui/src/theme.ts:81-86 | clamping lands on one of the 17 grid points, at most half a step away inside the range and on its ends outside, and is idempotent; a scale is left alone iff it is a grid point |
| PrefsRoundTrip.LookRoundTrip | ui/src/store.ts:1690-1930 | appearance, settings and update state survive a restart exactly, the scale snapped |
| PrefsRoundTrip.WrittenFields | ui/src/store.ts:2083-2146 | appearance, dock sizes, settings and update state are each written under their own name |
| PrefsRoundTrip.RoundTrip | ui/src/store.ts:2065-2147 | with a tab open under "latest_view", a restart writes the same payload again iff every tab's anchor and kind is known to the store that reads it |
| PrefsRoundTrip.FleetRoundTrip | ui/src/store.ts:1877-1889 | with no tab open it does iff no kind and no namespace is selected |
| PrefsRoundTrip.LegacyKeepsScope | ui/src/store.ts:1811-1860 | a file from before the tab model opens as one tab under the saved id, with the saved namespaces, showing exactly the clusters its selection showed |
| PrefsRoundTrip.LatestClusterRestores | ui/src/store.ts:1836-1838 | under "latest_cluster" at most one tab returns, on a plain context, without extras; one iff the saved cluster is named and known |
| PrefsRoundTrip.FleetRestoresNothing | ui/src/store.ts:1832-1835 | under "fleet" nothing is reopened whatever the file says |
| PrefsMerge.HydrateRefines | ui/src/store.ts:1828-1889 | hydration on the two copies is the merge on the logical map |
| PrefsMerge.OpenTabsWin | ui/src/store.ts:1864-1876 | tabs opened before hydration stay, unchanged, in place and active, even if the file names them; no restored tab repeats one of their anchors, and every other restored tab joins |
| PrefsMerge.JoinOrder | ui/src/store.ts:1869-1875 | restored tabs that join keep the order of the file |
| PrefsMerge.HydrateKeepsIff | ui/src/store.ts:1864-1898 | hydration keeps the invariant iff the file still has every virtual context an open tab is anchored on |
| Rehydrate.HydrateOwn | ui/src/store.ts:1864-1889 | hydrating a store with open tabs from its own payload, in any startup scope, changes no tab and adds none |
| Rehydrate.OwnPayloadCycle | ui/src/store.ts:2060-2147 | so payload, hydration and payload again give the same payload, the scale snapped |
| Rehydrate.HydrateTwice | ui/src/store.ts:1690-1889 | reading the same file twice at startup leaves exactly what reading it once leaves |
| Rehydrate.WrittenFileOk | ui/src/store.ts:2065-2147 | every file a store in order writes is sane for a fresh store: ids and anchors distinct, no empty id, extras distinct |
| Rehydrate.RestartOk | ui/src/store.ts:1690-1932 | a restart lands in the invariant again, in every startup scope |
| Restart.RestartExact | ui/src/store.ts:1776-1889 | after a restart under "latest_view", for every cluster and kind list, the tabs are the saved ones with a restorable anchor, in the saved order, each with exactly what the file keeps of it (the kind only if known); the saved active tab is active if it came back, else the first |
| Restart.LatestClusterExact | ui/src/store.ts:1836-1838 | after a restart under "latest_cluster", for every cluster and kind list: the active tab alone, without its extras, iff it is on a plain context the new store may know; else none |
| Restart.SelectionExact | ui/src/store.ts:2101-2107 | the single selection written beside the tabs is the active tab's: read on its own it brings back that tab, with its known extras, kind and namespaces |
| OldFiles.FullReadsAlike | ui/src/store.ts:1690-1932 | into any store, a file is read as the same file with every absent field written out: the bare theme as its mode, a tab's missing kind and namespaces as the file's own, each default by value |
| OldFiles.InitialDefaults | ui/src/store.ts:1690-1932 | a file that names none of the fields added since leaves them as a store that read no file has them |
| OldFiles.RefRead | ui/src/store.ts:1846-1854 | a saved tab without an id takes the one drawn, and a virtual context wins over a cluster saved beside it |
| Disconnect.SelectClustersToDisconnect | ui/src/store.ts:912-925 | the two loops compute the clusters of the tab that no other listed tab spans |
| Disconnect.CloseTabList | ui/src/store.ts:1201-1202 | closing a tab leaves the stashed list without it, whoever gets the focus |
| Disconnect.DisconnectExact | ui/src/store.ts:908-925 | on an up-to-date list the selector names exactly the clusters that leave the union when the tab closes |
| Disconnect.DisconnectIff | ui/src/store.ts:908-925 | on any list it does iff the tab is the active one, or the stale scope adds no cluster to the union and the live one took none of the tab's own |
| Disconnect.StoredUnionIff | ui/src/App.tsx:617-632 | the union read from the stored tabs is the current one iff the stored and the live scope of the active tab add the same clusters to the others' |
| Disconnect.StoredExtrasAgree | ui/src/App.tsx:617-632 | equal stored and live extras of the active tab are enough for it |
| Disconnect.AddAgreesIff | ui/src/store.ts:1266-1277 | an extra accepted while the extras agree keeps the stored union current iff another tab spans that cluster already |
| Disconnect.RemoveAgreesIff | ui/src/store.ts:1278-1279 | an extra removed while they agree keeps it current iff the cluster stays in view, was not in view, or is spanned by another tab |
| Reconcile.ConnectionReconciler.Render | ui/src/App.tsx:640-649 | the effect runs iff the joined key changed; between lists the keys tell apart, the tracked list is current afterwards and exactly the departed clusters are dropped, even so |
| Reconcile.ConnectionReconciler.RenderAll | ui/src/App.tsx:640-649 | any run of renders, of any lists, is the fold of the keyed effect over them |
| Reconcile.RenderedClean | ui/src/App.tsx:640-649 | over lists their keys tell apart that fold tracks the last list and has dropped, step by step, what left |
| Reconcile.ConnectionReconciler.Follow | ui/src/App.tsx:617-649 | over any run of stores whose cluster ids are non-empty and NUL-free, the object tracks what the last state's tabs span and has dropped exactly the clusters that stopped being spanned at some step |
| Reconcile.KeySharedIff | ui/src/App.tsx:633 | two lists of NUL-free ids share their key iff they are equal, or one is empty and the other just an empty id |
| Reconcile.ProperIsClean | ui/src/App.tsx:617-633 | such ids make lists that their keys tell apart |
| Reconcile.DropsExact | ui/src/App.tsx:641-647 | a cluster is dropped at a step iff it was in the previous list and is not in this one |
| Reconcile.ReconcileExact | ui/src/App.tsx:617-649 | over any run of stores the tracked list is the union of the scopes stored in the list, and a cluster is dropped exactly when it leaves that union |
| Reconcile.FollowExact | ui/src/App.tsx:617-649 | the fold over the lists of such a run, from a new object, ends tracking what the last state's tabs span, every departed cluster dropped and no other |
| Reconcile.TrackedIsCurrentIff | ui/src/App.tsx:617-649 | what is tracked is what the tabs span now iff the stored and live scopes agree |
| Reconcile.DropsAreCurrent | ui/src/App.tsx:641-647 | between states where they agree, a cluster is dropped exactly when no tab spans it any more |
| Namespaces.NamespaceIndex.Refresh | ui/src/App.tsx:674-685 | the rebuild loop publishes the inverse index of `seen`, unless an entry is named like an inherited member: then nothing is published |
| Namespaces.NamespaceIndex.ChangeScope | ui/src/App.tsx:656-671 | a change of scope forgets the entries, and empties the published index only when no cluster is left |
| Namespaces.NamespaceIndex.Replay | ui/src/App.tsx:705-736 | after any history of events the entries and the published index are those of the history, whatever an earlier scope had published |
| Namespaces.BucketExact | ui/src/App.tsx:674-685 | a name's clusters are exactly those with an entry of it, once each, in first-seen order |
| Namespaces.PutKeys | ui/src/App.tsx:707-736 | a key keeps the place where it first came |
| Namespaces.SeenIsLastWord | ui/src/App.tsx:707-736 | under every key the map holds the last word of the history: the latest named upsert not deleted since |
| NamespaceObjects.KeyIff | ui/src/App.tsx:666-670 | rows of different clusters never share a key, nor do different objects of one, for object ids without a colon |
| NamespaceObjects.WordIsName | ui/src/App.tsx:707-736 | under an object's key stands the name its own cluster last gave it, whatever other clusters say of the same id |
| Namespaces.IndexExact | ui/src/App.tsx:674-736 | a cluster stands under a name iff some key's last word says so; no name stands without one |
| NamespaceObjects.IndexByObject | ui/src/App.tsx:674-736 | a cluster stands under a name iff some object of it has that name now |
| Namespaces.PublishedIff | ui/src/App.tsx:674-736 | after any event what is published is that index iff no live entry is named like an inherited member; else it is what was published before it, an earlier scope's map included |
| Namespaces.PublishedExact | ui/src/App.tsx:674-736 | while nothing blocks, a cluster is published under a name iff some key's last word says so, once each, in first-seen order |
| Namespaces.ConstructorBlocks | ui/src/App.tsx:674-685 | a run in which a namespace called "constructor" keeps another from being published, and an earlier scope's map stays |
| AtomicWrite.TmpNameInjective | crates/agent/src/atomic_write.rs:33-41 | tempfile names are equal iff stem, process id and counter value (modulo 2^64) are |
| AtomicWrite.TmpNameShape | crates/agent/src/atomic_write.rs:33-41 | a tempfile name begins with a dot and the stem and ends in ".tmp" |
| AtomicWrite.NextOk | crates/agent/src/atomic_write.rs:24-41 | whatever steps interleave, each writer's tempfile holds exactly what it has written, and no two writers share one |
| AtomicWrite.StepCommits | crates/agent/src/atomic_write.rs:24-31 | a step changes an ordinary file only by renaming onto it, which puts that writer's complete bytes there |
| AtomicWrite.TargetHoldsLastCommit | crates/agent/src/atomic_write.rs:15-31 | after any run, crashes and restarts included, a target holds the bytes of the last rename onto it, or what it held at the start |
| AtomicWrite.ReadIsWhole | crates/agent/src/atomic_write.rs:15-19 | a reader at the end of any run sees the initial content or the complete bytes some write was begun with, never a prefix or a mix |
| AtomicWrite.FromIdle | crates/agent/src/atomic_write.rs:15-19 | the same from any disk on which no write is under way, with the write named in the run |
| AtomicWrite.TmpBeside | crates/agent/src/atomic_write.rs:33-41 | a writer's tempfile stands beside its target and is named after it, or after a fixed stem |
| AtomicWrite.FilesExact | crates/agent/src/atomic_write.rs:24-31 | what each step does to every file: creating empties the tempfile, writing extends it, renaming moves all of it onto the target, nothing else touches a file |
| AtomicWrite.TidyRun | crates/agent/src/atomic_write.rs:24-31 | over any run in which no writer fails and no process dies, finished writers leave no tempfile behind |
| AtomicWrite.Process.TmpSibling | crates/agent/src/atomic_write.rs:33-41 | each call draws the next counter value, wrapping at 2^64 |
| AtomicWrite.Process.Write | crates/agent/src/atomic_write.rs:24-31 | an undisturbed call replaces the target, leaves no tempfile and touches no other file, however the bytes are chunked |
| Oauth.UrlEncode | crates/app/src/agent_oauth.rs:351-362 | the loop over UTF-8 bytes computes the percent encoding of any text |
| Oauth.ByteExact | crates/app/src/agent_oauth.rs:351-362 | a byte is sent as itself iff it is one of those 66 characters, else as a percent sign and its two upper-case digits |
| Oauth.UrlDecode | crates/app/src/agent_oauth.rs:407-430 | the index loop computes the decoding, stray percent signs and bad escapes included |
| Oauth.EscapeExact | crates/app/src/agent_oauth.rs:407-430 | two digits in either case decode to their byte, a plus and a digit to that digit, bytes that are not text to zero, anything else to a blank |
| Oauth.DecodeEncode | crates/app/src/agent_oauth.rs:351-430 | decoding encoded bytes gives the bytes back |
| Oauth.TextRoundTrip | crates/app/src/agent_oauth.rs:351-430 | decoding an encoded text gives its UTF-8 bytes, one character each, so the text itself iff it is ASCII |
| Oauth.AccentIsLost | crates/app/src/agent_oauth.rs:407-430 | one accented letter comes back as two characters |
| Oauth.EncodeInjective | crates/app/src/agent_oauth.rs:351-362 | two different texts never encode alike |
| Oauth.EncodedIsPlain | crates/app/src/agent_oauth.rs:351-362 | encoded text has only letters, digits, "-", "_", ".", "~" and percent signs |
| Oauth.ParseCallbackParams | crates/app/src/agent_oauth.rs:379-405 | the loop over pairs computes the fold over pieces |
| Oauth.TakeAllExact | crates/app/src/agent_oauth.rs:388-404 | the result is the last code, the last state, and, if there is an error pair at all, the last error or description |
| Oauth.CallbackRoundTrip | crates/app/src/agent_oauth.rs:379-405 | a query with encoded code and state, in any order among other pairs, parses back to their bytes, to the texts themselves iff they are ASCII |
| ThemeCache.GetTheme | ui/src/theme.ts:1654-1656 | the theme of that id if registered, else the default one |
| ThemeCache.GetPalette | ui/src/theme.ts:1658-1664 | the wanted palette, else the theme's default, else its first |
| ThemeCache.KeyUnsharedIff | ui/src/theme.ts:1680 | no other request shares a request's cache key iff neither of its ids contains a NUL |
| ThemeCache.ServedAlike | ui/src/theme.ts:1689-1720 | what a request is owed determines its answer |
| ThemeCache.KeyCollides | ui/src/theme.ts:1680 | a literal pair of different requests with one key |
| ThemeCache.WrongTheme | ui/src/theme.ts:1673-1722 | two registered themes whose requests share a key and resolve differently |
| ThemeCache.ThemeResolver.ResolveTheme | ui/src/theme.ts:1673-1722 | on every call history the answer serves the request that first had the key, which is the request itself if its ids are free of NUL: the ids found, the mode asked for, and key by key the override's value, else that of the wanted palette's map for that mode, and likewise every typography, sizing, display and chart group; entries are never replaced |
| ThemeCache.ThemeResolver.AskBoth | ui/src/theme.ts:1673-1722 | of two requests sharing a key the second gets the first one's object, right iff both resolve alike |
| Color.HexRoundTrip | ui/src/theme.ts:2179-2214 | every `#` text that parses, leniently or not, survives printing, and printing is idempotent on it |
| Color.WellFormedParses | ui/src/theme.ts:2179-2193 | every 3-, 4-, 6- or 8-digit colour parses to its red, green, blue and alpha in that order, short digits doubled, opaque without an alpha |
| Color.LenientPair | ui/src/theme.ts:2179-2193 | what the lenient number parser makes of blanks, signs, letters and "0x" in a pair |
| Color.RgbaRoundTrip | ui/src/theme.ts:2179-2214 | for all channels: byte channels survive and alpha moves by at most 1/510; printing again is stable iff the channels are bytes and the alpha is 1 or rounds below it, or an opaque colour fills eight digits not ending in "ff" |
| Color.WideChannelFails | ui/src/theme.ts:2194-2214 | a channel of 256 prints seven digits, which do not parse |
| Color.ChannelsSurviveIff | ui/src/theme.ts:2179-2214 | the channels of an `rgb()` colour survive printing iff each is at most 255 |
| Semver.Gt | ui/src/store.ts:42-59 | the loop decides the zero-padded comparison of the segments |
| Semver.RaisedIsGreater | ui/src/store.ts:42-59 | raising a segment and keeping the earlier ones makes a version greater, whatever follows |
| Semver.Trichotomy | ui/src/store.ts:42-59 | two versions are incomparable iff their segments agree up to zeros, and never both greater |
| Semver.Transitive | ui/src/store.ts:42-59 | greater is transitive |
| Semver.StrictWeakOrder | ui/src/store.ts:42-59 | versions with the same segments compare alike with every other version |
| Semver.SameSegmentsIff | ui/src/store.ts:42-59 | agreement means: the shorter is a prefix and the rest of the longer is zeros |
| Semver.PrintedRoundTrip | ui/src/store.ts:42-59 | reading a printed dotted version, with or without its tag letter, gives its segments |
| Semver.TaggedVersion | ui/src/store.ts:42-59 | a tag after a dash is one more segment, so a version tagged by a word counts as its release |
| Semver.LenientPiece | ui/src/store.ts:42-59 | a piece counts as the number it begins with, a blank or plus sign skipped, whatever follows |
| Counterexamples.EmptyListIff | ui/src/store.ts:1099-1138 | an empty kubeconfig list keeps tabs, order and focus, and changes nothing iff no tab has extras |
| Counterexamples.EmptyListLosesExtra | ui/src/store.ts:1116 | after the same run an empty list takes the extra away |
| Counterexamples.StaleDisconnect | ui/src/store.ts:1276 | after a run of three actions the selector names a cluster the store goes on showing |
| Counterexamples.DroppedWhileShown | ui/src/App.tsx:641-647 | a run of five actions: the effect drops a cluster the active tab has shown since the third |
| Counterexamples.HydrateDangles | ui/src/store.ts:1898 | after saving and opening a virtual context, hydration leaves the active tab on an unresolved one |
| Counterexamples.FleetKindIsLost | ui/src/store.ts:1311-1319 | a kind list arriving on Fleet selects a kind a restart does not bring back |
| Counterexamples.RunsAllowed | ui/src/store.ts:1090-1932 | the runs of these five results are allowed ones from a fresh store |
| Store.AppStore.SetContexts | ui/src/store.ts:1097-1138 | new state: contexts replaced, tabs pruned and dead ones closed on the logical map; the focus placed at the old position, clamped |
| Store.AppStore.OpenTab | ui/src/store.ts:1153-1197 | new state: switch, refusal or one appended tab |
| Store.AppStore.SwitchTab | ui/src/store.ts:1199 | new state: the focus moved, nothing else |
| Store.AppStore.CloseTab | ui/src/store.ts:1201-1202 | new state: the tab gone, the focus placed |
| Store.AppStore.GoFleet | ui/src/store.ts:1209-1214 | new state: no tab, an empty live copy |
| Store.AppStore.DeleteVirtualContext | ui/src/store.ts:1252-1265 | new state: the virtual context and its tabs gone, the focus placed likewise |
| Store.AppStore.SetKinds | ui/src/store.ts:1296-1320 | new state: the kind list, and the active tab's kind kept or reset |
| Store.AppStore.EditActive | ui/src/store.ts:1326-1600 | new state: the active tab edited, no other |
| Store.AppStore.PatchTab | ui/src/store.ts:1436-1444 | new state: the named tab edited, no other |
| Store.AppStore.CloseDockTab | ui/src/store.ts:1534-1545 | new state: the dock tab closed in its owner |
| Store.AppStore.PatchDockTab | ui/src/store.ts:1569-1578 | new state: the dock tab rewritten in its owner, any field, if the patch fits |
| Store.AppStore.HydrateSession | ui/src/store.ts:1461-1479 | new state: untouched tabs get their saved docks and drawers |
| Store.AppStore.SaveVirtualContext | ui/src/store.ts:1215-1221 | new state: one more virtual context, nothing opened, and the clusters in view unchanged |
| Store.AppStore.RenameVirtualContext | ui/src/store.ts:1222-1227 | new state: the name changed, every tab and the clusters in view as they were |
| Store.AppStore.SetVirtualContextMembers | ui/src/store.ts:1228-1233 | new state: the members replaced, every tab as it was; a tab on that context shows the known members first and then each other known extra, any other shows what it did |
| Store.AppStore.AbsorbScopeExtras | ui/src/store.ts:1234-1251 | new state: extras folded into the virtual context, or nothing |
| Store.AppStore.AddScopeExtra | ui/src/store.ts:1266-1277 | new state: the extra added to the active tab if acceptable |
| Store.AppStore.RemoveScopeExtra | ui/src/store.ts:1278-1288 | new state: the extra, the row selection and a focus on it dropped |
| Store.AppStore.ClearClusterHealth | ui/src/store.ts:1610-1624 | new state: the cluster's epoch one higher, and the sum of epochs moved for exactly the lists containing it |
| Store.AppStore.HydratePrefs | ui/src/store.ts:1690-1932 | new state: look and virtual contexts replaced, tabs merged |
| Store.AppStore.Dispatch | ui/src/store.ts:1090-1932 | any allowed run leaves the store valid with its logical contents those of the plain map |

## Left out

- The rest of the store: metrics, health and forward maps, toasts, modals, palette, settings toggles, table views, resume epoch: one-branch updates of fields no tab action reads.
- `kindCache`, `sameJson` and the statuses set beside a list: they only keep object identities or loading flags.
- Kubeconfig contexts and kinds are their ids; context labels and kind records play no part in the logic modelled.
- Object identity of slices, tabs and views (`WeakMap` in `tabViewOf`, unchanged references returned by the reducers): only their values are modelled.
- `navigateToDetail` is modelled as the slice edit it makes; how tables consume the pending target is not.
- `reconcileFilter`, `synced` and `prunedNamespaceFilter`: ui/src/lib/nsFilter.ts is not part of this model.
- The session file's own reader and writer: ui/src/lib/session.ts is not part of this model; a restored slice arrives as a value.
- React: rendering, effect scheduling, unsubscribing and late events of a cancelled effect.
- Numbers: colour alpha, rounding and the UI scale are exact reals, so floating-point error, NaN and infinities are not modelled; version segments are unbounded integers.
- The `rgba()` regular expression and number scanning: an `rgb()` colour arrives with its channels read.
- Text is a sequence of Unicode characters, not of UTF-16 code units: lengths, `sort` and `parseInt` treat a character beyond the basic plane as one. A channel read as minus zero counts as zero.
- `completeTokens`: a palette carries its completed tokens. Collection of cache entries by the `WeakMap` is not modelled.
- AtomicWrite.Process.Write: creating the parent directory and partial failure of one call are steps of the interleaving model (`Fail`, `Kill`), not of this method.
- The OAuth listener, token exchange, PKCE and everything network-bound.

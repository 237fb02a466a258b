/** The namespace index told by objects instead of keys: what each cluster last
    said about each of its namespaces. */
module NamespaceObjects {
  import opened Lists
  import opened Namespaces

  /** Keys tell objects apart, whatever the cluster ids, as long as object ids
      contain no colon (they are UUIDs). */
  lemma KeyIff(c: string, u: string, d: string, w: string)
    requires ':' !in u && ':' !in w
    ensures KeyOf(c, u) == KeyOf(d, w) <==> c == d && u == w
  {
    LastCut(c + ":", u, d + ":", w, ':');
    assert KeyOf(c, u) == (c + ":") + [':'] + u;
    assert KeyOf(d, w) == (d + ":") + [':'] + w;
    assert c + ":" == d + ":" ==> c == d by { if c + ":" == d + ":" { assert c == (c + ":")[..|c|]; assert d == (d + ":")[..|d|]; } }
  }

  predicate CleanRows(rows: seq<Row>) {
    forall i :: 0 <= i < |rows| ==> ':' !in rows[i].uid
  }

  predicate CleanEvent(e: Event) {
    match e
    case Upsert(_, row) => ':' !in row.uid
    case Delete(_, uid) => ':' !in uid
    case Snapshot(_, rows) => CleanRows(rows)
  }

  predicate CleanUids(events: seq<Event>) {
    forall i :: 0 <= i < |events| ==> CleanEvent(events[i])
  }

  // ----- What a cluster last said -----

  /** The name the last named row of this object carries, if there is one. */
  function LastName(rows: seq<Row>, uid: string, before: Option<string>): Option<string> {
    if rows == [] then before
    else
      var row := rows[|rows| - 1];
      if row.uid == uid && row.name.Some? && row.name.value != "" then row.name
      else LastName(rows[..|rows| - 1], uid, before)
  }

  /** The name object `uid` of cluster `cid` has after the events: the latest one
      its cluster reported, unless its cluster has deleted it since. */
  function NameOf(events: seq<Event>, cid: string, uid: string): Option<string> {
    if events == [] then None
    else
      var before := NameOf(events[..|events| - 1], cid, uid);
      match events[|events| - 1]
      case Upsert(c, row) => if c == cid then LastName([row], uid, before) else before
      case Delete(c, u) => if c == cid && u == uid then None else before
      case Snapshot(c, rows) => if c == cid then LastName(rows, uid, before) else before
  }

  // ----- The map holds just that -----

  function EntryFor(cid: string, uid: string, name: Option<string>): Option<Entry> {
    if name.Some? then Some(Entry(KeyOf(cid, uid), cid, name.value)) else None
  }

  lemma {:induction false} RowsOf(rows: seq<Row>, c: string, cid: string, uid: string, before: Option<string>)
    requires CleanRows(rows) && ':' !in uid
    ensures LastRow(rows, c, KeyOf(cid, uid), EntryFor(cid, uid, before))
         == EntryFor(cid, uid, if c == cid then LastName(rows, uid, before) else before)
  {
    hide KeyOf;
    if rows != [] {
      var front, row := rows[..|rows| - 1], rows[|rows| - 1];
      KeyIff(c, row.uid, cid, uid);
      RowsOf(front, c, cid, uid, before);
    }
  }

  /** Under an object's key the map holds the name its cluster last gave it: what
      other clusters say of an object of the same id does not matter. */
  lemma {:induction false} WordIsName(events: seq<Event>, cid: string, uid: string)
    requires CleanUids(events) && ':' !in uid
    ensures LastWord(events, KeyOf(cid, uid)) == EntryFor(cid, uid, NameOf(events, cid, uid))
  {
    hide KeyOf, LastRow, LastName;
    if events != [] {
      var front, last := events[..|events| - 1], events[|events| - 1];
      WordIsName(front, cid, uid);
      assert CleanEvent(last);
      match last
      case Upsert(c, row) => RowsOf([row], c, cid, uid, NameOf(front, cid, uid));
      case Delete(c, u) => KeyIff(c, u, cid, uid);
      case Snapshot(c, rows) => RowsOf(rows, c, cid, uid, NameOf(front, cid, uid));
    }
  }

  /** The object an entry stands for. */
  ghost predicate Owned(e: Entry, key: string) {
    exists uid :: ':' !in uid && KeyOf(e.cid, uid) == key
  }

  lemma {:induction false} RowsOwned(rows: seq<Row>, c: string, key: string, before: Option<Entry>)
    requires CleanRows(rows) && (before.Some? ==> Owned(before.value, key))
    ensures LastRow(rows, c, key, before).Some? ==> Owned(LastRow(rows, c, key, before).value, key)
  {
    hide KeyOf;
    if rows != [] { RowsOwned(rows[..|rows| - 1], c, key, before); }
  }

  lemma {:induction false} WordOwned(events: seq<Event>, key: string)
    requires CleanUids(events)
    ensures LastWord(events, key).Some? ==> Owned(LastWord(events, key).value, key)
  {
    hide KeyOf, LastRow, Owned;
    if events != [] {
      var front, last := events[..|events| - 1], events[|events| - 1];
      WordOwned(front, key);
      assert CleanEvent(last);
      match last
      case Upsert(c, row) => RowsOwned([row], c, key, LastWord(front, key));
      case Delete(c, u) =>
      case Snapshot(c, rows) => RowsOwned(rows, c, key, LastWord(front, key));
    }
  }

  lemma {:induction false} NamedRow(rows: seq<Row>, uid: string, before: Option<string>)
    requires CleanRows(rows) && before.None?
    ensures LastName(rows, uid, before).Some? ==> ':' !in uid
  {
    if rows != [] { NamedRow(rows[..|rows| - 1], uid, before); }
  }

  lemma {:induction false} NamedIsClean(events: seq<Event>, cid: string, uid: string)
    requires CleanUids(events)
    ensures NameOf(events, cid, uid).Some? ==> ':' !in uid
  {
    hide LastName;
    if events != [] {
      var front, last := events[..|events| - 1], events[|events| - 1];
      NamedIsClean(front, cid, uid);
      assert CleanEvent(last);
      if NameOf(front, cid, uid).None? {
        match last
        case Upsert(c, row) => NamedRow([row], uid, None);
        case Delete(c, u) =>
        case Snapshot(c, rows) => NamedRow(rows, uid, None);
      }
    }
  }

  /** A cluster stands under a name exactly when some object of it has that name
      now. */
  lemma IndexByObject(events: seq<Event>, name: string, cid: string)
    requires CleanUids(events)
    ensures var index := Index(SeenAfter(events));
            name in index && cid in index[name] <==> exists uid :: NameOf(events, cid, uid) == Some(name)
  {
    hide KeyOf, Index, SeenAfter, LastWord, NameOf, CleanUids, ExactBucket;
    IndexExact(events, name, cid);
    var index := Index(SeenAfter(events));
    if name in index && cid in index[name] {
      var key, e :| LiveEntry(events, key, e) && e.name == name && e.cid == cid;
      WordOwned(events, key);
      var uid :| ':' !in uid && KeyOf(e.cid, uid) == key;
      WordIsName(events, cid, uid);
      assert NameOf(events, cid, uid) == Some(name);
    }
    if uid :| NameOf(events, cid, uid) == Some(name) {
      NamedIsClean(events, cid, uid);
      WordIsName(events, cid, uid);
      assert LiveEntry(events, KeyOf(cid, uid), Entry(KeyOf(cid, uid), cid, name));
    }
  }
}

/** The namespace index: a map of namespaces seen on each active cluster, kept
    incrementally, and the inverse map published from it. */
module Namespaces {
  import opened Lists

  /** One entry of the insertion-ordered `seen` map. */
  datatype Entry = Entry(key: string, cid: string, name: string)

  function KeyOf(cid: string, uid: string): string {
    cid + "::" + uid
  }

  function Keys(seen: seq<Entry>): (r: seq<string>)
    ensures |r| == |seen|
    ensures forall i :: 0 <= i < |seen| ==> r[i] == seen[i].key
  {
    seq(|seen|, i requires 0 <= i < |seen| => seen[i].key)
  }

  /** Writing an existing key keeps its place; a new key goes to the end. */
  function Put(seen: seq<Entry>, e: Entry): seq<Entry> {
    var k := IndexOf(Keys(seen), e.key);
    if k < |seen| then seen[k := e] else seen + [e]
  }

  /** Keys keep the order in which they first came. */
  lemma PutKeys(seen: seq<Entry>, e: Entry)
    ensures Keys(Put(seen, e)) == if e.key in Keys(seen) then Keys(seen) else Keys(seen) + [e.key]
  {
    var k := IndexOf(Keys(seen), e.key);
    if k < |seen| { assert Keys(seen[k := e]) == Keys(seen); } else { assert Keys(seen + [e]) == Keys(seen) + [e.key]; }
  }

  function Drop(seen: seq<Entry>, key: string): (r: seq<Entry>)
    ensures forall e :: e in r <==> e in seen && e.key != key
    ensures Keys(r) == Without(Keys(seen), [key])
  {
    if seen == [] then []
    else
      var rest := Drop(seen[1..], key);
      KeysCons(seen[0], seen[1..]);
      KeysCons(seen[0], rest);
      assert seen == [seen[0]] + seen[1..];
      if seen[0].key == key then rest else [seen[0]] + rest
  }

  lemma KeysCons(e: Entry, rest: seq<Entry>)
    ensures Keys([e] + rest) == [e.key] + Keys(rest)
  {
  }

  // ----- The published map -----

  /** Clusters with an entry of this name, in first-seen order. */
  function Bucket(seen: seq<Entry>, name: string): seq<string> {
    if seen == [] then []
    else
      var front, last := Bucket(seen[..|seen| - 1], name), seen[|seen| - 1];
      if last.name == name && last.cid !in front then front + [last.cid] else front
  }

  function NamesIn(seen: seq<Entry>): set<string> {
    set e | e in seen :: e.name
  }

  function Index(seen: seq<Entry>): map<string, seq<string>> {
    map name | name in NamesIn(seen) :: Bucket(seen, name)
  }

  lemma IndexSnoc(seen: seq<Entry>, e: Entry)
    ensures Index(seen + [e])
         == if e.name !in NamesIn(seen) then Index(seen)[e.name := [e.cid]]
            else if e.cid in Bucket(seen, e.name) then Index(seen)
            else Index(seen)[e.name := Bucket(seen, e.name) + [e.cid]]
  {
    hide Bucket, NamesIn;
    NamesSnoc(seen, e);
    forall n | n in NamesIn(seen) + {e.name}
      ensures Bucket(seen + [e], n)
           == if e.name == n && e.cid !in Bucket(seen, n) then Bucket(seen, n) + [e.cid] else Bucket(seen, n)
    {
      BucketStep(seen, e, n);
    }
    if e.name !in NamesIn(seen) {
      NoBucket(seen, e.name);
      assert Bucket(seen, e.name) + [e.cid] == [e.cid];
    }
  }

  lemma EmptyIndex()
    ensures Index([]) == map[]
  {
  }

  lemma IndexKeys(seen: seq<Entry>)
    ensures forall name :: name in Index(seen) <==> name in NamesIn(seen)
    ensures forall name :: name in Index(seen) ==> Index(seen)[name] == Bucket(seen, name)
  {
  }

  lemma NamesSnoc(seen: seq<Entry>, e: Entry)
    ensures NamesIn(seen + [e]) == NamesIn(seen) + {e.name}
  {
    var more := seen + [e];
    assert forall x :: x in more <==> x in seen || x == e;
    forall n ensures n in NamesIn(more) <==> n in NamesIn(seen) + {e.name} {
      if n in NamesIn(seen) { var x :| x in seen && x.name == n; assert x in more; }
      if n == e.name { assert e in more; }
    }
  }

  lemma {:induction false} NoBucket(seen: seq<Entry>, name: string)
    requires name !in NamesIn(seen)
    ensures Bucket(seen, name) == []
  {
    if seen != [] {
      var front := seen[..|seen| - 1];
      assert forall x :: x in front ==> x in seen;
      assert seen[|seen| - 1] in seen;
      NoBucket(front, name);
    }
  }

  /** First position in `seen` of an entry with this cluster and name. */
  ghost predicate FirstAt(seen: seq<Entry>, name: string, cid: string, i: nat) {
    && i < |seen| && seen[i].name == name && seen[i].cid == cid
    && forall j :: 0 <= j < i ==> !(seen[j].name == name && seen[j].cid == cid)
  }

  ghost predicate Has(seen: seq<Entry>, name: string, cid: string) {
    exists i :: 0 <= i < |seen| && seen[i].name == name && seen[i].cid == cid
  }

  /** A list of clusters: exactly those with an entry of this name, each once, in
      the order of their first such entry. */
  ghost predicate ExactBucket(seen: seq<Entry>, name: string, bucket: seq<string>) {
    && (forall c :: c in bucket <==> Has(seen, name, c))
    && Distinct(bucket)
    && (forall a, b, i, j :: 0 <= a < b < |bucket| && FirstAt(seen, name, bucket[a], i) && FirstAt(seen, name, bucket[b], j) ==> i < j)
  }

  lemma {:induction false} BucketExact(seen: seq<Entry>, name: string)
    ensures ExactBucket(seen, name, Bucket(seen, name))
  {
    if seen != [] {
      var front, last := seen[..|seen| - 1], seen[|seen| - 1];
      BucketExact(front, name);
      hide Bucket;
      assert seen == front + [last];
      BucketStep(front, last, name);
      if last.name == name && last.cid !in Bucket(front, name) {
        BucketGrows(front, last, Bucket(front, name));
      } else {
        BucketStays(front, last, name, Bucket(front, name));
      }
    }
  }

  lemma BucketStep(front: seq<Entry>, last: Entry, name: string)
    ensures Bucket(front + [last], name)
         == if last.name == name && last.cid !in Bucket(front, name) then Bucket(front, name) + [last.cid] else Bucket(front, name)
  {
    assert (front + [last])[..|front|] == front;
  }

  lemma HasSnoc(front: seq<Entry>, last: Entry, name: string, c: string)
    ensures Has(front + [last], name, c) <==> Has(front, name, c) || (last.name == name && last.cid == c)
  {
    var seen := front + [last];
    if Has(front, name, c) {
      var i :| 0 <= i < |front| && front[i].name == name && front[i].cid == c;
      assert seen[i] == front[i];
    }
    if last.name == name && last.cid == c { assert seen[|front|] == last; }
  }

  /** A first entry among more entries is the first among fewer, if there is one. */
  lemma FirstSnoc(front: seq<Entry>, last: Entry, name: string, c: string, i: nat)
    requires FirstAt(front + [last], name, c, i) && Has(front, name, c)
    ensures FirstAt(front, name, c, i)
  {
    var seen := front + [last];
    var k :| 0 <= k < |front| && front[k].name == name && front[k].cid == c;
    assert seen[k] == front[k];
    assert i <= k;
    assert forall j :: 0 <= j < |front| ==> seen[j] == front[j];
  }

  lemma BucketStays(front: seq<Entry>, last: Entry, name: string, bucket: seq<string>)
    requires ExactBucket(front, name, bucket)
    requires last.name == name ==> last.cid in bucket
    ensures ExactBucket(front + [last], name, bucket)
  {
    hide FirstAt, Has;
    forall c { HasSnoc(front, last, name, c); }
    forall a, b, i, j | 0 <= a < b < |bucket| && FirstAt(front + [last], name, bucket[a], i) && FirstAt(front + [last], name, bucket[b], j)
      ensures i < j
    {
      assert bucket[a] in bucket && bucket[b] in bucket;
      FirstSnoc(front, last, name, bucket[a], i);
      FirstSnoc(front, last, name, bucket[b], j);
    }
  }

  lemma BucketGrows(front: seq<Entry>, last: Entry, bucket: seq<string>)
    requires ExactBucket(front, last.name, bucket) && last.cid !in bucket
    ensures ExactBucket(front + [last], last.name, bucket + [last.cid])
  {
    hide Has;
    var name, grown := last.name, bucket + [last.cid];
    forall c { HasSnoc(front, last, name, c); }
    DistinctSnoc(bucket, last.cid);
    forall a, b, i, j | 0 <= a < b < |grown| && FirstAt(front + [last], name, grown[a], i) && FirstAt(front + [last], name, grown[b], j)
      ensures i < j
    {
      assert grown[a] == bucket[a] && bucket[a] in bucket;
      FirstSnoc(front, last, name, bucket[a], i);
      if b < |bucket| {
        assert bucket[b] in bucket;
        FirstSnoc(front, last, name, bucket[b], j);
      } else {
        NotEarlier(front, last, j);
      }
    }
  }

  lemma NotEarlier(front: seq<Entry>, last: Entry, j: nat)
    requires !Has(front, last.name, last.cid) && FirstAt(front + [last], last.name, last.cid, j)
    ensures j == |front|
  {
    assert forall i :: 0 <= i < |front| ==> (front + [last])[i] == front[i];
  }

  // ----- Events -----

  /** A row of a namespace list; its name may be missing or not a string. */
  datatype Row = Row(uid: string, name: Option<string>)

  datatype Event = Upsert(cid: string, row: Row) | Delete(cid: string, uid: string) | Snapshot(cid: string, rows: seq<Row>)

  function PutRow(seen: seq<Entry>, cid: string, row: Row): seq<Entry> {
    if Truthy(row.name) then Put(seen, Entry(KeyOf(cid, row.uid), cid, row.name.value)) else seen
  }

  function PutRows(seen: seq<Entry>, cid: string, rows: seq<Row>): seq<Entry> {
    if rows == [] then seen else PutRow(PutRows(seen, cid, rows[..|rows| - 1]), cid, rows[|rows| - 1])
  }

  function Seen(seen: seq<Entry>, e: Event): seq<Entry> {
    match e
    case Upsert(cid, row) => PutRow(seen, cid, row)
    case Delete(cid, uid) => Drop(seen, KeyOf(cid, uid))
    case Snapshot(cid, rows) => PutRows(seen, cid, rows)
  }

  function SeenAfter(events: seq<Event>): seq<Entry> {
    if events == [] then [] else Seen(SeenAfter(events[..|events| - 1]), events[|events| - 1])
  }

  // ----- An independent account of the same history: the last word per key -----

  function LastRow(rows: seq<Row>, cid: string, key: string, before: Option<Entry>): Option<Entry> {
    if rows == [] then before
    else
      var row := rows[|rows| - 1];
      if Truthy(row.name) && KeyOf(cid, row.uid) == key then Some(Entry(key, cid, row.name.value))
      else LastRow(rows[..|rows| - 1], cid, key, before)
  }

  /** The entry the history leaves under a key: the most recent named upsert, or
      nothing if there was none or a delete came after it. */
  function LastWord(events: seq<Event>, key: string): Option<Entry> {
    if events == [] then None
    else
      var before := LastWord(events[..|events| - 1], key);
      match events[|events| - 1]
      case Upsert(cid, row) => LastRow([row], cid, key, before)
      case Delete(cid, uid) => if KeyOf(cid, uid) == key then None else before
      case Snapshot(cid, rows) => LastRow(rows, cid, key, before)
  }

  function Lookup(seen: seq<Entry>, key: string): (r: Option<Entry>)
    ensures r.Some? ==> r.value in seen && r.value.key == key
    ensures r.None? <==> key !in Keys(seen)
  {
    var k := IndexOf(Keys(seen), key);
    if k < |seen| then Some(seen[k]) else None
  }

  lemma PutLookup(seen: seq<Entry>, e: Entry, key: string)
    requires Distinct(Keys(seen))
    ensures Distinct(Keys(Put(seen, e)))
    ensures Lookup(Put(seen, e), key) == if key == e.key then Some(e) else Lookup(seen, key)
  {
    var k := IndexOf(Keys(seen), e.key);
    if k < |seen| {
      assert Keys(seen[k := e]) == Keys(seen);
      if key == e.key { DistinctIndex(Keys(seen), k); }
    } else {
      assert Keys(seen + [e]) == Keys(seen) + [e.key];
      DistinctSnoc(Keys(seen), e.key);
      IndexOfConcat(Keys(seen), [e.key], key);
    }
  }

  lemma DropLookup(seen: seq<Entry>, gone: string, key: string)
    requires Distinct(Keys(seen))
    ensures Distinct(Keys(Drop(seen, gone)))
    ensures Lookup(Drop(seen, gone), key) == if key == gone then None else Lookup(seen, key)
  {
    WithoutDistinct(Keys(seen), [gone]);
    var kept := Drop(seen, gone);
    if key != gone && key in Keys(seen) {
      var e := Lookup(kept, key).value;
      var i :| 0 <= i < |seen| && seen[i] == e;
      DistinctIndex(Keys(seen), i);
    }
  }

  lemma {:induction false} PutRowsLookup(seen: seq<Entry>, cid: string, rows: seq<Row>, key: string)
    requires Distinct(Keys(seen))
    ensures Distinct(Keys(PutRows(seen, cid, rows)))
    ensures Lookup(PutRows(seen, cid, rows), key) == LastRow(rows, cid, key, Lookup(seen, key))
  {
    if rows != [] {
      var front, row := rows[..|rows| - 1], rows[|rows| - 1];
      PutRowsLookup(seen, cid, front, key);
      if Truthy(row.name) {
        PutLookup(PutRows(seen, cid, front), Entry(KeyOf(cid, row.uid), cid, row.name.value), key);
      }
    }
  }

  /** The incremental map holds, under every key, the last word of the history. */
  lemma {:induction false} SeenIsLastWord(events: seq<Event>, key: string)
    ensures Distinct(Keys(SeenAfter(events)))
    ensures Lookup(SeenAfter(events), key) == LastWord(events, key)
  {
    if events != [] {
      var front, e := events[..|events| - 1], events[|events| - 1];
      SeenIsLastWord(front, key);
      match e
      case Upsert(cid, row) =>
        PutRowsLookup(SeenAfter(front), cid, [row], key);
        assert ([row])[..0] == [];
        assert PutRows(SeenAfter(front), cid, [row][..0]) == SeenAfter(front);
      case Delete(cid, uid) => DropLookup(SeenAfter(front), KeyOf(cid, uid), key);
      case Snapshot(cid, rows) => PutRowsLookup(SeenAfter(front), cid, rows, key);
    }
  }

  ghost predicate LiveEntry(events: seq<Event>, key: string, e: Entry) {
    LastWord(events, key) == Some(e)
  }

  /** The index of the live entries: a cluster stands under a name exactly when
      some key's last word is an entry of that cluster and name; names without any
      are absent; and the clusters of a name stand once each, in the order of
      their first entries. */
  lemma IndexExact(events: seq<Event>, name: string, cid: string)
    ensures var index := Index(SeenAfter(events));
            && (name in index && cid in index[name] <==>
                exists key, e :: LiveEntry(events, key, e) && e.name == name && e.cid == cid)
            && (name in index ==> index[name] != [] && ExactBucket(SeenAfter(events), name, index[name]))
  {
    var seen := SeenAfter(events);
    BucketExact(seen, name);
    if Has(seen, name, cid) {
      var i :| 0 <= i < |seen| && seen[i].name == name && seen[i].cid == cid;
      assert seen[i] in seen;
      SeenIsLastWord(events, seen[i].key);
      DistinctIndex(Keys(seen), i);
      assert LiveEntry(events, seen[i].key, seen[i]);
    }
    forall key, e | LiveEntry(events, key, e) && e.name == name && e.cid == cid ensures Has(seen, name, cid) && name in Index(seen) {
      SeenIsLastWord(events, key);
      assert e in seen;
      var i :| 0 <= i < |seen| && seen[i] == e;
    }
    if name in NamesIn(seen) {
      var e :| e in seen && e.name == name;
      var i :| 0 <= i < |seen| && seen[i] == e;
      assert Has(seen, name, e.cid);
    }
  }

  // ----- Publishing -----

  /** Members every plain JavaScript object inherits. Looking one up finds a value
      that is not a list, and the rebuild throws before it publishes. */
  const INHERITED := {
    "constructor", "hasOwnProperty", "isPrototypeOf", "propertyIsEnumerable", "toLocaleString", "toString", "valueOf",
    "__proto__", "__defineGetter__", "__defineSetter__", "__lookupGetter__", "__lookupSetter__"
  }

  predicate Publishable(seen: seq<Entry>) {
    forall e :: e in seen ==> e.name !in INHERITED
  }

  /** What is published after a history: the index of the last publishable state,
      or what was published before it began. */
  function PublishedAfter(before: map<string, seq<string>>, events: seq<Event>): map<string, seq<string>> {
    if events == [] then before
    else if Publishable(SeenAfter(events)) then Index(SeenAfter(events))
    else PublishedAfter(before, events[..|events| - 1])
  }

  /** No published map has an inherited name. */
  predicate Proper(published: map<string, seq<string>>) {
    forall name :: name in published ==> name !in INHERITED
  }

  lemma {:induction false} PublishedProper(before: map<string, seq<string>>, events: seq<Event>)
    requires Proper(before)
    ensures Proper(PublishedAfter(before, events))
  {
    hide INHERITED;
    if events != [] {
      PublishedProper(before, events[..|events| - 1]);
      IndexNames(SeenAfter(events));
    }
  }

  lemma IndexNames(seen: seq<Entry>)
    ensures Publishable(seen) <==> forall name :: name in INHERITED ==> name !in Index(seen)
  {
    if !Publishable(seen) {
      var e :| e in seen && e.name in INHERITED;
      assert e.name in NamesIn(seen);
    }
  }

  /** A key whose last word carries an inherited member's name. */
  ghost predicate Blocked(events: seq<Event>) {
    exists key, e :: LiveEntry(events, key, e) && e.name in INHERITED
  }

  lemma BlockedIff(events: seq<Event>)
    ensures Blocked(events) <==> !Publishable(SeenAfter(events))
  {
    hide INHERITED;
    var seen := SeenAfter(events);
    if Blocked(events) {
      var key, e :| LiveEntry(events, key, e) && e.name in INHERITED;
      SeenIsLastWord(events, key);
      assert e in seen;
    }
    if e :| e in seen && e.name in INHERITED {
      var i :| 0 <= i < |seen| && seen[i] == e;
      SeenIsLastWord(events, e.key);
      DistinctIndex(Keys(seen), i);
      assert LiveEntry(events, e.key, e);
    }
  }

  /** After any event, what is published is the index of the live entries exactly
      when none of them is named like an inherited member, whatever was published
      before; otherwise it is what was published before that event, for every
      name. */
  lemma PublishedIff(before: map<string, seq<string>>, events: seq<Event>)
    requires Proper(before) && events != []
    ensures PublishedAfter(before, events) == Index(SeenAfter(events)) <==> !Blocked(events)
    ensures Blocked(events) ==> PublishedAfter(before, events) == PublishedAfter(before, events[..|events| - 1])
  {
    hide INHERITED;
    BlockedIff(events);
    PublishedProper(before, events);
    IndexNames(SeenAfter(events));
  }

  /** While nothing blocks, a cluster is published under a name exactly when some
      key's last word says so, in first-seen order. */
  lemma PublishedExact(before: map<string, seq<string>>, events: seq<Event>, name: string, cid: string)
    requires Proper(before) && events != [] && !Blocked(events)
    ensures var published := PublishedAfter(before, events);
            && (name in published && cid in published[name] <==>
                exists key, e :: LiveEntry(events, key, e) && e.name == name && e.cid == cid)
            && (name in published ==> published[name] != [] && ExactBucket(SeenAfter(events), name, published[name]))
  {
    hide INHERITED, Publishable, Index;
    PublishedIff(before, events);
    IndexExact(events, name, cid);
  }

  /** A namespace called "constructor", a name the cluster accepts, keeps one
      called "default" from being published: what was there before stays. */
  lemma ConstructorBlocks(before: map<string, seq<string>>)
    ensures var events := [Upsert("a", Row("1", Some("constructor"))), Upsert("a", Row("2", Some("default")))];
            PublishedAfter(before, events) == before && "default" in Index(SeenAfter(events))
  {
    var first, second := Upsert("a", Row("1", Some("constructor"))), Upsert("a", Row("2", Some("default")));
    var one, two := Entry(KeyOf("a", "1"), "a", "constructor"), Entry(KeyOf("a", "2"), "a", "default");
    assert [first, second][..1] == [first] && [first][..0] == [];
    assert SeenAfter([first]) == [one] by { assert SeenAfter([first][..0]) == []; }
    assert SeenAfter([first, second]) == Put([one], two);
    assert Put([one], two) == [one, two] by { assert two.key[|two.key| - 1] != one.key[|one.key| - 1]; }
    assert one in [one, two] && two in [one, two] && one in [one];
    assert PublishedAfter(before, [first][..0]) == before;
  }

  /** The effect's mutable state: the `seen` map and what was last published. */
  class NamespaceIndex {
    var seen: seq<Entry>
    var published: map<string, seq<string>>

    constructor ()
      ensures seen == [] && published == map[]
    {
      seen, published := [], map[];
    }

    /** Rebuild the inverse map from scratch and publish it. A name every object
        inherits makes the lookup fail, and nothing is published. */
    method Refresh()
      modifies this`published
      ensures published == if Publishable(seen) then Index(seen) else old(published)
    {
      hide INHERITED, Index;
      var next: map<string, seq<string>> := map[];
      EmptyIndex();
      for k := 0 to |seen|
        invariant next == Index(seen[..k])
        invariant forall i :: 0 <= i < k ==> seen[i].name !in INHERITED
        invariant published == old(published)
      {
        var e := seen[k];
        assert seen[..k + 1] == seen[..k] + [e];
        IndexSnoc(seen[..k], e);
        IndexKeys(seen[..k]);
        if e.name in INHERITED {
          assert e in seen;
          return;
        }
        if e.name in next {
          if e.cid !in next[e.name] {
            next := next[e.name := next[e.name] + [e.cid]];
          }
        } else {
          next := next[e.name := [e.cid]];
        }
      }
      assert seen[..|seen|] == seen;
      published := next;
    }

    method OnUpsert(cid: string, row: Row)
      modifies this
      ensures seen == Seen(old(seen), Upsert(cid, row)) && published == if Publishable(seen) then Index(seen) else old(published)
    {
      if row.name.Some? && row.name.value != "" {
        seen := Put(seen, Entry(KeyOf(cid, row.uid), cid, row.name.value));
      }
      Refresh();
    }

    method OnDelete(cid: string, uid: string)
      modifies this
      ensures seen == Seen(old(seen), Delete(cid, uid)) && published == if Publishable(seen) then Index(seen) else old(published)
    {
      seen := Drop(seen, KeyOf(cid, uid));
      Refresh();
    }

    method MergeSnapshot(cid: string, rows: seq<Row>)
      modifies this
      ensures seen == Seen(old(seen), Snapshot(cid, rows)) && published == if Publishable(seen) then Index(seen) else old(published)
    {
      for k := 0 to |rows|
        invariant seen == PutRows(old(seen), cid, rows[..k]) && published == old(published)
      {
        assert rows[..k + 1][..k] == rows[..k];
        var row := rows[k];
        if row.name.Some? && row.name.value != "" {
          seen := Put(seen, Entry(KeyOf(cid, row.uid), cid, row.name.value));
        }
      }
      assert rows[..|rows|] == rows;
      Refresh();
    }

    /** The set of clusters in view changed: the entries start over. The published
        map is emptied only when no cluster is left; else the previous one stays
        until the first refresh. */
    method ChangeScope(anyCluster: bool)
      modifies this
      ensures seen == [] && published == if anyCluster then old(published) else map[]
    {
      seen := [];
      if !anyCluster {
        published := map[];
      }
    }

    /** Any history of events, from any number of clusters, after a change of
        scope. */
    method Replay(events: seq<Event>)
      requires seen == []
      modifies this
      ensures seen == SeenAfter(events) && published == PublishedAfter(old(published), events)
    {
      for k := 0 to |events|
        invariant seen == SeenAfter(events[..k])
        invariant published == PublishedAfter(old(published), events[..k])
      {
        assert events[..k + 1][..k] == events[..k];
        match events[k]
        case Upsert(cid, row) => OnUpsert(cid, row);
        case Delete(cid, uid) => OnDelete(cid, uid);
        case Snapshot(cid, rows) => MergeSnapshot(cid, rows);
      }
      assert events[..|events|] == events;
    }
  }
}

/** When two drawers count as showing the same subject. */
module DrawerKeys {
  import opened Lists
  import opened Drawers

  // ----- Subjects -----

  predicate SameRef(a: DetailRef, b: DetailRef) {
    a.clusterId == b.clusterId && a.kindId == b.kindId && OrEmpty(a.ns) == OrEmpty(b.ns) && a.name == b.name
  }

  predicate SameSide(a: CompareSide, b: CompareSide) {
    a.clusterId == b.clusterId && OrEmpty(a.ns) == OrEmpty(b.ns) && a.name == b.name
  }

  /** The same kind of drawer on the same objects, in the same order. What a panel
      shows of them, and how it got there, does not matter. */
  predicate SameSubject(d: Drawer, e: Drawer) {
    match d
    case Detail(at, _, _, _) => e.Detail? && SameRef(at, e.at)
    case Logs(targets, _, _) => e.Logs? && targets == e.targets
    case Compare(kindId, a, b) => e.Compare? && kindId == e.kindId && SameSide(a, e.a) && SameSide(b, e.b)
    case Inspect(kindId, subjects) => e.Inspect? && kindId == e.kindId && SameList(subjects, e.subjects)
  }

  /** An empty list and the list of one empty id look alike when joined. */
  predicate SameList(a: seq<string>, b: seq<string>) {
    a == b || (a == [] && b == [""]) || (a == [""] && b == [])
  }

  /** The ids a key is cut by do not contain what it is cut at. */
  predicate Clean(d: Drawer) {
    match d
    case Detail(at, _, _, _) => '|' !in at.clusterId && '|' !in at.kindId && '|' !in OrEmpty(at.ns)
    case Logs(targets, _, _) => forall i :: 0 <= i < |targets| ==> CleanTarget(targets[i])
    case Compare(kindId, a, b) => '|' !in kindId && CleanSide(a) && CleanSide(b)
    case Inspect(kindId, subjects) => '|' !in kindId && forall i :: 0 <= i < |subjects| ==> ',' !in subjects[i]
  }

  predicate CleanTarget(t: ObserveTarget) {
    ',' !in t.clusterId && Segment(t.kindId) && Segment(t.ns) && Segment(t.name)
  }

  predicate CleanSide(x: CompareSide) {
    ',' !in x.clusterId && Segment(OrEmpty(x.ns)) && Segment(x.name)
  }

  predicate Segment(s: string) {
    ',' !in s && '/' !in s
  }

  // ----- Texts -----

  lemma Prefixed(p: string, x: string, y: string)
    ensures p + x == p + y <==> x == y
  {
    if p + x == p + y { assert x == (p + x)[|p|..] && y == (p + y)[|p|..]; }
  }

  lemma JoinIff(a: seq<string>, b: seq<string>)
    requires (forall p :: p in a ==> ',' !in p) && forall p :: p in b ==> ',' !in p
    ensures Join(a, ',') == Join(b, ',') <==> SameList(a, b)
  {
    if a != [] && b != [] {
      if Join(a, ',') == Join(b, ',') { JoinInjective(a, b, ','); }
    } else {
      JoinEmpty(a);
      JoinEmpty(b);
    }
  }

  lemma JoinEmpty(a: seq<string>)
    ensures Join(a, ',') == "" <==> a == [] || a == [""]
  {
    if |a| > 1 { assert Join(a, ',')[|a[0]|] == ','; }
  }

  // ----- Keys of the parts -----

  lemma TargetIff(t: ObserveTarget, u: ObserveTarget)
    requires CleanTarget(t) && CleanTarget(u)
    ensures TargetKey(t) == TargetKey(u) <==> t == u
  {
    LastCut(t.clusterId + "/" + t.kindId + "/" + t.ns, t.name, u.clusterId + "/" + u.kindId + "/" + u.ns, u.name, '/');
    LastCut(t.clusterId + "/" + t.kindId, t.ns, u.clusterId + "/" + u.kindId, u.ns, '/');
    LastCut(t.clusterId, t.kindId, u.clusterId, u.kindId, '/');
  }

  lemma TargetPlain(t: ObserveTarget)
    requires CleanTarget(t)
    ensures ',' !in TargetKey(t) && TargetKey(t) != ""
  {
  }

  lemma SideIff(x: CompareSide, y: CompareSide)
    requires CleanSide(x) && CleanSide(y)
    ensures SideKey(x) == SideKey(y) <==> SameSide(x, y)
    ensures ',' !in SideKey(x) && ',' !in SideKey(y)
  {
    LastCut(x.clusterId + "/" + OrEmpty(x.ns), x.name, y.clusterId + "/" + OrEmpty(y.ns), y.name, '/');
    LastCut(x.clusterId, OrEmpty(x.ns), y.clusterId, OrEmpty(y.ns), '/');
  }

  function TargetKeys(targets: seq<ObserveTarget>): (r: seq<string>)
    ensures |r| == |targets|
    ensures forall i :: 0 <= i < |r| ==> r[i] == TargetKey(targets[i])
  {
    seq(|targets|, i requires 0 <= i < |targets| => TargetKey(targets[i]))
  }

  lemma NoneEmpty(k: seq<string>)
    requires forall i :: 0 <= i < |k| ==> k[i] != ""
    ensures k != [""]
  {
    assert |k| == 1 ==> k[0] != "";
  }

  lemma TargetsIff(a: seq<ObserveTarget>, b: seq<ObserveTarget>)
    requires forall i :: 0 <= i < |a| ==> CleanTarget(a[i])
    requires forall i :: 0 <= i < |b| ==> CleanTarget(b[i])
    ensures Join(TargetKeys(a), ',') == Join(TargetKeys(b), ',') <==> a == b
  {
    hide TargetKey, CleanTarget, Join;
    var k, l := TargetKeys(a), TargetKeys(b);
    forall i | 0 <= i < |a| ensures ',' !in k[i] && k[i] != "" { TargetPlain(a[i]); }
    forall i | 0 <= i < |b| ensures ',' !in l[i] && l[i] != "" { TargetPlain(b[i]); }
    JoinIff(k, l);
    NoneEmpty(k);
    NoneEmpty(l);
    if k == l {
      forall i | 0 <= i < |a| ensures a[i] == b[i] { assert k[i] == l[i]; TargetIff(a[i], b[i]); }
      assert a == b;
    }
  }

  // ----- Keys of drawers -----

  lemma DetailKeyIff(a: DetailRef, b: DetailRef)
    requires '|' !in a.clusterId && '|' !in a.kindId && '|' !in OrEmpty(a.ns)
    requires '|' !in b.clusterId && '|' !in b.kindId && '|' !in OrEmpty(b.ns)
    ensures DetailKey(a) == DetailKey(b) <==> SameRef(a, b)
  {
    hide OrEmpty;
    var x, y := OrEmpty(a.ns) + "|" + a.name, OrEmpty(b.ns) + "|" + b.name;
    var u, w := a.kindId + "|" + x, b.kindId + "|" + y;
    FirstCut(OrEmpty(a.ns), a.name, OrEmpty(b.ns), b.name, '|');
    FirstCut(a.kindId, x, b.kindId, y, '|');
    FirstCut(a.clusterId, u, b.clusterId, w, '|');
    Prefixed("detail|", a.clusterId + "|" + u, b.clusterId + "|" + w);
    DetailKeyParts(a, u, x);
    DetailKeyParts(b, w, y);
  }

  lemma DetailKeyParts(a: DetailRef, u: string, x: string)
    requires x == OrEmpty(a.ns) + "|" + a.name && u == a.kindId + "|" + x
    ensures DetailKey(a) == "detail|" + (a.clusterId + "|" + u)
  {
    assert DetailKey(a) == "detail|" + (a.clusterId + "|" + (a.kindId + "|" + (OrEmpty(a.ns) + "|" + a.name)));
  }

  lemma LogsKey(d: Drawer)
    requires d.Logs?
    ensures DrawerKey(d) == "logs|" + Join(TargetKeys(d.targets), ',')
  {
    assert seq(|d.targets|, i requires 0 <= i < |d.targets| => TargetKey(d.targets[i])) == TargetKeys(d.targets);
  }

  lemma CompareKeyIff(d: Drawer, e: Drawer)
    requires d.Compare? && e.Compare? && Clean(d) && Clean(e)
    ensures DrawerKey(d) == DrawerKey(e) <==> SameSubject(d, e)
  {
    hide SideKey, Join;
    var x, y := Join([SideKey(d.a), SideKey(d.b)], ','), Join([SideKey(e.a), SideKey(e.b)], ',');
    SideIff(d.a, e.a);
    SideIff(d.b, e.b);
    JoinIff([SideKey(d.a), SideKey(d.b)], [SideKey(e.a), SideKey(e.b)]);
    FirstCut(d.kindId, x, e.kindId, y, '|');
    Prefixed("compare|", d.kindId + "|" + x, e.kindId + "|" + y);
    assert DrawerKey(d) == "compare|" + (d.kindId + "|" + x);
    assert DrawerKey(e) == "compare|" + (e.kindId + "|" + y);
  }

  lemma InspectKeyIff(d: Drawer, e: Drawer)
    requires d.Inspect? && e.Inspect? && Clean(d) && Clean(e)
    ensures DrawerKey(d) == DrawerKey(e) <==> SameSubject(d, e)
  {
    hide Join;
    var x, y := Join(d.subjects, ','), Join(e.subjects, ',');
    JoinIff(d.subjects, e.subjects);
    FirstCut(d.kindId, x, e.kindId, y, '|');
    Prefixed("inspect|", d.kindId + "|" + x, e.kindId + "|" + y);
    assert DrawerKey(d) == "inspect|" + (d.kindId + "|" + x);
    assert DrawerKey(e) == "inspect|" + (e.kindId + "|" + y);
  }

  /** Where the key begins says which kind of drawer it is. */
  function Letter(d: Drawer): char {
    match d
    case Detail(_, _, _, _) => 'd'
    case Logs(_, _, _) => 'l'
    case Compare(_, _, _) => 'c'
    case Inspect(_, _) => 'i'
  }

  lemma KeyBegins(d: Drawer)
    ensures DrawerKey(d) != "" && DrawerKey(d)[0] == Letter(d)
  {
  }

  /** Two drawers have the same key exactly when they show the same subject, for
      ids free of the characters the key is cut at. */
  lemma KeyIff(d: Drawer, e: Drawer)
    requires Clean(d) && Clean(e)
    ensures DrawerKey(d) == DrawerKey(e) <==> SameSubject(d, e)
  {
    hide DrawerKey, Join, DetailKey;
    KeyBegins(d);
    KeyBegins(e);
    match d
    case Detail(at, _, _, _) => if e.Detail? { DetailKeyIff(at, e.at); DetailKeyOf(d); DetailKeyOf(e); }
    case Logs(targets, _, _) =>
      if e.Logs? {
        LogsKey(d);
        LogsKey(e);
        TargetsIff(targets, e.targets);
        Prefixed("logs|", Join(TargetKeys(targets), ','), Join(TargetKeys(e.targets), ','));
      }
    case Compare(_, _, _) => if e.Compare? { CompareKeyIff(d, e); }
    case Inspect(_, _) => if e.Inspect? { InspectKeyIff(d, e); }
  }

  lemma DetailKeyOf(d: Drawer)
    requires d.Detail?
    ensures DrawerKey(d) == DetailKey(d.at)
  {
  }
}

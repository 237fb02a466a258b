/** The sorted list a set of names is saved as. */
module Names {

  /** Code-unit lexicographic order, as the default `sort` compares strings. */
  predicate Leq(a: string, b: string) {
    if a == "" then true
    else if b == "" then false
    else a[0] < b[0] || (a[0] == b[0] && Leq(a[1..], b[1..]))
  }

  lemma {:induction false} LeqTotal(a: string, b: string)
    ensures Leq(a, b) || Leq(b, a)
    ensures Leq(a, b) && Leq(b, a) ==> a == b
  {
    if a != "" && b != "" {
      LeqTotal(a[1..], b[1..]);
      if a[0] == b[0] && a[1..] == b[1..] { assert a == [a[0]] + a[1..] == b; }
    }
  }

  lemma {:induction false} LeqTransitive(a: string, b: string, c: string)
    requires Leq(a, b) && Leq(b, c)
    ensures Leq(a, c)
  {
    if a != "" && b != "" && c != "" && a[0] == b[0] == c[0] {
      LeqTransitive(a[1..], b[1..], c[1..]);
    }
  }

  ghost predicate IsLeast(s: set<string>, m: string) {
    m in s && forall y :: y in s ==> Leq(m, y)
  }

  lemma {:induction false} LeastExists(s: set<string>)
    requires s != {}
    ensures exists m :: IsLeast(s, m)
    decreases s
  {
    var x :| x in s;
    var rest := s - {x};
    LeqTotal(x, x);
    if rest == {} {
      assert s == {x};
      assert IsLeast(s, x);
    } else {
      LeastExists(rest);
      var m :| IsLeast(rest, m);
      LeqTotal(x, m);
      if Leq(x, m) {
        forall y | y in s ensures Leq(x, y) {
          if y != x { LeqTransitive(x, m, y); }
        }
        assert IsLeast(s, x);
      } else {
        assert IsLeast(s, m);
      }
    }
  }

  ghost function Least(s: set<string>): (m: string)
    requires s != {}
    ensures IsLeast(s, m)
  {
    LeastExists(s);
    var m :| IsLeast(s, m);
    m
  }

  ghost function SortedNames(s: set<string>): seq<string>
    decreases s
  {
    if s == {} then [] else [Least(s)] + SortedNames(s - {Least(s)})
  }

  lemma {:induction false} SortedNamesMembers(s: set<string>)
    ensures forall x :: x in SortedNames(s) <==> x in s
    decreases s
  {
    if s != {} {
      SortedNamesMembers(s - {Least(s)});
    }
  }

  ghost predicate Ascending(xs: seq<string>) {
    forall i, j :: 0 <= i < j < |xs| ==> xs[i] != xs[j] && Leq(xs[i], xs[j])
  }

  lemma AscendingCons(m: string, rest: seq<string>)
    requires Ascending(rest)
    requires forall y :: y in rest ==> y != m && Leq(m, y)
    ensures Ascending([m] + rest)
  {
    hide Leq;
    var xs := [m] + rest;
    forall i, j | 0 <= i < j < |xs| ensures xs[i] != xs[j] && Leq(xs[i], xs[j]) {
      assert xs[j] == rest[j - 1] && rest[j - 1] in rest;
      if i > 0 { assert xs[i] == rest[i - 1]; }
    }
  }

  /** The saved list has exactly the names of the set, each once, ascending; so
      reading it back gives the set. */
  lemma {:induction false} SortedNamesExact(s: set<string>)
    ensures (set x | x in SortedNames(s)) == s
    ensures Ascending(SortedNames(s))
    decreases s
  {
    SortedNamesMembers(s);
    if s != {} {
      var m := Least(s);
      SortedNamesExact(s - {m});
      SortedNamesMembers(s - {m});
      AscendingCons(m, SortedNames(s - {m}));
    }
  }
}

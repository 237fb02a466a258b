/** Finite sequences as the store uses them: `filter` by membership, `find`,
    duplicate-free lists, `join` / `split` on a separator, decimal printing,
    and the characters number parsing looks at. */
module Lists {

  /** An absent or present value: the source's `null` and `undefined`. */
  datatype Option<+T> = None | Some(value: T)

  /** JavaScript truthiness of a nullable string: null and "" are both false. */
  predicate Truthy(o: Option<string>) {
    o.Some? && o.value != ""
  }

  ghost predicate Distinct<T>(xs: seq<T>) {
    forall i, j :: 0 <= i < j < |xs| ==> xs[i] != xs[j]
  }

  /** The members of `xs` that are in `keep`, in the order of `xs`. */
  function Within<T(==,!new)>(xs: seq<T>, keep: seq<T>): (r: seq<T>)
    ensures forall x :: x in r <==> x in xs && x in keep
  {
    if xs == [] then []
    else if xs[0] in keep then [xs[0]] + Within(xs[1..], keep)
    else Within(xs[1..], keep)
  }

  /** The members of `xs` that are not in `gone`, in the order of `xs`. */
  function Without<T(==,!new)>(xs: seq<T>, gone: seq<T>): (r: seq<T>)
    ensures forall x :: x in r <==> x in xs && x !in gone
  {
    if xs == [] then []
    else if xs[0] in gone then Without(xs[1..], gone)
    else [xs[0]] + Without(xs[1..], gone)
  }

  /** Position of the first occurrence of `x`, or `|xs|` when there is none. */
  function IndexOf<T(==)>(xs: seq<T>, x: T): (k: nat)
    ensures k <= |xs|
    ensures k < |xs| ==> xs[k] == x
    ensures forall i :: 0 <= i < k ==> xs[i] != x
    ensures k < |xs| <==> x in xs
  {
    if xs == [] then 0 else if xs[0] == x then 0 else 1 + IndexOf(xs[1..], x)
  }

  lemma DistinctHead<T>(x: T, xs: seq<T>)
    ensures Distinct([x] + xs) <==> x !in xs && Distinct(xs)
  {
    var ys := [x] + xs;
    if Distinct(ys) {
      assert forall i :: 0 <= i < |xs| ==> ys[0] != ys[i + 1] && ys[i + 1] == xs[i];
      forall i, j | 0 <= i < j < |xs| ensures xs[i] != xs[j] {
        assert ys[i + 1] != ys[j + 1];
      }
    }
  }

  lemma DistinctSnoc<T>(xs: seq<T>, x: T)
    ensures Distinct(xs + [x]) <==> x !in xs && Distinct(xs)
  {
    var ys := xs + [x];
    if Distinct(ys) {
      assert forall i :: 0 <= i < |xs| ==> ys[i] == xs[i] && ys[i] != ys[|xs|];
    }
  }

  lemma DistinctTail<T>(xs: seq<T>)
    requires Distinct(xs) && xs != []
    ensures Distinct(xs[1..]) && xs[0] !in xs[1..]
  {
    assert xs == [xs[0]] + xs[1..];
    DistinctHead(xs[0], xs[1..]);
  }

  lemma {:induction false} WithinDistinct<T(!new)>(xs: seq<T>, keep: seq<T>)
    requires Distinct(xs)
    ensures Distinct(Within(xs, keep))
  {
    if xs != [] {
      DistinctTail(xs);
      WithinDistinct(xs[1..], keep);
      DistinctHead(xs[0], Within(xs[1..], keep));
    }
  }

  lemma {:induction false} WithoutDistinct<T(!new)>(xs: seq<T>, gone: seq<T>)
    requires Distinct(xs)
    ensures Distinct(Without(xs, gone))
  {
    if xs != [] {
      DistinctTail(xs);
      WithoutDistinct(xs[1..], gone);
      DistinctHead(xs[0], Without(xs[1..], gone));
    }
  }

  lemma {:induction false} WithinConcat<T(!new)>(a: seq<T>, b: seq<T>, keep: seq<T>)
    ensures Within(a + b, keep) == Within(a, keep) + Within(b, keep)
  {
    if a == [] {
      assert a + b == b;
    } else {
      assert (a + b)[1..] == a[1..] + b;
      WithinConcat(a[1..], b, keep);
    }
  }

  lemma {:induction false} WithoutConcat<T(!new)>(a: seq<T>, b: seq<T>, gone: seq<T>)
    ensures Without(a + b, gone) == Without(a, gone) + Without(b, gone)
  {
    if a == [] {
      assert a + b == b;
    } else {
      assert (a + b)[1..] == a[1..] + b;
      WithoutConcat(a[1..], b, gone);
    }
  }

  /** Filtering by an absent value changes nothing. */
  lemma {:induction false} WithoutAbsent<T(!new)>(xs: seq<T>, gone: seq<T>)
    requires forall x :: x in xs ==> x !in gone
    ensures Without(xs, gone) == xs
  {
    if xs != [] {
      WithoutAbsent(xs[1..], gone);
    }
  }

  lemma {:induction false} WithinAll<T(!new)>(xs: seq<T>, keep: seq<T>)
    requires forall x :: x in xs ==> x in keep
    ensures Within(xs, keep) == xs
  {
    if xs != [] {
      WithinAll(xs[1..], keep);
    }
  }

  /** A duplicate-free list has at most one position for each value. */
  lemma DistinctIndex<T>(xs: seq<T>, i: nat)
    requires Distinct(xs) && i < |xs|
    ensures IndexOf(xs, xs[i]) == i
  {
    assert xs[IndexOf(xs, xs[i])] == xs[i];
  }

  lemma {:induction false} IndexOfConcat<T(!new)>(xs: seq<T>, ys: seq<T>, x: T)
    ensures IndexOf(xs + ys, x) == if x in xs then IndexOf(xs, x) else |xs| + IndexOf(ys, x)
  {
    if xs == [] {
      assert xs + ys == ys;
    } else {
      assert (xs + ys)[1..] == xs[1..] + ys;
      IndexOfConcat(xs[1..], ys, x);
    }
  }

  lemma DistinctConcat<T>(a: seq<T>, b: seq<T>)
    ensures Distinct(a + b) <==> Distinct(a) && Distinct(b) && forall x :: x in a ==> x !in b
  {
    var c := a + b;
    if Distinct(c) {
      assert forall i :: 0 <= i < |a| ==> c[i] == a[i];
      assert forall j :: 0 <= j < |b| ==> c[|a| + j] == b[j];
      forall i, j | 0 <= i < |a| && 0 <= j < |b| ensures a[i] != b[j] {
        assert c[i] != c[|a| + j];
      }
      forall i, j | 0 <= i < j < |b| ensures b[i] != b[j] {
        assert c[|a| + i] != c[|a| + j];
      }
    }
    if Distinct(a) && Distinct(b) && forall x :: x in a ==> x !in b {
      forall i, j | 0 <= i < j < |c| ensures c[i] != c[j] {
        if i < |a| && j >= |a| { assert a[i] !in b; assert c[j] == b[j - |a|]; }
      }
    }
  }

  /** Pieces glued with a separator character, as `join` does. */
  function Join(pieces: seq<string>, sep: char): (r: string)
  {
    if pieces == [] then ""
    else if |pieces| == 1 then pieces[0]
    else pieces[0] + [sep] + Join(pieces[1..], sep)
  }

  /** The pieces between separators, as `split` does: never empty. */
  function Split(s: string, sep: char): (r: seq<string>)
    ensures |r| >= 1
    ensures forall p :: p in r ==> sep !in p
  {
    var k := IndexOf(s, sep);
    if k == |s| then [s]
    else assert sep !in s[..k]; [s[..k]] + Split(s[k + 1..], sep)
  }

  lemma SplitCons(head: string, rest: string, sep: char)
    requires sep !in head
    ensures Split(head + [sep] + rest, sep) == [head] + Split(rest, sep)
  {
    var s := head + [sep] + rest;
    assert s == head + ([sep] + rest);
    IndexOfConcat(head, [sep] + rest, sep);
    assert ([sep] + rest)[0] == sep;
    assert IndexOf(s, sep) == |head|;
    assert s[..|head|] == head && s[|head| + 1..] == rest;
  }

  /** `split` undoes `join` on pieces that do not contain the separator. */
  lemma {:induction false} SplitJoin(pieces: seq<string>, sep: char)
    requires pieces != []
    requires forall p :: p in pieces ==> sep !in p
    ensures Split(Join(pieces, sep), sep) == pieces
  {
    hide Split;
    if |pieces| == 1 {
      SplitNone(pieces[0], sep);
    } else {
      SplitJoin(pieces[1..], sep);
      SplitCons(pieces[0], Join(pieces[1..], sep), sep);
    }
  }

  lemma SplitNone(s: string, sep: char)
    requires sep !in s
    ensures Split(s, sep) == [s]
  {
  }

  /** So two separator-free lists with the same joined text are the same list. */
  lemma JoinInjective(a: seq<string>, b: seq<string>, sep: char)
    requires a != [] && b != []
    requires forall p :: p in a ==> sep !in p
    requires forall p :: p in b ==> sep !in p
    requires Join(a, sep) == Join(b, sep)
    ensures a == b
  {
    SplitJoin(a, sep);
    SplitJoin(b, sep);
  }

  // ----- Cutting texts at a separator -----

  lemma CutPlace(a: string, x: string, sep: char)
    requires sep !in a
    ensures IndexOf(a + [sep] + x, sep) == |a|
  {
    IndexOfConcat(a, [sep] + x, sep);
    assert a + ([sep] + x) == a + [sep] + x;
  }

  /** Texts are told apart by what precedes their first separator and what follows
      it. */
  lemma FirstCut(a: string, x: string, b: string, y: string, sep: char)
    requires sep !in a && sep !in b
    ensures a + [sep] + x == b + [sep] + y <==> a == b && x == y
  {
    hide IndexOf;
    if a + [sep] + x == b + [sep] + y {
      CutPlace(a, x, sep);
      CutPlace(b, y, sep);
      var t := a + [sep] + x;
      assert a == t[..|a|] && x == t[|a| + 1..];
      assert b == t[..|a|] && y == t[|a| + 1..];
    }
  }

  /** Past its last separator, either text ends at the same place. */
  lemma NotLonger(a: string, x: string, b: string, y: string, sep: char)
    requires a + [sep] + x == b + [sep] + y && sep !in y
    ensures |y| <= |x|
  {
    var t := a + [sep] + x;
    assert t[|a|] == sep;
    assert forall i :: |b| < i < |t| ==> t[i] == y[i - |b| - 1];
  }

  /** Or by what surrounds their last one. */
  lemma LastCut(a: string, x: string, b: string, y: string, sep: char)
    requires sep !in x && sep !in y
    ensures a + [sep] + x == b + [sep] + y <==> a == b && x == y
  {
    if a + [sep] + x == b + [sep] + y {
      var t := a + [sep] + x;
      NotLonger(a, x, b, y, sep);
      NotLonger(b, y, a, x, sep);
      assert a == t[..|a|] && x == t[|a| + 1..];
    }
  }

  // ----- Decimal numbers -----

  function Digit(d: nat): char
    requires d < 10
  {
    '0' + d as char
  }

  function Decimal(n: nat): string {
    if n < 10 then [Digit(n)] else Decimal(n / 10) + [Digit(n % 10)]
  }

  lemma {:induction false} DecimalDigits(n: nat)
    ensures '.' !in Decimal(n) && |Decimal(n)| > 0
  {
    if n >= 10 { DecimalDigits(n / 10); }
  }

  lemma {:induction false} DecimalInjective(m: nat, n: nat)
    requires Decimal(m) == Decimal(n)
    ensures m == n
    decreases m + n
  {
    var a, b := Decimal(m), Decimal(n);
    DecimalDigits(m / 10);
    DecimalDigits(n / 10);
    assert a[|a| - 1] == Digit(m % 10) && b[|b| - 1] == Digit(n % 10);
    assert m % 10 == n % 10;
    if m >= 10 && n >= 10 {
      assert a[..|a| - 1] == Decimal(m / 10) && b[..|b| - 1] == Decimal(n / 10);
      DecimalInjective(m / 10, n / 10);
    }
  }

  // ----- Blanks -----

  /** White space and line ends as `parseInt` skips them. */
  predicate IsBlank(c: char) {
    || c in "\t\n\r "
    || c == '\U{0B}' || c == '\U{0C}' || c == '\U{A0}' || c == '\U{1680}' || '\U{2000}' <= c <= '\U{200A}'
    || c == '\U{2028}' || c == '\U{2029}' || c == '\U{202F}' || c == '\U{205F}' || c == '\U{3000}' || c == '\U{FEFF}'
  }

  // ----- Other characters -----

  /** The separator of joined keys. */
  const NUL: char := '\0'

  /** The value of a hexadecimal digit. */
  function HexValue(c: char): Option<nat> {
    if '0' <= c <= '9' then Some(c as int - '0' as int)
    else if 'a' <= c <= 'f' then Some(c as int - 'a' as int + 10)
    else if 'A' <= c <= 'F' then Some(c as int - 'A' as int + 10)
    else None
  }

  const UPPER_HEX := "0123456789ABCDEF"
  const LOWER_HEX := "0123456789abcdef"

  /** Each of the sixteen digits has its value in either case, and no other
      character has one. */
  lemma HexValueIff(c: char, v: nat)
    ensures HexValue(c) == Some(v) <==> v < 16 && (c == UPPER_HEX[v] || c == LOWER_HEX[v])
  {
    HexDigits();
    if HexValue(c).Some? { assert HexValue(c).value < 16; }
  }

  lemma HexDigits()
    ensures |UPPER_HEX| == |LOWER_HEX| == 16
    ensures forall v :: 0 <= v < 10 ==> UPPER_HEX[v] as int == LOWER_HEX[v] as int == '0' as int + v
    ensures forall v :: 10 <= v < 16 ==> UPPER_HEX[v] as int == 'A' as int + v - 10 && LOWER_HEX[v] as int == 'a' as int + v - 10
  {
  }
}

/** The version comparison behind the "update available" mark. */
module Semver {
  import opened Lists

  predicate IsDigit(c: char) {
    '0' <= c <= '9'
  }

  function StripV(s: string): string {
    if s != "" && (s[0] == 'v' || s[0] == 'V') then s[1..] else s
  }

  /** Pieces between dots and dashes. */
  function Pieces(s: string): (r: seq<string>)
    ensures |r| >= 1
  {
    var k := NextSeparator(s);
    if k == |s| then [s] else [s[..k]] + Pieces(s[k + 1..])
  }

  function NextSeparator(s: string): (k: nat)
    ensures k <= |s|
    ensures k < |s| ==> s[k] == '.' || s[k] == '-'
    ensures forall i :: 0 <= i < k ==> s[i] != '.' && s[i] != '-'
  {
    if s == "" || s[0] == '.' || s[0] == '-' then 0 else 1 + NextSeparator(s[1..])
  }

  /** Value of the leading digits of a piece; `acc` is what was read so far. */
  function Digits(s: string, acc: nat): nat
    decreases s
  {
    if s == "" || !IsDigit(s[0]) then acc else Digits(s[1..], 10 * acc + (s[0] as int - '0' as int))
  }

  /** `parseInt` of one piece, blanks and a plus sign skipped; a piece with no
      leading digits is not a number and counts as 0. (A piece contains no
      minus sign: dashes separate.) */
  function PieceValue(s: string): nat
    decreases s
  {
    if s == "" then 0
    else if IsBlank(s[0]) then PieceValue(s[1..])
    else if s[0] == '+' then Digits(s[1..], 0)
    else Digits(s, 0)
  }

  function Segments(s: string): (r: seq<nat>)
    ensures |r| >= 1
  {
    var ps := Pieces(StripV(s));
    seq(|ps|, i requires 0 <= i < |ps| => PieceValue(ps[i]))
  }

  /** Segment `i`, padded with zeros past the end. */
  function At(v: seq<nat>, i: nat): nat {
    if i < |v| then v[i] else 0
  }

  /** The first differing segment decides. */
  ghost predicate Greater(a: seq<nat>, b: seq<nat>) {
    exists i: nat :: DecidedAt(a, b, i)
  }

  ghost predicate DecidedAt(a: seq<nat>, b: seq<nat>, i: nat) {
    At(a, i) > At(b, i) && forall j: nat :: j < i ==> At(a, j) == At(b, j)
  }

  ghost predicate SameSegments(a: seq<nat>, b: seq<nat>) {
    forall i: nat :: At(a, i) == At(b, i)
  }

  method Gt(a: string, b: string) returns (r: bool)
    ensures r <==> Greater(Segments(a), Segments(b))
  {
    var pa, pb := Segments(a), Segments(b);
    var n := if |pa| > |pb| then |pa| else |pb|;
    for i := 0 to n
      invariant forall j: nat :: j < i ==> At(pa, j) == At(pb, j)
    {
      var xa, xb := At(pa, i), At(pb, i);
      if xa > xb {
        assert DecidedAt(pa, pb, i);
        return true;
      }
      if xa < xb {
        assert DecidedAt(pb, pa, i);
        OneWinner(pb, pa);
        return false;
      }
    }
    assert SameSegments(pa, pb);
    return false;
  }

  lemma OneWinner(a: seq<nat>, b: seq<nat>)
    requires Greater(a, b)
    ensures !Greater(b, a)
  {
    var i: nat :| DecidedAt(a, b, i);
    forall j: nat ensures !DecidedAt(b, a, j) {
      if j < i { assert At(a, j) == At(b, j); }
    }
  }

  /** Where two versions first differ, searching from `i`. */
  lemma {:induction false} FirstDifference(a: seq<nat>, b: seq<nat>, i: nat)
    requires forall j: nat :: j < i ==> At(a, j) == At(b, j)
    ensures SameSegments(a, b) || Greater(a, b) || Greater(b, a)
    decreases |a| + |b| - i
  {
    if i >= |a| + |b| {
      assert SameSegments(a, b);
    } else if At(a, i) > At(b, i) {
      assert DecidedAt(a, b, i);
    } else if At(a, i) < At(b, i) {
      assert DecidedAt(b, a, i);
    } else {
      FirstDifference(a, b, i + 1);
    }
  }

  /** Two versions are incomparable exactly when their segments agree up to
      trailing zeros; otherwise exactly one is greater. */
  lemma Trichotomy(a: seq<nat>, b: seq<nat>)
    ensures !Greater(a, b) && !Greater(b, a) <==> SameSegments(a, b)
    ensures !(Greater(a, b) && Greater(b, a))
    ensures !Greater(a, a)
  {
    FirstDifference(a, b, 0);
    if Greater(a, b) { OneWinner(a, b); }
    if Greater(a, a) { OneWinner(a, a); }
  }

  lemma Transitive(a: seq<nat>, b: seq<nat>, c: seq<nat>)
    requires Greater(a, b) && Greater(b, c)
    ensures Greater(a, c)
  {
    var i: nat :| DecidedAt(a, b, i);
    var j: nat :| DecidedAt(b, c, j);
    assert DecidedAt(a, c, if i < j then i else j);
  }

  /** Incomparability is transitive too, so "greater" is a strict weak order, and
      an order of whole versions: equal segments cannot be told apart. */
  lemma StrictWeakOrder(a: seq<nat>, b: seq<nat>, c: seq<nat>)
    requires SameSegments(a, b)
    ensures Greater(a, c) <==> Greater(b, c)
    ensures Greater(c, a) <==> Greater(c, b)
    ensures SameSegments(b, c) ==> SameSegments(a, c)
  {
    forall i: nat ensures DecidedAt(a, c, i) <==> DecidedAt(b, c, i) {}
    forall i: nat ensures DecidedAt(c, a, i) <==> DecidedAt(c, b, i) {}
  }

  /** Agreement up to trailing zeros, spelled out on the lists. */
  lemma SameSegmentsIff(a: seq<nat>, b: seq<nat>)
    requires |a| <= |b|
    ensures SameSegments(a, b) <==> a == b[..|a|] && forall i :: |a| <= i < |b| ==> b[i] == 0
  {
    if SameSegments(a, b) {
      forall i | 0 <= i < |b| ensures At(a, i) == b[i] { assert At(a, i) == At(b, i); }
    }
  }

  // ----- Reading printed versions -----

  function Printed(v: seq<nat>): (r: seq<string>)
    ensures |r| == |v|
  {
    seq(|v|, i requires 0 <= i < |v| => Decimal(v[i]))
  }

  predicate AllDigits(s: string) {
    forall i :: 0 <= i < |s| ==> IsDigit(s[i])
  }

  lemma {:induction false} DecimalAllDigits(n: nat)
    ensures AllDigits(Decimal(n)) && Decimal(n) != ""
  {
    if n >= 10 { DecimalAllDigits(n / 10); }
  }

  lemma {:induction false} DigitsSnoc(s: string, c: char, acc: nat)
    requires AllDigits(s) && IsDigit(c)
    ensures Digits(s + [c], acc) == 10 * Digits(s, acc) + (c as int - '0' as int)
    decreases s
  {
    if s == "" {
      assert s + [c] == [c];
      assert [c][1..] == "";
    } else {
      assert (s + [c])[1..] == s[1..] + [c];
      DigitsSnoc(s[1..], c, 10 * acc + (s[0] as int - '0' as int));
    }
  }

  lemma {:induction false} DigitsOfDecimal(n: nat)
    ensures Digits(Decimal(n), 0) == n
  {
    if n < 10 {
      assert Decimal(n)[1..] == "";
    } else {
      DigitsOfDecimal(n / 10);
      DecimalAllDigits(n / 10);
      DigitsSnoc(Decimal(n / 10), Digit(n % 10), 0);
    }
  }

  lemma PieceOfDecimal(n: nat)
    ensures PieceValue(Decimal(n)) == n
  {
    DecimalAllDigits(n);
    assert IsDigit(Decimal(n)[0]);
    DigitsOfDecimal(n);
  }

  lemma {:induction false} PiecesOfJoin(ps: seq<string>)
    requires ps != [] && forall i :: 0 <= i < |ps| ==> AllDigits(ps[i])
    ensures Pieces(Join(ps, '.')) == ps
  {
    hide Pieces, NextSeparator;
    if |ps| == 1 {
      PiecesOne(ps[0]);
    } else {
      PiecesOfJoin(ps[1..]);
      PiecesAt(ps[0], '.', Join(ps[1..], '.'));
    }
  }

  lemma PiecesOne(s: string)
    requires AllDigits(s)
    ensures Pieces(s) == [s]
  {
  }

  lemma PiecesAt(head: string, sep: char, rest: string)
    requires AllDigits(head) && (sep == '.' || sep == '-')
    ensures Pieces(head + [sep] + rest) == [head] + Pieces(rest)
  {
    var s := head + [sep] + rest;
    assert s[|head|] == sep;
    assert forall i :: 0 <= i < |head| ==> s[i] == head[i];
    assert NextSeparator(s) == |head|;
    assert s[..|head|] == head && s[|head| + 1..] == rest;
  }

  /** Reading a printed dotted version, tagged with a "v" or not, gives its
      segments back. */
  lemma PrintedRoundTrip(v: seq<nat>)
    requires v != []
    ensures Segments(Join(Printed(v), '.')) == v
    ensures Segments("v" + Join(Printed(v), '.')) == v && Segments("V" + Join(Printed(v), '.')) == v
  {
    hide Pieces, PieceValue;
    var ps := Printed(v);
    var text := Join(ps, '.');
    forall i | 0 <= i < |v| ensures AllDigits(ps[i]) && PieceValue(ps[i]) == v[i] {
      DecimalAllDigits(v[i]);
      PieceOfDecimal(v[i]);
    }
    PiecesOfJoin(ps);
    DecimalAllDigits(v[0]);
    assert text[0] == Decimal(v[0])[0];
    assert ("v" + text)[1..] == text && ("V" + text)[1..] == text;
  }

  // ----- What is greater -----

  lemma RaisedSegment(p: seq<nat>, x: nat, y: nat, r: seq<nat>, t: seq<nat>)
    requires x < y
    ensures Greater(p + [y] + r, p + [x] + t) && !Greater(p + [x] + t, p + [y] + r)
  {
    var a, b := p + [y] + r, p + [x] + t;
    assert forall j: nat :: j < |p| ==> At(a, j) == p[j] == At(b, j);
    assert At(a, |p|) == y && At(b, |p|) == x;
    assert DecidedAt(a, b, |p|);
    OneWinner(a, b);
  }

  /** Raising a segment of a printed version and keeping the earlier ones makes it
      greater, whatever follows. */
  lemma RaisedIsGreater(p: seq<nat>, x: nat, y: nat, r: seq<nat>, t: seq<nat>)
    requires x < y
    ensures var raised, plain := Segments(Join(Printed(p + [y] + r), '.')), Segments(Join(Printed(p + [x] + t), '.'));
            Greater(raised, plain) && !Greater(plain, raised)
  {
    hide Segments, Join, Printed, Greater;
    PrintedRoundTrip(p + [y] + r);
    PrintedRoundTrip(p + [x] + t);
    RaisedSegment(p, x, y, r, t);
  }

  // ----- Pre-releases -----

  lemma {:induction false} PiecesDashed(ps: seq<string>, tag: string)
    requires ps != [] && forall i :: 0 <= i < |ps| ==> AllDigits(ps[i])
    requires '.' !in tag && '-' !in tag
    ensures Pieces(Join(ps, '.') + "-" + tag) == ps + [tag]
  {
    hide Pieces, NextSeparator;
    var text := Join(ps, '.') + "-" + tag;
    if |ps| == 1 {
      PiecesAt(ps[0], '-', tag);
      PiecesWhole(tag);
    } else {
      var rest := Join(ps[1..], '.') + "-" + tag;
      assert text == ps[0] + ['.'] + rest;
      PiecesAt(ps[0], '.', rest);
      PiecesDashed(ps[1..], tag);
      assert [ps[0]] + (ps[1..] + [tag]) == ps + [tag];
    }
  }

  lemma PiecesWhole(s: string)
    requires '.' !in s && '-' !in s
    ensures Pieces(s) == [s]
  {
  }

  lemma NotANumber(tag: string)
    requires tag == "" || !(IsDigit(tag[0]) || IsBlank(tag[0]) || tag[0] == '+')
    ensures PieceValue(tag) == 0
  {
  }

  lemma {:induction false} DigitsStop(s: string, rest: string, acc: nat)
    requires AllDigits(s) && (rest == "" || !IsDigit(rest[0]))
    ensures Digits(s + rest, acc) == Digits(s, acc)
    decreases s
  {
    if s == "" {
      assert s + rest == rest;
    } else {
      assert (s + rest)[1..] == s[1..] + rest;
      DigitsStop(s[1..], rest, 10 * acc + (s[0] as int - '0' as int));
    }
  }

  lemma Unmarked(s: string)
    requires s != "" && IsDigit(s[0])
    ensures PieceValue(s) == Digits(s, 0)
  {
    hide Digits;
  }

  lemma MarkedBy(mark: string, s: string)
    requires mark == "+" || mark == " "
    ensures PieceValue(mark + s) == if mark == "+" then Digits(s, 0) else PieceValue(s)
  {
    hide Digits;
    assert (mark + s)[0] == mark[0] && (mark + s)[1..] == s;
  }

  /** A piece counts as the number it begins with, a blank or a plus sign in front
      of it skipped, whatever follows it. */
  lemma LenientPiece(n: nat, rest: string)
    requires rest == "" || !IsDigit(rest[0])
    ensures var s := Decimal(n) + rest;
            PieceValue(s) == PieceValue("+" + s) == PieceValue(" " + s) == n
  {
    hide PieceValue, Digits, Decimal;
    DecimalAllDigits(n);
    DigitsOfDecimal(n);
    DigitsStop(Decimal(n), rest, 0);
    assert (Decimal(n) + rest)[0] == Decimal(n)[0];
    Unmarked(Decimal(n) + rest);
    MarkedBy("+", Decimal(n) + rest);
    MarkedBy(" ", Decimal(n) + rest);
  }

  /** A tag after a dash counts as one more segment: the number it begins with, or
      zero, so a version tagged by a word counts as the release itself. */
  lemma TaggedVersion(v: seq<nat>, tag: string)
    requires v != [] && '.' !in tag && '-' !in tag
    ensures var segments := Segments(Join(Printed(v), '.') + "-" + tag);
            && segments == v + [PieceValue(tag)]
            && (tag == "" || !(IsDigit(tag[0]) || IsBlank(tag[0]) || tag[0] == '+') ==> SameSegments(segments, v))
  {
    hide Pieces, PieceValue;
    var ps := Printed(v);
    var text := Join(ps, '.') + "-" + tag;
    forall i | 0 <= i < |v| ensures AllDigits(ps[i]) && PieceValue(ps[i]) == v[i] {
      DecimalAllDigits(v[i]);
      PieceOfDecimal(v[i]);
    }
    PiecesDashed(ps, tag);
    DecimalAllDigits(v[0]);
    assert text[0] == Decimal(v[0])[0];
    assert Segments(text) == v + [PieceValue(tag)];
    if tag == "" || !(IsDigit(tag[0]) || IsBlank(tag[0]) || tag[0] == '+') { NotANumber(tag); }
  }
}

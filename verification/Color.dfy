/** The colour parser and the hex printer, over exact alpha values. */
module Color {
  import opened Lists
  import L = Look

  /** A colour string: `#` and the text after it, an `rgb()` / `rgba()` form with
      its numbers already read, or anything else. */
  datatype Color = Hex(text: string) | Rgb(r: nat, g: nat, b: nat, a: Option<real>) | Other

  datatype Channels = Channels(r: int, g: int, b: int, a: real)

  /** `parseInt` of two characters in base 16: blanks are skipped, a sign is
      allowed, an `0x` prefix is dropped, and reading stops at the first
      character that is no digit. */
  function PairValue(a: char, b: char): Option<int> {
    var x, y := HexValue(a), HexValue(b);
    if x.Some? then
      if a == '0' && (b == 'x' || b == 'X') then None
      else if y.Some? then Some(16 * x.value + y.value)
      else Some(x.value)
    else if IsBlank(a) || a == '+' then y
    else if a == '-' && y.Some? then (var v: int := y.value; Some(0 - v))
    else None
  }

  function Doubled(text: string): string {
    if text == "" then "" else [text[0], text[0]] + Doubled(text[1..])
  }

  function ParseHex(text: string): Option<Channels> {
    var hex := if |text| == 3 || |text| == 4 then Doubled(text) else text;
    if |hex| != 6 && |hex| != 8 then None
    else
      var r, g, b := PairValue(hex[0], hex[1]), PairValue(hex[2], hex[3]), PairValue(hex[4], hex[5]);
      var a := if |hex| == 8 then PairValue(hex[6], hex[7]) else Some(255);
      if r.None? || g.None? || b.None? || a.None? then None
      else Some(Channels(r.value, g.value, b.value, a.value as real / 255.0))
  }

  function Unit(v: real): real {
    if v < 0.0 then 0.0 else if v > 1.0 then 1.0 else v
  }

  function ParseColor(c: Color): Option<Channels> {
    match c
    case Hex(text) => ParseHex(text)
    case Rgb(r, g, b, a) => Some(Channels(r, g, b, if a.Some? then Unit(a.value) else 1.0))
    case Other => None
  }

  // ----- Printing -----

  function HexDigit(d: nat): char
    requires d < 16
  {
    if d < 10 then '0' + d as char else 'a' + (d - 10) as char
  }

  function HexNat(n: nat): (s: string)
    ensures |s| >= 1
  {
    if n < 16 then [HexDigit(n)] else HexNat(n / 16) + [HexDigit(n % 16)]
  }

  /** A number in base 16, padded to two characters. */
  function Print(v: int): (s: string)
    ensures |s| >= 2
  {
    var s := if v < 0 then "-" + HexNat(-v) else HexNat(v);
    if |s| < 2 then "0" + s else s
  }

  function PrintAlpha(a: real): string {
    if a < 1.0 then Print(L.Round(a * 255.0)) else ""
  }

  function Printed(p: Channels): string {
    Print(p.r) + Print(p.g) + Print(p.b) + PrintAlpha(p.a)
  }

  function ToHexColor(c: Color): Option<Color> {
    match ParseColor(c)
    case None => None
    case Some(p) => Some(Hex(Printed(p)))
  }

  // ----- Printing and reading one channel -----

  /** Numbers one pair of characters can stand for: a sign leaves room for one
      digit. */
  predicate PairSized(v: int) {
    -16 < v < 256
  }

  lemma PrintedPair(v: int)
    requires PairSized(v)
    ensures |Print(v)| == 2 && PairValue(Print(v)[0], Print(v)[1]) == Some(v)
  {
    if v >= 16 {
      assert HexNat(v / 16) == [HexDigit(v / 16)];
      HexDigitBack(v / 16);
      HexDigitBack(v % 16);
    } else {
      HexDigitBack(if v < 0 then -v else v);
      HexDigitBack(0);
    }
  }

  lemma HexDigitBack(d: nat)
    requires d < 16
    ensures HexValue(HexDigit(d)) == Some(d) && IsLowerHex(HexDigit(d))
  {
  }

  predicate IsLowerHex(c: char) {
    '0' <= c <= '9' || 'a' <= c <= 'f'
  }

  /** Printed characters needed for a channel. */
  function Width(n: nat): nat {
    if n < 256 then 2 else 1 + Width(n / 16)
  }

  lemma {:induction false} HexNatShape(n: nat)
    ensures forall i :: 0 <= i < |HexNat(n)| ==> IsLowerHex(HexNat(n)[i])
    ensures n >= 16 ==> |HexNat(n)| == Width(n) >= 2
  {
    HexDigitBack(n % 16);
    if n >= 16 { HexNatShape(n / 16); }
  }

  lemma HighNibble(n: nat)
    ensures n / 16 % 16 == n % 256 / 16
  {
    var q, k, l := n / 256, n % 256 / 16, n % 16;
    assert n == 16 * (16 * q + k) + l;
    assert n / 16 == 16 * q + k;
  }

  lemma HexNatEnds(n: nat)
    requires n >= 16
    ensures HexNat(n) == HexNat(n / 16) + [HexDigit(n % 16)]
    ensures HexNat(n / 16)[|HexNat(n / 16)| - 1] == HexDigit(n % 256 / 16)
  {
    HighNibble(n);
  }

  predicate AllLowerHex(t: string) {
    forall i :: 0 <= i < |t| ==> IsLowerHex(t[i])
  }

  lemma PrintSmall(n: nat)
    requires n < 16
    ensures Print(n) == [HexDigit(0), HexDigit(n)] && Width(n) == 2 && n % 256 / 16 == 0 && n % 16 == n
    ensures AllLowerHex(Print(n))
  {
    HexDigitBack(0);
    HexDigitBack(n);
    assert HexNat(n) == [HexDigit(n)];
    hide IsLowerHex, HexDigit;
  }

  lemma PrintLarge(n: nat)
    requires n >= 16
    ensures Print(n) == HexNat(n) && |HexNat(n)| == Width(n) >= 2 && AllLowerHex(HexNat(n))
  {
    hide HexNat, HexDigit, IsLowerHex, Width;
    HexNatShape(n);
  }

  lemma LastTwo(high: string, y: char)
    requires high != ""
    ensures (high + [y])[|high + [y]| - 2..] == [high[|high| - 1], y]
  {
  }

  /** A printed channel: lower-case digits, as many as its width, the last two of
      them its low byte. */
  lemma PrintShape(n: nat)
    ensures AllLowerHex(Print(n))
    ensures |Print(n)| == Width(n) >= 2
    ensures Print(n)[|Print(n)| - 2..] == [HexDigit(n % 256 / 16), HexDigit(n % 16)]
  {
    hide HexNat, HexDigit, Width, Print, AllLowerHex;
    if n >= 16 {
      PrintLarge(n);
      HexNatEnds(n);
      LastTwo(HexNat(n / 16), HexDigit(n % 16));
    } else {
      PrintSmall(n);
    }
  }

  lemma PrintedPairShape(x: char, y: char)
    requires IsLowerHex(x) && IsLowerHex(y)
    ensures PairValue(x, y).Some? && 0 <= PairValue(x, y).value < 256
    ensures Print(PairValue(x, y).value) == [x, y]
    ensures PairValue(x, y).value == 255 <==> [x, y] == "ff"
  {
    var h, l := HexValue(x).value, HexValue(y).value;
    assert PairValue(x, y) == Some(16 * h + l);
    assert HexDigit(h) == x && HexDigit(l) == y;
    assert h > 0 ==> HexNat(h) == [x];
  }

  // ----- Round trips -----

  predicate PairChannels(p: Channels) {
    PairSized(p.r) && PairSized(p.g) && PairSized(p.b)
  }

  /** Alpha values a printed pair can hold exactly. */
  predicate PairAlpha(a: real, n: int) {
    PairSized(n) && a == n as real / 255.0
  }

  lemma PairInRange(x: char, y: char)
    ensures PairValue(x, y).Some? ==> PairSized(PairValue(x, y).value)
  {
  }

  lemma ParsedChannels(text: string)
    requires ParseHex(text).Some?
    ensures PairChannels(ParseHex(text).value) && exists n :: PairAlpha(ParseHex(text).value.a, n)
  {
    hide PairValue, Doubled;
    var hex := if |text| == 3 || |text| == 4 then Doubled(text) else text;
    PairInRange(hex[0], hex[1]);
    PairInRange(hex[2], hex[3]);
    PairInRange(hex[4], hex[5]);
    if |hex| == 8 { PairInRange(hex[6], hex[7]); }
    var n := if |hex| == 8 then PairValue(hex[6], hex[7]).value else 255;
    assert PairAlpha(ParseHex(text).value.a, n);
  }

  /** Reading back six printed characters, or eight. */
  lemma PrintedParses(r: int, g: int, b: int, alpha: Option<int>)
    requires PairSized(r) && PairSized(g) && PairSized(b) && (alpha.Some? ==> PairSized(alpha.value))
    ensures ParseHex(Print(r) + Print(g) + Print(b) + if alpha.Some? then Print(alpha.value) else "")
         == Some(Channels(r, g, b, if alpha.Some? then alpha.value as real / 255.0 else 1.0))
  {
    hide Print, PairValue;
    var text := Print(r) + Print(g) + Print(b) + if alpha.Some? then Print(alpha.value) else "";
    PrintedPair(r);
    PrintedPair(g);
    PrintedPair(b);
    if alpha.Some? { PrintedPair(alpha.value); }
    assert text[0] == Print(r)[0] && text[1] == Print(r)[1] && text[2] == Print(g)[0] && text[3] == Print(g)[1];
    assert text[4] == Print(b)[0] && text[5] == Print(b)[1];
    if alpha.Some? { assert text[6] == Print(alpha.value)[0] && text[7] == Print(alpha.value)[1]; }
  }

  /** What is read back after printing: the channels unchanged and the alpha
      rounded to the nearest 1/255. */
  lemma PrintThenParse(p: Channels)
    requires PairChannels(p) && PairSized(L.Round(p.a * 255.0))
    ensures ParseHex(Printed(p)) == Some(p.(a := if p.a < 1.0 then L.Round(p.a * 255.0) as real / 255.0 else 1.0))
  {
    hide ParseHex, Print, L.Round;
    PrintedParses(p.r, p.g, p.b, if p.a < 1.0 then Some(L.Round(p.a * 255.0)) else None);
  }

  /** Every `#` text that parses at all survives printing, signs and stray
      characters a lenient reader lets through included, and printing it again
      changes nothing. */
  lemma HexRoundTrip(text: string)
    requires ParseHex(text).Some?
    ensures var h := ToHexColor(Hex(text));
            && h.Some?
            && ParseColor(h.value) == ParseColor(Hex(text))
            && ToHexColor(h.value) == h
  {
    hide ParseHex, Print, L.Round;
    ParsedChannels(text);
    var p := ParseHex(text).value;
    var n :| PairAlpha(p.a, n);
    ExactAlpha(p.a, n);
    PrintThenParse(p);
  }

  lemma ExactAlpha(a: real, n: int)
    requires PairAlpha(a, n)
    ensures L.Round(a * 255.0) == n && (a < 1.0 <==> n < 255)
  {
    assert a * 255.0 == n as real;
  }

  predicate AllHex(text: string) {
    forall i :: 0 <= i < |text| ==> HexValue(text[i]).Some?
  }

  /** The digit at position `i`, and the number of the `i`-th pair of digits. */
  function DigitAt(text: string, i: nat): nat
    requires AllHex(text) && i < |text|
  {
    HexValue(text[i]).value
  }

  function PairAt(text: string, i: nat): nat
    requires AllHex(text) && 2 * i + 1 < |text|
  {
    16 * DigitAt(text, 2 * i) + DigitAt(text, 2 * i + 1)
  }

  /** Every well formed 3-, 4-, 6- or 8-digit colour parses: red, green, blue and
      then the alpha, two digits each, or one digit standing for a pair of it; no
      alpha means opaque. */
  lemma WellFormedParses(text: string)
    requires |text| == 3 || |text| == 4 || |text| == 6 || |text| == 8
    requires AllHex(text)
    ensures |text| <= 4 ==>
              ParseHex(text) == Some(Channels(17 * DigitAt(text, 0), 17 * DigitAt(text, 1), 17 * DigitAt(text, 2),
                                              if |text| == 4 then (17 * DigitAt(text, 3)) as real / 255.0 else 1.0))
    ensures |text| >= 6 ==>
              ParseHex(text) == Some(Channels(PairAt(text, 0), PairAt(text, 1), PairAt(text, 2),
                                              if |text| == 8 then PairAt(text, 3) as real / 255.0 else 1.0))
  {
    hide HexValue, Doubled, PairValue;
    var hex := if |text| == 3 || |text| == 4 then Doubled(text) else text;
    DoubledShape(text);
    if |text| <= 4 {
      SamePair(text[0]);
      SamePair(text[1]);
      SamePair(text[2]);
      if |text| == 4 { SamePair(text[3]); }
      DoubledAt(text);
    } else {
      DigitPair(text[0], text[1]);
      DigitPair(text[2], text[3]);
      DigitPair(text[4], text[5]);
      if |text| == 8 { DigitPair(text[6], text[7]); }
    }
  }

  lemma DoubledAt(text: string)
    requires |text| == 3 || |text| == 4
    ensures var hex := Doubled(text);
            && |hex| == 2 * |text|
            && hex[0] == hex[1] == text[0] && hex[2] == hex[3] == text[1] && hex[4] == hex[5] == text[2]
            && (|text| == 4 ==> hex[6] == hex[7] == text[3])
  {
    hide Doubled;
    DoubledShape(text);
    var hex := Doubled(text);
    assert hex[2 * 0] == text[0] && hex[2 * 0 + 1] == text[0] && hex[2 * 1] == text[1] && hex[2 * 1 + 1] == text[1];
    assert hex[2 * 2] == text[2] && hex[2 * 2 + 1] == text[2];
    if |text| == 4 { assert hex[2 * 3] == text[3] && hex[2 * 3 + 1] == text[3]; }
  }

  lemma DigitPair(x: char, y: char)
    requires HexValue(x).Some? && HexValue(y).Some?
    ensures PairValue(x, y) == Some(16 * HexValue(x).value + HexValue(y).value)
  {
  }

  /** What a lenient reader makes of pairs that are not two digits: a blank or a plus
      sign in front is skipped, a minus sign counts, reading stops at a letter that
      is no digit, "0x" is no number, and neither is a pair that begins with no
      digit. */
  lemma LenientPair(d: char, x: char)
    requires HexValue(d).Some?
    ensures PairValue(' ', d) == PairValue('+', d) == Some(HexValue(d).value)
    ensures PairValue('-', d).Some? && PairValue('-', d).value == -(HexValue(d).value as int)
    ensures HexValue(x).None? && !(d == '0' && (x == 'x' || x == 'X')) ==> PairValue(d, x) == Some(HexValue(d).value)
    ensures PairValue('0', 'x') == PairValue('0', 'X') == PairValue('g', d) == PairValue(' ', 'g') == None
  {
  }

  lemma SamePair(x: char)
    requires HexValue(x).Some?
    ensures PairValue(x, x) == Some(17 * HexValue(x).value)
  {
    DigitPair(x, x);
  }

  lemma {:induction false} DoubledShape(text: string)
    ensures |Doubled(text)| == 2 * |text|
    ensures forall i :: 0 <= i < |text| ==> Doubled(text)[2 * i] == text[i] && Doubled(text)[2 * i + 1] == text[i]
  {
    if text != "" { DoubledShape(text[1..]); }
  }

  /** Lower-case text of at least six digits prints as itself exactly when it has
      six, or eight of which the last two are not "ff". */
  lemma StableText(t: string)
    requires |t| >= 6 && AllLowerHex(t)
    ensures ToHexColor(Hex(t)) == Some(Hex(t)) <==> |t| == 6 || (|t| == 8 && t[6..] != "ff")
  {
    hide Print, PairValue, L.Round, HexValue;
    if |t| == 6 || |t| == 8 {
      PrintedPairShape(t[0], t[1]);
      PrintedPairShape(t[2], t[3]);
      PrintedPairShape(t[4], t[5]);
      if |t| == 8 { PrintedPairShape(t[6], t[7]); }
      var n := if |t| == 8 then PairValue(t[6], t[7]).value else 255;
      ExactAlpha(n as real / 255.0, n);
      assert ParseHex(t).value.a == n as real / 255.0;
      assert |t| == 8 ==> t[6..] == [t[6], t[7]];
      SplitText(t);
    }
  }

  lemma SplitText(t: string)
    requires |t| == 6 || |t| == 8
    ensures t == [t[0], t[1]] + [t[2], t[3]] + [t[4], t[5]] + (if |t| == 8 then [t[6], t[7]] else "")
  {
  }

  /** When an `rgb()` colour prints stably, told from its numbers: byte channels
      unless the alpha is below 1 and rounds up to it; and, with a larger channel,
      an opaque colour that happens to fill eight digits without ending in "ff". */
  predicate PrintsStably(r: nat, g: nat, b: nat, alpha: real) {
    if r < 256 && g < 256 && b < 256 then alpha >= 1.0 || L.Round(alpha * 255.0) < 255
    else alpha >= 1.0 && Width(r) + Width(g) + Width(b) == 8 && b % 256 != 255
  }

  /** Four texts in a row, the last of them possibly missing. */
  lemma InARow(a: string, b: string, c: string, d: string)
    requires |c| >= 2 && (d == "" || |d| >= 2)
    requires AllLowerHex(a) && AllLowerHex(b) && AllLowerHex(c) && AllLowerHex(d)
    ensures var t, last := a + b + c + d, if d == "" then c else d;
            AllLowerHex(t) && t[|t| - 2..] == last[|last| - 2..]
  {
    hide IsLowerHex;
    assert a + b + c + d == (a + b) + (c + d);
    assert d == "" ==> a + b + c + d == (a + b) + c;
  }

  lemma PrintedText(r: nat, g: nat, b: nat, alpha: real)
    requires 0.0 <= alpha <= 1.0
    ensures var t := Printed(Channels(r, g, b, alpha));
            && |t| == Width(r) + Width(g) + Width(b) + (if alpha < 1.0 then 2 else 0)
            && AllLowerHex(t)
            && t[|t| - 2..] == (var low := if alpha < 1.0 then L.Round(alpha * 255.0) else b;
                                [HexDigit(low % 256 / 16), HexDigit(low % 16)])
  {
    hide Print, L.Round, Width, IsLowerHex, HexDigit;
    PrintShape(r);
    PrintShape(g);
    PrintShape(b);
    if alpha < 1.0 {
      L.RoundMonotone(alpha * 255.0, 0, 255);
      PrintShape(L.Round(alpha * 255.0));
      ByteWidth(L.Round(alpha * 255.0));
    }
    InARow(Print(r), Print(g), Print(b), PrintAlpha(alpha));
  }

  lemma ByteWidth(n: nat)
    ensures Width(n) >= 2 && (Width(n) == 2 <==> n < 256)
  {
  }

  lemma LowByteIsFf(n: nat)
    ensures [HexDigit(n % 256 / 16), HexDigit(n % 16)] == "ff" <==> n % 256 == 255
  {
    assert n % 16 == n % 256 % 16;
  }

  lemma RgbaReads(p: Channels)
    requires PairChannels(p) && 0.0 <= p.a <= 1.0
    ensures var back := ParseHex(Printed(p));
            && back.Some?
            && back.value == p.(a := back.value.a)
            && -1.0 / 510.0 <= back.value.a - p.a <= 1.0 / 510.0
  {
    hide ParseHex, Printed, L.Round;
    L.RoundMonotone(p.a * 255.0, 0, 255);
    PrintThenParse(p);
    AlphaClose(p.a, L.Round(p.a * 255.0));
  }

  lemma RgbaStable(r: nat, g: nat, b: nat, a: real)
    requires 0.0 <= a <= 1.0
    ensures var t := Printed(Channels(r, g, b, a));
            ToHexColor(Hex(t)) == Some(Hex(t)) <==> PrintsStably(r, g, b, a)
  {
    hide ToHexColor, Printed, L.Round, Width, AllLowerHex, HexDigit;
    L.RoundMonotone(a * 255.0, 0, 255);
    PrintedText(r, g, b, a);
    ByteWidth(r);
    ByteWidth(g);
    ByteWidth(b);
    StableText(Printed(Channels(r, g, b, a)));
    LowByteIsFf(if a < 1.0 then L.Round(a * 255.0) else b);
  }

  /** An `rgb()` or `rgba()` colour, whatever its channels: byte channels survive
      printing and the alpha moves by at most half a step; and printing again
      changes nothing exactly under the condition above. */
  lemma RgbaRoundTrip(r: nat, g: nat, b: nat, a: Option<real>)
    ensures var c := Rgb(r, g, b, a);
            var before, h := ParseColor(c).value, ToHexColor(c).value;
            && before == Channels(r, g, b, before.a) && 0.0 <= before.a <= 1.0
            && (a.None? ==> before.a == 1.0) && (a.Some? && 0.0 <= a.value <= 1.0 ==> before.a == a.value)
            && (a.Some? && a.value > 1.0 ==> before.a == 1.0) && (a.Some? && a.value < 0.0 ==> before.a == 0.0)
            && (r < 256 && g < 256 && b < 256 ==>
                  && ParseColor(h).Some?
                  && ParseColor(h).value == before.(a := ParseColor(h).value.a)
                  && -1.0 / 510.0 <= ParseColor(h).value.a - before.a <= 1.0 / 510.0)
            && (ToHexColor(h) == Some(h) <==> PrintsStably(r, g, b, before.a))
  {
    hide ParseHex, Printed, PrintsStably;
    var p := ParseColor(Rgb(r, g, b, a)).value;
    if r < 256 && g < 256 && b < 256 {
      RgbaReads(p);
    }
    RgbaStable(r, g, b, p.a);
  }

  lemma AlphaClose(a: real, n: int)
    requires -0.5 <= a * 255.0 - n as real <= 0.5
    ensures -1.0 / 510.0 <= n as real / 255.0 - a <= 1.0 / 510.0
  {
    assert (n as real / 255.0 - a) * 255.0 == n as real - a * 255.0;
  }

  /** One channel above a byte: seven digits are printed, which do not parse. */
  lemma WideChannelFails()
    ensures ToHexColor(Rgb(256, 0, 0, None)) == Some(Hex("1000000"))
    ensures ToHexColor(Hex("1000000")) == None
  {
    hide Print, PairValue, Doubled;
    PrintsOfExample();
    assert Printed(Channels(256, 0, 0, 1.0)) == "1000000";
  }

  lemma PrintsOfExample()
    ensures Print(256) == "100" && Print(0) == "00"
  {
    assert HexNat(1) == "1" && HexNat(16) == HexNat(1) + "0" && HexNat(256) == HexNat(16) + "0";
    assert HexNat(0) == "0";
  }

  lemma ParsedBytes(text: string)
    ensures ParseHex(text).Some? ==> ParseHex(text).value.r < 256 && ParseHex(text).value.g < 256 && ParseHex(text).value.b < 256
  {
    forall x, y ensures PairValue(x, y).Some? ==> PairValue(x, y).value < 256 {}
  }

  /** Channels survive printing exactly when each fits a byte: a larger one either
      breaks the length or is cut into other channels. */
  lemma ChannelsSurviveIff(r: nat, g: nat, b: nat, a: Option<real>)
    ensures var h := ToHexColor(Rgb(r, g, b, a)).value;
            (ParseColor(h).Some? && ParseColor(h).value.r == r && ParseColor(h).value.g == g && ParseColor(h).value.b == b)
            <==> r < 256 && g < 256 && b < 256
  {
    hide Print, L.Round, PairValue;
    var p := ParseColor(Rgb(r, g, b, a)).value;
    ParsedBytes(Printed(p));
    L.RoundMonotone(p.a * 255.0, 0, 255);
    if r < 256 && g < 256 && b < 256 { PrintThenParse(p); }
  }
}

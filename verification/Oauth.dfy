/** The percent codec and the callback parser of the sign-in flow (sections 2.1
    and 2.3 of RFC 3986, section 4.1.2 of RFC 6749). The codec works on the UTF-8
    bytes of a text; a byte is written as the character with its number. */
module Oauth {
  import opened Lists

  // ----- UTF-8 -----

  predicate IsBytes(s: string) {
    forall i :: 0 <= i < |s| ==> s[i] as int < 256
  }

  predicate Ascii(s: string) {
    forall i :: 0 <= i < |s| ==> s[i] as int < 128
  }

  /** The bytes of one character (section 3 of RFC 3629). */
  function Utf8Char(c: char): (r: string)
    ensures 1 <= |r| <= 4 && IsBytes(r)
    ensures |r| == 1 <==> c as int < 128
  {
    var n := c as int;
    if n < 0x80 then [c]
    else if n < 0x800 then [(0xC0 + n / 0x40) as char, Rest(n)]
    else if n < 0x10000 then [(0xE0 + n / 0x1000) as char, Rest(n / 0x40), Rest(n)]
    else [(0xF0 + n / 0x40000) as char, Rest(n / 0x1000), Rest(n / 0x40), Rest(n)]
  }

  /** A continuation byte. */
  function Rest(n: nat): (r: char)
    ensures 0x80 <= r as int < 0xC0 && r as int - 0x80 == n % 0x40
  {
    (0x80 + n % 0x40) as char
  }

  function Utf8(s: string): (r: string)
    ensures IsBytes(r)
  {
    if s == "" then "" else Utf8Char(s[0]) + Utf8(s[1..])
  }

  /** Text equals its own bytes exactly when it is ASCII. */
  lemma {:induction false} Utf8Length(s: string)
    ensures |Utf8(s)| >= |s|
    ensures if Ascii(s) then Utf8(s) == s else |Utf8(s)| > |s|
  {
    hide Utf8Char;
    if s != "" {
      Utf8Length(s[1..]);
      AsciiHead(s);
      if s[0] as int < 128 { AsciiChar(s[0]); }
    }
  }

  lemma AsciiHead(s: string)
    requires s != ""
    ensures Ascii(s) <==> s[0] as int < 128 && Ascii(s[1..])
  {
    assert forall i :: 1 <= i < |s| ==> s[i] == s[1..][i - 1];
  }

  lemma AsciiChar(c: char)
    requires c as int < 128
    ensures Utf8Char(c) == [c]
  {
  }

  /** How many bytes a character takes, told from its first byte. */
  function Utf8Size(first: char): nat {
    if first as int < 0x80 then 1 else if first as int < 0xE0 then 2 else if first as int < 0xF0 then 3 else 4
  }

  lemma CharSize(c: char)
    ensures |Utf8Char(c)| == Utf8Size(Utf8Char(c)[0])
  {
  }

  lemma CharInjective(c: char, d: char)
    requires Utf8Char(c) == Utf8Char(d)
    ensures c == d
  {
    var m, n := c as int, d as int;
    var a, b := Utf8Char(c), Utf8Char(d);
    CharValue(c);
    CharValue(d);
    assert m == n;
  }

  function CharNumber(bytes: string): int
    requires 1 <= |bytes| <= 4
  {
    var at := (i: nat) requires i < |bytes| => bytes[i] as int;
    if |bytes| == 1 then at(0)
    else if |bytes| == 2 then (at(0) - 0xC0) * 0x40 + (at(1) - 0x80)
    else if |bytes| == 3 then (at(0) - 0xE0) * 0x1000 + (at(1) - 0x80) * 0x40 + (at(2) - 0x80)
    else (at(0) - 0xF0) * 0x40000 + (at(1) - 0x80) * 0x1000 + (at(2) - 0x80) * 0x40 + (at(3) - 0x80)
  }

  /** A character takes as many bytes as its number needs, and they hold it. */
  lemma CharValue(c: char)
    ensures |Utf8Char(c)| == if c as int < 0x80 then 1 else if c as int < 0x800 then 2 else if c as int < 0x10000 then 3 else 4
    ensures CharNumber(Utf8Char(c)) == c as int
    ensures forall i :: 1 <= i < |Utf8Char(c)| ==> 0x80 <= Utf8Char(c)[i] as int < 0xC0
  {
    var n := c as int;
    assert n / 0x1000 == n / 0x40 / 0x40 && n / 0x40000 == n / 0x1000 / 0x40;
  }

  /** Two texts with the same bytes are the same text. */
  lemma {:induction false} Utf8Injective(s: string, t: string)
    requires Utf8(s) == Utf8(t)
    ensures s == t
  {
    hide Utf8Char, Utf8Size;
    if s == "" || t == "" {
      Utf8Length(s);
      Utf8Length(t);
    } else {
      var a, b := Utf8Char(s[0]), Utf8Char(t[0]);
      CharSize(s[0]);
      CharSize(t[0]);
      assert Utf8(s)[0] == a[0] && Utf8(t)[0] == b[0];
      assert Utf8(s)[..|a|] == a && Utf8(t)[..|b|] == b;
      CharInjective(s[0], t[0]);
      assert Utf8(s)[|a|..] == Utf8(s[1..]) && Utf8(t)[|b|..] == Utf8(t[1..]);
      Utf8Injective(s[1..], t[1..]);
      assert s == [s[0]] + s[1..] && t == [t[0]] + t[1..];
    }
  }

  // ----- Encoding -----

  /** The unreserved characters of section 2.3. */
  predicate Unreserved(c: char) {
    'A' <= c <= 'Z' || 'a' <= c <= 'z' || '0' <= c <= '9' || c == '-' || c == '_' || c == '.' || c == '~'
  }

  function HexUpper(d: nat): char
    requires d < 16
  {
    if d < 10 then '0' + d as char else 'A' + (d - 10) as char
  }

  function EncodeByte(c: char): string
    requires c as int < 256
  {
    if Unreserved(c) then [c] else ['%', HexUpper(c as int / 16), HexUpper(c as int % 16)]
  }

  function Encode(s: string): string
    requires IsBytes(s)
  {
    if s == "" then "" else EncodeByte(s[0]) + Encode(s[1..])
  }

  lemma EncodeNone()
    ensures Encode("") == ""
  {
  }

  lemma EncodeCons(c: char, s: string)
    requires IsBytes(s) && c as int < 256
    ensures IsBytes([c] + s) && Encode([c] + s) == EncodeByte(c) + Encode(s)
  {
    hide EncodeByte;
    assert ([c] + s)[1..] == s;
  }

  lemma {:induction false} EncodeSnoc(s: string, c: char)
    requires IsBytes(s) && c as int < 256
    ensures IsBytes(s + [c])
    ensures Encode(s + [c]) == Encode(s) + EncodeByte(c)
  {
    hide Encode, EncodeByte;
    if s == "" {
      EncodeCons(c, "");
      EncodeNone();
      assert s + [c] == [c] + "";
    } else {
      EncodeSnoc(s[1..], c);
      EncodeCons(s[0], s[1..]);
      EncodeCons(s[0], s[1..] + [c]);
      assert [s[0]] + s[1..] == s && [s[0]] + (s[1..] + [c]) == s + [c];
    }
  }

  function EncodeText(s: string): string {
    Encode(Utf8(s))
  }

  method UrlEncode(s: string) returns (out: string)
    ensures out == EncodeText(s)
  {
    var bytes := Utf8(s);
    out := "";
    for i := 0 to |bytes|
      invariant out == Encode(bytes[..i])
    {
      var byte := bytes[i];
      assert bytes[..i + 1] == bytes[..i] + [byte];
      EncodeSnoc(bytes[..i], byte);
      if Unreserved(byte) {
        out := out + [byte];
      } else {
        out := out + ['%', HexUpper(byte as int / 16), HexUpper(byte as int % 16)];
      }
    }
    assert bytes[..|bytes|] == bytes;
  }

  // ----- Decoding -----

  /** Two bytes that form valid UTF-8 on their own. */
  predicate ValidUtf8Pair(a: char, b: char) {
    (a as int < 0x80 && b as int < 0x80) || (0xC2 <= a as int <= 0xDF && 0x80 <= b as int <= 0xBF)
  }

  /** The byte an escape stands for. Bytes that are not text count as "00"; text
      that is not a hexadecimal number decodes to a blank; the number parser
      accepts a leading plus sign. */
  function EscapeByte(a: char, b: char): (r: char)
    ensures r as int < 256
  {
    if !ValidUtf8Pair(a, b) then '\0'
    else if HexValue(a).Some? && HexValue(b).Some? then (16 * HexValue(a).value + HexValue(b).value) as char
    else if a == '+' && HexValue(b).Some? then HexValue(b).value as char
    else ' '
  }

  function Decode(s: string): string {
    if s == "" then ""
    else if s[0] == '+' then " " + Decode(s[1..])
    else if s[0] == '%' && |s| > 2 then [EscapeByte(s[1], s[2])] + Decode(s[3..])
    else [s[0]] + Decode(s[1..])
  }

  function DecodeText(s: string): string {
    Decode(Utf8(s))
  }

  lemma DecodeStep(s: string, i: nat)
    requires i < |s|
    ensures s[i] == '+' ==> Decode(s[i..]) == " " + Decode(s[i + 1..])
    ensures s[i] == '%' && i + 2 < |s| ==> Decode(s[i..]) == [EscapeByte(s[i + 1], s[i + 2])] + Decode(s[i + 3..])
    ensures s[i] != '+' && !(s[i] == '%' && i + 2 < |s|) ==> Decode(s[i..]) == [s[i]] + Decode(s[i + 1..])
  {
    hide EscapeByte;
    var rest := s[i..];
    assert rest[1..] == s[i + 1..];
    if i + 2 < |s| { assert rest[3..] == s[i + 3..] && rest[1] == s[i + 1] && rest[2] == s[i + 2]; }
  }

  method UrlDecode(s: string) returns (out: string)
    ensures out == DecodeText(s)
  {
    hide Decode, EscapeByte, Utf8;
    var bytes := Utf8(s);
    out := "";
    var i := 0;
    while i < |bytes|
      invariant i <= |bytes|
      invariant out + Decode(bytes[i..]) == Decode(bytes)
    {
      DecodeStep(bytes, i);
      if bytes[i] == '+' {
        out := out + " ";
        i := i + 1;
      } else if bytes[i] == '%' && i + 2 < |bytes| {
        out := out + [EscapeByte(bytes[i + 1], bytes[i + 2])];
        i := i + 3;
      } else {
        out := out + [bytes[i]];
        i := i + 1;
      }
    }
    assert bytes[|bytes|..] == "";
    assert Decode("") == "" by { DecodeEmpty(); }
  }

  lemma DecodeEmpty()
    ensures Decode("") == ""
  {
  }

  lemma HexPairBack(c: char)
    requires c as int < 256
    ensures EscapeByte(HexUpper(c as int / 16), HexUpper(c as int % 16)) == c
  {
    var h, l := c as int / 16, c as int % 16;
    assert HexValue(HexUpper(h)) == Some(h) && HexValue(HexUpper(l)) == Some(l);
  }

  /** Decoding undoes encoding, byte for byte. */
  lemma {:induction false} DecodeEncode(s: string)
    requires IsBytes(s)
    ensures Decode(Encode(s)) == s
  {
    if s != "" {
      DecodeEncode(s[1..]);
      var e, rest := Encode(s), Encode(s[1..]);
      if Unreserved(s[0]) {
        assert e[1..] == rest;
      } else {
        HexPairBack(s[0]);
        assert e[3..] == rest;
      }
    }
  }

  /** Decoding an encoded text gives its bytes, so the text itself exactly when it
      is ASCII. */
  lemma TextRoundTrip(s: string)
    ensures DecodeText(EncodeText(s)) == Utf8(s)
    ensures DecodeText(EncodeText(s)) == s <==> Ascii(s)
  {
    EncodedAscii(s);
    Utf8Length(EncodeText(s));
    DecodeEncode(Utf8(s));
    Utf8Length(s);
  }

  /** A code of one accented letter comes back as two characters. */
  lemma AccentIsLost()
    ensures DecodeText(EncodeText("\U{E9}")) == "\U{C3}\U{A9}"
  {
    hide DecodeText, EncodeText, Ascii;
    TextRoundTrip("\U{E9}");
    assert ("\U{E9}")[1..] == "" && Utf8("") == "";
    assert Utf8Char('\U{E9}') == "\U{C3}\U{A9}";
  }

  lemma EncodedAscii(s: string)
    ensures Ascii(EncodeText(s))
  {
    EncodedAlphabet(Utf8(s));
  }

  /** Two different texts never encode alike. */
  lemma EncodeInjective(s: string, t: string)
    requires EncodeText(s) == EncodeText(t)
    ensures s == t
  {
    DecodeEncode(Utf8(s));
    DecodeEncode(Utf8(t));
    Utf8Injective(s, t);
  }

  /** Encoded text has only unreserved characters and escapes: none of the
      characters a query is cut at. */
  lemma {:induction false} EncodedAlphabet(s: string)
    requires IsBytes(s)
    ensures forall i :: 0 <= i < |Encode(s)| ==> Unreserved(Encode(s)[i]) || Encode(s)[i] == '%'
  {
    if s != "" {
      EncodedAlphabet(s[1..]);
      EncodeByteAlphabet(s[0]);
    }
  }

  lemma EncodeByteAlphabet(c: char)
    requires c as int < 256
    ensures forall i :: 0 <= i < |EncodeByte(c)| ==> Unreserved(EncodeByte(c)[i]) || EncodeByte(c)[i] == '%'
  {
    assert forall d: nat :: d < 16 ==> Unreserved(HexUpper(d));
  }

  /** Encoded text has only plain characters and percent signs: none of the
      characters a query is cut at, and no blank. */
  lemma EncodedIsPlain(s: string)
    ensures forall i :: 0 <= i < |EncodeText(s)| ==> Plain(EncodeText(s)[i]) || EncodeText(s)[i] == '%'
    ensures '&' !in EncodeText(s) && '=' !in EncodeText(s) && '?' !in EncodeText(s) && '+' !in EncodeText(s)
  {
    hide Utf8, Plain;
    EncodedAlphabet(Utf8(s));
    EncodedOnly(Utf8(s));
  }

  // ----- The two alphabets, spelled out -----

  const CAPITALS := "ABCDEFGHIJKLMNOPQRSTUVWXYZ"
  const SMALL := "abcdefghijklmnopqrstuvwxyz"
  const DIGITS := "0123456789"
  const MARKS := "-_.~"

  /** The characters sent as they are. */
  predicate Plain(c: char) {
    c in CAPITALS || c in SMALL || c in DIGITS || c in MARKS
  }

  lemma CapitalsRun()
    ensures |CAPITALS| == 26 && forall i :: 0 <= i < 26 ==> CAPITALS[i] as int == 'A' as int + i
  {
  }

  lemma SmallRun()
    ensures |SMALL| == 26 && forall i :: 0 <= i < 26 ==> SMALL[i] as int == 'a' as int + i
  {
  }

  lemma DigitsRun()
    ensures |DIGITS| == 10 && forall i :: 0 <= i < 10 ==> DIGITS[i] as int == '0' as int + i
  {
  }

  lemma InRun(c: char, run: string, first: char)
    requires forall i :: 0 <= i < |run| ==> run[i] as int == first as int + i
    ensures c in run <==> first as int <= c as int < first as int + |run|
  {
    if first as int <= c as int < first as int + |run| { assert run[c as int - first as int] == c; }
  }

  lemma InMarks(c: char)
    ensures c in MARKS <==> c == '-' || c == '_' || c == '.' || c == '~'
  {
    assert MARKS[0] == '-' && MARKS[1] == '_' && MARKS[2] == '.' && MARKS[3] == '~';
  }

  lemma PlainIff(c: char)
    ensures Unreserved(c) <==> Plain(c)
  {
    hide CAPITALS, SMALL, DIGITS, MARKS;
    CapitalsRun();
    SmallRun();
    DigitsRun();
    InRun(c, CAPITALS, 'A');
    InRun(c, SMALL, 'a');
    InRun(c, DIGITS, '0');
    InMarks(c);
  }

  /** A byte is sent as itself if it is one of the plain characters, and otherwise
      as a percent sign and its two digits in upper case. */
  lemma ByteExact(c: char)
    requires c as int < 256
    ensures EncodeByte(c) == if Plain(c) then [c] else ['%', UPPER_HEX[c as int / 16], UPPER_HEX[c as int % 16]]
  {
    hide Plain, Unreserved;
    PlainIff(c);
    HexDigits();
  }

  /** Encoded text is the encodings of its bytes in a row, so it has only plain
      characters and percent signs: reserved ones and blanks never get through. */
  lemma {:induction false} EncodedOnly(s: string)
    requires IsBytes(s)
    ensures forall i :: 0 <= i < |Encode(s)| ==> Plain(Encode(s)[i]) || Encode(s)[i] == '%'
  {
    hide Plain, Unreserved;
    EncodedAlphabet(s);
    forall i | 0 <= i < |Encode(s)| ensures Plain(Encode(s)[i]) || Encode(s)[i] == '%' { PlainIff(Encode(s)[i]); }
  }

  /** An escape of two digits, each in either case, stands for their byte; one digit
      after a plus sign for that digit; two bytes that are not text for a zero
      byte; and any other text for a blank. */
  lemma EscapeExact(a: char, b: char)
    requires a as int < 256 && b as int < 256
    ensures forall h, l :: 0 <= h < 16 && 0 <= l < 16 && (a == UPPER_HEX[h] || a == LOWER_HEX[h]) && (b == UPPER_HEX[l] || b == LOWER_HEX[l]) ==>
              EscapeByte(a, b) as int == 16 * h + l
    ensures forall l :: 0 <= l < 16 && a == '+' && (b == UPPER_HEX[l] || b == LOWER_HEX[l]) ==> EscapeByte(a, b) as int == l
    ensures !ValidUtf8Pair(a, b) ==> EscapeByte(a, b) as int == 0
    ensures ValidUtf8Pair(a, b) && (b !in UPPER_HEX + LOWER_HEX || (a != '+' && a !in UPPER_HEX + LOWER_HEX)) ==> EscapeByte(a, b) == ' '
  {
    hide HexValue, UPPER_HEX, LOWER_HEX;
    HexDigits();
    HexOrNot(a);
    HexOrNot(b);
    forall h, l | 0 <= h < 16 && 0 <= l < 16 && (a == UPPER_HEX[h] || a == LOWER_HEX[h]) && (b == UPPER_HEX[l] || b == LOWER_HEX[l])
      ensures EscapeByte(a, b) as int == 16 * h + l
    {
      HexValueIff(a, h);
      HexValueIff(b, l);
      DigitAscii(a);
      DigitAscii(b);
    }
    forall l | 0 <= l < 16 && a == '+' && (b == UPPER_HEX[l] || b == LOWER_HEX[l]) ensures EscapeByte(a, b) as int == l {
      HexValueIff(b, l);
      DigitAscii(b);
      PlusIsNoDigit();
    }
  }

  lemma PlusIsNoDigit()
    ensures HexValue('+').None?
  {
  }

  lemma DigitAscii(c: char)
    requires HexValue(c).Some?
    ensures c as int < 0x80 && HexValue(c).value < 16
  {
  }

  lemma HexOrNot(c: char)
    ensures HexValue(c).Some? <==> c in UPPER_HEX + LOWER_HEX
  {
    var all := UPPER_HEX + LOWER_HEX;
    HexDigits();
    if HexValue(c).Some? {
      var v := HexValue(c).value;
      HexValueIff(c, v);
      assert all[v] == UPPER_HEX[v] && all[16 + v] == LOWER_HEX[v];
    }
    if c in all {
      var i :| 0 <= i < |all| && all[i] == c;
      HexValueIff(c, if i < 16 then i else i - 16);
    }
  }

  // ----- The callback query -----

  datatype Params = Params(code: Option<string>, state: Option<string>, error: Option<string>)

  const NO_PARAMS := Params(None, None, None)

  /** Key and raw value of one piece, cut at its first equals sign. */
  function PieceKey(piece: string): Option<string> {
    var k := IndexOf(piece, '=');
    if k < |piece| then Some(piece[..k]) else None
  }

  function PieceValue(piece: string): string {
    var k := IndexOf(piece, '=');
    if k < |piece| then DecodeText(piece[k + 1..]) else ""
  }

  function Take(p: Params, piece: string): Params {
    var k, v := PieceKey(piece), PieceValue(piece);
    if k == Some("code") then p.(code := Some(v))
    else if k == Some("state") then p.(state := Some(v))
    else if k == Some("error") then p.(error := Some(v))
    else if k == Some("error_description") && p.error.Some? then p.(error := Some(v))
    else p
  }

  function TakeAll(pieces: seq<string>): Params {
    if pieces == [] then NO_PARAMS else Take(TakeAll(pieces[..|pieces| - 1]), pieces[|pieces| - 1])
  }

  function ParsePath(path: string): Params {
    var k := IndexOf(path, '?');
    if k == |path| then NO_PARAMS else TakeAll(Split(path[k + 1..], '&'))
  }

  method ParseCallbackParams(path: string) returns (p: Params)
    ensures p == ParsePath(path)
  {
    hide Split, DecodeText;
    var k := IndexOf(path, '?');
    if k == |path| { return NO_PARAMS; }
    var pieces := Split(path[k + 1..], '&');
    var code: Option<string>, state: Option<string>, error: Option<string> := None, None, None;
    for i := 0 to |pieces|
      invariant Params(code, state, error) == TakeAll(pieces[..i])
    {
      var kv := pieces[i];
      assert pieces[..i + 1][..i] == pieces[..i];
      var eq := IndexOf(kv, '=');
      if eq < |kv| {
        var v := UrlDecode(kv[eq + 1..]);
        var k := kv[..eq];
        if k == "code" {
          code := Some(v);
        } else if k == "state" {
          state := Some(v);
        } else if k == "error" {
          error := Some(v);
        } else if k == "error_description" && error.Some? {
          error := Some(v);
        }
      }
    }
    assert pieces[..|pieces|] == pieces;
    p := Params(code, state, error);
  }

  /** Value of the last piece whose key is one of `keys`. */
  function LastValue(pieces: seq<string>, keys: set<string>): Option<string> {
    if pieces == [] then None
    else
      var last := pieces[|pieces| - 1];
      if PieceKey(last).Some? && PieceKey(last).value in keys then Some(PieceValue(last))
      else LastValue(pieces[..|pieces| - 1], keys)
  }

  /** What the parser returns, without the loop: the last code, the last state,
      and, if there is any error at all, the last error or description. */
  lemma {:induction false} TakeAllExact(pieces: seq<string>)
    ensures TakeAll(pieces).code == LastValue(pieces, {"code"})
    ensures TakeAll(pieces).state == LastValue(pieces, {"state"})
    ensures TakeAll(pieces).error
         == if LastValue(pieces, {"error"}).None? then None else LastValue(pieces, {"error", "error_description"})
  {
    hide PieceKey, PieceValue;
    if pieces != [] {
      var front, last := pieces[..|pieces| - 1], pieces[|pieces| - 1];
      TakeAllExact(front);
      KeyNames();
      LastValueStep(pieces, {"error"});
      LastValueStep(pieces, {"error", "error_description"});
      SomeError(front);
    }
  }

  lemma LastValueStep(pieces: seq<string>, keys: set<string>)
    requires pieces != []
    ensures LastValue(pieces, keys)
         == (var last := pieces[|pieces| - 1];
             if PieceKey(last).Some? && PieceKey(last).value in keys then Some(PieceValue(last))
             else LastValue(pieces[..|pieces| - 1], keys))
  {
  }

  lemma {:induction false} SomeError(pieces: seq<string>)
    ensures LastValue(pieces, {"error"}).Some? ==> LastValue(pieces, {"error", "error_description"}).Some?
  {
    hide PieceKey, PieceValue;
    if pieces != [] {
      SomeError(pieces[..|pieces| - 1]);
    }
  }

  lemma KeyNames()
    ensures "code" != "state" && "code" != "error" && "code" != "error_description"
    ensures "state" != "error" && "state" != "error_description" && "error" != "error_description"
  {
    assert |"code"| == 4 && |"state"| == 5 && |"error"| == 5 && |"error_description"| == 17;
    assert "state"[0] != "error"[0];
  }

  lemma {:induction false} LastValueAt(pieces: seq<string>, key: string, i: nat)
    requires i < |pieces| && PieceKey(pieces[i]) == Some(key)
    requires forall j :: 0 <= j < |pieces| && j != i ==> PieceKey(pieces[j]) != Some(key)
    ensures LastValue(pieces, {key}) == Some(PieceValue(pieces[i]))
  {
    hide PieceKey, PieceValue, LastValue;
    var n := |pieces| - 1;
    LastValueStep(pieces, {key});
    if i < n {
      LastValueAt(pieces[..n], key, i);
    }
  }

  lemma PairParts(key: string, raw: string)
    requires '=' !in key
    ensures PieceKey(key + "=" + raw) == Some(key) && PieceValue(key + "=" + raw) == DecodeText(raw)
  {
    hide DecodeText, IndexOf;
    var piece := key + "=" + raw;
    assert piece == key + ("=" + raw);
    IndexOfConcat(key, "=" + raw, '=');
    assert ("=" + raw)[0] == '=';
    assert IndexOf(piece, '=') == |key|;
    assert piece[..|key|] == key && piece[|key| + 1..] == raw;
  }

  /** A callback whose query carries the encoded code and state, in any order and
      among any other pairs, parses back to their bytes: to the texts themselves
      exactly when they are ASCII. */
  lemma CallbackRoundTrip(before: string, pieces: seq<string>, i: nat, j: nat, code: string, state: string)
    requires '?' !in before
    requires i < |pieces| && j < |pieces|
    requires pieces[i] == "code" + "=" + EncodeText(code) && pieces[j] == "state" + "=" + EncodeText(state)
    requires forall k :: 0 <= k < |pieces| && k != i && k != j ==> '&' !in pieces[k]
    requires forall k :: 0 <= k < |pieces| && k != i ==> PieceKey(pieces[k]) != Some("code")
    requires forall k :: 0 <= k < |pieces| && k != j ==> PieceKey(pieces[k]) != Some("state")
    ensures var p := ParsePath(before + "?" + Join(pieces, '&'));
            && p.code == Some(Utf8(code)) && p.state == Some(Utf8(state))
            && (p.code == Some(code) <==> Ascii(code)) && (p.state == Some(state) <==> Ascii(state))
  {
    hide Split, Join, DecodeText, EncodeText, TakeAll, LastValue, PieceKey, PieceValue, IndexOf, Utf8;
    EncodedPairFits("code", code);
    EncodedPairFits("state", state);
    QueryOf(before, pieces);
    TakeAllExact(pieces);
    PairParts("code", EncodeText(code));
    PairParts("state", EncodeText(state));
    LastValueAt(pieces, "code", i);
    LastValueAt(pieces, "state", j);
    TextRoundTrip(code);
    TextRoundTrip(state);
    Utf8Length(code);
    Utf8Length(state);
  }

  /** The pairs of a path's query. */
  lemma QueryOf(before: string, pieces: seq<string>)
    requires '?' !in before && pieces != []
    requires forall k :: 0 <= k < |pieces| ==> '&' !in pieces[k]
    ensures ParsePath(before + "?" + Join(pieces, '&')) == TakeAll(pieces)
  {
    hide Split, Join, TakeAll, IndexOf;
    CutAtMark(before, Join(pieces, '&'));
    SplitPieces(pieces);
  }

  lemma CutAtMark(before: string, query: string)
    requires '?' !in before
    ensures var path := before + "?" + query;
            IndexOf(path, '?') == |before| < |path| && path[|before| + 1..] == query
  {
    hide IndexOf;
    assert before + "?" + query == before + ("?" + query);
    IndexOfConcat(before, "?" + query, '?');
    assert ("?" + query)[0] == '?';
  }

  lemma SplitPieces(pieces: seq<string>)
    requires pieces != [] && forall k :: 0 <= k < |pieces| ==> '&' !in pieces[k]
    ensures Split(Join(pieces, '&'), '&') == pieces
  {
    hide Split, Join;
    forall p | p in pieces ensures '&' !in p {}
    SplitJoin(pieces, '&');
  }

  /** Encoded values can always be placed in a query: their pairs contain no
      ampersand. */
  lemma EncodedPairFits(key: string, value: string)
    requires '&' !in key
    ensures '&' !in key + "=" + EncodeText(value)
  {
    EncodedIsPlain(value);
  }
}

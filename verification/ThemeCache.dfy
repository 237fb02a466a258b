/** Theme lookup and the memoised theme resolver. */
module ThemeCache {
  import opened Lists
  import L = Look

  type Fields = map<string, string>

  /** Tokens are those of the completed palette. */
  datatype Palette = Palette(id: string, light: Fields, dark: Fields)

  datatype Typography = Typography(plain: Fields, scale: Fields, weights: Fields, table: Fields, labels: Fields)

  datatype Sizing = Sizing(plain: Fields, rowHeights: Fields, radius: Fields, fieldHeight: Fields)

  datatype Theme = Theme(
    id: string, defaultPaletteId: string, palettes: seq<Palette>, typography: Typography, sizing: Sizing,
    display: Fields, chart: Fields)

  /** What a user changed; an absent group is an empty one. */
  datatype Changes = Changes(tokens: Fields, typography: Typography, sizing: Sizing, display: Fields, chart: Fields)

  const NO_CHANGES := Changes(map[], Typography(map[], map[], map[], map[], map[]), Sizing(map[], map[], map[], map[]), map[], map[])

  datatype Resolved = Resolved(
    themeId: string, paletteId: string, mode: L.ThemeMode, tokens: Fields, typography: Typography, sizing: Sizing,
    display: Fields, chart: Fields)

  /** The bundled registry: at least one theme, each with at least one palette. */
  predicate RegistryOk(themes: seq<Theme>) {
    themes != [] && forall i :: 0 <= i < |themes| ==> themes[i].palettes != []
  }

  function FindTheme(themes: seq<Theme>, id: string): (r: Option<Theme>)
    ensures r.Some? ==> r.value in themes && r.value.id == id
    ensures r.None? ==> forall t :: t in themes ==> t.id != id
  {
    if themes == [] then None else if themes[0].id == id then Some(themes[0]) else FindTheme(themes[1..], id)
  }

  function FindPalette(palettes: seq<Palette>, id: string): (r: Option<Palette>)
    ensures r.Some? ==> r.value in palettes && r.value.id == id
    ensures r.None? ==> forall p :: p in palettes ==> p.id != id
  {
    if palettes == [] then None else if palettes[0].id == id then Some(palettes[0]) else FindPalette(palettes[1..], id)
  }

  function GetTheme(themes: seq<Theme>, id: string): (t: Theme)
    requires RegistryOk(themes)
    ensures t in themes && t.palettes != []
    ensures if exists x :: x in themes && x.id == id then t.id == id else t == themes[0]
  {
    match FindTheme(themes, id)
    case Some(t) => t
    case None => themes[0]
  }

  function GetPalette(t: Theme, id: string): (p: Palette)
    requires t.palettes != []
    ensures p in t.palettes
    ensures if exists x :: x in t.palettes && x.id == id then p.id == id
            else if exists x :: x in t.palettes && x.id == t.defaultPaletteId then p.id == t.defaultPaletteId
            else p == t.palettes[0]
  {
    var wanted, usual := FindPalette(t.palettes, id), FindPalette(t.palettes, t.defaultPaletteId);
    if wanted.Some? then wanted.value else if usual.Some? then usual.value else t.palettes[0]
  }

  /** The uncached resolver: look up, pick the mode's tokens, lay the changes over
      each group and each nested group. */
  function Resolve(themes: seq<Theme>, themeId: string, paletteId: string, mode: L.ThemeMode, o: Changes): Resolved
    requires RegistryOk(themes)
  {
    var t := GetTheme(themes, themeId);
    var p := GetPalette(t, paletteId);
    Resolved(t.id, p.id, mode,
             (if mode.Dark? then p.dark else p.light) + o.tokens,
             Typography(t.typography.plain + o.typography.plain, t.typography.scale + o.typography.scale,
                        t.typography.weights + o.typography.weights, t.typography.table + o.typography.table,
                        t.typography.labels + o.typography.labels),
             Sizing(t.sizing.plain + o.sizing.plain, t.sizing.rowHeights + o.sizing.rowHeights,
                    t.sizing.radius + o.sizing.radius, t.sizing.fieldHeight + o.sizing.fieldHeight),
             t.display + o.display, t.chart + o.chart)
  }

  /** `r` is `base` with `over` laid on top: every key of either and no other, and
      where both have a key, the value of `over`. */
  ghost predicate LaidOver(base: Fields, over: Fields, r: Fields) {
    && (forall k :: k in r <==> k in base || k in over)
    && (forall k :: k in over ==> r[k] == over[k])
    && (forall k :: k in base && k !in over ==> r[k] == base[k])
  }

  /** What a request is owed: the ids of the theme and palette found for it, the
      mode asked for, the tokens of that mode and every group of the theme, each
      with the user's changes on top. */
  ghost predicate Serves(themes: seq<Theme>, q: Request, o: Changes, r: Resolved)
    requires RegistryOk(themes)
  {
    var t := GetTheme(themes, q.themeId);
    var p := GetPalette(t, q.paletteId);
    && r.themeId == t.id && r.paletteId == p.id && r.mode == q.mode
    && (q.mode.Dark? ==> LaidOver(p.dark, o.tokens, r.tokens))
    && (q.mode.Light? ==> LaidOver(p.light, o.tokens, r.tokens))
    && LaidOver(t.typography.plain, o.typography.plain, r.typography.plain)
    && LaidOver(t.typography.scale, o.typography.scale, r.typography.scale)
    && LaidOver(t.typography.weights, o.typography.weights, r.typography.weights)
    && LaidOver(t.typography.table, o.typography.table, r.typography.table)
    && LaidOver(t.typography.labels, o.typography.labels, r.typography.labels)
    && LaidOver(t.sizing.plain, o.sizing.plain, r.sizing.plain)
    && LaidOver(t.sizing.rowHeights, o.sizing.rowHeights, r.sizing.rowHeights)
    && LaidOver(t.sizing.radius, o.sizing.radius, r.sizing.radius)
    && LaidOver(t.sizing.fieldHeight, o.sizing.fieldHeight, r.sizing.fieldHeight)
    && LaidOver(t.display, o.display, r.display)
    && LaidOver(t.chart, o.chart, r.chart)
  }

  lemma AnswerServes(themes: seq<Theme>, q: Request, o: Changes)
    requires RegistryOk(themes)
    ensures Serves(themes, q, o, Answer(themes, q, o))
  {
    hide GetTheme, GetPalette, RegistryOk, LaidOver;
    forall base: Fields, over: Fields ensures LaidOver(base, over, base + over) { LaidSum(base, over); }
  }

  lemma LaidSum(base: Fields, over: Fields)
    ensures LaidOver(base, over, base + over)
  {
  }

  /** An answer is determined by what the request is owed. */
  lemma ServedAlike(themes: seq<Theme>, q: Request, o: Changes, r: Resolved)
    requires RegistryOk(themes) && Serves(themes, q, o, r)
    ensures r == Answer(themes, q, o)
  {
    hide GetTheme, GetPalette, RegistryOk, LaidOver;
    forall base: Fields, over: Fields, x: Fields | LaidOver(base, over, x) ensures x == base + over { LaidAlike(base, over, x); }
  }

  lemma LaidAlike(base: Fields, over: Fields, x: Fields)
    requires LaidOver(base, over, x)
    ensures x == base + over
  {
  }

  // ----- Cache keys -----

  function ModeText(m: L.ThemeMode): string {
    if m.Dark? then "dark" else "light"
  }

  function Key(themeId: string, paletteId: string, mode: L.ThemeMode): string {
    themeId + [NUL] + paletteId + [NUL] + ModeText(mode)
  }

  /** Requests with NUL-free theme ids never share a key, whatever their palette
      ids contain. */
  lemma KeyInjective(t: string, p: string, m: L.ThemeMode, t': string, p': string, m': L.ThemeMode)
    requires NUL !in t && NUL !in t'
    requires Key(t, p, m) == Key(t', p', m')
    ensures t == t' && p == p' && m == m'
  {
    hide IndexOf, ModeText;
    var k := Key(t, p, m);
    var rest, rest' := [NUL] + p + [NUL] + ModeText(m), [NUL] + p' + [NUL] + ModeText(m');
    assert k == t + rest && k == t' + rest';
    FirstNul(t, rest);
    FirstNul(t', rest');
    assert t == k[..|t|] == t';
    assert rest == k[|t|..] == rest';
    ModeEnds(p, m, p', m', rest);
  }

  lemma FirstNul(t: string, rest: string)
    requires NUL !in t && rest != "" && rest[0] == NUL
    ensures IndexOf(t + rest, NUL) == |t|
  {
    IndexOfConcat(t, rest, NUL);
  }

  lemma ModeEnds(p: string, m: L.ThemeMode, p': string, m': L.ThemeMode, rest: string)
    requires rest == [NUL] + p + [NUL] + ModeText(m)
    requires rest == [NUL] + p' + [NUL] + ModeText(m')
    ensures p == p' && m == m'
  {
    assert rest[|rest| - 1] == ModeText(m)[|ModeText(m)| - 1];
    assert rest[|rest| - 1] == ModeText(m')[|ModeText(m')| - 1];
    assert m == m';
    assert p == rest[1..|rest| - 1 - |ModeText(m)|];
    assert p' == rest[1..|rest| - 1 - |ModeText(m)|];
  }

  datatype Request = Request(themeId: string, paletteId: string, mode: L.ThemeMode)

  function KeyOf(q: Request): string {
    Key(q.themeId, q.paletteId, q.mode)
  }

  predicate NulFree(q: Request) {
    NUL !in q.themeId && NUL !in q.paletteId
  }

  /** A request that shares its key with this one, if its ids contain a NUL: the
      cut between theme and palette moved to that NUL. */
  function Double(q: Request): Request {
    var k, l := IndexOf(q.themeId, NUL), IndexOf(q.paletteId, NUL);
    if k < |q.themeId| then Request(q.themeId[..k], q.themeId[k + 1..] + [NUL] + q.paletteId, q.mode)
    else if l < |q.paletteId| then Request(q.themeId + [NUL] + q.paletteId[..l], q.paletteId[l + 1..], q.mode)
    else q
  }

  /** Moving the cut to another NUL keeps the key. */
  lemma CutMoves(u: string, w: string, p: string, m: L.ThemeMode)
    ensures Key(u + [NUL] + w, p, m) == Key(u, w + [NUL] + p, m)
  {
    var tail := ModeText(m);
    assert u + [NUL] + w + [NUL] + p + [NUL] + tail == u + [NUL] + (w + [NUL] + p) + [NUL] + tail;
  }

  lemma CutWhole(s: string, k: nat)
    requires k < |s|
    ensures s == s[..k] + [s[k]] + s[k + 1..]
  {
  }

  lemma CutAt(s: string)
    requires NUL in s
    ensures IndexOf(s, NUL) < |s|
    ensures s == s[..IndexOf(s, NUL)] + [NUL] + s[IndexOf(s, NUL) + 1..]
    ensures NUL !in s[..IndexOf(s, NUL)]
  {
    hide IndexOf;
    CutWhole(s, IndexOf(s, NUL));
  }

  lemma DoubleShares(q: Request)
    ensures KeyOf(Double(q)) == KeyOf(q)
    ensures Double(q) != q <==> !NulFree(q)
  {
    hide Key, IndexOf;
    var k, l := IndexOf(q.themeId, NUL), IndexOf(q.paletteId, NUL);
    if k < |q.themeId| {
      CutAt(q.themeId);
      CutMoves(q.themeId[..k], q.themeId[k + 1..], q.paletteId, q.mode);
      assert |Double(q).themeId| < |q.themeId|;
    } else if l < |q.paletteId| {
      CutAt(q.paletteId);
      CutMoves(q.themeId, q.paletteId[..l], q.paletteId[l + 1..], q.mode);
      assert |Double(q).themeId| > |q.themeId|;
    }
  }

  function Answer(themes: seq<Theme>, q: Request, o: Changes): Resolved
    requires RegistryOk(themes)
  {
    Resolve(themes, q.themeId, q.paletteId, q.mode, o)
  }

  /** A request has its cache key to itself exactly when neither of its ids
      contains a NUL, whatever the other requests contain. */
  lemma KeyUnsharedIff(q: Request)
    ensures (forall o: Request :: KeyOf(o) == KeyOf(q) ==> o == q) <==> NulFree(q)
  {
    hide KeyOf, Double;
    DoubleShares(q);
    if NulFree(q) {
      forall o: Request | KeyOf(o) == KeyOf(q) ensures o == q { OneOwner(o, q); }
    } else {
      assert KeyOf(Double(q)) == KeyOf(q);
    }
  }

  lemma OneOwner(o: Request, q: Request)
    requires NulFree(q) && KeyOf(o) == KeyOf(q)
    ensures o == q
  {
    hide Key, IndexOf;
    if NUL in o.themeId {
      var k := IndexOf(o.themeId, NUL);
      var u, w := o.themeId[..k], o.themeId[k + 1..];
      CutAt(o.themeId);
      CutMoves(u, w, o.paletteId, o.mode);
      KeyInjective(u, w + [NUL] + o.paletteId, o.mode, q.themeId, q.paletteId, q.mode);
      HasNul(w, o.paletteId);
    } else {
      KeyInjective(o.themeId, o.paletteId, o.mode, q.themeId, q.paletteId, q.mode);
    }
  }

  lemma HasNul(w: string, p: string)
    ensures NUL in w + [NUL] + p
  {
    assert (w + [NUL] + p)[|w|] == NUL;
  }

  /** With a NUL inside a theme id, two different requests can share a key. */
  lemma KeyCollides(m: L.ThemeMode)
    ensures Key("a" + [NUL] + "b", "c", m) == Key("a", "b" + [NUL] + "c", m)
  {
    assert "a" + [NUL] + "b" + [NUL] + "c" == "a" + [NUL] + ("b" + [NUL] + "c");
  }

  // ----- The memoised resolver -----

  /** Identity of an overrides object; its content never changes. */
  class Overrides {
    const changes: Changes

    constructor (changes: Changes)
      ensures this.changes == changes
    {
      this.changes := changes;
    }
  }

  /** Identity of a resolved theme handed to components. */
  class ResolvedTheme {
    const value: Resolved

    constructor (value: Resolved)
      ensures this.value == value
    {
      this.value := value;
    }
  }

  /** An entry is the resolution of the request that filled it. */
  ghost predicate EntryOk(themes: seq<Theme>, cache: Table<ResolvedTheme>,
                          asked: Table<Request>, o: Overrides, key: string)
    requires RegistryOk(themes) && o in cache && key in cache[o]
  {
    && o in asked && key in asked[o]
    && KeyOf(asked[o][key]) == key
    && cache[o][key].value == Answer(themes, asked[o][key], o.changes)
  }

  type Table<V> = map<Overrides, map<string, V>>

  function Entries<V>(table: Table<V>, o: Overrides): map<string, V> {
    if o in table then table[o] else map[]
  }

  function Recorded<V>(table: Table<V>, o: Overrides, key: string, v: V): Table<V> {
    table[o := Entries(table, o)[key := v]]
  }

  ghost predicate Entry<V>(table: Table<V>, older o: Overrides, key: string) {
    o in table && key in table[o]
  }

  lemma EntryAdded(themes: seq<Theme>, cache: Table<ResolvedTheme>, asked: Table<Request>, o: Overrides, key: string, r: ResolvedTheme, q: Request)
    requires RegistryOk(themes) && key == KeyOf(q) && r.value == Answer(themes, q, o.changes)
    requires forall x, k :: Entry(cache, x, k) ==> EntryOk(themes, cache, asked, x, k)
    ensures var c, a := Recorded(cache, o, key, r), Recorded(asked, o, key, q);
            && (forall x, k :: Entry(c, x, k) ==> EntryOk(themes, c, a, x, k))
            && Entry(c, o, key) && c[o][key] == r && Entry(a, o, key) && a[o][key] == q
  {
    hide Answer, KeyOf;
    var c, a := Recorded(cache, o, key, r), Recorded(asked, o, key, q);
    forall x, k | Entry(c, x, k) ensures EntryOk(themes, c, a, x, k) {
      if Entry(cache, x, k) { assert EntryOk(themes, cache, asked, x, k); }
    }
  }

  /** Every other entry is as it was. */
  lemma OthersStay(themes: seq<Theme>, cache: Table<ResolvedTheme>, asked: Table<Request>, o: Overrides, key: string, r: ResolvedTheme, q: Request)
    requires RegistryOk(themes) && !Entry(cache, o, key)
    requires forall x, k :: Entry(cache, x, k) ==> EntryOk(themes, cache, asked, x, k)
    ensures var c, a := Recorded(cache, o, key, r), Recorded(asked, o, key, q);
            && (forall x, k :: Entry(cache, x, k) ==> Entry(c, x, k) && c[x][k] == cache[x][k])
            && (forall x, k :: Entry(cache, x, k) ==> Entry(asked, x, k) && Entry(a, x, k) && a[x][k] == asked[x][k])
            && (forall x, k :: Entry(c, x, k) && !Entry(cache, x, k) ==> x == o && k == key)
  {
    hide Answer, KeyOf;
    var c, a := Recorded(cache, o, key, r), Recorded(asked, o, key, q);
    forall x, k | Entry(cache, x, k) ensures Entry(asked, x, k) && Entry(a, x, k) && a[x][k] == asked[x][k] {
      assert EntryOk(themes, cache, asked, x, k);
    }
  }

  class ThemeResolver {
    const themes: seq<Theme>
    const noOverrides: Overrides
    var cache: Table<ResolvedTheme>
    /** The request that filled each entry. */
    ghost var asked: Table<Request>

    ghost predicate Valid()
      reads this
    {
      && RegistryOk(themes)
      && noOverrides.changes == NO_CHANGES
      && forall o, key :: Entry(cache, o, key) ==> EntryOk(themes, cache, asked, o, key)
    }

    constructor (themes: seq<Theme>)
      requires RegistryOk(themes)
      ensures Valid() && cache == map[] && asked == map[] && this.themes == themes
    {
      this.themes := themes;
      noOverrides := new Overrides(NO_CHANGES);
      cache, asked := map[], map[];
    }

    function Holder(overrides: Overrides?): Overrides {
      if overrides == null then noOverrides else overrides
    }

    /** On every call history the answer is the uncached one for the request that
        first had this key, which is the request itself when its ids are free of
        NUL. An entry is never replaced, so asking again returns the same object. */
    method ResolveTheme(q: Request, overrides: Overrides?) returns (r: ResolvedTheme)
      requires Valid()
      modifies this
      ensures Valid() && Entry(cache, Holder(overrides), KeyOf(q)) && cache[Holder(overrides)][KeyOf(q)] == r
      ensures var o := Holder(overrides);
              var filler := if Entry(old(cache), o, KeyOf(q)) then old(asked)[o][KeyOf(q)] else q;
              KeyOf(filler) == KeyOf(q) && Serves(themes, filler, o.changes, r.value)
      ensures NulFree(q) ==> Serves(themes, q, Holder(overrides).changes, r.value)
      ensures forall o, k :: Entry(old(cache), o, k) ==>
                Entry(cache, o, k) && cache[o][k] == old(cache)[o][k] && asked[o][k] == old(asked)[o][k]
      ensures forall o, k :: Entry(cache, o, k) && !Entry(old(cache), o, k) ==>
                o == Holder(overrides) && k == KeyOf(q) && asked[o][k] == q
    {
      hide Answer, KeyOf, RegistryOk, Recorded, NulFree, Serves;
      var o := if overrides == null then noOverrides else overrides;
      var key := KeyOf(q);
      KeyUnsharedIff(q);
      AnswerServes(themes, q, o.changes);
      var byKey := Entries(cache, o);
      if key in byKey {
        r := byKey[key];
        assert Entry(cache, o, key) && EntryOk(themes, cache, asked, o, key);
        AnswerServes(themes, asked[o][key], o.changes);
        return;
      }
      r := new ResolvedTheme(Answer(themes, q, o.changes));
      EntryAdded(themes, cache, asked, o, key, r, q);
      OthersStay(themes, cache, asked, o, key, r, q);
      cache, asked := Recorded(cache, o, key, r), Recorded(asked, o, key, q);
    }

    /** Two requests sharing a key: the second gets the first one's theme. */
    method AskBoth(q: Request, o: Request) returns (first: ResolvedTheme, second: ResolvedTheme)
      requires Valid() && cache == map[] && KeyOf(q) == KeyOf(o)
      modifies this
      ensures Valid() && second == first
      ensures Serves(themes, q, NO_CHANGES, first.value)
      ensures Serves(themes, o, NO_CHANGES, second.value) <==> Answer(themes, q, NO_CHANGES) == Answer(themes, o, NO_CHANGES)
    {
      hide Serves, Answer;
      AnswerServes(themes, o, NO_CHANGES);
      first := ResolveTheme(q, null);
      second := ResolveTheme(o, null);
      ServedAlike(themes, q, NO_CHANGES, first.value);
      if Serves(themes, o, NO_CHANGES, second.value) { ServedAlike(themes, o, NO_CHANGES, second.value); }
    }
  }

  /** Two registered themes and a request for the second that is answered with
      the first: their ids differ by a NUL. */
  lemma WrongTheme(a: Theme, b: Theme, m: L.ThemeMode)
    requires a.palettes != [] && b.palettes != [] && a.id == "a" && b.id == "a" + [NUL] + "b"
    ensures var q, o := Request("a", "b" + [NUL] + "c", m), Request("a" + [NUL] + "b", "c", m);
            && KeyOf(q) == KeyOf(o)
            && Answer([a, b], q, NO_CHANGES).themeId != Answer([a, b], o, NO_CHANGES).themeId
  {
    KeyCollides(m);
    assert |a.id| != |b.id|;
    assert [a, b][0] == a && [a, b][1] == b;
  }
}

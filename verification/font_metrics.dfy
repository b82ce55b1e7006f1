/** The font-metrics registry of `src/font-metrics.ts`: a lookup from a font
    family name to its vertical and horizontal metrics, through a cache that
    starts with three preloaded families, then a metrics catalog searched
    under the camel-cased name and three spelling variations, then a
    keyword-chosen fallback family.

    The catalog, the camel-case key function and the three preloaded
    records are library data, so they are parameters (`Env`). */
module FontMetrics {
  import opened Options
  import JsStrings

  /** The five metrics the rest of the core uses. */
  datatype Metrics = Metrics(ascent: real, descent: real, lineGap: real, unitsPerEm: real, xWidthAvg: real)

  /** A catalog record, which carries more fields than the registry keeps. */
  datatype CatalogEntry = CatalogEntry(
    familyName: string, category: string,
    capHeight: real, ascent: real, descent: real, lineGap: real,
    unitsPerEm: real, xHeight: real, xWidthAvg: real)

  /** The library data the registry consults. */
  datatype Env = Env(
    catalog: map<string, CatalogEntry>,
    camelCase: string -> string,
    arial: Metrics, roboto: Metrics, montserrat: Metrics)

  /** The result of one lookup: the metrics returned and the cache after it. */
  datatype Resolution = Resolution(metrics: Metrics, cache: map<string, Metrics>)

  const ArialName: string := "Arial"
  const RobotoName: string := "Roboto"
  const MontserratName: string := "Montserrat"

  /** The keywords that make an unknown family fall back to Roboto. */
  const SansSerifKeywords: seq<string> := ["helvetica", "roboto", "montserrat", "open sans", "lato"]

  /** The cache as the module creates it. */
  function InitialCache(env: Env): (c: map<string, Metrics>)
    ensures Preloaded(c)
  {
    map[ArialName := env.arial, RobotoName := env.roboto, MontserratName := env.montserrat]
  }

  /** Both fallback families are present, so a fallback lookup cannot miss. */
  predicate Preloaded(cache: map<string, Metrics>) {
    ArialName in cache && RobotoName in cache
  }

  /** Keeps the five fields of a catalog record. */
  function Project(e: CatalogEntry): (m: Metrics)
    ensures m.ascent == e.ascent && m.descent == e.descent && m.lineGap == e.lineGap
    ensures m.unitsPerEm == e.unitsPerEm && m.xWidthAvg == e.xWidthAvg
  {
    Metrics(e.ascent, e.descent, e.lineGap, e.unitsPerEm, e.xWidthAvg)
  }

  /** The three spellings tried after the name itself, in order: lower-case
      without whitespace, without whitespace, lower-case with each whitespace
      run turned into a hyphen. */
  function Variations(family: string): (vs: seq<string>)
    ensures |vs| == 3
    ensures vs[0] == JsStrings.RemoveWhitespace(JsStrings.ToLower(family))
    ensures vs[1] == JsStrings.RemoveWhitespace(family)
    ensures vs[2] == JsStrings.CollapseRuns(JsStrings.ToLower(family), "-", false)
  {
    var lower := JsStrings.ToLower(family);
    JsStrings.ReplaceWithNothingRemovesWhitespace(lower);
    JsStrings.ReplaceWithNothingRemovesWhitespace(family);
    JsStrings.ReplaceWhitespaceRunsIsScan(lower, "-");
    [JsStrings.ReplaceWhitespaceRuns(lower, ""),
     JsStrings.ReplaceWhitespaceRuns(family, ""),
     JsStrings.ReplaceWhitespaceRuns(lower, "-")]
  }

  /** The catalog keys tried, in order. */
  function CandidateKeys(env: Env, family: string): (ks: seq<string>)
    ensures |ks| == 4 && ks[0] == env.camelCase(family)
    ensures forall i :: 0 <= i < 3 ==> ks[i + 1] == env.camelCase(Variations(family)[i])
  {
    var vs := Variations(family);
    [env.camelCase(family), env.camelCase(vs[0]), env.camelCase(vs[1]), env.camelCase(vs[2])]
  }

  /** `loadMetrics`: the projection of the catalog record under the first
      candidate key that the catalog holds, or nothing when none is there. */
  function LoadMetrics(env: Env, family: string): (r: Option<Metrics>)
    ensures var ks := CandidateKeys(env, family);
      r.None? <==> forall i :: 0 <= i < 4 ==> ks[i] !in env.catalog
    ensures var ks := CandidateKeys(env, family);
      r.Some? ==> exists i :: FirstHit(env.catalog, ks, i) && r.value == Project(env.catalog[ks[i]])
  {
    var ks := CandidateKeys(env, family);
    if ks[0] in env.catalog then
      assert FirstHit(env.catalog, ks, 0);
      Some(Project(env.catalog[ks[0]]))
    else if ks[1] in env.catalog then
      assert FirstHit(env.catalog, ks, 1);
      Some(Project(env.catalog[ks[1]]))
    else if ks[2] in env.catalog then
      assert FirstHit(env.catalog, ks, 2);
      Some(Project(env.catalog[ks[2]]))
    else if ks[3] in env.catalog then
      assert FirstHit(env.catalog, ks, 3);
      Some(Project(env.catalog[ks[3]]))
    else None
  }

  /** Key `i` is in the catalog and no earlier key is. */
  predicate FirstHit(catalog: map<string, CatalogEntry>, ks: seq<string>, i: int) {
    0 <= i < |ks| && ks[i] in catalog && forall j :: 0 <= j < i ==> ks[j] !in catalog
  }

  /** Some keyword occurs in the lower-cased name (`Array.some`). */
  predicate AnyKeyword(name: string, keywords: seq<string>) {
    |keywords| > 0 && (JsStrings.Includes(name, keywords[0]) || AnyKeyword(name, keywords[1..]))
  }

  /** `selectBestFallback`: Roboto exactly when the lower-cased name contains
      one of the sans-serif keywords, Arial otherwise. */
  function SelectBestFallback(family: string): (r: string)
    ensures r == RobotoName || r == ArialName
    ensures r == RobotoName <==>
      exists k :: 0 <= k < |SansSerifKeywords| && JsStrings.Includes(JsStrings.ToLower(family), SansSerifKeywords[k])
  {
    var lower := JsStrings.ToLower(family);
    AnyKeywordIffExists(lower, SansSerifKeywords);
    if AnyKeyword(lower, SansSerifKeywords) then RobotoName else ArialName
  }

  lemma {:induction false} AnyKeywordIffExists(name: string, keywords: seq<string>)
    ensures AnyKeyword(name, keywords) <==> exists k :: 0 <= k < |keywords| && JsStrings.Includes(name, keywords[k])
  {
    if |keywords| > 0 {
      AnyKeywordIffExists(name, keywords[1..]);
      if exists k :: 0 <= k < |keywords| && JsStrings.Includes(name, keywords[k]) {
        var k :| 0 <= k < |keywords| && JsStrings.Includes(name, keywords[k]);
        if k > 0 { assert keywords[1..][k - 1] == keywords[k]; }
      }
    }
  }

  /** `getFontMetrics`: always answers. A family already in the cache is
      served from it untouched; otherwise a catalog hit is cached under the
      exact name and returned; otherwise the fallback family's cached record
      is returned and the cache is left as it was. */
  function Resolve(env: Env, cache: map<string, Metrics>, family: string): (r: Resolution)
    requires Preloaded(cache)
    ensures Preloaded(r.cache)
    ensures cache.Keys <= r.cache.Keys <= cache.Keys + {family}
    ensures forall k :: k in cache ==> r.cache[k] == cache[k]
    ensures family in cache ==> r == Resolution(cache[family], cache)
    ensures family !in cache && LoadMetrics(env, family).Some? ==>
      r.metrics == LoadMetrics(env, family).value && family in r.cache && r.cache[family] == r.metrics
    ensures family !in cache && LoadMetrics(env, family).None? ==>
      r.cache == cache && r.metrics == cache[SelectBestFallback(family)]
  {
    var c := if family in cache then cache
      else match LoadMetrics(env, family)
        case Some(m) => cache[family := m]
        case None => cache;
    if family in c then Resolution(c[family], c)
    else Resolution(c[SelectBestFallback(family)], c)
  }

  /** A repeated lookup of the same name answers with the same record and
      leaves the cache as the first lookup left it, whichever branch the
      first lookup took. */
  lemma RepeatLookupIsStable(env: Env, cache: map<string, Metrics>, family: string)
    requires Preloaded(cache)
    ensures var first := Resolve(env, cache, family);
      Resolve(env, first.cache, family) == first
  {
    var first := Resolve(env, cache, family);
    if family !in cache && LoadMetrics(env, family).None? {
      assert first.cache == cache;
    }
  }

  /** `n` lookups of the same name in a row, each on the cache the one
      before left: the last answer and the cache after it. */
  function LookUpTimes(env: Env, cache: map<string, Metrics>, family: string, n: nat): Resolution
    requires Preloaded(cache) && n >= 1
    decreases n
  {
    var first := Resolve(env, cache, family);
    if n == 1 then first else LookUpTimes(env, first.cache, family, n - 1)
  }

  /** However many times a caller looks a name up (`charWidth` and
      `lineHeight` do it at every call), every lookup answers with the first
      lookup's record, and only the first can change the cache. */
  lemma {:induction false} RepeatedLookupsAgree(env: Env, cache: map<string, Metrics>, family: string, n: nat)
    requires Preloaded(cache) && n >= 1
    ensures LookUpTimes(env, cache, family, n) == Resolve(env, cache, family)
    decreases n
  {
    if n > 1 {
      var first := Resolve(env, cache, family);
      RepeatedLookupsAgree(env, first.cache, family, n - 1);
      RepeatLookupIsStable(env, cache, family);
    }
  }

  /** A name already in the cache is answered without the catalog: two
      environments that differ in anything but the cache give the same
      answer. Arial, Roboto and Montserrat are such names from the start. */
  lemma CachedIgnoresCatalog(env1: Env, env2: Env, cache: map<string, Metrics>, family: string)
    requires Preloaded(cache) && family in cache
    ensures Resolve(env1, cache, family) == Resolve(env2, cache, family)
    ensures Resolve(env1, cache, family).metrics == cache[family]
  {
  }

  /** The three preloaded families are served from the preloaded table. */
  lemma PreloadedFamilies(env: Env)
    ensures Resolve(env, InitialCache(env), ArialName).metrics == env.arial
    ensures Resolve(env, InitialCache(env), RobotoName).metrics == env.roboto
    ensures Resolve(env, InitialCache(env), MontserratName).metrics == env.montserrat
  {
  }

  /** Every answer is a record the cache held or a catalog record projected;
      nothing is invented. */
  lemma ResolvedFromCacheOrCatalog(env: Env, cache: map<string, Metrics>, family: string)
    requires Preloaded(cache)
    ensures var m := Resolve(env, cache, family).metrics;
      m in cache.Values || exists key :: key in env.catalog && m == Project(env.catalog[key])
  {
    var r := Resolve(env, cache, family);
    if family in cache {
      assert r.metrics == cache[family];
    } else if LoadMetrics(env, family).Some? {
      var ks := CandidateKeys(env, family);
      var i :| FirstHit(env.catalog, ks, i) && r.metrics == Project(env.catalog[ks[i]]);
      assert ks[i] in env.catalog;
    } else {
      assert r.metrics == cache[SelectBestFallback(family)];
    }
  }

  /** "UnknownSerif" holds none of the keywords, so it falls back to Arial. */
  lemma UnknownSerifFallsBackToArial()
    ensures SelectBestFallback("UnknownSerif") == ArialName
  {
    NoKeywordIn("UnknownSerif");
  }

  /** "UnknownSansSerif" holds none of the keywords either: it gets Arial,
      not Roboto. */
  lemma UnknownSansSerifFallsBackToArial()
    ensures SelectBestFallback("UnknownSansSerif") == ArialName
  {
    NoKeywordIn("UnknownSansSerif");
  }

  /** A name mentioning Helvetica falls back to Roboto. */
  lemma HelveticaFallsBackToRoboto()
    ensures SelectBestFallback("Helvetica") == RobotoName
  {
    var name := "Helvetica";
    var lower := JsStrings.ToLower(name);
    forall i | 0 <= i < 9 ensures lower[i] == "helvetica"[i] {
      assert lower[i] == JsStrings.LowerChar(name[i]);
    }
    assert lower == "helvetica";
    assert JsStrings.StartsWith(lower, SansSerifKeywords[0]);
  }

  /** An unknown family gets the record cached under its fallback name. */
  lemma UnknownFamilyGetsFallback(env: Env, family: string)
    requires family != ArialName && family != RobotoName && family != MontserratName
    requires LoadMetrics(env, family).None?
    ensures var fb := SelectBestFallback(family);
      Resolve(env, InitialCache(env), family).metrics == (if fb == RobotoName then env.roboto else env.arial)
  {
  }

  /** A character that lower-cases to an h, b, m, l or space. */
  predicate KeyLetter(c: char) {
    c == 'h' || c == 'H' || c == 'b' || c == 'B' || c == 'm' || c == 'M' || c == 'l' || c == 'L' || c == ' '
  }

  /** A name with no h, b, m, l (in either case) and no space contains none
      of the keywords once lower-cased. */
  lemma NoKeywordIn(name: string)
    requires forall i :: 0 <= i < |name| ==> !KeyLetter(name[i])
    ensures !AnyKeyword(JsStrings.ToLower(name), SansSerifKeywords)
  {
    var lower := JsStrings.ToLower(name);
    forall i | 0 <= i < |lower|
      ensures lower[i] != 'h' && lower[i] != 'b' && lower[i] != 'm' && lower[i] != 'l' && lower[i] != ' '
    {
      LowerOfNonKeyLetter(name[i]);
    }
    NoKeywordInLower(lower);
  }

  lemma LowerOfNonKeyLetter(c: char)
    requires !KeyLetter(c)
    ensures var l := JsStrings.LowerChar(c); l != 'h' && l != 'b' && l != 'm' && l != 'l' && l != ' '
  {
  }

  /** Each keyword holds an h, b, m, l or space. */
  lemma NoKeywordInLower(lower: string)
    requires 'h' !in lower && 'b' !in lower && 'm' !in lower && 'l' !in lower && ' ' !in lower
    ensures !AnyKeyword(lower, SansSerifKeywords)
  {
    MissingCharExcludes(lower, "helvetica", 'h');
    MissingCharExcludes(lower, "roboto", 'b');
    MissingCharExcludes(lower, "montserrat", 'm');
    MissingCharExcludes(lower, "open sans", ' ');
    MissingCharExcludes(lower, "lato", 'l');
    AnyKeywordIffExists(lower, SansSerifKeywords);
  }

  /** A string cannot contain a word one of whose characters it lacks. */
  lemma MissingCharExcludes(s: string, sub: string, c: char)
    requires c in sub && c !in s
    ensures !JsStrings.Includes(s, sub)
  {
    JsStrings.IncludesIffOccurs(s, sub);
    if JsStrings.Includes(s, sub) {
      var i :| JsStrings.OccursAt(s, sub, i);
      OccurrenceHoldsChar(s, sub, i, c);
    }
  }

  lemma OccurrenceHoldsChar(s: string, sub: string, i: int, c: char)
    requires JsStrings.OccursAt(s, sub, i) && c in sub
    ensures c in s
  {
    var j :| 0 <= j < |sub| && sub[j] == c;
    assert s[i + j] == s[i..i + |sub|][j];
  }

  /** The registry as the module holds it: one cache, grown by lookups. */
  class Registry {
    const env: Env
    var cache: map<string, Metrics>

    ghost predicate Valid()
      reads this
    {
      Preloaded(cache)
    }

    constructor(env: Env)
      ensures Valid() && this.env == env && cache == InitialCache(env)
    {
      this.env := env;
      cache := InitialCache(env);
    }

    /** `getFontMetrics` with its cache update. */
    method GetFontMetrics(family: string) returns (m: Metrics)
      requires Valid()
      modifies this
      ensures Valid()
      ensures Resolution(m, cache) == Resolve(env, old(cache), family)
    {
      if family !in cache {
        var loaded := LoadMetrics(env, family);
        if loaded.Some? {
          cache := cache[family := loaded.value];
        }
      }
      if family !in cache {
        m := cache[SelectBestFallback(family)];
      } else {
        m := cache[family];
      }
    }
  }
}

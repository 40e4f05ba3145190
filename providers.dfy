/**
 * The two candidate providers. `serpapi_search_linkedin_profile` runs one
 * structured-search query and keeps the best organic result; the Bing branch of
 * `search_person` reads at most ten result entries from a browser page and keeps
 * the best of them. The HTTP call and the browser are replaced by the answer
 * they produced (a `SerpResponse`, a `BingPage`).
 */
module Providers {
  import opened Wrappers
  import opened Text
  import opened Records
  import opened Scoring
  import opened Selection

  /** One organic result; a missing key reads as "" (`res.get(key, "")`). */
  datatype SerpResult = SerpResult(title: string, link: string, snippet: string)

  /** What the structured-search call produced: an exception (transport or JSON),
      a reply holding an `error` key, or the organic results. */
  datatype SerpResponse = SerpFault | SerpError | SerpResults(organic: seq<SerpResult>)

  /** The request the structured-search call sends (engine "google", 10 results). */
  datatype SerpRequest = SerpRequest(query: string, apiKey: string)

  /** One `li.b_algo` entry: unreadable when one of its elements is missing,
      otherwise the text of its `h2`, its link and the text of its caption. */
  datatype BingEntry = Unreadable | Entry(titleText: string, href: string, captionText: string)

  /** What the browser session produced: an exception anywhere outside the
      per-entry reads (driver start, page load, scoring), or the page's entries. */
  datatype BingPage = BingFault | BingEntries(entries: seq<BingEntry>)

  /** At most this many Bing entries are read. */
  const BingEntryCap: nat := 10

  /** `f'<a href="{link}" target="_blank">Open Profile</a>'`. */
  function Anchor(link: string): (a: string)
    ensures a != ""
  {
    "<a href=\"" + link + "\" target=\"_blank\">Open Profile</a>"
  }

  /** The first location the NER pipeline reports, or "Unknown". */
  function Location(m: Models, text: string): string
  {
    var locs := m.locations(text);
    if |locs| > 0 then locs[0] else UnknownLocation
  }

  /** `api_key or os.getenv("SERPAPI_KEY", "")`; "" stands for a missing key. */
  function SerpKey(apiKey: string, envKey: string): string
  {
    if apiKey != "" then apiKey else envKey
  }

  // ---------------------------------------------------------------- SerpAPI

  /** The quick filter: the lower-cased full name occurs in the lower-cased title or snippet. */
  predicate NameFilter(name: string, c: SerpResult)
  {
    Contains(Lower(c.title), Lower(name)) || Contains(Lower(c.snippet), Lower(name))
  }

  /** A SerpAPI result passes the quick filter and `is_best_match` at the
      default thresholds, whatever thresholds the caller chose. */
  function ScoreSerp(m: Models, name: string, c: SerpResult): Scored
  {
    Scored(NameFilter(name, c) && IsBestMatch(m, name, c.title, DefaultCosine, DefaultFuzzy),
           EffectiveScore(m, name, c.title))
  }

  /** The results scored in order, one `Scored` per result. */
  function ScoreSerpAll(m: Models, name: string, rs: seq<SerpResult>): (ss: seq<Scored>)
    ensures |ss| == |rs|
  {
    if rs == [] then [] else ScoreSerpAll(m, name, rs[..|rs| - 1]) + [ScoreSerp(m, name, rs[|rs| - 1])]
  }

  lemma {:induction false} ScoreSerpAt(m: Models, name: string, rs: seq<SerpResult>, j: nat)
    requires j < |rs|
    ensures ScoreSerpAll(m, name, rs)[j] == ScoreSerp(m, name, rs[j])
  {
    if j < |rs| - 1 {
      ScoreSerpAt(m, name, rs[..|rs| - 1], j);
    }
  }

  /** Every effective score is non-negative. */
  lemma {:induction false} ScoreSerpAllNonNegative(m: Models, name: string, rs: seq<SerpResult>)
    ensures forall j :: 0 <= j < |rs| ==> ScoreSerpAll(m, name, rs)[j].score >= 0.0
  {
    forall j | 0 <= j < |rs| {
      ScoreSerpAt(m, name, rs, j);
    }
  }

  /** The row built for a kept SerpAPI result; `university` is the expanded name
      the query used. */
  function SerpRow(m: Models, p: Person, university: string, c: SerpResult): Row
  {
    var name := FullName(p);
    Row(p.firstName, p.lastName, university, GradYear(p),
        ExtractBestTitle(m, c.title), Anchor(c.link), Some(ScorePercent(EffectiveScore(m, name, c.title))),
        Location(m, c.title + ". " + c.snippet), Unknown, None, None)
  }

  /** The row kept from a list of organic results, if any. */
  function SerpBest(m: Models, p: Person, university: string, rs: seq<SerpResult>): Option<Row>
  {
    var k := FirstBest(ScoreSerpAll(m, FullName(p), rs));
    if k.None? then None else Some(SerpRow(m, p, university, rs[k.value]))
  }

  /** The loop's state after the results `rs`: the kept row and `best_score`. */
  function SerpScan(m: Models, p: Person, university: string, rs: seq<SerpResult>): (Option<Row>, real)
  {
    if rs == [] then (None, InitialBest)
    else
      var (best, bestScore) := SerpScan(m, p, university, rs[..|rs| - 1]);
      var c := rs[|rs| - 1];
      if NameFilter(FullName(p), c) && IsBestMatch(m, FullName(p), c.title, DefaultCosine, DefaultFuzzy)
         && EffectiveScore(m, FullName(p), c.title) > bestScore
      then (Some(SerpRow(m, p, university, c)), EffectiveScore(m, FullName(p), c.title))
      else (best, bestScore)
  }

  /** The loop's fold ends in the row `SerpBest` describes. */
  lemma {:induction false} SerpScanIsBest(m: Models, p: Person, university: string, rs: seq<SerpResult>)
    ensures var ss := ScoreSerpAll(m, FullName(p), rs);
      SerpScan(m, p, university, rs) == (SerpBest(m, p, university, rs), BestScore(ss, FirstBest(ss)))
  {
    if rs != [] {
      var init := rs[..|rs| - 1];
      SerpScanIsBest(m, p, university, init);
      var ss := ScoreSerpAll(m, FullName(p), rs);
      assert ss[..|rs| - 1] == ScoreSerpAll(m, FullName(p), init);
      var k := FirstBest(ss[..|rs| - 1]);
      if k.Some? {
        ScoreSerpAt(m, FullName(p), init, k.value);
        ScoreSerpAt(m, FullName(p), rs, k.value);
      }
      ScoreSerpAt(m, FullName(p), rs, |rs| - 1);
    }
  }

  /** What `serpapi_search_linkedin_profile` returns: nothing without a key or
      without organic results; otherwise, if anything, a row for the person
      with the expanded university, a profile link, "Unknown" income and no
      status. */
  function SerpApiOutcome(m: Models, p: Person, apiKey: string, envKey: string, resp: SerpResponse): (r: Option<Row>)
    ensures SerpKey(apiKey, envKey) == "" || !resp.SerpResults? ==> r.None?
    ensures r.Some? ==> r.value.firstName == p.firstName && r.value.lastName == p.lastName
                        && r.value.university == ExpandUniversity(p.university)
                        && r.value.url != "" && r.value.income == Unknown && r.value.status == None
  {
    if SerpKey(apiKey, envKey) == "" then None
    else match resp
      case SerpFault => None
      case SerpError => None
      case SerpResults(rs) => SerpBest(m, p, ExpandUniversity(p.university), rs)
  }

  /** `serpapi_search_linkedin_profile(person, api_key)`: also returns the request
      it sends, if any. */
  method SerpApiSearch(m: Models, p: Person, apiKey: string, envKey: string, resp: SerpResponse)
    returns (request: Option<SerpRequest>, r: Option<Row>)
    ensures SerpKey(apiKey, envKey) == "" ==> request == None
    ensures SerpKey(apiKey, envKey) != "" ==>
      request == Some(SerpRequest(SearchQuery(FullName(p), ExpandUniversity(p.university)), SerpKey(apiKey, envKey)))
    ensures r == SerpApiOutcome(m, p, apiKey, envKey, resp)
  {
    var key := SerpKey(apiKey, envKey);
    if key == "" {
      return None, None;
    }
    var fullName := FullName(p);
    var university := ExpandUniversity(p.university);
    request := Some(SerpRequest(SearchQuery(fullName, university), key));
    match resp {
      case SerpFault =>
        r := None;
      case SerpError =>
        r := None;
      case SerpResults(rs) =>
        r := SelectSerpResult(m, p, university, rs);
    }
  }

  /** The loop over the organic results: keeps the best row and its score. */
  method SelectSerpResult(m: Models, p: Person, university: string, rs: seq<SerpResult>) returns (best: Option<Row>)
    ensures best == SerpBest(m, p, university, rs)
  {
    var fullName := FullName(p);
    best := None;
    var bestScore := InitialBest;
    var i := 0;
    while i < |rs|
      invariant 0 <= i <= |rs|
      invariant (best, bestScore) == SerpScan(m, p, university, rs[..i])
    {
      var c := rs[i];
      assert rs[..i + 1][..i] == rs[..i];
      if NameFilter(fullName, c) {
        if IsBestMatch(m, fullName, c.title, DefaultCosine, DefaultFuzzy) {
          var score := EffectiveScore(m, fullName, c.title);
          if score > bestScore {
            best := Some(SerpRow(m, p, university, c));
            bestScore := score;
          }
        }
      }
      i := i + 1;
    }
    assert rs[..|rs|] == rs;
    SerpScanIsBest(m, p, university, rs);
  }

  /** Result `k` is the one the SerpAPI loop keeps: it passes the quick filter
      and `is_best_match` at the default thresholds, no passing result scores
      higher, and every passing result before it scores lower. */
  predicate SerpPick(m: Models, p: Person, rs: seq<SerpResult>, k: int)
  {
    var name := FullName(p);
    var ss := ScoreSerpAll(m, name, rs);
    && 0 <= k < |rs|
    && NameFilter(name, rs[k]) && IsBestMatch(m, name, rs[k].title, DefaultCosine, DefaultFuzzy)
    && (forall j :: 0 <= j < |rs| && ss[j].eligible ==> ss[j].score <= ss[k].score)
    && (forall j :: 0 <= j < k && ss[j].eligible ==> ss[j].score < ss[k].score)
  }

  /** The SerpAPI loop answers nothing exactly when no result passes the
      filters; otherwise it answers the row of the first passing result with the
      highest score. */
  lemma {:induction false} SerpBestSelects(m: Models, p: Person, university: string, rs: seq<SerpResult>)
    ensures
      var r, ss := SerpBest(m, p, university, rs), ScoreSerpAll(m, FullName(p), rs);
      && (r.None? <==> forall j :: 0 <= j < |rs| ==> !ss[j].eligible)
      && (r.Some? ==> exists k :: SerpPick(m, p, rs, k) && r == Some(SerpRow(m, p, university, rs[k])))
  {
    var name := FullName(p);
    var ss := ScoreSerpAll(m, name, rs);
    ScoreSerpAllNonNegative(m, name, rs);
    FirstBestNone(ss);
    var k := FirstBest(ss);
    if k.Some? {
      FirstBestSpec(ss);
      ScoreSerpAt(m, name, rs, k.value);
      assert SerpPick(m, p, rs, k.value);
    }
  }

  /** With a key, a reply holding results is answered by the selection loop over
      them, with the expanded university in the row; a fault or an `error` reply
      gives nothing. */
  lemma SerpApiSelects(m: Models, p: Person, apiKey: string, envKey: string, resp: SerpResponse)
    requires SerpKey(apiKey, envKey) != ""
    ensures resp.SerpResults? ==>
      SerpApiOutcome(m, p, apiKey, envKey, resp) == SerpBest(m, p, ExpandUniversity(p.university), resp.organic)
    ensures !resp.SerpResults? ==> SerpApiOutcome(m, p, apiKey, envKey, resp) == None
  {
  }

  // ------------------------------------------------------------------- Bing

  /** The `/search?q=` page the browser loads; the query names the university as given. */
  function BingUrl(p: Person): string
  {
    "https://www.bing.com/search?q=" + SearchQuery(FullName(p), p.university)
  }

  /** `find_elements(...)[:10]`. */
  function TakeEntries(entries: seq<BingEntry>): (t: seq<BingEntry>)
    ensures |t| <= BingEntryCap && |t| <= |entries| && t == entries[..|t|]
    ensures |entries| <= BingEntryCap ==> t == entries
  {
    if |entries| <= BingEntryCap then entries else entries[..BingEntryCap]
  }

  /** A Bing entry passes when it is readable and `is_best_match` accepts its
      stripped title at the caller's thresholds. */
  function ScoreBing(m: Models, name: string, cosTh: real, fuzzTh: real, e: BingEntry): (s: Scored)
    ensures e.Unreadable? ==> !s.eligible
    ensures s.eligible <==> e.Entry? && IsBestMatch(m, name, Strip(e.titleText), cosTh, fuzzTh)
    ensures e.Entry? ==> s.score == EffectiveScore(m, name, Strip(e.titleText))
    ensures s.score >= 0.0
  {
    if e.Unreadable? then Scored(false, 0.0)
    else
      var title := Strip(e.titleText);
      Scored(IsBestMatch(m, name, title, cosTh, fuzzTh), EffectiveScore(m, name, title))
  }

  /** The entries scored in order, one `Scored` per entry. */
  function ScoreBingAll(m: Models, name: string, cosTh: real, fuzzTh: real, es: seq<BingEntry>): (ss: seq<Scored>)
    ensures |ss| == |es|
  {
    if es == [] then []
    else ScoreBingAll(m, name, cosTh, fuzzTh, es[..|es| - 1]) + [ScoreBing(m, name, cosTh, fuzzTh, es[|es| - 1])]
  }

  lemma {:induction false} ScoreBingAt(m: Models, name: string, cosTh: real, fuzzTh: real, es: seq<BingEntry>, j: nat)
    requires j < |es|
    ensures ScoreBingAll(m, name, cosTh, fuzzTh, es)[j] == ScoreBing(m, name, cosTh, fuzzTh, es[j])
  {
    if j < |es| - 1 {
      ScoreBingAt(m, name, cosTh, fuzzTh, es[..|es| - 1], j);
    }
  }

  /** Every effective score is non-negative. */
  lemma {:induction false} ScoreBingAllNonNegative(m: Models, name: string, cosTh: real, fuzzTh: real, es: seq<BingEntry>)
    ensures forall j :: 0 <= j < |es| ==> ScoreBingAll(m, name, cosTh, fuzzTh, es)[j].score >= 0.0
  {
    forall j | 0 <= j < |es| {
      ScoreBingAt(m, name, cosTh, fuzzTh, es, j);
    }
  }

  /** The row built for a kept Bing entry; the university is as given. */
  function BingRow(m: Models, p: Person, e: BingEntry): Row
    requires e.Entry?
  {
    var name, title, snippet := FullName(p), Strip(e.titleText), Strip(e.captionText);
    Row(p.firstName, p.lastName, p.university, GradYear(p),
        ExtractBestTitle(m, title), Anchor(e.href), Some(ScorePercent(EffectiveScore(m, name, title))),
        Location(m, title + ". " + snippet), Unknown, None, None)
  }

  /** The row kept from a list of entries, if any. */
  function BingBest(m: Models, p: Person, cosTh: real, fuzzTh: real, es: seq<BingEntry>): Option<Row>
  {
    var ss := ScoreBingAll(m, FullName(p), cosTh, fuzzTh, es);
    var k := FirstBest(ss);
    if k.None? then None
    else
      ScoreBingAt(m, FullName(p), cosTh, fuzzTh, es, k.value);
      assert es[k.value].Entry?;
      Some(BingRow(m, p, es[k.value]))
  }

  /** What the Bing branch returns when the page was read without a fault:
      nothing for a page without entries; otherwise, if anything, a row for
      the person with the university as given, a profile link, "Unknown"
      income and no status. */
  function BingOutcome(m: Models, p: Person, cosTh: real, fuzzTh: real, entries: seq<BingEntry>): (r: Option<Row>)
    ensures entries == [] ==> r.None?
    ensures r.Some? ==> r.value.firstName == p.firstName && r.value.lastName == p.lastName
                        && r.value.university == p.university
                        && r.value.url != "" && r.value.income == Unknown && r.value.status == None
  {
    BingBest(m, p, cosTh, fuzzTh, TakeEntries(entries))
  }

  /** The loop's state after the entries `es`: the kept row and `best_score`. */
  function BingScan(m: Models, p: Person, cosTh: real, fuzzTh: real, es: seq<BingEntry>): (Option<Row>, real)
  {
    if es == [] then (None, InitialBest)
    else
      var (best, bestScore) := BingScan(m, p, cosTh, fuzzTh, es[..|es| - 1]);
      var e := es[|es| - 1];
      if e.Entry? && IsBestMatch(m, FullName(p), Strip(e.titleText), cosTh, fuzzTh)
         && EffectiveScore(m, FullName(p), Strip(e.titleText)) > bestScore
      then (Some(BingRow(m, p, e)), EffectiveScore(m, FullName(p), Strip(e.titleText)))
      else (best, bestScore)
  }

  /** The loop's fold ends in the row `BingBest` describes. */
  lemma {:induction false} BingScanIsBest(m: Models, p: Person, cosTh: real, fuzzTh: real, es: seq<BingEntry>)
    ensures var ss := ScoreBingAll(m, FullName(p), cosTh, fuzzTh, es);
      BingScan(m, p, cosTh, fuzzTh, es) == (BingBest(m, p, cosTh, fuzzTh, es), BestScore(ss, FirstBest(ss)))
  {
    if es != [] {
      var init := es[..|es| - 1];
      BingScanIsBest(m, p, cosTh, fuzzTh, init);
      var ss := ScoreBingAll(m, FullName(p), cosTh, fuzzTh, es);
      assert ss[..|es| - 1] == ScoreBingAll(m, FullName(p), cosTh, fuzzTh, init);
      var k := FirstBest(ss[..|es| - 1]);
      if k.Some? {
        ScoreBingAt(m, FullName(p), cosTh, fuzzTh, init, k.value);
        ScoreBingAt(m, FullName(p), cosTh, fuzzTh, es, k.value);
      }
      ScoreBingAt(m, FullName(p), cosTh, fuzzTh, es, |es| - 1);
    }
  }

  /** The Bing branch of `search_person` on a page that loaded: returns the page
      it loads and the best entry's row. */
  method BingSearch(m: Models, p: Person, cosTh: real, fuzzTh: real, entries: seq<BingEntry>)
    returns (url: string, r: Option<Row>)
    ensures url == BingUrl(p)
    ensures r == BingOutcome(m, p, cosTh, fuzzTh, entries)
  {
    url := "https://www.bing.com/search?q=" + SearchQuery(FullName(p), p.university);
    r := SelectBingEntry(m, p, cosTh, fuzzTh, TakeEntries(entries));
  }

  /** The loop over the entries read: keeps the best row and its score. */
  method SelectBingEntry(m: Models, p: Person, cosTh: real, fuzzTh: real, es: seq<BingEntry>)
    returns (r: Option<Row>)
    ensures r == BingBest(m, p, cosTh, fuzzTh, es)
  {
    var fullName := FullName(p);
    var best: Option<Row> := None;
    var bestScore := InitialBest;
    var i := 0;
    while i < |es|
      invariant 0 <= i <= |es|
      invariant (best, bestScore) == BingScan(m, p, cosTh, fuzzTh, es[..i])
    {
      var e := es[i];
      assert es[..i + 1][..i] == es[..i];
      if e.Entry? {
        var title := Strip(e.titleText);
        if IsBestMatch(m, fullName, title, cosTh, fuzzTh) {
          var sc := EffectiveScore(m, fullName, title);
          if sc > bestScore {
            best := Some(BingRow(m, p, e));
            bestScore := sc;
          }
        }
      }
      i := i + 1;
    }
    assert es[..|es|] == es;
    BingScanIsBest(m, p, cosTh, fuzzTh, es);
    r := best;
  }

  /** Entry `k` is the one the Bing loop keeps: it is readable, `is_best_match`
      accepts its stripped title at the caller's thresholds, no accepted entry
      scores higher, and every accepted entry before it scores lower. */
  predicate BingPick(m: Models, p: Person, cosTh: real, fuzzTh: real, es: seq<BingEntry>, k: int)
  {
    var name := FullName(p);
    var ss := ScoreBingAll(m, name, cosTh, fuzzTh, es);
    && 0 <= k < |es| && es[k].Entry?
    && IsBestMatch(m, name, Strip(es[k].titleText), cosTh, fuzzTh)
    && (forall j :: 0 <= j < |es| && ss[j].eligible ==> ss[j].score <= ss[k].score)
    && (forall j :: 0 <= j < k && ss[j].eligible ==> ss[j].score < ss[k].score)
  }

  /** The Bing loop answers nothing exactly when no entry is readable and
      accepted; otherwise it answers the row of the first accepted entry with
      the highest score. */
  lemma {:induction false} BingBestSelects(m: Models, p: Person, cosTh: real, fuzzTh: real, es: seq<BingEntry>)
    ensures
      var r, ss := BingBest(m, p, cosTh, fuzzTh, es), ScoreBingAll(m, FullName(p), cosTh, fuzzTh, es);
      && (r.None? <==> forall j :: 0 <= j < |es| ==> !ss[j].eligible)
      && (r.Some? ==> exists k :: BingPick(m, p, cosTh, fuzzTh, es, k) && r == Some(BingRow(m, p, es[k])))
  {
    var name := FullName(p);
    var ss := ScoreBingAll(m, name, cosTh, fuzzTh, es);
    ScoreBingAllNonNegative(m, name, cosTh, fuzzTh, es);
    FirstBestNone(ss);
    var k := FirstBest(ss);
    if k.Some? {
      FirstBestSpec(ss);
      ScoreBingAt(m, name, cosTh, fuzzTh, es, k.value);
      assert BingPick(m, p, cosTh, fuzzTh, es, k.value);
    }
  }

  /** Only the first ten entries count: entries after the tenth never change
      what the Bing branch answers. */
  lemma BingFirstTen(m: Models, p: Person, cosTh: real, fuzzTh: real, entries: seq<BingEntry>)
    ensures |TakeEntries(entries)| == if |entries| <= BingEntryCap then |entries| else BingEntryCap
    ensures |entries| > BingEntryCap ==>
      BingOutcome(m, p, cosTh, fuzzTh, entries) == BingOutcome(m, p, cosTh, fuzzTh, entries[..BingEntryCap])
  {
  }
}

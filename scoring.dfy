/**
 * Title and match utilities: the acceptance test `is_best_match`, the effective
 * score, `extract_best_title`, the university abbreviation table and the
 * search-query string. The embedding model, rapidfuzz and the NER pipeline are
 * opaque functions carried in a `Models` value.
 */
module Scoring {
  import opened Wrappers
  import opened Text
  import opened Records

  /** A rapidfuzz ratio: an integer percentage. */
  type Ratio = r: int | 0 <= r <= 100

  /** The model capabilities the engine calls: the cosine similarity of two
      sentence embeddings, rapidfuzz's `token_set_ratio`, and the locations the
      NER pipeline finds in a text. */
  datatype Models = Models(cosine: (string, string) -> real,
                           tokenSetRatio: (string, string) -> Ratio,
                           locations: string -> seq<string>)

  /** The default thresholds of `is_best_match`. */
  const DefaultCosine: real := 0.4
  const DefaultFuzzy: real := 0.75

  /** `fuzz.token_set_ratio(a.lower(), b.lower()) / 100`. */
  function Fuzzy(m: Models, name: string, title: string): (f: real)
    ensures 0.0 <= f <= 1.0
  {
    m.tokenSetRatio(Lower(name), Lower(title)) as real / 100.0
  }

  function Max(a: real, b: real): real
  {
    if a >= b then a else b
  }

  function Min(a: real, b: real): real
  {
    if a <= b then a else b
  }

  /** The effective score `max(cos_s, fz_s)` a candidate is ranked by. */
  function EffectiveScore(m: Models, name: string, title: string): (r: real)
    ensures r >= 0.0
  {
    Max(m.cosine(name, title), Fuzzy(m, name, title))
  }

  /** The `Score` column, `f"{int(score*100)}%"`: the score in percent,
      truncated (the score is never negative, so truncation is the floor). */
  function ScorePercent(s: real): int
    requires s >= 0.0
  {
    (s * 100.0).Floor
  }

  /** `is_best_match(full_name, title, cos_th, fuzz_th)`: a candidate without a
      name or without a title is never accepted. */
  predicate IsBestMatch(m: Models, name: string, title: string, cosTh: real, fuzzTh: real)
    ensures IsBestMatch(m, name, title, cosTh, fuzzTh) ==> name != "" && title != ""
  {
    name != "" && title != "" && (m.cosine(name, title) >= cosTh || Fuzzy(m, name, title) >= fuzzTh)
  }

  /** An accepted candidate scores at least the lower threshold, and a candidate
      with a name and a title that reaches both thresholds is accepted. */
  lemma AcceptanceBounds(m: Models, name: string, title: string, cosTh: real, fuzzTh: real)
    ensures IsBestMatch(m, name, title, cosTh, fuzzTh) ==> EffectiveScore(m, name, title) >= Min(cosTh, fuzzTh)
    ensures name != "" && title != "" && EffectiveScore(m, name, title) >= Max(cosTh, fuzzTh)
            ==> IsBestMatch(m, name, title, cosTh, fuzzTh)
  {
  }

  /** The two tests are joined by OR: a strong literal match is enough even when
      the semantic score is weak. */
  lemma OrSemantics(m: Models, name: string, title: string)
    requires name != "" && title != ""
    requires m.cosine(name, title) == 0.1 && m.tokenSetRatio(Lower(name), Lower(title)) == 80
    ensures IsBestMatch(m, name, title, 0.5, 0.75)
    ensures !IsBestMatch(m, name, title, 0.5, 0.85)
    ensures EffectiveScore(m, name, title) == 0.8
  {
  }

  /** Python's `max(xs, key=key)`: the index of the first element whose key is
      largest. */
  function ArgMaxFirst<T>(xs: seq<T>, key: T -> int): (k: nat)
    requires |xs| > 0
    ensures k < |xs|
    ensures forall j :: 0 <= j < |xs| ==> key(xs[j]) <= key(xs[k])
    ensures forall j :: 0 <= j < k ==> key(xs[j]) < key(xs[k])
  {
    if |xs| == 1 then 0
    else
      var k := ArgMaxFirst(xs[..|xs| - 1], key);
      if key(xs[|xs| - 1]) > key(xs[k]) then |xs| - 1 else k
  }

  /** The boiler-plate phrases `extract_best_title` removes, in the order it removes them. */
  const Boilerplate: seq<string> := ["United States", "Professional Profile", "Connections", "LinkedIn"]

  /** `for ph in [...]: clean = clean.replace(ph, "").strip()`, from the
      `i`-th boiler-plate phrase on. */
  function CleanFrom(s: string, i: nat): string
    requires i <= |Boilerplate|
    decreases |Boilerplate| - i
  {
    if i == |Boilerplate| then s else CleanFrom(Strip(RemoveAll(s, Boilerplate[i])), i + 1)
  }

  /** The clean-up at the head of `extract_best_title`. */
  function CleanTitle(raw: string): string
  {
    CleanFrom(raw, 0)
  }

  /** Removing the phrases never adds or drops a `|` (none of them holds one),
      so the cleaned title has as many fragments as the raw one. */
  lemma {:induction false} CleanFromKeepsBars(s: string, i: nat)
    requires i <= |Boilerplate|
    ensures multiset(CleanFrom(s, i))['|'] == multiset(s)['|']
    decreases |Boilerplate| - i
  {
    if i < |Boilerplate| {
      BoilerplateHasNoBar();
      RemoveKeepsOthers(s, Boilerplate[i], '|');
      StripKeeps(RemoveAll(s, Boilerplate[i]), '|');
      CleanFromKeepsBars(Strip(RemoveAll(s, Boilerplate[i])), i + 1);
    }
  }

  /** `extract_best_title`'s clean-up keeps every `|` of the raw title. */
  lemma CleanTitleKeepsBars(raw: string)
    ensures multiset(CleanTitle(raw))['|'] == multiset(raw)['|']
  {
    CleanFromKeepsBars(raw, 0);
  }

  lemma BoilerplateHasNoBar()
    ensures forall k :: 0 <= k < |Boilerplate| ==> |Boilerplate[k]| > 0 && '|' !in Boilerplate[k]
  {
  }

  /** `[p.strip() for p in pieces if p.strip()]`. */
  function Fragments(pieces: seq<string>): (parts: seq<string>)
    requires forall k :: 0 <= k < |pieces| ==> '|' !in pieces[k]
    ensures forall k :: 0 <= k < |parts| ==> parts[k] != "" && '|' !in parts[k] && NoOuterSpace(parts[k])
    ensures parts == [] <==> forall k :: 0 <= k < |pieces| ==> Strip(pieces[k]) == ""
    ensures |parts| <= |pieces|
  {
    if pieces == [] then []
    else
      var p := Strip(pieces[0]);
      StripSpec(pieces[0]);
      var rest := Fragments(pieces[1..]);
      assert forall k :: 1 <= k < |pieces| ==> pieces[k] == pieces[1..][k - 1];
      if p != "" then [p] + rest else rest
  }

  /** Every fragment is one of the pieces, stripped. */
  lemma {:induction false} FragmentsFromPieces(pieces: seq<string>)
    requires forall k :: 0 <= k < |pieces| ==> '|' !in pieces[k]
    ensures forall k :: 0 <= k < |Fragments(pieces)| ==>
      exists j :: 0 <= j < |pieces| && Fragments(pieces)[k] == Strip(pieces[j])
  {
    if pieces == [] {
    } else {
      var tail := pieces[1..];
      FragmentsFromPieces(tail);
      var rest := Fragments(tail);
      var parts := Fragments(pieces);
      var p := Strip(pieces[0]);
      assert parts == (if p != "" then [p] + rest else rest);
      forall k | 0 <= k < |parts|
        ensures exists j :: 0 <= j < |pieces| && parts[k] == Strip(pieces[j])
      {
        if p != "" && k == 0 {
          assert parts[k] == Strip(pieces[0]);
        } else {
          var i := if p != "" then k - 1 else k;
          assert parts[k] == rest[i];
          var j :| 0 <= j < |tail| && rest[i] == Strip(tail[j]);
          assert tail[j] == pieces[j + 1];
        }
      }
    }
  }

  /** Every piece that is not blank once stripped is among the fragments. */
  lemma {:induction false} FragmentsKeepPieces(pieces: seq<string>)
    requires forall k :: 0 <= k < |pieces| ==> '|' !in pieces[k]
    ensures forall j :: 0 <= j < |pieces| && Strip(pieces[j]) != "" ==> Strip(pieces[j]) in Fragments(pieces)
  {
    if pieces != [] {
      var tail := pieces[1..];
      FragmentsKeepPieces(tail);
      var rest := Fragments(tail);
      var p := Strip(pieces[0]);
      assert Fragments(pieces) == (if p != "" then [p] + rest else rest);
      forall j | 0 < j < |pieces|
        ensures Strip(pieces[j]) != "" ==> Strip(pieces[j]) in rest
      {
        assert pieces[j] == tail[j - 1];
      }
    }
  }

  /** The fragments keep the order of the pieces: the fragments of two runs of
      pieces are the fragments of the first followed by those of the second. */
  lemma {:induction false} FragmentsAppend(a: seq<string>, b: seq<string>)
    requires forall k :: 0 <= k < |a| ==> '|' !in a[k]
    requires forall k :: 0 <= k < |b| ==> '|' !in b[k]
    ensures forall k :: 0 <= k < |a + b| ==> '|' !in (a + b)[k]
    ensures Fragments(a + b) == Fragments(a) + Fragments(b)
  {
    var ab := a + b;
    assert forall k :: 0 <= k < |ab| ==> ab[k] == if k < |a| then a[k] else b[k - |a|];
    if a == [] {
      assert ab == b;
    } else {
      var tail := a[1..];
      assert forall k :: 0 <= k < |tail| ==> tail[k] == a[k + 1];
      assert ab[1..] == tail + b;
      FragmentsAppend(tail, b);
      var p := Strip(a[0]);
      assert Fragments(ab) == (if p != "" then [p] + Fragments(tail + b) else Fragments(tail + b));
      assert Fragments(a) == (if p != "" then [p] + Fragments(tail) else Fragments(tail));
    }
  }

  /** The non-blank `|`-fragments of a cleaned title. */
  function TitleFragments(clean: string): seq<string>
  {
    Fragments(Split(clean, '|'))
  }

  /** The key `extract_best_title` ranks fragments by: the token-set ratio
      against the lower-cased cleaned title. */
  function FragmentKey(m: Models, clean: string): string -> int
  {
    var ref := Lower(clean);
    p => m.tokenSetRatio(p, ref)
  }

  /** The part of `extract_best_title` after the boiler-plate is removed. */
  function BestFragment(m: Models, clean: string): string
  {
    var parts := TitleFragments(clean);
    if parts == [] then NotFound else parts[ArgMaxFirst(parts, FragmentKey(m, clean))]
  }

  /** `extract_best_title(raw_title)`: "Not Found" for an empty title; whatever
      it answers is non-empty, trimmed and free of `|`. */
  function ExtractBestTitle(m: Models, raw: string): (t: string)
    ensures raw == "" ==> t == NotFound
    ensures t != "" && '|' !in t && NoOuterSpace(t)
  {
    if raw == "" then NotFound
    else
      BestFragmentSpec(m, CleanTitle(raw));
      BestFragment(m, CleanTitle(raw))
  }

  /** `t` is the first of `parts` whose key is the highest. */
  predicate IsFirstBest(parts: seq<string>, key: string -> int, t: string)
  {
    exists k :: 0 <= k < |parts| && t == parts[k]
                && (forall j :: 0 <= j < |parts| ==> key(parts[j]) <= key(t))
                && (forall j :: 0 <= j < k ==> key(parts[j]) < key(t))
  }

  /** Once the boiler-plate is gone: "Not Found" when every fragment is blank,
      otherwise the first fragment with the highest score, which is non-empty,
      trimmed and free of `|`. */
  lemma {:induction false} BestFragmentSpec(m: Models, clean: string)
    ensures TitleFragments(clean) == [] ==> BestFragment(m, clean) == NotFound
    ensures TitleFragments(clean) != [] ==>
      var t := BestFragment(m, clean);
      t != "" && '|' !in t && NoOuterSpace(t) && IsFirstBest(TitleFragments(clean), FragmentKey(m, clean), t)
  {
    var parts := TitleFragments(clean);
    if parts != [] {
      var key := FragmentKey(m, clean);
      var k := ArgMaxFirst(parts, key);
      assert IsFirstBest(parts, key, parts[k]);
    }
  }

  /** `extract_best_title` answers "Not Found" for an empty title or one whose
      fragments are all blank; otherwise it answers the first fragment with the
      highest score against the cleaned title. */
  lemma {:induction false} ExtractBestTitleSpec(m: Models, raw: string)
    ensures raw == "" ==> ExtractBestTitle(m, raw) == NotFound
    ensures raw != "" ==>
      var clean, t := CleanTitle(raw), ExtractBestTitle(m, raw);
      && (TitleFragments(clean) == [] ==> t == NotFound)
      && (TitleFragments(clean) != [] ==>
            t != "" && '|' !in t && NoOuterSpace(t) && IsFirstBest(TitleFragments(clean), FragmentKey(m, clean), t))
  {
    if raw != "" {
      BestFragmentSpec(m, CleanTitle(raw));
    }
  }

  /** The `university_map` abbreviation table. */
  const UniversityMap: map<string, string> := map[
    "KU" := "Kean University",
    "RUN" := "Rutgers University - Newark",
    "RUNB" := "Rutgers University - Newark",
    "WPU" := "William Paterson University",
    "FDU" := "Fairleigh Dickinson University",
    "MSU" := "Montclair State University",
    "NJCU" := "New Jersey City University",
    "BC" := "Bloomfield College"
  ]

  /** `university_map.get(u, u)`: a known abbreviation is replaced, anything
      else is kept, and the answer is never itself an abbreviation, so expanding
      twice is expanding once. */
  function ExpandUniversity(u: string): (r: string)
    ensures u !in UniversityMap ==> r == u
    ensures u in UniversityMap ==> r != u
    ensures r !in UniversityMap
  {
    if u in UniversityMap then UniversityMap[u] else u
  }

  /** `f"{first} {last}".strip()`. */
  function FullName(p: Person): (n: string)
    ensures NoOuterSpace(n)
  {
    StripSpec(p.firstName + " " + p.lastName);
    Strip(p.firstName + " " + p.lastName)
  }

  /** `f'"{full_name}" "{university}" site:linkedin.com'`: the name and the
      university, each in double quotes, then the site restriction. */
  function SearchQuery(fullName: string, university: string): (q: string)
    ensures |q| == |fullName| + |university| + 23
    ensures q[0] == '"' && q[1..|fullName| + 1] == fullName && q[|fullName| + 1..|fullName| + 4] == "\" \""
    ensures q[|fullName| + 4..|fullName| + |university| + 4] == university
    ensures q[|fullName| + |university| + 4..] == "\" site:linkedin.com"
  {
    "\"" + fullName + "\" \"" + university + "\" site:linkedin.com"
  }

  /** Joining the five pieces of a quoted query. */
  lemma JoinQuoted(a: string, b: string, tail: string, q: char)
    ensures Join(["", a, " ", b, tail], q) == [q] + a + [q, ' ', q] + b + [q] + tail
  {
    var pieces := ["", a, " ", b, tail];
    assert pieces[1..][1..][1..][1..] == [tail];
    assert Join(pieces[1..][1..][1..], q) == b + [q] + tail;
    assert Join(pieces[1..][1..], q) == " " + [q] + (b + [q] + tail);
    assert Join(pieces[1..], q) == a + [q] + (" " + [q] + (b + [q] + tail));
  }

  /** A name and a university without double quotes can be read back from the
      query: splitting it on `"` gives them at positions 1 and 3. */
  lemma SearchQueryRoundTrip(fullName: string, university: string)
    requires '"' !in fullName && '"' !in university
    ensures Split(SearchQuery(fullName, university), '"') == ["", fullName, " ", university, " site:linkedin.com"]
  {
    var pieces := ["", fullName, " ", university, " site:linkedin.com"];
    JoinQuoted(fullName, university, " site:linkedin.com", '"');
    var head := "\"" + fullName + "\" \"" + university;
    assert "\" site:linkedin.com" == "\"" + " site:linkedin.com";
    assert SearchQuery(fullName, university) == head + ("\"" + " site:linkedin.com");
    assert Join(pieces, '"') == SearchQuery(fullName, university);
    SplitJoin(pieces, '"');
  }
}

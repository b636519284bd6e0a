/** The news dashboard page: tagging the three fetched lists with the adapter
    that produced them, the list of source buttons, the source/search view of
    the articles, and the integer counts of the performance report. */
module Dashboard {
  import opened JsValues
  import opened Sequences

  /** The page's article type: the route's normalised record plus the tag of
      the adapter it came from. */
  datatype Article = Article(
    title: string,
    description: string,
    url: string,
    urlToImage: string,
    publishedAt: string,
    source: string,
    apiSource: string)

  /** One of the page's three fetches: `res.ok`, and the parsed array (None
      when `res.json()` throws or the body is not an array to `map` over). */
  datatype Response = Response(ok: bool, body: Option<seq<Article>>)

  /** The `activeSource` value that selects every adapter. */
  const AllSources := "all"
  /** The label of the first source button. */
  const AllLabel := "All"
  const NewsApiTag := "NewsAPI"
  const EventRegistryTag := "EventRegistry"
  const NyTimesTag := "NYTimes"
  const LoadErrorMessage := "Failed to load news. Please try again later."
  /** What `measurePerformance` takes for a placeholder image. */
  const PlaceholderImage := "default.jpg"

  /** `list.map(article => ({ ...article, apiSource: tag }))`. */
  function Tagged(s: seq<Article>, tag: string): seq<Article>
  {
    seq(|s|, i requires 0 <= i < |s| => s[i].(apiSource := tag))
  }

  /** `combinedArticles`: the three lists one after the other, each record
      tagged by its position, every other field kept. */
  function CombinedArticles(newsApi: seq<Article>, eventRegistry: seq<Article>, nyTimes: seq<Article>): (r: seq<Article>)
    ensures |r| == |newsApi| + |eventRegistry| + |nyTimes|
    ensures forall i :: 0 <= i < |newsApi| ==> r[i] == newsApi[i].(apiSource := NewsApiTag)
    ensures forall i :: 0 <= i < |eventRegistry| ==>
              r[|newsApi| + i] == eventRegistry[i].(apiSource := EventRegistryTag)
    ensures forall i :: 0 <= i < |nyTimes| ==>
              r[|newsApi| + |eventRegistry| + i] == nyTimes[i].(apiSource := NyTimesTag)
  {
    Tagged(newsApi, NewsApiTag) + Tagged(eventRegistry, EventRegistryTag) + Tagged(nyTimes, NyTimesTag)
  }

  /** `articles.map(article => article.apiSource)`. */
  function ApiSources(s: seq<Article>): (r: seq<string>)
    ensures |r| == |s|
    ensures forall i :: 0 <= i < |s| ==> r[i] == s[i].apiSource
  {
    seq(|s|, i requires 0 <= i < |s| => s[i].apiSource)
  }

  /** `['All', ...new Set(articles.map(article => article.apiSource))]`:
      "All", then every tag carried by some article, each once. */
  function AvailableSources(s: seq<Article>): (r: seq<string>)
    ensures |r| >= 1 && r[0] == AllLabel
    ensures forall i, j :: 1 <= i < j < |r| ==> r[i] != r[j]
    ensures forall tag :: tag in r[1..] <==> tag in ApiSources(s)
  {
    var d := Distinct(ApiSources(s));
    assert ([AllLabel] + d)[1..] == d;
    [AllLabel] + d
  }

  /** The buttons after "All" follow the order in which the tags first
      appear among the articles. */
  lemma AvailableSourcesInFirstSeenOrder(s: seq<Article>, i: nat, j: nat)
    requires 1 <= i < j < |AvailableSources(s)|
    ensures AvailableSources(s)[i] in ApiSources(s) && AvailableSources(s)[j] in ApiSources(s)
    ensures FirstIndex(ApiSources(s), AvailableSources(s)[i]) < FirstIndex(ApiSources(s), AvailableSources(s)[j])
  {
    var tags := ApiSources(s);
    var d := Distinct(tags);
    var r := AvailableSources(s);
    assert r == [AllLabel] + d;
    var a, b := d[i - 1], d[j - 1];
    assert r[i] == a && r[j] == b;
    DistinctInFirstOccurrenceOrder(tags, i - 1, j - 1);
  }

  function Repeat(v: string, n: nat): (r: seq<string>)
    ensures |r| == n && forall i :: 0 <= i < n ==> r[i] == v
  {
    seq(n, _ => v)
  }

  lemma NotInRepeat(v: string, w: string, n: nat)
    requires v != w
    ensures v !in Repeat(w, n)
  {
  }

  lemma {:induction false} DistinctAppendRepeat(xs: seq<string>, v: string, n: nat)
    requires v !in xs
    ensures Distinct(xs + Repeat(v, n)) == Distinct(xs) + (if n > 0 then [v] else [])
  {
    if n == 0 {
      assert xs + Repeat(v, n) == xs;
    } else {
      var ys := xs + Repeat(v, n);
      assert ys[..|ys| - 1] == xs + Repeat(v, n - 1);
      DistinctAppendRepeat(xs, v, n - 1);
      if n == 1 {
        assert v !in Distinct(xs);
      } else {
        assert v in Distinct(xs + Repeat(v, n - 1));
      }
    }
  }

  lemma {:induction false} TagsOfCombined(newsApi: seq<Article>, eventRegistry: seq<Article>, nyTimes: seq<Article>)
    ensures ApiSources(CombinedArticles(newsApi, eventRegistry, nyTimes))
         == Repeat(NewsApiTag, |newsApi|) + Repeat(EventRegistryTag, |eventRegistry|) + Repeat(NyTimesTag, |nyTimes|)
  {
    var r := CombinedArticles(newsApi, eventRegistry, nyTimes);
    var n1, n2 := |newsApi|, |eventRegistry|;
    var tags := Repeat(NewsApiTag, n1) + Repeat(EventRegistryTag, n2) + Repeat(NyTimesTag, |nyTimes|);
    forall i | 0 <= i < |r| ensures ApiSources(r)[i] == tags[i] {
      if i < n1 {
        assert r[i] == newsApi[i].(apiSource := NewsApiTag);
      } else if i < n1 + n2 {
        assert r[n1 + (i - n1)] == eventRegistry[i - n1].(apiSource := EventRegistryTag);
      } else {
        assert r[n1 + n2 + (i - n1 - n2)] == nyTimes[i - n1 - n2].(apiSource := NyTimesTag);
      }
    }
  }

  /** After a successful load the buttons are "All" followed by the tags of
      the adapters that returned at least one article, in fetch order. */
  lemma {:induction false} CombinedSourceButtons(newsApi: seq<Article>, eventRegistry: seq<Article>, nyTimes: seq<Article>)
    ensures AvailableSources(CombinedArticles(newsApi, eventRegistry, nyTimes))
         == [AllLabel]
            + (if |newsApi| > 0 then [NewsApiTag] else [])
            + (if |eventRegistry| > 0 then [EventRegistryTag] else [])
            + (if |nyTimes| > 0 then [NyTimesTag] else [])
  {
    TagsOfCombined(newsApi, eventRegistry, nyTimes);
    DistinctOfThreeRuns(NewsApiTag, EventRegistryTag, NyTimesTag, |newsApi|, |eventRegistry|, |nyTimes|);
  }

  lemma {:induction false} DistinctOfThreeRuns(a: string, b: string, c: string, n1: nat, n2: nat, n3: nat)
    requires a != b && a != c && b != c
    ensures Distinct(Repeat(a, n1) + Repeat(b, n2) + Repeat(c, n3))
         == (if n1 > 0 then [a] else []) + (if n2 > 0 then [b] else []) + (if n3 > 0 then [c] else [])
  {
    var first := Repeat(a, n1);
    var second := first + Repeat(b, n2);
    assert [] + first == first;
    DistinctAppendRepeat([], a, n1);
    NotInRepeat(b, a, n1);
    DistinctAppendRepeat(first, b, n2);
    NotInRepeat(c, a, n1);
    NotInRepeat(c, b, n2);
    DistinctAppendRepeat(second, c, n3);
  }

  // ---------------------------------------------------------------------
  // The filter effect

  /** The search filter's callback, for an already lower-cased query. */
  predicate SearchMatches(a: Article, query: string)
  {
    Includes(ToLower(a.title), query) || Includes(ToLower(a.description), query)
  }

  /** Whether the page shows `a` for the given selector and search box. */
  predicate Visible(a: Article, activeSource: string, searchQuery: string)
  {
    && (activeSource == AllSources || a.apiSource == activeSource)
    && (searchQuery == "" || SearchMatches(a, ToLower(searchQuery)))
  }

  function FromSource(activeSource: string): Article -> bool
  {
    (a: Article) => a.apiSource == activeSource
  }

  function MatchingQuery(query: string): Article -> bool
  {
    (a: Article) => SearchMatches(a, query)
  }

  function VisibleFor(activeSource: string, searchQuery: string): Article -> bool
  {
    (a: Article) => Visible(a, activeSource, searchQuery)
  }

  /** The articles the page shows: those visible for the current selector
      and search box, in the loaded order. */
  function View(articles: seq<Article>, activeSource: string, searchQuery: string): (r: seq<Article>)
    ensures IsSubsequence(r, articles)
    ensures forall a :: a in r <==> a in articles && Visible(a, activeSource, searchQuery)
    ensures forall a :: Count(r, a) == if Visible(a, activeSource, searchQuery) then Count(articles, a) else 0
  {
    FilterIsSubsequence(articles, VisibleFor(activeSource, searchQuery));
    Filter(articles, VisibleFor(activeSource, searchQuery))
  }

  /** With every adapter selected and an empty search box, the page shows
      the loaded list as it is. */
  lemma ViewShowsEverything(articles: seq<Article>)
    ensures View(articles, AllSources, "") == articles
  {
    FilterKeepsAll(articles, VisibleFor(AllSources, ""));
  }

  /** Applying the same selector and search to the shown list changes
      nothing. */
  lemma ViewIsIdempotent(articles: seq<Article>, activeSource: string, searchQuery: string)
    ensures View(View(articles, activeSource, searchQuery), activeSource, searchQuery)
         == View(articles, activeSource, searchQuery)
  {
    var p := VisibleFor(activeSource, searchQuery);
    FilterTwice(articles, p, p, p);
  }

  /** Filtering step by step, as the effect does, gives the view. */
  lemma FilterStepsGiveView(articles: seq<Article>, activeSource: string, searchQuery: string)
    ensures (var bySource := if activeSource != AllSources then Filter(articles, FromSource(activeSource)) else articles;
             if searchQuery != "" then Filter(bySource, MatchingQuery(ToLower(searchQuery))) else bySource)
         == View(articles, activeSource, searchQuery)
  {
    var visible := VisibleFor(activeSource, searchQuery);
    var query := ToLower(searchQuery);
    if activeSource != AllSources && searchQuery != "" {
      FilterTwice(articles, FromSource(activeSource), MatchingQuery(query), visible);
    } else if activeSource != AllSources {
      FilterSame(articles, FromSource(activeSource), visible);
    } else if searchQuery != "" {
      FilterSame(articles, MatchingQuery(query), visible);
    } else {
      FilterKeepsAll(articles, visible);
    }
  }

  /** The search keeps a record exactly when the lower-cased query occurs,
      at some offset, in its lower-cased title or its lower-cased
      description. */
  lemma SearchIsSubstringMatch(a: Article, searchQuery: string)
    ensures SearchMatches(a, ToLower(searchQuery)) <==>
      exists k: nat :: OccursAt(ToLower(a.title), ToLower(searchQuery), k)
                    || OccursAt(ToLower(a.description), ToLower(searchQuery), k)
  {
    var q := ToLower(searchQuery);
    var title, description := ToLower(a.title), ToLower(a.description);
    if Includes(title, q) {
      var k := IncludesWitness(title, q);
    } else if Includes(description, q) {
      var k := IncludesWitness(description, q);
    }
    forall k: nat | OccursAt(title, q, k) || OccursAt(description, q, k)
      ensures SearchMatches(a, q)
    {
      if OccursAt(title, q, k) {
        IncludesSlice(title, q, k);
      } else {
        IncludesSlice(description, q, k);
      }
    }
  }

  // ---------------------------------------------------------------------
  // The integer parts of `measurePerformance`

  /** `articlesBySource`: for every tag, how many articles carry it. */
  method ArticlesBySource(articles: seq<Article>) returns (counts: map<string, nat>)
    ensures forall src :: src in counts <==> src in ApiSources(articles)
    ensures forall src :: src in counts ==> counts[src] == Count(ApiSources(articles), src)
  {
    var sources := ApiSources(articles);
    counts := map[];
    for i := 0 to |articles|
      invariant forall src :: src in counts <==> src in sources[..i]
      invariant forall src :: src in counts ==> counts[src] == Count(sources[..i], src)
    {
      var src := articles[i].apiSource;
      assert sources[..i + 1] == sources[..i] + [src];
      counts := counts[src := (if src in counts then counts[src] else 0) + 1];
    }
    assert sources[..|articles|] == sources;
  }

  /** Summed over the source buttons after "All", the per-tag counts account
      for every article exactly once. */
  lemma BySourceCountsSumToTotal(articles: seq<Article>)
    ensures SumCounts(AvailableSources(articles)[1..], ApiSources(articles)) == |articles|
  {
    assert AvailableSources(articles)[1..] == Distinct(ApiSources(articles));
    DistinctCountsSumToLength(ApiSources(articles));
  }

  /** The `filter` callback of `articlesWithImage`. */
  predicate HasImage(a: Article)
  {
    a.urlToImage != "" && !Includes(a.urlToImage, PlaceholderImage)
  }

  /** `articlesWithImage`. */
  function ArticlesWithImage(articles: seq<Article>): (n: nat)
    ensures n <= |articles|
    ensures n == |articles| <==> forall i :: 0 <= i < |articles| ==> HasImage(articles[i])
    ensures n == |set i | 0 <= i < |articles| && HasImage(articles[i])|
  {
    FilterLengthCountsPositions(articles, HasImage);
    assert Positions(articles, HasImage) == set i | 0 <= i < |articles| && HasImage(articles[i]);
    |Filter(articles, HasImage)|
  }

  /** The route's fallback image, '/default.jpg', never counts as an image. */
  lemma RouteFallbackIsNoImage(a: Article)
    requires a.urlToImage == "/default.jpg"
    ensures !HasImage(a)
  {
    IncludesSlice(a.urlToImage, PlaceholderImage, 1);
  }

  // ---------------------------------------------------------------------
  // The page's state

  class DashboardPage {
    var articles: seq<Article>
    var filteredArticles: seq<Article>
    var loading: bool
    var error: Option<string>
    var activeSource: string
    var searchQuery: string
    var availableSources: seq<string>

    /** The `useState` initial values. */
    constructor ()
      ensures articles == [] && filteredArticles == [] && availableSources == []
      ensures loading && error == None
      ensures activeSource == AllSources && searchQuery == ""
    {
      articles := [];
      filteredArticles := [];
      loading := true;
      error := None;
      activeSource := AllSources;
      searchQuery := "";
      availableSources := [];
    }

    /** `fetchNews`: if every response is OK and parses, the tagged lists
        replace the articles, the shown list and the source buttons;
        otherwise the error message is set and they are left as they were.
        Either way loading ends. */
    method FetchNews(newsApi: Response, eventRegistry: Response, nyTimes: Response)
      modifies this
      ensures !loading
      ensures activeSource == old(activeSource) && searchQuery == old(searchQuery)
      ensures (newsApi.ok && eventRegistry.ok && nyTimes.ok
               && newsApi.body.Some? && eventRegistry.body.Some? && nyTimes.body.Some?) ==>
                && error == None
                && articles == CombinedArticles(newsApi.body.value, eventRegistry.body.value, nyTimes.body.value)
                && filteredArticles == articles
                && availableSources == AvailableSources(articles)
      ensures !(newsApi.ok && eventRegistry.ok && nyTimes.ok
                && newsApi.body.Some? && eventRegistry.body.Some? && nyTimes.body.Some?) ==>
                && error == Some(LoadErrorMessage)
                && articles == old(articles)
                && filteredArticles == old(filteredArticles)
                && availableSources == old(availableSources)
    {
      loading := true;
      error := None;
      if !newsApi.ok || !eventRegistry.ok || !nyTimes.ok {
        // 'Failed to fetch news from one or more sources' is thrown and caught
        error := Some(LoadErrorMessage);
      } else if newsApi.body.None? || eventRegistry.body.None? || nyTimes.body.None? {
        // `res.json()` or the tagging `map` throws and is caught
        error := Some(LoadErrorMessage);
      } else {
        var combined := CombinedArticles(newsApi.body.value, eventRegistry.body.value, nyTimes.body.value);
        articles := combined;
        filteredArticles := combined;
        availableSources := AvailableSources(combined);
      }
      loading := false;
    }

    /** A source button's `onClick`: the "All" button selects every adapter. */
    method SelectSource(button: string)
      modifies this`activeSource
      ensures activeSource == if button == AllLabel then AllSources else button
    {
      activeSource := if button == AllLabel then AllSources else button;
    }

    /** The search box's `onChange`. */
    method SetSearchQuery(query: string)
      modifies this`searchQuery
      ensures searchQuery == query
    {
      searchQuery := query;
    }

    /** The "Show All Articles" button. */
    method ClearFilters()
      modifies this`searchQuery, this`activeSource
      ensures searchQuery == "" && activeSource == AllSources
    {
      searchQuery := "";
      activeSource := AllSources;
    }

    /** The filter effect, run whenever `activeSource`, `searchQuery` or
        `articles` changes: narrow by source unless every adapter is
        selected, then by the search text unless it is empty. */
    method ApplyFilters()
      modifies this`filteredArticles
      ensures filteredArticles == View(articles, activeSource, searchQuery)
    {
      var result := articles;
      if activeSource != AllSources {
        result := Filter(result, FromSource(activeSource));
      }
      if searchQuery != "" {
        var query := ToLower(searchQuery);
        result := Filter(result, MatchingQuery(query));
      }
      FilterStepsGiveView(articles, activeSource, searchQuery);
      filteredArticles := result;
    }
  }
}

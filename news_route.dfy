/** The `GET /api/news` handler: three providers' payloads are normalised into
    one article shape, appended provider by provider (a provider whose mapping
    throws contributes nothing), and the result is sorted newest first. */
module NewsRoute {
  import opened JsValues
  import opened Sequences

  /** One element of NewsAPI's `articles`; `sourceName` is `item.source?.name`. */
  datatype NewsApiItem = NewsApiItem(
    title: Option<string>,
    description: Option<string>,
    url: Option<string>,
    urlToImage: Option<string>,
    publishedAt: Option<DateField>,
    sourceName: Option<string>)

  /** One element of Event Registry's `articles.results`; `sourceTitle` is
      `item.source?.title`. */
  datatype EventRegistryItem = EventRegistryItem(
    title: Option<string>,
    body: Option<string>,
    summary: Option<string>,
    url: Option<string>,
    image: Option<string>,
    dateTime: Option<DateField>,
    sourceTitle: Option<string>)

  /** One element of the New York Times' `results`; `abstractText` is the
      `abstract` field, and `multimedia` holds, per media entry, that entry's
      `url` (None when the entry is null or has none). */
  datatype NyTimesItem = NyTimesItem(
    title: Option<string>,
    abstractText: Option<string>,
    url: Option<string>,
    multimedia: Option<seq<Option<string>>>,
    publishedDate: Option<DateField>)

  /** The `publishedAt` string of a normalised article: '' (NoDate) or the
      ISO-8601 text `toISOString` gives for an instant, which `new Date`
      reads back as that same instant. */
  datatype Published = NoDate | Iso(instant: int)

  /** The article shape all three providers are mapped into. `title`,
      `description` (except for Event Registry) and `url` are copied as they
      are, so they may be missing. */
  datatype NewsArticle = NewsArticle(
    title: Option<string>,
    description: Option<string>,
    url: Option<string>,
    urlToImage: string,
    publishedAt: Published,
    source: string)

  const DefaultImage := "/default.jpg"
  const NewsApiLabel := "NewsAPI"
  const EventRegistryLabel := "Event Registry"
  const NyTimesLabel := "New York Times"
  /** `results.slice(0, 5)` for the New York Times. */
  const NyTimesPageSize := 5

  predicate DatePresent(d: Option<DateField>)
  {
    d.Some? && d.value.text != ""
  }

  /** A truthy date string the host cannot parse: `toISOString` throws a
      RangeError on it. */
  predicate DateInvalid(d: Option<DateField>)
  {
    DatePresent(d) && d.value.instant.None?
  }

  /** `d ? new Date(d).toISOString() : ''`, None when it throws. */
  function ToPublished(d: Option<DateField>): (r: Option<Published>)
    ensures r.None? <==> DateInvalid(d)
    ensures r == Some(NoDate) <==> !DatePresent(d)
    ensures r.Some? && r.value.Iso? ==> d.Some? && d.value.instant == Some(r.value.instant)
  {
    if !DatePresent(d) then Some(NoDate)
    else if d.value.instant.None? then None
    else Some(Iso(d.value.instant.value))
  }

  /** The NewsAPI mapping callback; None when it throws. */
  function FromNewsApi(item: NewsApiItem): (r: Option<NewsArticle>)
    ensures r.None? <==> DateInvalid(item.publishedAt)
    ensures r.Some? ==> r.value.title == item.title && r.value.description == item.description && r.value.url == item.url
    ensures r.Some? ==> r.value.urlToImage != "" && r.value.source != ""
    ensures r.Some? && Truthy(item.urlToImage) ==> r.value.urlToImage == item.urlToImage.value
    ensures r.Some? && !Truthy(item.urlToImage) ==> r.value.urlToImage == DefaultImage
    ensures r.Some? && Truthy(item.sourceName) ==> r.value.source == item.sourceName.value
    ensures r.Some? && !Truthy(item.sourceName) ==> r.value.source == NewsApiLabel
    ensures r.Some? ==> (r.value.publishedAt == NoDate <==> !DatePresent(item.publishedAt))
    ensures r.Some? && r.value.publishedAt.Iso? ==> item.publishedAt.value.instant == Some(r.value.publishedAt.instant)
  {
    match ToPublished(item.publishedAt)
    case None => None
    case Some(published) =>
      Some(NewsArticle(item.title, item.description, item.url,
                       Or(item.urlToImage, DefaultImage), published,
                       Or(item.sourceName, NewsApiLabel)))
  }

  /** The Event Registry mapping callback; None when it throws. */
  function FromEventRegistry(item: EventRegistryItem): (r: Option<NewsArticle>)
    ensures r.None? <==> DateInvalid(item.dateTime)
    ensures r.Some? ==> r.value.title == item.title && r.value.url == item.url
    ensures r.Some? ==> r.value.description.Some? && r.value.urlToImage != "" && r.value.source != ""
    ensures r.Some? && Truthy(item.body) ==> r.value.description == item.body
    ensures r.Some? && !Truthy(item.body) && Truthy(item.summary) ==> r.value.description == item.summary
    ensures r.Some? && !Truthy(item.body) && !Truthy(item.summary) ==> r.value.description == Some("")
    ensures r.Some? && Truthy(item.image) ==> r.value.urlToImage == item.image.value
    ensures r.Some? && !Truthy(item.image) ==> r.value.urlToImage == DefaultImage
    ensures r.Some? && Truthy(item.sourceTitle) ==> r.value.source == item.sourceTitle.value
    ensures r.Some? && !Truthy(item.sourceTitle) ==> r.value.source == EventRegistryLabel
    ensures r.Some? ==> (r.value.publishedAt == NoDate <==> !DatePresent(item.dateTime))
    ensures r.Some? && r.value.publishedAt.Iso? ==> item.dateTime.value.instant == Some(r.value.publishedAt.instant)
  {
    match ToPublished(item.dateTime)
    case None => None
    case Some(published) =>
      Some(NewsArticle(item.title, Some(Or(item.body, Or(item.summary, ""))), item.url,
                       Or(item.image, DefaultImage), published,
                       Or(item.sourceTitle, EventRegistryLabel)))
  }

  /** `item.multimedia?.[0]?.url`. */
  function FirstMediaUrl(multimedia: Option<seq<Option<string>>>): Option<string>
  {
    if multimedia.Some? && |multimedia.value| > 0 then multimedia.value[0] else None
  }

  /** The New York Times mapping callback; None when it throws. */
  function FromNyTimes(item: NyTimesItem): (r: Option<NewsArticle>)
    ensures r.None? <==> DateInvalid(item.publishedDate)
    ensures r.Some? ==> r.value.title == item.title && r.value.description == item.abstractText && r.value.url == item.url
    ensures r.Some? ==> r.value.urlToImage != "" && r.value.source == NyTimesLabel
    ensures r.Some? && item.multimedia.Some? && |item.multimedia.value| > 0 && Truthy(item.multimedia.value[0])
            ==> r.value.urlToImage == item.multimedia.value[0].value
    ensures r.Some? && (item.multimedia.None? || |item.multimedia.value| == 0 || !Truthy(item.multimedia.value[0]))
            ==> r.value.urlToImage == DefaultImage
    ensures r.Some? ==> (r.value.publishedAt == NoDate <==> !DatePresent(item.publishedDate))
    ensures r.Some? && r.value.publishedAt.Iso? ==> item.publishedDate.value.instant == Some(r.value.publishedAt.instant)
  {
    match ToPublished(item.publishedDate)
    case None => None
    case Some(published) =>
      Some(NewsArticle(item.title, item.abstractText, item.url,
                       Or(FirstMediaUrl(item.multimedia), DefaultImage), published,
                       NyTimesLabel))
  }

  /** `results.slice(0, 5)`. */
  function NyTimesPage(results: seq<NyTimesItem>): (r: seq<NyTimesItem>)
    ensures |r| <= NyTimesPageSize
    ensures r <= results
    ensures |results| <= NyTimesPageSize ==> r == results
    ensures |results| > NyTimesPageSize ==> r == results[..NyTimesPageSize]
  {
    if |results| <= NyTimesPageSize then results else results[..NyTimesPageSize]
  }

  /** What one provider's `try` block pushes: nothing when the fetch or the
      payload failed (None) or when any mapping callback throws, otherwise
      every mapped record, in upstream order. */
  function Contribution<T>(payload: Option<seq<T>>, normalize: T -> Option<NewsArticle>): (r: seq<NewsArticle>)
    ensures payload.None? ==> r == []
    ensures payload.Some? && (exists i :: 0 <= i < |payload.value| && normalize(payload.value[i]).None?) ==> r == []
    ensures payload.Some? && (forall i :: 0 <= i < |payload.value| ==> normalize(payload.value[i]).Some?)
            ==> |r| == |payload.value| && forall i :: 0 <= i < |r| ==> normalize(payload.value[i]) == Some(r[i])
  {
    if payload.None? then []
    else
      match MapAll(payload.value, normalize)
      case None => []
      case Some(mapped) => mapped
  }

  function NewsApiPart(payload: Option<seq<NewsApiItem>>): seq<NewsArticle>
  {
    Contribution(payload, FromNewsApi)
  }

  function EventRegistryPart(payload: Option<seq<EventRegistryItem>>): seq<NewsArticle>
  {
    Contribution(payload, FromEventRegistry)
  }

  function NyTimesPart(payload: Option<seq<NyTimesItem>>): seq<NewsArticle>
  {
    Contribution(if payload.Some? then Some(NyTimesPage(payload.value)) else None, FromNyTimes)
  }

  /** The `articles` array just before the sort. */
  function Merged(newsApi: Option<seq<NewsApiItem>>, eventRegistry: Option<seq<EventRegistryItem>>,
                  nyTimes: Option<seq<NyTimesItem>>): seq<NewsArticle>
  {
    NewsApiPart(newsApi) + EventRegistryPart(eventRegistry) + NyTimesPart(nyTimes)
  }

  // ---------------------------------------------------------------------
  // The sort: `articles.sort((a, b) => new Date(b.publishedAt).getTime()
  //                                    - new Date(a.publishedAt).getTime())`

  /** What `new Date(a.publishedAt).getTime()` gives: the instant, or NaN
      (None) for ''. */
  function Key(a: NewsArticle): Option<int>
  {
    if a.publishedAt.Iso? then Some(a.publishedAt.instant) else None
  }

  /** The comparator puts `b` before `a` only when it returns a positive
      number; a NaN difference counts as 0 (section 23.1.3.30.2 of ECMA-262),
      so an undated record is never moved past another one. */
  predicate Newer(b: NewsArticle, a: NewsArticle)
  {
    Key(b).Some? && Key(a).Some? && Key(b).value > Key(a).value
  }

  predicate AllDated(s: seq<NewsArticle>)
  {
    forall i :: 0 <= i < |s| ==> Key(s[i]).Some?
  }

  /** No record is followed by a strictly newer one. */
  predicate NewestFirst(s: seq<NewsArticle>)
  {
    forall i, j :: 0 <= i < j < |s| ==> !Newer(s[j], s[i])
  }

  /** The records of `s` whose timestamp reads as `k`, in order. */
  function WithKey(s: seq<NewsArticle>, k: Option<int>): (r: seq<NewsArticle>)
    ensures forall a :: a in r <==> a in s && Key(a) == k
    decreases |s|
  {
    if s == [] then []
    else
      assert s == [s[0]] + s[1..];
      (if Key(s[0]) == k then [s[0]] else []) + WithKey(s[1..], k)
  }

  /** Places `x`, which came before every record of `ys`, after the records
      of `ys` the comparator says are newer. */
  function Insert(x: NewsArticle, ys: seq<NewsArticle>): (r: seq<NewsArticle>)
    ensures multiset(r) == multiset([x] + ys)
    decreases |ys|
  {
    if ys != [] && Newer(ys[0], x) then
      assert ys == [ys[0]] + ys[1..];
      [ys[0]] + Insert(x, ys[1..])
    else [x] + ys
  }

  /** A stable sort under the comparator. With a consistent comparator (all
      records dated) the result is fixed by ECMA-262 (see SortIsUnique); when
      some records are undated, it is one of the orders the standard lets an
      engine choose. */
  function SortNewestFirst(s: seq<NewsArticle>): (r: seq<NewsArticle>)
    ensures multiset(r) == multiset(s)
    decreases |s|
  {
    if s == [] then []
    else
      assert s == [s[0]] + s[1..];
      Insert(s[0], SortNewestFirst(s[1..]))
  }

  /** The response body of `GET`. */
  function Aggregate(newsApi: Option<seq<NewsApiItem>>, eventRegistry: Option<seq<EventRegistryItem>>,
                     nyTimes: Option<seq<NyTimesItem>>): (r: seq<NewsArticle>)
    ensures multiset(r) == multiset(NewsApiPart(newsApi) + EventRegistryPart(eventRegistry) + NyTimesPart(nyTimes))
    ensures |r| == |NewsApiPart(newsApi)| + |EventRegistryPart(eventRegistry)| + |NyTimesPart(nyTimes)|
  {
    SortNewestFirst(Merged(newsApi, eventRegistry, nyTimes))
  }

  lemma {:induction false} InsertStable(x: NewsArticle, ys: seq<NewsArticle>, k: Option<int>)
    ensures WithKey(Insert(x, ys), k) == WithKey([x] + ys, k)
    decreases |ys|
  {
    if ys != [] && Newer(ys[0], x) {
      var y, rest := ys[0], ys[1..];
      assert ys == [y] + rest;
      assert Insert(x, ys) == [y] + Insert(x, rest);
      InsertStable(x, rest, k);
      WithKeyCons(y, Insert(x, rest), k);
      WithKeyCons(x, rest, k);
      WithKeyCons(x, ys, k);
      WithKeyCons(y, rest, k);
      // `y` is strictly newer than `x`, so at most one of them has key `k`.
      assert Key(y) != Key(x);
    } else {
      assert Insert(x, ys) == [x] + ys;
    }
  }

  /** Stability: the records sharing a timestamp keep their relative order;
      under the model's order this holds for undated records too. */
  lemma {:induction false} SortIsStable(s: seq<NewsArticle>, k: Option<int>)
    ensures WithKey(SortNewestFirst(s), k) == WithKey(s, k)
    decreases |s|
  {
    if s != [] {
      var t := SortNewestFirst(s[1..]);
      SortIsStable(s[1..], k);
      InsertStable(s[0], t, k);
      var a := [s[0]] + t;
      assert a[0] == s[0] && a[1..] == t;
    }
  }

  lemma {:induction false} NewestFirstCons(h: NewsArticle, t: seq<NewsArticle>)
    requires NewestFirst(t)
    requires forall a :: a in t ==> !Newer(a, h)
    ensures NewestFirst([h] + t)
  {
    var s := [h] + t;
    forall i, j | 0 <= i < j < |s| ensures !Newer(s[j], s[i]) {
      if i == 0 {
        assert s[j] == t[j - 1];
      } else {
        assert s[i] == t[i - 1] && s[j] == t[j - 1];
      }
    }
  }

  lemma {:induction false} InsertSorted(x: NewsArticle, ys: seq<NewsArticle>)
    requires Key(x).Some? && AllDated(ys) && NewestFirst(ys)
    ensures NewestFirst(Insert(x, ys))
    decreases |ys|
  {
    if ys != [] && Newer(ys[0], x) {
      var rest := Insert(x, ys[1..]);
      InsertSorted(x, ys[1..]);
      forall a | a in rest ensures !Newer(a, ys[0]) {
        assert a in multiset([x] + ys[1..]);
        if a != x {
          var j :| 0 <= j < |ys[1..]| && ys[1..][j] == a;
          assert ys[j + 1] == a;
        }
      }
      NewestFirstCons(ys[0], rest);
    } else {
      forall a | a in ys ensures !Newer(a, x) {
        var j :| 0 <= j < |ys| && ys[j] == a;
        if j > 0 {
          assert !Newer(ys[j], ys[0]);
        }
      }
      NewestFirstCons(x, ys);
    }
  }

  lemma {:induction false} SortKeepsDated(s: seq<NewsArticle>)
    requires AllDated(s)
    ensures AllDated(SortNewestFirst(s))
  {
    var r := SortNewestFirst(s);
    forall i | 0 <= i < |r| ensures Key(r[i]).Some? {
      assert r[i] in multiset(s);
      var j :| 0 <= j < |s| && s[j] == r[i];
    }
  }

  /** When every timestamp parses, the sorted list is newest first. */
  lemma {:induction false} SortIsNewestFirst(s: seq<NewsArticle>)
    requires AllDated(s)
    ensures NewestFirst(SortNewestFirst(s))
    decreases |s|
  {
    if s != [] {
      SortIsNewestFirst(s[1..]);
      SortKeepsDated(s[1..]);
      InsertSorted(s[0], SortNewestFirst(s[1..]));
    }
  }

  lemma WithKeyCons(a: NewsArticle, s: seq<NewsArticle>, k: Option<int>)
    ensures WithKey([a] + s, k) == (if Key(a) == k then [a] else []) + WithKey(s, k)
  {
    assert ([a] + s)[0] == a && ([a] + s)[1..] == s;
  }

  /** The first record of a newest-first list is at least as new as any. */
  lemma HeadIsNewest(t: seq<NewsArticle>, x: NewsArticle)
    requires AllDated(t) && NewestFirst(t) && x in t
    ensures Key(t[0]).value >= Key(x).value
  {
    var j :| 0 <= j < |t| && t[j] == x;
    assert j == 0 || !Newer(t[j], t[0]);
  }

  /** Two dated newest-first lists with the same per-timestamp records start
      with the same record. */
  lemma HeadsAgree(r: seq<NewsArticle>, t: seq<NewsArticle>)
    requires r != [] && t != []
    requires AllDated(r) && AllDated(t) && NewestFirst(r) && NewestFirst(t)
    requires forall k :: WithKey(r, k) == WithKey(t, k)
    ensures r[0] == t[0]
  {
    var a, b := r[0], t[0];
    assert a in WithKey(r, Key(a));
    assert a in WithKey(t, Key(a));
    HeadIsNewest(t, a);
    assert b in WithKey(t, Key(b));
    assert b in WithKey(r, Key(b));
    HeadIsNewest(r, b);
    assert Key(a) == Key(b);
    assert r == [a] + r[1..] && t == [b] + t[1..];
    WithKeyCons(a, r[1..], Key(a));
    WithKeyCons(b, t[1..], Key(a));
  }

  lemma TailsAgree(a: NewsArticle, r: seq<NewsArticle>, t: seq<NewsArticle>)
    requires forall k :: WithKey([a] + r, k) == WithKey([a] + t, k)
    ensures forall k :: WithKey(r, k) == WithKey(t, k)
  {
    forall k ensures WithKey(r, k) == WithKey(t, k) {
      WithKeyCons(a, r, k);
      WithKeyCons(a, t, k);
      var head := if Key(a) == k then [a] else [];
      assert WithKey(r, k) == (head + WithKey(r, k))[|head|..];
      assert WithKey(t, k) == (head + WithKey(t, k))[|head|..];
    }
  }

  /** With every record dated, a newest-first order that keeps equal
      timestamps in their original order is unique. */
  lemma {:induction false} ArrangementIsUnique(r: seq<NewsArticle>, t: seq<NewsArticle>)
    requires AllDated(r) && AllDated(t) && NewestFirst(r) && NewestFirst(t)
    requires forall k :: WithKey(r, k) == WithKey(t, k)
    ensures r == t
    decreases |r|
  {
    if r != [] {
      assert r[0] in WithKey(r, Key(r[0]));
    }
    if t != [] {
      assert t[0] in WithKey(t, Key(t[0]));
    }
    if r != [] && t != [] {
      HeadsAgree(r, t);
      var r', t' := r[1..], t[1..];
      assert r == [r[0]] + r' && t == [r[0]] + t';
      TailsAgree(r[0], r', t');
      assert AllDated(r') && AllDated(t');
      assert NewestFirst(r') && NewestFirst(t');
      ArrangementIsUnique(r', t');
    }
  }

  /** For a consistent comparator (every record dated), ECMA-262 fixes the
      result of a stable sort: the only newest-first rearrangement that keeps
      equal timestamps in their original order. The model's sort is it. */
  lemma SortIsUnique(s: seq<NewsArticle>, r: seq<NewsArticle>)
    requires AllDated(s) && AllDated(r) && NewestFirst(r)
    requires forall k :: WithKey(r, k) == WithKey(s, k)
    ensures r == SortNewestFirst(s)
  {
    SortIsNewestFirst(s);
    SortKeepsDated(s);
    forall k ensures WithKey(r, k) == WithKey(SortNewestFirst(s), k) {
      SortIsStable(s, k);
    }
    ArrangementIsUnique(r, SortNewestFirst(s));
  }

  /** `GET`: push each provider's mapped records inside its own `try`, then
      sort in place. A provider payload is None when its fetch, `json()` or
      shape check (`newsapi?.articles`, `eventRegistry?.articles?.results`,
      `nytimes?.results`) fails or is falsy. */
  method Get(newsApi: Option<seq<NewsApiItem>>, eventRegistry: Option<seq<EventRegistryItem>>,
             nyTimes: Option<seq<NyTimesItem>>)
    returns (articles: seq<NewsArticle>)
    ensures articles == Aggregate(newsApi, eventRegistry, nyTimes)
    ensures multiset(articles) == multiset(NewsApiPart(newsApi) + EventRegistryPart(eventRegistry) + NyTimesPart(nyTimes))
    ensures forall k :: WithKey(articles, k) == WithKey(Merged(newsApi, eventRegistry, nyTimes), k)
    ensures AllDated(articles) ==> NewestFirst(articles)
  {
    articles := [];

    // Source 1: NewsAPI
    if newsApi.Some? {
      var mapped := MapAll(newsApi.value, FromNewsApi);
      if mapped.Some? {
        articles := articles + mapped.value;
      }
    }
    assert articles == NewsApiPart(newsApi);
    ghost var afterFirst := articles;

    // Source 2: Event Registry
    if eventRegistry.Some? {
      var mapped := MapAll(eventRegistry.value, FromEventRegistry);
      if mapped.Some? {
        articles := articles + mapped.value;
      }
    }
    assert articles == afterFirst + EventRegistryPart(eventRegistry);
    ghost var afterSecond := articles;

    // Source 3: NY Times
    if nyTimes.Some? {
      var mapped := MapAll(NyTimesPage(nyTimes.value), FromNyTimes);
      if mapped.Some? {
        articles := articles + mapped.value;
      }
    }
    assert articles == afterSecond + NyTimesPart(nyTimes);

    ghost var merged := articles;
    articles := SortNewestFirst(articles);
    SortFacts(merged);
  }

  /** What the final sort guarantees about any pushed list. */
  lemma SortFacts(merged: seq<NewsArticle>)
    ensures multiset(SortNewestFirst(merged)) == multiset(merged)
    ensures forall k :: WithKey(SortNewestFirst(merged), k) == WithKey(merged, k)
    ensures AllDated(SortNewestFirst(merged)) ==> NewestFirst(SortNewestFirst(merged))
  {
    var sorted := SortNewestFirst(merged);
    forall k ensures WithKey(sorted, k) == WithKey(merged, k) {
      SortIsStable(merged, k);
    }
    if AllDated(sorted) {
      forall i | 0 <= i < |merged| ensures Key(merged[i]).Some? {
        assert merged[i] in multiset(sorted);
      }
      SortIsNewestFirst(merged);
    }
  }

  /** A NewsAPI record whose date cannot be converted makes the whole NewsAPI
      block throw: the response is what it would be had NewsAPI sent nothing,
      and the other providers' records are all still there. */
  lemma {:induction false} FailingProviderIsIsolated(newsApi: seq<NewsApiItem>, i: nat,
      eventRegistry: Option<seq<EventRegistryItem>>, nyTimes: Option<seq<NyTimesItem>>)
    requires i < |newsApi| && DateInvalid(newsApi[i].publishedAt)
    ensures Aggregate(Some(newsApi), eventRegistry, nyTimes) == Aggregate(None, eventRegistry, nyTimes)
  {
    assert FromNewsApi(newsApi[i]).None?;
    assert NewsApiPart(Some(newsApi)) == [] == NewsApiPart(None);
  }

  /** A NewsAPI record from 2024-01-02 and an Event Registry record from
      2024-01-03, with the New York Times unavailable: the response holds
      both, the Event Registry one first. */
  lemma {:induction false} NewerProviderRecordComesFirst(x: NewsApiItem, y: EventRegistryItem)
    requires x.publishedAt == Some(DateField("2024-01-02T00:00:00.000Z", Some(1704153600000)))
    requires y.dateTime == Some(DateField("2024-01-03T00:00:00.000Z", Some(1704240000000)))
    ensures FromNewsApi(x).Some? && FromEventRegistry(y).Some?
    ensures Aggregate(Some([x]), Some([y]), None) == [FromEventRegistry(y).value, FromNewsApi(x).value]
  {
    var a, b := FromNewsApi(x).value, FromEventRegistry(y).value;
    assert NewsApiPart(Some([x])) == [a];
    assert EventRegistryPart(Some([y])) == [b];
    assert Merged(Some([x]), Some([y]), None) == [a, b];
    assert [a, b][0] == a && [a, b][1..] == [b];
    assert SortNewestFirst([b]) == [b] by {
      assert [b][1..] == [];
      assert SortNewestFirst([b]) == Insert(b, SortNewestFirst([]));
    }
    assert SortNewestFirst([a, b]) == Insert(a, [b]);
    assert Newer(b, a);
    assert [b][1..] == [];
    assert Insert(a, [b]) == [b] + Insert(a, []);
    assert Insert(a, []) == [a];
  }

  /** With one undated record between them, an older dated record can stay
      ahead of a newer one: the comparator calls the undated record "equal"
      to both, so nothing is moved. */
  lemma {:induction false} UndatedRecordCanKeepOlderFirst(older: NewsArticle, undated: NewsArticle, newer: NewsArticle)
    requires Key(older).Some? && Key(newer).Some? && Key(older).value < Key(newer).value
    requires Key(undated).None?
    ensures Newer(newer, older)
    ensures SortNewestFirst([older, undated, newer]) == [older, undated, newer]
  {
    var last := [newer];
    assert last[0] == newer && last[1..] == [];
    assert SortNewestFirst(last) == Insert(newer, SortNewestFirst([]));
    assert SortNewestFirst(last) == last;
    var tail := [undated] + last;
    assert tail[0] == undated && tail[1..] == last;
    assert SortNewestFirst(tail) == Insert(undated, last);
    assert !Newer(newer, undated);
    assert SortNewestFirst(tail) == tail;
    var all := [older] + tail;
    assert all[0] == older && all[1..] == tail;
    assert SortNewestFirst(all) == Insert(older, tail);
    assert !Newer(undated, older);
    assert all == [older, undated, newer];
  }
}

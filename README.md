# News aggregator: a verified model

This project models the data path of a small news aggregator in Dafny:

- **`GET /api/news`** (`app/api/news/route.ts`) reads three providers (NewsAPI, Event Registry, The New York Times).
  - Each provider's records are normalised into one article shape, with fallback images, source labels and ISO timestamps.
  - Each provider's records are appended inside that provider's own `try` block. A provider whose mapping throws contributes nothing.
  - The whole list is then sorted newest first.
- **The dashboard page** (`app/dashboard/page.tsx`):
  - tags the three fetched lists with the adapter that produced them;
  - builds the source buttons (`'All'` plus the distinct tags);
  - narrows the shown list by source button and search text;
  - counts articles per tag and articles with a real image for its performance report.
- **`getNews`** (`lib/getNews.ts`) fetches one NewsAPI page and checks its shape. It maps every record to display strings with placeholder texts. Any failure gives an empty list.

## Modules

- `js_values.dfy` (`JsValues`) covers the JavaScript value rules the code relies on:
  - missing values (`Option`);
  - the truthiness behind `x || fallback`;
  - ASCII `toLowerCase` and `String.prototype.includes`;
  - date strings (`DateField`).
- `sequences.dfy` (`Sequences`) covers the array operations:
  - `filter`;
  - a `map` whose callback may throw (all or nothing);
  - `[...new Set(xs)]`;
  - occurrence counts.
- `news_route.dfy` (`NewsRoute`) models the route:
  - the three mapping callbacks and the `slice(0, 5)`;
  - the per-provider contribution;
  - the stable sort;
  - the `GET` method.
- `dashboard.dfy` (`Dashboard`) models the page:
  - the pure view functions;
  - the `articlesBySource` loop;
  - a `DashboardPage` class holding the page's `useState` fields, whose methods are the handlers and effects.
- `get_news.dfy` (`GetNews`) models `getNews`.

## How date values are modelled

A date string from upstream is a `DateField`. It holds the text and the instant that `new Date(text)` reads from it, or `None` for an Invalid Date. The model does not parse dates. For each string it is given what the host parses.

In the route:

- A truthy date becomes `Iso(instant)`. That is the `toISOString` text, which the sort's `new Date(...)` reads back as the same instant.
- A missing or empty date becomes `NoDate` (`''`). The sort's `new Date('')` reads it as NaN.
- A truthy date the host cannot parse makes `toISOString` throw a RangeError. That provider's whole `try` block then contributes nothing.

In `getNews`, `toLocaleString` is a parameter `localize` for a valid instant, and `"Invalid Date"` for an invalid one.

The sort is `Array.prototype.sort` under the route's comparator. It is modelled as a stable insertion sort. A NaN comparator result counts as 0, as section 23.1.3.30.2 of ECMA-262 specifies.

- **Every record dated.** The comparator is consistent, and ECMA-262 then requires a stable sort, which fixes the result. `SortIsUnique` proves that the model's sort is that result.
- **Some record undated.** The comparator is not consistent, and ECMA-262 leaves the whole resulting order to the engine. The result is still a rearrangement of the input (`SortNewestFirst`). Everything else the model proves about such a list, stability included, is about the model's own order, not about every engine.
- **Undated records are not pushed to the end.** The comparator returns NaN for them, which the sort treats as "equal". One undated record can even keep an older dated record ahead of a newer one (`UndatedRecordCanKeepOlderFirst`).
- **Only the New York Times list is sliced to five.** The NewsAPI and Event Registry lists rely on the `pageSize=5` and `articlesCount=5` query parameters.

## Model

| member | source | states |
|---|---|---|
| NewsRoute.FromNewsApi | app/api/news/route.ts:15-22 | throws exactly when the date is truthy but unparseable; title, description and url are copied unchanged; the image is the upstream one when truthy, else '/default.jpg'; the source is `source.name` when truthy, else 'NewsAPI'; the date is '' exactly when upstream had none, otherwise the instant upstream named |
| NewsRoute.FromEventRegistry | app/api/news/route.ts:38-45 | throws exactly on an unparseable truthy date; description is `body`, else `summary`, else ''; image falls back to '/default.jpg'; source falls back to 'Event Registry'; date as for NewsAPI |
| NewsRoute.FromNyTimes | app/api/news/route.ts:61-68 | throws exactly on an unparseable truthy date; description is `abstract`; image is the first multimedia entry's url when truthy, else '/default.jpg'; source is always 'New York Times'; date as for NewsAPI |
| NewsRoute.ToPublished | app/api/news/route.ts:20 | the date ternary throws exactly on a truthy unparseable date, gives '' exactly when the date is missing or empty, and otherwise gives the instant the upstream text names (the same ternary is on lines 43 and 66) |
| NewsRoute.NyTimesPage | app/api/news/route.ts:61 | at most five records, a prefix of the results: all of them when there are at most five, and exactly the first five otherwise |
| NewsRoute.Contribution | app/api/news/route.ts:7-27 | a provider contributes nothing when its payload failed or any of its callbacks throws; otherwise one mapped record per upstream record, in upstream order |
| NewsRoute.FailingProviderIsIsolated | app/api/news/route.ts:7-27 | one NewsAPI record with an unparseable date makes the response equal to the one NewsAPI would give by failing outright; the other providers' records are unaffected |
| NewsRoute.Insert | app/api/news/route.ts:76 | one insertion step of the sort returns the inserted record together with the list, as a rearrangement (same multiset) |
| NewsRoute.SortNewestFirst | app/api/news/route.ts:76 | the sort returns a rearrangement (same multiset) of the pushed records |
| NewsRoute.SortIsStable | app/api/news/route.ts:76 | under the model's sort, records with the same timestamp keep their relative order; undated records are included, and for them this is the model's choice |
| NewsRoute.SortIsNewestFirst | app/api/news/route.ts:76 | when every record is dated, no record is followed by a strictly newer one |
| NewsRoute.SortIsUnique | app/api/news/route.ts:76 | when every record is dated, any newest-first arrangement that keeps equal timestamps in order equals the model's sort, so it is the order every conforming engine produces |
| NewsRoute.ArrangementIsUnique | app/api/news/route.ts:76 | two dated newest-first lists with the same records per timestamp, in the same order, are equal |
| NewsRoute.UndatedRecordCanKeepOlderFirst | app/api/news/route.ts:76 | with an undated record between them, an older dated record stays ahead of a newer one: the sort leaves [older, undated, newer] unchanged |
| NewsRoute.Aggregate | app/api/news/route.ts:3-79 | the response holds exactly the records of the three contributions (same multiset), so its length is the sum of theirs |
| NewsRoute.Get | app/api/news/route.ts:3-79 | the pushes then the in-place sort give the sorted concatenation of the three contributions in provider order: the same records, equal timestamps in push order, and newest first when all are dated |
| NewsRoute.NewerProviderRecordComesFirst | app/api/news/route.ts:3-79 | a NewsAPI record from 2024-01-02 and an Event Registry record from 2024-01-03, with the New York Times unavailable, come back as [Event Registry record, NewsAPI record] |
| Sequences.MapAll | app/api/news/route.ts:15-22 | a `map` with a throwing callback either returns one result per item, in order, or throws exactly when some callback throws |
| Sequences.Filter | app/dashboard/page.tsx:155 | `filter` keeps every occurrence of each element satisfying the predicate and no occurrence of any other; it never grows the list, and keeps its length exactly when every element passes |
| Sequences.FilterIsSubsequence | app/dashboard/page.tsx:155 | `filter` keeps the elements in their original order |
| Sequences.FilterLengthCountsPositions | app/dashboard/page.tsx:27 | the length of a filtered list is the number of positions whose element passes |
| Sequences.Distinct | app/dashboard/page.tsx:113 | `[...new Set(xs)]` holds exactly the values of `xs`, with no repeats |
| Sequences.DistinctInFirstOccurrenceOrder | app/dashboard/page.tsx:113 | the set's values come in the order of their first occurrence in `xs` |
| Sequences.DistinctCountsSumToLength | app/dashboard/page.tsx:21-24 | summing the occurrence counts of the distinct values gives the length of the list |
| Dashboard.CombinedArticles | app/dashboard/page.tsx:101-105 | the three lists in fetch order, each record tagged 'NewsAPI', 'EventRegistry' or 'NYTimes' by the list it came from, every other field kept |
| Dashboard.AvailableSources | app/dashboard/page.tsx:113 | the buttons start with 'All', then list exactly the tags the articles carry, none twice |
| Dashboard.AvailableSourcesInFirstSeenOrder | app/dashboard/page.tsx:113 | the tag buttons follow the order in which the tags first appear among the articles |
| Dashboard.CombinedSourceButtons | app/dashboard/page.tsx:101-113 | after a load, the buttons are 'All' followed by the tags of the non-empty lists, in fetch order |
| Dashboard.View | app/dashboard/page.tsx:149-168 | the shown list keeps the loaded order and holds every occurrence, and nothing else, of the articles matching the active source (or any, for 'all') and, for a non-empty search, containing the lower-cased query in the lower-cased title or description |
| Dashboard.FilterStepsGiveView | app/dashboard/page.tsx:151-165 | the effect's two optional `filter` passes give the view |
| Dashboard.ViewShowsEverything | app/dashboard/page.tsx:149-168 | with 'all' selected and an empty search the whole loaded list is shown, unchanged |
| Dashboard.ViewIsIdempotent | app/dashboard/page.tsx:149-168 | re-applying the same selector and search to the shown list changes nothing |
| Dashboard.SearchIsSubstringMatch | app/dashboard/page.tsx:159-164 | the search keeps a record exactly when the lower-cased query occurs at some offset in its lower-cased title or description |
| Dashboard.ArticlesBySource | app/dashboard/page.tsx:21-24 | the map has a key for exactly the tags the articles carry, each mapped to its number of articles |
| Dashboard.BySourceCountsSumToTotal | app/dashboard/page.tsx:21-24 | the per-tag counts over the source buttons add up to the number of articles |
| Dashboard.ArticlesWithImage | app/dashboard/page.tsx:27 | the number of positions whose article has a non-empty image that does not contain 'default.jpg'; so at most the number of articles, and equal to it exactly when every article has such an image |
| Dashboard.RouteFallbackIsNoImage | app/dashboard/page.tsx:27 | the route's fallback '/default.jpg' is never counted as an image |
| Dashboard.DashboardPage.constructor | app/dashboard/page.tsx:60-66 | the initial state: no articles, loading, no error, 'all' selected, empty search, no buttons |
| Dashboard.DashboardPage.FetchNews | app/dashboard/page.tsx:79-131 | when all three responses are OK and parse, the combined list replaces the articles and the shown list, and its buttons replace the buttons; otherwise the fixed error message is set and the lists are kept; loading always ends |
| Dashboard.DashboardPage.SelectSource | app/dashboard/page.tsx:372 | the 'All' button selects 'all'; any other button selects its own tag |
| Dashboard.DashboardPage.SetSearchQuery | app/dashboard/page.tsx:363 | the search text becomes the typed text |
| Dashboard.DashboardPage.ClearFilters | app/dashboard/page.tsx:412-415 | the search is emptied and 'all' is selected |
| Dashboard.DashboardPage.ApplyFilters | app/dashboard/page.tsx:149-168 | the shown list becomes the view of the loaded articles for the current selector and search |
| GetNews.LocalDate | lib/getNews.ts:44-46 | 'Date not available' for a missing or empty date, the host's rendering for a valid one, 'Invalid Date' for an unparseable one |
| GetNews.Process | lib/getNews.ts:39-48 | each of title, description, image and source is the upstream value when truthy, else its placeholder ('No title available', 'No description available', '/default-news.jpg', 'Unknown source'); the url passes through; those four fields are never empty |
| GetNews.GetNews | lib/getNews.ts:21-54 | `[]` when the request fails, the status is not OK, the body is not JSON, `articles` is falsy or not an array, or an element is null; otherwise one processed article per upstream article, in order |
| GetNews.PlaceholderMeansMissing | lib/getNews.ts:40-47 | a title, description, image or source that differs from its placeholder is the upstream value itself |
| GetNews.CompleteArticleIsShownAsIs | lib/getNews.ts:39-48 | an article with every field truthy and a valid date is shown as it came, with the date rendered by the host |
| GetNews.DisplayFieldsAreFilled | lib/getNews.ts:39-48 | every returned article has a non-empty title, description, image and source, and a non-empty date when the host renders dates as non-empty text |
| GetNews.GetNewsKeepsLinks | lib/getNews.ts:42 | for a well-formed reply, the returned links are the upstream links, in upstream order |

## Left out

- Network, environment and framework:
  - Network requests and API keys (`process.env`) are left out. A provider's fetch-and-parse result is a parameter. `None` stands for a rejected fetch, an unparseable body or a failed shape check (`newsapi?.articles`, `eventRegistry?.articles?.results`, `nytimes?.results`).
  - The URLs built from the category and the `revalidate` cache option of `getNews` are left out.
  - `NextResponse.json` serialisation is left out.
  - The session check, the login redirect and the rendering of the page are left out.
- Dates, times and numbers:
  - The model does not parse or format dates. Each date string comes with the instant the host reads from it. `toLocaleString` is the parameter `localize`.
  - The floating-point parts of `measurePerformance` are left out: the image percentage (NaN for an empty list), the publication-time statistics and the data size.
  - `performance.now()` timings and `console` logging are left out.
- Dashboard behaviour:
  - The `?source=` query parameter of the dashboard's three fetches is left out. The route ignores it, so the three responses are in fact the same merged list. The model takes the three lists as independent inputs.
  - React state batching and effect scheduling are left out. `DashboardPage.ApplyFilters` is the filter effect, and a caller runs it after any change to the articles, the selector or the search text.
  - Dashboard articles have string fields, as the page's type declares. The route may deliver a missing title or description, and then `toLowerCase` in the search throws. The model does not cover that crash.
  - `articlesBySource` is a map from tag to count. Inherited plain-object keys such as `constructor` are left out.
  - `toLowerCase` is modelled for ASCII letters only. Unicode case mapping is left out.
- Route inputs:
  - Provider records in the route are records. A `null` element in a provider's list is left out. Reading its fields would throw, and that provider would contribute nothing.
- NewsRoute.SortIsNewestFirst: newest-first is stated only when every record is dated. With an undated record the comparator is inconsistent and ECMA-262 leaves the whole order to the engine. The model's sort is one possible order, and in it one undated record can keep older dated records ahead of newer ones (`UndatedRecordCanKeepOlderFirst`).
- NewsRoute.Get: the sort is modelled on a sequence value, not in place on the array.

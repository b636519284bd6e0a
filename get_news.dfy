/** `getNews(category)`: one NewsAPI top-headlines page, checked for its
    shape and mapped into display-ready articles whose missing fields are
    replaced by fixed placeholder texts; any failure yields an empty list. */
module GetNews {
  import opened JsValues
  import opened Sequences

  /** One element of NewsAPI's `articles`; `sourceName` is
      `article.source?.name`. */
  datatype RawArticle = RawArticle(
    title: Option<string>,
    description: Option<string>,
    url: Option<string>,
    urlToImage: Option<string>,
    publishedAt: Option<DateField>,
    sourceName: Option<string>)

  /** The article shape `getNews` returns. `url` is copied as it is, so it
      may be missing; every other field is a string. */
  datatype ProcessedArticle = ProcessedArticle(
    title: string,
    description: string,
    url: Option<string>,
    urlToImage: string,
    publishedAt: string,
    source: string)

  /** The parsed body. `articles` is None when `data.articles` is falsy or
      not an array; an element is None when it is `null`/`undefined`. */
  datatype Payload = Payload(articles: Option<seq<Option<RawArticle>>>)

  /** What `fetch` produced: a rejected request, or a response with its `ok`
      flag and its parsed body (None when `res.json()` rejects). */
  datatype Reply = NetworkError | Reply(ok: bool, json: Option<Payload>)

  const NoTitle := "No title available"
  const NoDescription := "No description available"
  const NoImage := "/default-news.jpg"
  const NoDate := "Date not available"
  const UnknownSource := "Unknown source"
  /** `toLocaleString` of an Invalid Date. */
  const InvalidDateText := "Invalid Date"

  /** `publishedAt ? new Date(publishedAt).toLocaleString() : 'Date not
      available'`; `localize` is the host's rendering of a valid instant. */
  function LocalDate(d: Option<DateField>, localize: int -> string): (r: string)
    ensures (d.None? || d.value.text == "") ==> r == NoDate
    ensures d.Some? && d.value.text != "" && d.value.instant.None? ==> r == InvalidDateText
    ensures d.Some? && d.value.text != "" && d.value.instant.Some? ==> r == localize(d.value.instant.value)
  {
    if d.None? || d.value.text == "" then NoDate
    else if d.value.instant.None? then InvalidDateText
    else localize(d.value.instant.value)
  }

  /** The mapping callback: each string field is the upstream value when
      that is truthy and its placeholder otherwise; the URL passes through. */
  function Process(a: RawArticle, localize: int -> string): (r: ProcessedArticle)
    ensures Truthy(a.title) ==> r.title == a.title.value
    ensures !Truthy(a.title) ==> r.title == NoTitle
    ensures Truthy(a.description) ==> r.description == a.description.value
    ensures !Truthy(a.description) ==> r.description == NoDescription
    ensures r.url == a.url
    ensures Truthy(a.urlToImage) ==> r.urlToImage == a.urlToImage.value
    ensures !Truthy(a.urlToImage) ==> r.urlToImage == NoImage
    ensures r.publishedAt == LocalDate(a.publishedAt, localize)
    ensures Truthy(a.sourceName) ==> r.source == a.sourceName.value
    ensures !Truthy(a.sourceName) ==> r.source == UnknownSource
    ensures r.title != "" && r.description != "" && r.urlToImage != "" && r.source != ""
  {
    ProcessedArticle(
      Or(a.title, NoTitle),
      Or(a.description, NoDescription),
      a.url,
      Or(a.urlToImage, NoImage),
      LocalDate(a.publishedAt, localize),
      Or(a.sourceName, UnknownSource))
  }

  /** The callback on one element: reading a field of `null` throws. */
  function ProcessElement(localize: int -> string): Option<RawArticle> -> Option<ProcessedArticle>
  {
    (e: Option<RawArticle>) => if e.None? then None else Some(Process(e.value, localize))
  }

  /** The response passes both guards: `res.ok`, a parsed body, and an
      `articles` array. */
  predicate WellFormed(reply: Reply)
  {
    reply.Reply? && reply.ok && reply.json.Some? && reply.json.value.articles.Some?
  }

  /** `getNews`: the processed articles, in the order NewsAPI sent them, or
      `[]` when the request fails, the status is not OK, the body is not
      JSON, `articles` is missing or not an array, or an element is null. */
  function GetNews(reply: Reply, localize: int -> string): (r: seq<ProcessedArticle>)
    ensures !WellFormed(reply) ==> r == []
    ensures WellFormed(reply) && (exists i :: 0 <= i < |reply.json.value.articles.value| && reply.json.value.articles.value[i].None?) ==> r == []
    ensures WellFormed(reply) && (forall i :: 0 <= i < |reply.json.value.articles.value| ==> reply.json.value.articles.value[i].Some?) ==>
      |r| == |reply.json.value.articles.value| &&
      forall i :: 0 <= i < |r| ==> r[i] == Process(reply.json.value.articles.value[i].value, localize)
  {
    if !WellFormed(reply) then []
    else
      match MapAll(reply.json.value.articles.value, ProcessElement(localize))
      case None => []
      case Some(processed) => processed
  }

  /** A placeholder is shown exactly when the upstream field is falsy: a
      title, description, image or source that differs from its placeholder
      text is the upstream value itself. */
  lemma PlaceholderMeansMissing(a: RawArticle, localize: int -> string)
    ensures Process(a, localize).title != NoTitle ==> a.title == Some(Process(a, localize).title)
    ensures Process(a, localize).description != NoDescription ==> a.description == Some(Process(a, localize).description)
    ensures Process(a, localize).urlToImage != NoImage ==> a.urlToImage == Some(Process(a, localize).urlToImage)
    ensures Process(a, localize).source != UnknownSource ==> a.sourceName == Some(Process(a, localize).source)
  {
  }

  /** An article with every field present and truthy and a valid date is
      shown as it came, its date rendered by the host. */
  lemma CompleteArticleIsShownAsIs(a: RawArticle, localize: int -> string)
    requires Truthy(a.title) && Truthy(a.description) && Truthy(a.urlToImage) && Truthy(a.sourceName)
    requires a.publishedAt.Some? && a.publishedAt.value.text != "" && a.publishedAt.value.instant.Some?
    ensures Process(a, localize) == ProcessedArticle(
      a.title.value, a.description.value, a.url, a.urlToImage.value,
      localize(a.publishedAt.value.instant.value), a.sourceName.value)
  {
  }

  /** Every displayed article has a non-empty title, description, image and
      source, and a non-empty date whenever the host renders dates as
      non-empty text. */
  lemma {:induction false} DisplayFieldsAreFilled(reply: Reply, localize: int -> string, i: nat)
    requires forall t :: localize(t) != ""
    requires i < |GetNews(reply, localize)|
    ensures GetNews(reply, localize)[i].title != ""
    ensures GetNews(reply, localize)[i].description != ""
    ensures GetNews(reply, localize)[i].urlToImage != ""
    ensures GetNews(reply, localize)[i].publishedAt != ""
    ensures GetNews(reply, localize)[i].source != ""
  {
    var items := reply.json.value.articles.value;
    assert WellFormed(reply);
    if exists k :: 0 <= k < |items| && items[k].None? {
      assert false;
    }
    var a := items[i].value;
    var d := a.publishedAt;
    assert GetNews(reply, localize)[i] == Process(a, localize);
    if d.Some? && d.value.text != "" && d.value.instant.Some? {
      var t := d.value.instant.value;
      assert localize(t) != "";
      assert LocalDate(d, localize) == localize(t);
    }
  }

  /** `getNews` keeps the articles' links in the order NewsAPI sent them. */
  lemma {:induction false} GetNewsKeepsLinks(items: seq<RawArticle>, localize: int -> string)
    ensures var reply := Reply(true, Some(Payload(Some(seq(|items|, i requires 0 <= i < |items| => Some(items[i]))))));
      var r := GetNews(reply, localize);
      |r| == |items| && forall i :: 0 <= i < |items| ==> r[i].url == items[i].url
  {
    var elements := seq(|items|, i requires 0 <= i < |items| => Some(items[i]));
    var reply := Reply(true, Some(Payload(Some(elements))));
    assert forall i :: 0 <= i < |elements| ==> elements[i].Some?;
    var r := GetNews(reply, localize);
    forall i | 0 <= i < |items|
      ensures r[i].url == items[i].url
    {
      assert r[i] == Process(elements[i].value, localize);
    }
  }
}

/**
 * The extraction half of the single-movie scrape route: `scrapeMovieData`
 * mapping a fetched page to a movie record, or to "no record" when anything
 * goes wrong.
 *
 * The HTML page is represented by what the route's selectors read from it, so
 * the model starts where the selector engine has already produced strings.
 */
module Scrape {
  import opened Wrappers
  import opened Strings

  /** The two source attributes of an `<iframe>` element. */
  datatype Iframe = Iframe(dataSrc: Option<string>, src: Option<string>)

  /** An `<h2>` element whose text contains "Quality Links": its text, and the
      `href` attributes of the anchors inside the element that follows it, in
      document order. */
  datatype QualityHeading = QualityHeading(text: string, hrefs: seq<Option<string>>)

  /** What the route's selectors read from a fetched page. An absent attribute
      is `None`; the text of an absent element is the empty string. */
  datatype Page = Page(
    canonicalHref: Option<string>,          // link[rel="canonical"], attribute href
    nameText: string,                       // h1[itemprop="name"]
    descriptionText: string,                // div[itemprop="description"] > div.singcont
    imageSrc: Option<string>,               // img[itemprop="image"], attribute src
    authorContent: Option<string>,          // meta[name="author"], attribute content
    datePublishedContent: Option<string>,   // meta[itemprop="datePublished"], attribute content
    dateModifiedContent: Option<string>,    // meta[itemprop="dateModified"], attribute content
    interactionCountText: string,           // span[itemprop="interactionCount"]
    iframes: seq<Iframe>,                   // every iframe, in document order
    qualityHeadings: seq<QualityHeading>,   // h2:contains("Quality Links"), in document order
    genreTexts: seq<string>,                // .rightinfo > p:first-child a[itemprop="genre"]
    tagTexts: seq<string>)                  // .rightinfo .tags a[rel="tag"]

  /** The record `scrapeMovieData` returns. `views == None` is `NaN`. */
  datatype MovieData = MovieData(
    slug: Option<string>,
    title: string,
    description: string,
    imageUrl: Option<string>,
    author: Option<string>,
    publishedDate: Option<string>,
    modifiedDate: string,
    views: Option<nat>,
    videoUrls: seq<Option<string>>,
    downloadUrls: map<string, Links>,
    genre: seq<string>,
    tag: seq<string>,
    director: string,
    duration: string)

  /** The placeholder for fields the page does not carry. */
  const NotAvailable := "N/A"

  /** How a template literal renders a missing value. */
  const Undefined := "undefined"

  /** JavaScript truthiness of a string that may be `undefined`. */
  predicate Truthy(v: Option<string>)
  {
    v.Some? && v.value != ""
  }

  /** JavaScript's `a || b` on two strings that may be `undefined`. */
  function Or(a: Option<string>, b: Option<string>): Option<string>
  {
    if Truthy(a) then a else b
  }

  // ---------------------------------------------------------------------------
  // slug

  /** `href.split("/").slice(-2, -1)[0]`: the second-to-last piece, or
      `undefined` when there are fewer than two. */
  function SlugOf(href: string): Option<string>
  {
    var parts := Split(href, '/');
    if |parts| >= 2 then Some(parts[|parts| - 2]) else None
  }

  /** The slug is the segment between the last two slashes. Every string that
      contains a slash has this shape for exactly one choice of `slug` and `last`. */
  lemma SlugOfShape(prefix: string, slug: string, last: string)
    requires prefix == [] || prefix[|prefix| - 1] == '/'
    requires '/' !in slug && '/' !in last
    ensures SlugOf(prefix + slug + "/" + last) == Some(slug)
  {
    var tail := slug + "/" + last;
    SplitTwo(slug, last, '/');
    if prefix == [] {
      assert prefix + slug + "/" + last == tail;
    } else {
      var p := prefix[..|prefix| - 1];
      assert prefix + slug + "/" + last == p + ['/'] + tail;
      SplitAppend(p, tail, '/');
      var parts := Split(p, '/') + [slug, last];
      assert parts[|parts| - 2] == slug;
    }
  }

  /** The slug is `undefined` exactly when the href has no slash. */
  lemma SlugOfNone(href: string)
    ensures SlugOf(href).None? <==> '/' !in href
  {
    if '/' in href {
      SplitSeparator(href, '/');
    } else {
      SplitNoSeparator(href, '/');
    }
  }

  /** A derived slug never contains a slash. */
  lemma SlugOfNoSlash(href: string)
    ensures SlugOf(href).Some? ==> '/' !in SlugOf(href).value
  {
    SplitPiecesFree(href, '/');
  }

  /** A canonical href with a trailing slash yields its last path segment. */
  lemma SlugOfTrailingSlash()
    ensures SlugOf("https://h/cat/slug/") == Some("slug")
  {
    assert "https://h/cat/slug/" == "https://h/cat/" + "slug" + "/" + "";
    SlugOfShape("https://h/cat/", "slug", "");
  }

  // ---------------------------------------------------------------------------
  // views and modified date

  /** `parseInt(text.replace(/[^0-9]/g, ""))`. */
  function Views(text: string): Option<nat>
  {
    ParseDigits(DigitsOnly(text))
  }

  /** The view count is `NaN` exactly when the text holds no digit. */
  lemma ViewsNaN(text: string)
    ensures Views(text).None? <==> forall i :: 0 <= i < |text| ==> !IsDigit(text[i])
  {
    DigitsOnlyEmpty(text);
  }

  /** Non-digit characters anywhere in the text do not change the view count. */
  lemma ViewsIgnoreNonDigit(a: string, c: char, b: string)
    requires !IsDigit(c)
    ensures Views(a + [c] + b) == Views(a + b)
  {
    DigitsOnlyAppend(a + [c], b);
    DigitsOnlyAppend(a, [c]);
    DigitsOnlyAppend(a, b);
    assert [c][1..] == [];
    assert DigitsOnly([c]) == [];
    assert DigitsOnly(a + [c] + b) == DigitsOnly(a + b);
  }

  /** The view count of a number's decimal rendering, however padded with
      non-digits, is that number. */
  lemma ViewsOfNumber(pre: string, n: nat, post: string)
    requires forall i :: 0 <= i < |pre| ==> !IsDigit(pre[i])
    requires forall i :: 0 <= i < |post| ==> !IsDigit(post[i])
    ensures Views(pre + ShowNat(n) + post) == Some(n)
  {
    var d := ShowNat(n);
    DigitsOnlyAppend(pre + d, post);
    DigitsOnlyAppend(pre, d);
    DigitsOnlyEmpty(pre);
    DigitsOnlyEmpty(post);
    DigitsOnlyOfDigits(d);
    assert DigitsOnly(pre + d + post) == d;
    DecimalValueShowNat(n);
  }

  /** Thousands separators and the trailing word are dropped. */
  lemma ViewsWithSeparator()
    ensures Views("1,234 views") == Some(1234)
  {
    var rest := " views";
    assert ShowNat(1) == "1";
    assert ShowNat(12) == "12";
    assert ShowNat(123) == "123";
    assert ShowNat(1234) == "1234";
    assert "1,234 views" == "1" + [','] + ("234" + rest);
    ViewsIgnoreNonDigit("1", ',', "234" + rest);
    assert "1" + ("234" + rest) == "" + ShowNat(1234) + rest;
    assert forall i :: 0 <= i < |rest| ==> !IsDigit(rest[i]);
    ViewsOfNumber("", 1234, rest);
  }

  /** `content || new Date().toISOString()`, with the clock reading passed in. */
  function ModifiedDate(content: Option<string>, now: string): string
  {
    if Truthy(content) then content.value else now
  }

  // ---------------------------------------------------------------------------
  // video URLs

  /** The video URL list, specified the way the source builds it: one push per iframe. */
  function VideoUrls(frames: seq<Iframe>): seq<Option<string>>
  {
    if frames == [] then []
    else
      var last := frames[|frames| - 1];
      VideoUrls(frames[..|frames| - 1]) + [Or(last.dataSrc, last.src)]
  }

  /** One entry per iframe, in document order: `data-src` when it is truthy,
      otherwise `src`. */
  lemma {:induction false} VideoUrlsSpec(frames: seq<Iframe>)
    ensures |VideoUrls(frames)| == |frames|
    ensures forall i :: 0 <= i < |frames| ==>
              VideoUrls(frames)[i] == if Truthy(frames[i].dataSrc) then frames[i].dataSrc else frames[i].src
    decreases |frames|
  {
    if frames != [] {
      var n := |frames|;
      var pre := frames[..n - 1];
      VideoUrlsSpec(pre);
      forall i | 0 <= i < n - 1
        ensures VideoUrls(frames)[i] == if Truthy(frames[i].dataSrc) then frames[i].dataSrc else frames[i].src
      {
        assert pre[i] == frames[i];
      }
    }
  }

  method CollectVideoUrls(frames: seq<Iframe>) returns (urls: seq<Option<string>>)
    ensures urls == VideoUrls(frames)
  {
    urls := [];
    for i := 0 to |frames|
      invariant urls == VideoUrls(frames[..i])
    {
      assert frames[..i + 1][..i] == frames[..i];
      urls := urls + [Or(frames[i].dataSrc, frames[i].src)];
    }
    assert frames[..|frames|] == frames;
  }

  // ---------------------------------------------------------------------------
  // download URLs

  /** `words[i]` as a template literal renders it: "undefined" past the end. */
  function Token(words: seq<string>, i: nat): string
  {
    if i < |words| then words[i] else Undefined
  }

  /** The dictionary key of a heading: `${provider}_${quality}`. */
  function HeadingKey(text: string): string
  {
    var words := Split(Trim(text), ' ');
    Token(words, 3) + "_" + Token(words, 1)
  }

  /** For a heading of at least four words, the key is word 3, an underscore, and word 1. */
  lemma HeadingKeyWords(text: string, words: seq<string>)
    requires |words| >= 4
    requires forall i :: 0 <= i < |words| ==> ' ' !in words[i]
    requires Trim(text) == Join(words, ' ')
    ensures HeadingKey(text) == words[3] + "_" + words[1]
  {
    SplitJoin(words, ' ');
    assert Split(Trim(text), ' ') == words;
  }

  /** With only two or three words the provider renders as "undefined". */
  lemma HeadingKeyNoProvider(text: string, words: seq<string>)
    requires 2 <= |words| <= 3
    requires forall i :: 0 <= i < |words| ==> ' ' !in words[i]
    requires Trim(text) == Join(words, ' ')
    ensures HeadingKey(text) == "undefined_" + words[1]
  {
    SplitJoin(words, ' ');
    assert Split(Trim(text), ' ') == words;
    assert Token(words, 3) == Undefined;
  }

  /** The links a heading contributes. */
  type Links = seq<Option<string>>

  /** The object built by `obj[key] = value` for each entry in turn. */
  function Assign(entries: seq<(string, Links)>): map<string, Links>
  {
    if entries == [] then map[]
    else
      var last := entries[|entries| - 1];
      Assign(entries[..|entries| - 1])[last.0 := last.1]
  }

  /** The object's keys are exactly the entries' keys. */
  lemma {:induction false} AssignKeys(entries: seq<(string, Links)>)
    ensures Assign(entries).Keys == set i | 0 <= i < |entries| :: entries[i].0
    decreases |entries|
  {
    if entries != [] {
      var n := |entries|;
      var pre := entries[..n - 1];
      AssignKeys(pre);
      var before := set i | 0 <= i < n - 1 :: pre[i].0;
      var all := set i | 0 <= i < n :: entries[i].0;
      forall k | k in all ensures k in before + {entries[n - 1].0} {
        var i :| 0 <= i < n && entries[i].0 == k;
        if i < n - 1 {
          assert pre[i] == entries[i];
        }
      }
      forall k | k in before ensures k in all {
        var i :| 0 <= i < n - 1 && pre[i].0 == k;
        assert pre[i] == entries[i];
      }
      assert all == before + {entries[n - 1].0};
    }
  }

  /** A key holds the value of the last entry with that key. */
  lemma {:induction false} AssignLastWins(entries: seq<(string, Links)>, i: nat)
    requires i < |entries|
    requires forall j :: i < j < |entries| ==> entries[j].0 != entries[i].0
    ensures entries[i].0 in Assign(entries)
    ensures Assign(entries)[entries[i].0] == entries[i].1
    decreases |entries|
  {
    var n := |entries|;
    if i < n - 1 {
      var pre := entries[..n - 1];
      assert pre[i] == entries[i];
      forall j | i < j < n - 1 ensures pre[j].0 != pre[i].0 {
        assert pre[j] == entries[j];
      }
      AssignLastWins(pre, i);
    }
  }

  /** The dictionary entries of the headings, in document order. */
  function Entries(headings: seq<QualityHeading>): (entries: seq<(string, Links)>)
    ensures |entries| == |headings|
  {
    seq(|headings|, i requires 0 <= i < |headings| => (HeadingKey(headings[i].text), headings[i].hrefs))
  }

  /** The `download_urls` object. */
  function DownloadUrls(headings: seq<QualityHeading>): map<string, Links>
  {
    Assign(Entries(headings))
  }

  /** The keys are exactly the keys of the headings. */
  lemma DownloadUrlsKeys(headings: seq<QualityHeading>)
    ensures forall i :: 0 <= i < |headings| ==> HeadingKey(headings[i].text) in DownloadUrls(headings)
    ensures forall k :: k in DownloadUrls(headings) ==>
              exists i :: 0 <= i < |headings| && HeadingKey(headings[i].text) == k
  {
    var es := Entries(headings);
    AssignKeys(es);
    assert forall i :: 0 <= i < |headings| ==> es[i].0 == HeadingKey(headings[i].text);
  }

  /** A key holds the links of the last heading that has it: a later heading
      with the same key replaces an earlier one's list instead of merging. */
  lemma DownloadUrlsLastWins(headings: seq<QualityHeading>, i: nat)
    requires i < |headings|
    requires forall j :: i < j < |headings| ==> HeadingKey(headings[j].text) != HeadingKey(headings[i].text)
    ensures HeadingKey(headings[i].text) in DownloadUrls(headings)
    ensures DownloadUrls(headings)[HeadingKey(headings[i].text)] == headings[i].hrefs
  {
    AssignLastWins(Entries(headings), i);
  }

  /** Two headings with the same key, such as two "HD_720p" headings: the
      dictionary holds only the second one's links. */
  lemma DownloadUrlsSameKey(first: QualityHeading, second: QualityHeading)
    requires HeadingKey(first.text) == HeadingKey(second.text)
    ensures DownloadUrls([first, second]) == map[HeadingKey(second.text) := second.hrefs]
  {
    var key := HeadingKey(first.text);
    var es := Entries([first, second]);
    assert es == [(key, first.hrefs), (key, second.hrefs)];
    assert es[..1][..0] == [];
    assert Assign(es[..1]) == map[][key := first.hrefs];
  }

  method CollectDownloadUrls(headings: seq<QualityHeading>) returns (urls: map<string, Links>)
    ensures urls == DownloadUrls(headings)
  {
    urls := map[];
    for i := 0 to |headings|
      invariant urls == DownloadUrls(headings[..i])
    {
      var words := Split(Trim(headings[i].text), ' ');
      var quality := Token(words, 1);
      var provider := Token(words, 3);
      var links := [];
      for j := 0 to |headings[i].hrefs|
        invariant links == headings[i].hrefs[..j]
      {
        links := links + [headings[i].hrefs[j]];
      }
      assert links == headings[i].hrefs;
      assert provider + "_" + quality == HeadingKey(headings[i].text);
      var es := Entries(headings[..i + 1]);
      assert es[..i] == Entries(headings[..i]);
      assert es[i] == (provider + "_" + quality, links);
      urls := urls[provider + "_" + quality := links];
    }
    assert headings[..|headings|] == headings;
  }

  // ---------------------------------------------------------------------------
  // genres and tags

  /** A list of element texts, each trimmed, specified one push at a time. */
  function TrimAll(texts: seq<string>): seq<string>
  {
    if texts == [] then []
    else TrimAll(texts[..|texts| - 1]) + [Trim(texts[|texts| - 1])]
  }

  /** One trimmed entry per element, in document order. */
  lemma {:induction false} TrimAllSpec(texts: seq<string>)
    ensures |TrimAll(texts)| == |texts|
    ensures forall i :: 0 <= i < |texts| ==> TrimAll(texts)[i] == Trim(texts[i])
    decreases |texts|
  {
    if texts != [] {
      var n := |texts|;
      var pre := texts[..n - 1];
      TrimAllSpec(pre);
      assert TrimAll(texts) == TrimAll(pre) + [Trim(texts[n - 1])];
      forall i | 0 <= i < n - 1 ensures TrimAll(texts)[i] == Trim(texts[i]) {
        assert pre[i] == texts[i];
      }
    }
  }

  method CollectTexts(texts: seq<string>) returns (trimmed: seq<string>)
    ensures trimmed == TrimAll(texts)
  {
    trimmed := [];
    for i := 0 to |texts|
      invariant trimmed == TrimAll(texts[..i])
    {
      assert texts[..i + 1][..i] == texts[..i];
      trimmed := trimmed + [Trim(texts[i])];
    }
    assert texts[..|texts|] == texts;
  }

  // ---------------------------------------------------------------------------
  // the whole extraction

  /** `scrapeMovieData(url)`, given what fetching `url` produced (`None` when the
      fetch threw) and the clock reading. Reading the `href` of a missing
      canonical link throws; the catch turns every throw into `null`. */
  function Extract(response: Option<Page>, now: string): (r: Option<MovieData>)
    ensures r.None? <==> response.None? || response.value.canonicalHref.None?
    ensures r.Some? ==> r.value.director == NotAvailable && r.value.duration == NotAvailable
  {
    match response
    case None => None
    case Some(p) =>
      match p.canonicalHref
      case None => None
      case Some(href) =>
        Some(MovieData(
          slug := SlugOf(href),
          title := Trim(p.nameText),
          description := Trim(p.descriptionText),
          imageUrl := p.imageSrc,
          author := p.authorContent,
          publishedDate := p.datePublishedContent,
          modifiedDate := ModifiedDate(p.dateModifiedContent, now),
          views := Views(p.interactionCountText),
          videoUrls := VideoUrls(p.iframes),
          downloadUrls := DownloadUrls(p.qualityHeadings),
          genre := TrimAll(p.genreTexts),
          tag := TrimAll(p.tagTexts),
          director := NotAvailable,
          duration := NotAvailable))
  }

  /** What a successful extraction holds, field by field. */
  lemma ExtractFields(p: Page, now: string)
    requires p.canonicalHref.Some?
    ensures Extract(Some(p), now).Some?
    ensures var d := Extract(Some(p), now).value;
      && d.slug == SlugOf(p.canonicalHref.value)
      && (Truthy(p.dateModifiedContent) ==> d.modifiedDate == p.dateModifiedContent.value)
      && (!Truthy(p.dateModifiedContent) ==> d.modifiedDate == now)
      && (d.views.None? <==> forall i :: 0 <= i < |p.interactionCountText| ==> !IsDigit(p.interactionCountText[i]))
      && |d.videoUrls| == |p.iframes|
      && (forall i :: 0 <= i < |p.iframes| ==>
            d.videoUrls[i] == if Truthy(p.iframes[i].dataSrc) then p.iframes[i].dataSrc else p.iframes[i].src)
      && (forall i :: 0 <= i < |p.qualityHeadings| ==> HeadingKey(p.qualityHeadings[i].text) in d.downloadUrls)
      && (forall k :: k in d.downloadUrls ==>
            exists i :: 0 <= i < |p.qualityHeadings| && HeadingKey(p.qualityHeadings[i].text) == k)
      && |d.genre| == |p.genreTexts| && (forall i :: 0 <= i < |p.genreTexts| ==> d.genre[i] == Trim(p.genreTexts[i]))
      && |d.tag| == |p.tagTexts| && (forall i :: 0 <= i < |p.tagTexts| ==> d.tag[i] == Trim(p.tagTexts[i]))
  {
    ViewsNaN(p.interactionCountText);
    VideoUrlsSpec(p.iframes);
    TrimAllSpec(p.genreTexts);
    TrimAllSpec(p.tagTexts);
    DownloadUrlsKeys(p.qualityHeadings);
  }

  method ScrapeMovieData(response: Option<Page>, now: string) returns (r: Option<MovieData>)
    ensures r == Extract(response, now)
  {
    if response.None? {
      return None;
    }
    var p := response.value;
    if p.canonicalHref.None? {
      return None;
    }
    var videoUrls := CollectVideoUrls(p.iframes);
    var downloadUrls := CollectDownloadUrls(p.qualityHeadings);
    var genres := CollectTexts(p.genreTexts);
    var tags := CollectTexts(p.tagTexts);
    r := Some(MovieData(
      slug := SlugOf(p.canonicalHref.value),
      title := Trim(p.nameText),
      description := Trim(p.descriptionText),
      imageUrl := p.imageSrc,
      author := p.authorContent,
      publishedDate := p.datePublishedContent,
      modifiedDate := ModifiedDate(p.dateModifiedContent, now),
      views := Views(p.interactionCountText),
      videoUrls := videoUrls,
      downloadUrls := downloadUrls,
      genre := genres,
      tag := tags,
      director := NotAvailable,
      duration := NotAvailable));
  }
}

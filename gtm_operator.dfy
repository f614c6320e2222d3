/** The tag-manager operator service: the website URL that a tag-manager
    preview link points at, the wait for the browser target showing that
    website, and the choice of the page to test. */
module GtmOperator {
  import opened Outcomes
  import opened Text

  /** Why `goToPageViaGtm` throws: no `&`-separated segment of the link starts
      with `url=` (so `find` gives undefined), or no browser target with the
      website's URL appears before the wait gives up. */
  datatype GtmFailure = NoUrlSegment | TargetTimeout

  const UrlParameter: string := "url="

  /** `element.startsWith('url=')`: the segment names the `url` parameter,
      with `=` as its fourth character. */
  function IsUrlSegment(segment: string): (r: bool)
    ensures r <==> |segment| >= 4 && segment[..3] == "url" && segment[3] == '='
  {
    StartsWith(segment, UrlParameter)
  }

  /** `gtmUrl.split('&').find(element => element.startsWith('url=')).split('=')[1]`. */
  function WebsiteUrl(gtmUrl: string): (r: Result<string, GtmFailure>)
    ensures r.Err? <==>
      forall i :: 0 <= i < |Split(gtmUrl, '&')| ==> !IsUrlSegment(Split(gtmUrl, '&')[i])
    ensures r.Err? ==> r.error == NoUrlSegment
    ensures r.Ok? ==> '&' !in r.value && '=' !in r.value
  {
    var segments := Split(gtmUrl, '&');
    var k := FindFirst(segments, IsUrlSegment);
    if k == |segments| then Err(NoUrlSegment)
    else
      var segment := segments[k];
      assert IsUrlSegment(segment);
      assert IsUrlSegment(Split(gtmUrl, '&')[k]);
      assert segment[3] == UrlParameter[3] == '=';
      assert '&' !in segment;
      SplitKeepsAbsent(segment, '=', '&');
      Ok(Split(segment, '=')[1])
  }

  /** `goToPageViaGtm`, with the browser's targets given as the sequence of
      URLs they show, in the order they appear: the index of the first target
      whose URL equals the website URL exactly. The website URL is extracted
      before any browser step, so a link without a `url=` segment fails
      before the wait begins. */
  function GoToPageViaGtm(gtmUrl: string, targetUrls: seq<string>): (r: Result<nat, GtmFailure>)
    ensures r == Err(NoUrlSegment) <==> WebsiteUrl(gtmUrl).Err?
    ensures r.Ok? ==>
      && r.value < |targetUrls|
      && targetUrls[r.value] == WebsiteUrl(gtmUrl).value
      && forall j :: 0 <= j < r.value ==> targetUrls[j] != WebsiteUrl(gtmUrl).value
    ensures r == Err(TargetTimeout) <==>
      WebsiteUrl(gtmUrl).Ok? && forall j :: 0 <= j < |targetUrls| ==> targetUrls[j] != WebsiteUrl(gtmUrl).value
  {
    var websiteUrl :- WebsiteUrl(gtmUrl);
    var k := FindFirst(targetUrls, (url: string) => url == websiteUrl);
    if k == |targetUrls| then Err(TargetTimeout) else Ok(k)
  }

  /** `locateTestingPage`: the last of the browser's pages, the one opened
      most recently; `None` (undefined) when there is no page. */
  function LocateTestingPage<P>(pages: seq<P>): (r: Option<P>)
    ensures r.Some? <==> |pages| > 0
    ensures r.Some? ==> r.value == pages[|pages| - 1]
  {
    if |pages| == 0 then None else Some(pages[|pages| - 1])
  }

  // ---------------------------------------------------------------------
  // Properties

  /** The `url=` segment's value: after `url=`, up to the next `=`. */
  lemma UrlSegmentValue(value: string, tail: string)
    requires '=' !in value
    requires tail == "" || tail[0] == '='
    ensures Split(UrlParameter + value + tail, '=')[1] == value
  {
    assert UrlParameter + value + tail == UrlParameter + (value + tail);
    UrlAfterParameter(value + tail);
    SplitHeadPrefix(value, tail, '=');
    if tail != "" {
      SplitStep(tail, '=');
    }
    assert value + "" == value;
  }

  /** The website URL of a link built from its segments: the value of the
      first segment that starts with `url=`, cut at its next `=`. */
  lemma WebsiteUrlOfSegments(segments: seq<string>, k: nat, value: string, tail: string)
    requires k < |segments|
    requires forall i :: 0 <= i < |segments| ==> '&' !in segments[i]
    requires forall j :: 0 <= j < k ==> !IsUrlSegment(segments[j])
    requires segments[k] == UrlParameter + value + tail
    requires '=' !in value && (tail == "" || tail[0] == '=')
    ensures WebsiteUrl(Join(segments, '&')) == Ok(value)
  {
    SplitJoin(segments, '&');
    assert IsUrlSegment(segments[k]) by {
      assert segments[k][..|UrlParameter|] == UrlParameter;
    }
    FindFirstUnique(segments, IsUrlSegment, k);
    UrlSegmentValue(value, tail);
  }

  /** Conversely, a website URL comes from the first `url=` segment. */
  lemma WebsiteUrlSegment(gtmUrl: string) returns (k: nat, tail: string)
    requires WebsiteUrl(gtmUrl).Ok?
    ensures var segments := Split(gtmUrl, '&');
      && k < |segments|
      && (forall j :: 0 <= j < k ==> !IsUrlSegment(segments[j]))
      && segments[k] == UrlParameter + WebsiteUrl(gtmUrl).value + tail
      && (tail == "" || tail[0] == '=')
  {
    var segments := Split(gtmUrl, '&');
    k := FindFirst(segments, IsUrlSegment);
    var segment := segments[k];
    var after := segment[|UrlParameter|..];
    assert segment == UrlParameter + after;
    UrlAfterParameter(after);
    tail := FirstPieceRest(after, '=');
  }

  /** The value after `url=` is the first `=`-piece of what follows it. */
  lemma UrlAfterParameter(after: string)
    ensures Split(UrlParameter + after, '=')[1] == Split(after, '=')[0]
  {
    assert UrlParameter + after == "url" + ['='] + after;
    SplitConcat("url", after, '=');
  }

  /** `find` returns the first match: `url=` segments after the first one are
      ignored. */
  lemma LaterUrlSegmentsIgnored(gtmUrl: string, more: string)
    requires WebsiteUrl(gtmUrl).Ok?
    ensures WebsiteUrl(gtmUrl + "&" + more) == WebsiteUrl(gtmUrl)
  {
    SplitConcat(gtmUrl, more, '&');
    assert gtmUrl + "&" + more == gtmUrl + ['&'] + more;
    FindFirstAppend(Split(gtmUrl, '&'), Split(more, '&'), IsUrlSegment);
    assert (Split(gtmUrl, '&') + Split(more, '&'))[FindFirst(Split(gtmUrl, '&'), IsUrlSegment)]
      == Split(gtmUrl, '&')[FindFirst(Split(gtmUrl, '&'), IsUrlSegment)];
  }

  /** A link without a `url=` segment takes its website URL from what is
      appended after a further `&`. */
  lemma UrlSegmentFromLaterPart(gtmUrl: string, more: string)
    requires WebsiteUrl(gtmUrl).Err?
    ensures WebsiteUrl(gtmUrl + "&" + more) == WebsiteUrl(more)
  {
    var a, b := Split(gtmUrl, '&'), Split(more, '&');
    SplitConcat(gtmUrl, more, '&');
    assert gtmUrl + "&" + more == gtmUrl + ['&'] + more;
    FindFirstAppend(a, b, IsUrlSegment);
    var k := FindFirst(b, IsUrlSegment);
    if k < |b| {
      assert (a + b)[|a| + k] == b[k];
    }
  }

  /** The first segment, before any `&`, is eligible too; `url=` with nothing
      after it gives the empty URL, and an embedded `=` cuts the value. */
  lemma EdgeSegments(value: string, more: string)
    requires '=' !in value && '&' !in value
    ensures WebsiteUrl(UrlParameter + value + "&" + more) == Ok(value)
    ensures WebsiteUrl(UrlParameter + value) == Ok(value)
    ensures WebsiteUrl(UrlParameter) == Ok("")
    ensures WebsiteUrl(UrlParameter + value + "=" + more) == Ok(value)
  {
    assert '&' !in UrlParameter + value;
    WebsiteUrlOfSegments([UrlParameter + value], 0, value, "");
    assert UrlParameter + value + "" == UrlParameter + value;
    LaterUrlSegmentsIgnored(UrlParameter + value, more);
    WebsiteUrlOfSegments([UrlParameter], 0, "", "");
    assert UrlParameter + "" + "" == UrlParameter;
    EmbeddedEquals(value, more);
  }

  /** An embedded `=` cuts the value, whatever follows. */
  lemma EmbeddedEquals(value: string, more: string)
    requires '=' !in value && '&' !in value
    ensures WebsiteUrl(UrlParameter + value + "=" + more) == Ok(value)
  {
    var link := UrlParameter + value + "=" + more;
    var tail := "=" + Split(more, '&')[0];
    EmbeddedHead(value, more);
    WebsiteUrlOfHead(link, value, tail);
  }

  /** The first `&`-segment of `url=value=more`. */
  lemma EmbeddedHead(value: string, more: string)
    requires '&' !in value
    ensures Split(UrlParameter + value + "=" + more, '&')[0] == UrlParameter + value + ("=" + Split(more, '&')[0])
  {
    var prefix := UrlParameter + value + "=";
    assert '&' !in prefix;
    SplitHeadPrefix(prefix, more, '&');
    assert UrlParameter + value + "=" + more == prefix + more;
  }

  /** A link whose first `&`-segment is a `url=` segment takes its website
      URL from it. */
  lemma WebsiteUrlOfHead(gtmUrl: string, value: string, tail: string)
    requires Split(gtmUrl, '&')[0] == UrlParameter + value + tail
    requires '=' !in value && (tail == "" || tail[0] == '=')
    ensures WebsiteUrl(gtmUrl) == Ok(value)
  {
    var segments := Split(gtmUrl, '&');
    assert IsUrlSegment(segments[0]) by {
      assert segments[0][..|UrlParameter|] == UrlParameter;
    }
    FindFirstUnique(segments, IsUrlSegment, 0);
    UrlSegmentValue(value, tail);
  }

  /** A preview link as the tag manager builds it: the website follows
      `url=` after the container id. */
  lemma PreviewLinkExample(gtmUrl: string)
    requires gtmUrl == "https://tagmanager.google.com/?id=GTM-1&url=https://example.com"
    ensures WebsiteUrl(gtmUrl) == Ok("https://example.com")
  {
    var first, value := "https://tagmanager.google.com/?id=GTM-1", "https://example.com";
    PreviewLinkText(gtmUrl, first, value);
    ContainerSegment(first);
    var segments := [first, UrlParameter + value];
    assert segments[1..] == [UrlParameter + value];
    assert Join(segments, '&') == gtmUrl;
    assert UrlParameter + value + "" == segments[1];
    WebsiteUrlOfSegments(segments, 1, value, "");
  }

  /** Sequence bookkeeping for PreviewLinkExample: the link's two segments. */
  lemma PreviewLinkText(gtmUrl: string, first: string, value: string)
    requires gtmUrl == "https://tagmanager.google.com/?id=GTM-1&url=https://example.com"
    requires first == "https://tagmanager.google.com/?id=GTM-1" && value == "https://example.com"
    ensures gtmUrl == first + "&" + (UrlParameter + value)
    ensures '&' !in value && '=' !in value
  {
  }

  /** Sequence bookkeeping for PreviewLinkExample: the container segment. */
  lemma ContainerSegment(first: string)
    requires first == "https://tagmanager.google.com/?id=GTM-1"
    ensures '&' !in first && !IsUrlSegment(first)
  {
    assert first[0] == 'h';
  }

  /** The wait ends at the first target showing exactly the website URL;
      targets appearing after it do not matter. */
  lemma WaitStopsAtFirstMatch(gtmUrl: string, targetUrls: seq<string>, later: seq<string>)
    requires GoToPageViaGtm(gtmUrl, targetUrls).Ok?
    ensures GoToPageViaGtm(gtmUrl, targetUrls + later) == GoToPageViaGtm(gtmUrl, targetUrls)
  {
    var w := WebsiteUrl(gtmUrl).value;
    FindFirstAppend(targetUrls, later, (url: string) => url == w);
    var k := GoToPageViaGtm(gtmUrl, targetUrls).value;
    assert (targetUrls + later)[k] == targetUrls[k];
  }

  /** The page chosen after another page is opened is that new page. */
  lemma NewestPageChosen<P>(pages: seq<P>, newPage: P)
    ensures LocateTestingPage(pages + [newPage]) == Some(newPage)
  {
  }
}

/**
 * The three text-source adapters: keyword search, video comments and
 * page scraping. Each collaborator's reply is a parameter (the HTTP
 * response, the API reply, the parsed page), and so is the random
 * generator behind the mock fallback. An adapter's result records the
 * request it hands to its collaborator (`None` when it never builds one),
 * the texts it returns and the notice it shows (`st.warning` or `st.error`).
 */
module Sources {

  import opened Wrappers
  import opened Builtins
  import MockCorpus
  import VideoId

  /** The page-size ceiling of both APIs, applied to the requested count. */
  const PAGE_SIZE_CEILING: nat := 100

  /** Paragraphs whose raw text is not longer than this are dropped. */
  const MIN_PARAGRAPH_LENGTH: nat := 40

  /** The user-agent header sent when fetching a page. */
  const USER_AGENT: string := "Mozilla/5.0"

  datatype Request =
    | SearchRecent(bearerToken: string, query: string, maxResults: int)
    | CommentThreads(apiKey: string, videoId: string, maxResults: int)
    | PageGet(url: string, userAgent: string)

  /** The message an adapter shows, if any. */
  datatype Notice =
    | Quiet
    | RateLimitWarning
    | ApiError(status: int)
    | InvalidVideoUrl
    | CommentsFallbackWarning
    | ScrapeError

  predicate IsWarning(n: Notice) { n.RateLimitWarning? || n.CommentsFallbackWarning? }

  predicate IsError(n: Notice) { n.ApiError? || n.InvalidVideoUrl? || n.ScrapeError? }

  datatype Fetched = Fetched(request: Option<Request>, texts: seq<string>, notice: Notice)

  // ---------------------------------------------------------------------
  // fetch_tweets
  // ---------------------------------------------------------------------

  /**
   * The search endpoint's response: its status code and, for a JSON body,
   * the `text` field of every entry of `data` (`None` when `data` is absent).
   */
  datatype SearchResponse = SearchResponse(status: int, data: Option<seq<string>>)

  /** `fetch_tweets(bearer_token, keyword, tweet_count)`. */
  function FetchTweets(bearerToken: string, keyword: string, tweetCount: nat,
                       response: SearchResponse, pick: nat -> nat): (r: Fetched)
    ensures r.request == Some(SearchRecent(bearerToken, keyword, Min(tweetCount, PAGE_SIZE_CEILING)))
    ensures response.status == 200 ==>
              r.notice == Quiet
              && r.texts == (if response.data.Some? then response.data.value else [])
    ensures response.status == 429 ==>
              r.notice == RateLimitWarning && MockCorpus.MockDraw(r.texts, tweetCount)
    ensures response.status != 200 && response.status != 429 ==>
              r.notice == ApiError(response.status) && r.texts == []
  {
    var request := SearchRecent(bearerToken, keyword, Min(tweetCount, PAGE_SIZE_CEILING));
    if response.status == 200 then
      Fetched(Some(request), response.data.GetOr([]), Quiet)
    else if response.status == 429 then
      Fetched(Some(request), MockCorpus.Sample(tweetCount, pick), RateLimitWarning)
    else
      Fetched(Some(request), [], ApiError(response.status))
  }

  /**
   * Under rate limiting every sequence of `tweetCount` corpus texts is a
   * possible result, and nothing else is.
   */
  lemma RateLimitOutcomes(bearerToken: string, keyword: string, response: SearchResponse, s: seq<string>)
    requires response.status == 429
    ensures MockCorpus.MockDraw(s, |s|) <==>
              exists pick: nat -> nat :: FetchTweets(bearerToken, keyword, |s|, response, pick).texts == s
  {
    if MockCorpus.MockDraw(s, |s|) {
      MockCorpus.SampleReachesEveryDraw(s);
      var pick: nat -> nat :| MockCorpus.Sample(|s|, pick) == s;
      assert FetchTweets(bearerToken, keyword, |s|, response, pick).texts == s;
    }
  }

  // ---------------------------------------------------------------------
  // fetch_youtube_comments
  // ---------------------------------------------------------------------

  /**
   * What executing the comment-thread request gives: an exception, or a
   * reply whose `items` key may be absent. An item is `None` when it lacks
   * one of the nested keys that lead to `textDisplay`.
   */
  datatype CommentsReply =
    | CommentsRaised
    | CommentsPage(items: Option<seq<Option<string>>>)

  /** The list comprehension over the items: `None` when an item has no text (the `KeyError`). */
  function CommentTexts(items: seq<Option<string>>): (r: Option<seq<string>>)
    ensures r.Some? <==> forall i :: 0 <= i < |items| ==> items[i].Some?
    ensures r.Some? ==> |r.value| == |items|
                        && forall i :: 0 <= i < |items| ==> r.value[i] == items[i].value
  {
    if items == [] then Some([])
    else match (items[0], CommentTexts(items[1..]))
      case (Some(t), Some(rest)) => Some([t] + rest)
      case _ => None
  }

  /** What `execute()` and the comprehension give together; `None` means the `except` branch. */
  function ReplyTexts(reply: CommentsReply): (r: Option<seq<string>>)
    ensures reply.CommentsRaised? ==> r.None?
    ensures reply.CommentsPage? && reply.items.None? ==> r == Some([])
    ensures reply.CommentsPage? && reply.items.Some? ==> r == CommentTexts(reply.items.value)
  {
    match reply
    case CommentsRaised => None
    case CommentsPage(items) => CommentTexts(items.GetOr([]))
  }

  /** `fetch_youtube_comments(api_key, video_url, max_comments)`. */
  function FetchYouTubeComments(apiKey: string, videoUrl: string, maxComments: nat,
                                reply: CommentsReply, pick: nat -> nat): (r: Fetched)
    ensures VideoId.ExtractVideoId(videoUrl).None? ==> r == Fetched(None, [], InvalidVideoUrl)
    ensures VideoId.ExtractVideoId(videoUrl).Some? ==>
              r.request == Some(CommentThreads(apiKey, VideoId.ExtractVideoId(videoUrl).value,
                                               Min(maxComments, PAGE_SIZE_CEILING)))
    ensures VideoId.ExtractVideoId(videoUrl).Some? && ReplyTexts(reply).Some? ==>
              r.texts == ReplyTexts(reply).value && r.notice == Quiet
    ensures VideoId.ExtractVideoId(videoUrl).Some? && ReplyTexts(reply).None? ==>
              MockCorpus.MockDraw(r.texts, maxComments) && r.notice == CommentsFallbackWarning
  {
    match VideoId.ExtractVideoId(videoUrl)
    case None => Fetched(None, [], InvalidVideoUrl)
    case Some(videoId) =>
      var request := CommentThreads(apiKey, videoId, Min(maxComments, PAGE_SIZE_CEILING));
      match ReplyTexts(reply)
      case Some(comments) => Fetched(Some(request), comments, Quiet)
      case None => Fetched(Some(request), MockCorpus.Sample(maxComments, pick), CommentsFallbackWarning)
  }

  /** A reply falls back to mock data exactly when it raised or one of its items has no text. */
  lemma CommentsFallbackIff(reply: CommentsReply)
    ensures ReplyTexts(reply).None? <==>
              reply.CommentsRaised?
              || (reply.items.Some? && exists i :: 0 <= i < |reply.items.value| && reply.items.value[i].None?)
  {
  }

  // ---------------------------------------------------------------------
  // scrape_website_reviews
  // ---------------------------------------------------------------------

  /**
   * What the scraper meets: building the request raised (an unusable URL),
   * opening or parsing the page raised, or the raw `get_text()` of every
   * `<p>` of the parsed page, in document order.
   */
  datatype PageReply =
    | PageRequestRaised
    | PageRaised
    | PageParagraphs(paragraphs: seq<string>)

  /** `[p.get_text().strip() for p in paragraphs if len(p.get_text()) > 40]`. */
  function KeptParagraphs(paragraphs: seq<string>): (r: seq<string>)
    ensures |r| <= |paragraphs|
    ensures r == [] <==> forall i :: 0 <= i < |paragraphs| ==> |paragraphs[i]| <= MIN_PARAGRAPH_LENGTH
  {
    if paragraphs == [] then []
    else
      var p := paragraphs[0];
      (if |p| > MIN_PARAGRAPH_LENGTH then [Strip(p)] else []) + KeptParagraphs(paragraphs[1..])
  }

  /**
   * The filter works paragraph by paragraph and keeps document order: the
   * texts kept from two runs of paragraphs are those of the first run
   * followed by those of the second.
   */
  lemma {:induction false} KeptParagraphsConcat(a: seq<string>, b: seq<string>)
    ensures KeptParagraphs(a + b) == KeptParagraphs(a) + KeptParagraphs(b)
  {
    if a != [] {
      assert (a + b)[0] == a[0] && (a + b)[1..] == a[1..] + b;
      KeptParagraphsConcat(a[1..], b);
    } else {
      assert a + b == b;
    }
  }

  /** One paragraph is kept, stripped, exactly when its raw text is longer than 40 characters. */
  lemma KeptParagraphsSingle(p: string)
    ensures KeptParagraphs([p]) == if |p| > MIN_PARAGRAPH_LENGTH then [Strip(p)] else []
  {
    assert [p][1..] == [];
  }

  /**
   * Every kept text is the stripped text of a paragraph longer than 40
   * characters, and every such paragraph contributes its stripped text.
   */
  lemma {:induction false} KeptParagraphsMembers(paragraphs: seq<string>)
    ensures forall t :: t in KeptParagraphs(paragraphs) ==>
              exists p :: p in paragraphs && |p| > MIN_PARAGRAPH_LENGTH && t == Strip(p)
    ensures forall p :: p in paragraphs && |p| > MIN_PARAGRAPH_LENGTH ==> Strip(p) in KeptParagraphs(paragraphs)
  {
    if paragraphs != [] {
      var p0, rest := paragraphs[0], paragraphs[1..];
      var head := if |p0| > MIN_PARAGRAPH_LENGTH then [Strip(p0)] else [];
      KeptParagraphsMembers(rest);
      assert KeptParagraphs(paragraphs) == head + KeptParagraphs(rest);
      assert forall p :: p in rest ==> p in paragraphs;
      forall t | t in KeptParagraphs(paragraphs)
        ensures exists p :: p in paragraphs && |p| > MIN_PARAGRAPH_LENGTH && t == Strip(p)
      {
        if t in head {
          assert p0 in paragraphs;
        }
      }
      forall p | p in paragraphs && |p| > MIN_PARAGRAPH_LENGTH
        ensures Strip(p) in KeptParagraphs(paragraphs)
      {
        if p != p0 {
          assert p in rest;
        }
      }
    }
  }

  /**
   * The length test is on the raw text, before stripping: a paragraph of
   * `pad` spaces and a short text `t` is kept as `t` alone, whatever the
   * length of `t`.
   */
  lemma PaddedParagraphKept(t: string, pad: nat)
    requires t == [] || (!IsSpace(t[0]) && !IsSpace(t[|t| - 1]))
    requires pad + |t| > MIN_PARAGRAPH_LENGTH
    ensures KeptParagraphs([Spaces(pad) + t]) == [t]
  {
    var p := Spaces(pad) + t;
    KeptParagraphsSingle(p);
    StripLeadingPad(Spaces(pad), t);
  }

  /** `pad` spaces. */
  function Spaces(pad: nat): (s: string)
    ensures |s| == pad && forall j :: 0 <= j < pad ==> s[j] == ' '
  {
    seq(pad, _ => ' ')
  }

  /** The example: 41 characters of raw text, of which one survives stripping. */
  lemma ShortTextKept()
    ensures KeptParagraphs([Spaces(40) + "!"]) == ["!"]
  {
    PaddedParagraphKept("!", 40);
  }

  /** `scrape_website_reviews(url, max_reviews)`. */
  function ScrapeWebsiteReviews(url: string, maxReviews: nat, reply: PageReply, pick: nat -> nat): (r: Fetched)
    ensures reply.PageRequestRaised? ==> r.request.None?
    ensures !reply.PageRequestRaised? ==> r.request == Some(PageGet(url, USER_AGENT))
    ensures !reply.PageParagraphs? ==> MockCorpus.MockDraw(r.texts, maxReviews) && r.notice == ScrapeError
    ensures reply.PageParagraphs? && KeptParagraphs(reply.paragraphs) != [] ==>
              var kept := KeptParagraphs(reply.paragraphs);
              |r.texts| == Min(|kept|, maxReviews) && r.texts == kept[..|r.texts|] && r.notice == Quiet
    ensures reply.PageParagraphs? && KeptParagraphs(reply.paragraphs) == [] ==>
              MockCorpus.MockDraw(r.texts, maxReviews) && r.notice == Quiet
  {
    var request := PageGet(url, USER_AGENT);
    match reply
    case PageRequestRaised => Fetched(None, MockCorpus.Sample(maxReviews, pick), ScrapeError)
    case PageRaised => Fetched(Some(request), MockCorpus.Sample(maxReviews, pick), ScrapeError)
    case PageParagraphs(paragraphs) =>
      var texts := KeptParagraphs(paragraphs);
      if texts != [] then
        Fetched(Some(request), texts[..Min(|texts|, maxReviews)], Quiet)
      else
        Fetched(Some(request), MockCorpus.Sample(maxReviews, pick), Quiet)
  }

  // ---------------------------------------------------------------------
  // Properties across the adapters
  // ---------------------------------------------------------------------

  /**
   * The requested count bounds the result whenever the collaborator
   * honours the page size it was asked for: the page holds at most
   * min(count, 100) texts, and the mock fallback holds exactly `count`.
   */
  lemma TweetsWithinCount(bearerToken: string, keyword: string, tweetCount: nat,
                          response: SearchResponse, pick: nat -> nat)
    requires response.data.Some? ==> |response.data.value| <= Min(tweetCount, PAGE_SIZE_CEILING)
    ensures |FetchTweets(bearerToken, keyword, tweetCount, response, pick).texts| <= tweetCount
  {
  }

  lemma CommentsWithinCount(apiKey: string, videoUrl: string, maxComments: nat,
                            reply: CommentsReply, pick: nat -> nat)
    requires reply.CommentsPage? && reply.items.Some? ==> |reply.items.value| <= Min(maxComments, PAGE_SIZE_CEILING)
    ensures |FetchYouTubeComments(apiKey, videoUrl, maxComments, reply, pick).texts| <= maxComments
  {
  }

  /** The scraper has no page size: it never returns more than asked for, and a short page is not padded. */
  lemma ReviewsWithinCount(url: string, maxReviews: nat, paragraphs: seq<string>, pick: nat -> nat)
    ensures var r := ScrapeWebsiteReviews(url, maxReviews, PageParagraphs(paragraphs), pick);
            |r.texts| <= maxReviews
            && (KeptParagraphs(paragraphs) != [] ==> |r.texts| <= |KeptParagraphs(paragraphs)|)
  {
  }

  /**
   * Only the search adapter gives up with no texts: on an error status. The
   * other two substitute mock data when something raises inside their `try`.
   */
  lemma FailurePolicies(bearerToken: string, keyword: string, apiKey: string, videoUrl: string,
                        url: string, count: nat, status: int, pick: nat -> nat)
    requires status != 200 && status != 429
    requires VideoId.ExtractVideoId(videoUrl).Some?
    ensures var tweets := FetchTweets(bearerToken, keyword, count, SearchResponse(status, None), pick);
            tweets.texts == [] && IsError(tweets.notice)
    ensures var comments := FetchYouTubeComments(apiKey, videoUrl, count, CommentsRaised, pick);
            MockCorpus.MockDraw(comments.texts, count) && IsWarning(comments.notice)
    ensures var reviews := ScrapeWebsiteReviews(url, count, PageRaised, pick);
            MockCorpus.MockDraw(reviews.texts, count) && IsError(reviews.notice)
    ensures var reviews := ScrapeWebsiteReviews(url, count, PageRequestRaised, pick);
            MockCorpus.MockDraw(reviews.texts, count) && IsError(reviews.notice)
  {
  }
}

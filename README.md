# Mood analyzer core in Dafny

This project models the core of a sentiment dashboard, written in Python
(`app.py`). The dashboard collects short texts from one of three places:

- recent posts for a keyword, from a search API;
- the comments on a video, from a video-hosting API;
- the paragraphs of a web page.

When a source fails, it may substitute a canned corpus of example texts. A
pretrained classifier labels every text. `analyze_mood` tallies the labels
into POSITIVE, NEGATIVE and NEUTRAL counts and builds a result table.
The dashboard then shows an insight message based on the counts.

The model has six modules:

- `Wrappers` (`wrappers.dfy`): an `Option` type with `GetOr`, the `dict.get` with a default.
- `Builtins` (`builtins.dfy`): the Python built-ins the core relies on:
  - `min`;
  - `str.upper` on ASCII letters;
  - `str.strip`, over Python's whitespace set.
- `MockCorpus` (`mock_corpus.dfy`): the mock table of 30 rows and the draw
  with replacement from it. The random generator is a parameter
  `pick: nat -> nat`.
- `VideoId` (`video_id.dfy`): `extract_video_id`. The regular-expression search
  becomes an explicit leftmost-position search.
- `Sources` (`sources.dfy`): the three fetch adapters, modelled as functions of
  the reply their collaborator gives. Each result records three things:
  - the request the adapter sends, or none when it never builds one;
  - the texts it returns;
  - the notice it shows (warning or error).
- `Mood` (`mood.dfy`): `analyze_mood` and the insight message.
  - `analyze_mood` is a method with the source's loop. It is proved against
    the specification function `Tally`.
  - The insight message is a function of the tally.

## Model

| member | source | states |
|---|---|---|
| Mood.AnalyzeMood | app.py:119-134 | One row per pair of `zip(texts, results)`, so the table has min(#texts, #results) rows. Row i holds text i, the upper-cased label of result i and its score. The counts are the tally of the table. The dictionary has exactly the three keys, and its counts add up to the number of rows. |
| Mood.BucketOf | app.py:126-131 | A label selects the POSITIVE or NEGATIVE bucket only when it equals that key. Every other label, and only those, goes to NEUTRAL. |
| Mood.CountIn | app.py:121-131 | The count of one bucket over a table never exceeds the number of rows. |
| Mood.Tally | app.py:121-131 | The `sentiment_counts` dictionary a table gives: no count in it exceeds the number of rows. |
| Mood.TallyConservation | app.py:121-131 | Every tally has exactly the keys NEGATIVE, NEUTRAL and POSITIVE, and its three counts add up to the number of rows. |
| Mood.TallyStep | app.py:125-131 | Processing one more item adds one to the bucket its label selects and leaves the other two buckets unchanged. Each item increments exactly one bucket. |
| Mood.CountStep | app.py:126-131 | Appending a row adds one to the count of its own bucket and nothing to the count of any other bucket. |
| Mood.CountInIsCardinality | app.py:126-131 | The recursive count of a bucket equals the number of table positions whose label falls in that bucket. |
| Mood.PositionsStep | app.py:132 | The table positions in a bucket after an append are the positions before it, plus the new position if its label falls in that bucket. |
| Mood.TableRow | app.py:132 | The appended row keeps the text and the score unchanged. The stored label is `Upper(result.labelName)`, the upper-cased raw label. |
| Mood.BucketIgnoresCase | app.py:125-131 | A label is counted positive (or negative) exactly when it spells that word in any mix of letter cases. Every other label is counted neutral. |
| Mood.RawLabelKept | app.py:125-132 | The table stores the upper-cased raw label, not the bucket: `label_1` is stored as `LABEL_1` and counted neutral. |
| Mood.InsightOf | app.py:201-204 | The insight is chosen from the POSITIVE and NEGATIVE counts alone, and it is the positive message exactly when the positive count is at least the negative one. A tie is therefore not a warning. |
| Mood.InsightOfTable | app.py:201-204 | For the tally of a table, the warning is shown exactly when strictly more rows are negative than positive. A tie shows the positive message. |
| Mood.InsightIgnoresNeutral | app.py:201 | Changing the NEUTRAL count never changes the message. |
| Mood.EmptyRunShowsPositive | app.py:201-204 | `InsightOf` of the tally of an empty table is the positive message. |
| Mood.InsightExamples | app.py:201-204 | The counts 2/5/1 (positive/negative/neutral) give the warning. The counts 5/2/1 and the tie 3/3/0 give the positive message. |
| VideoId.IdAt | app.py:64 | The group `[0-9A-Za-z_-]{11}`: eleven id characters start at a position. |
| VideoId.MatchAt | app.py:64 | The pattern matches at a position: `v=` or `/`, then the group. The trailing `.*` never makes a match fail. |
| VideoId.GroupStart | app.py:64 | For a match at position i, group 1 starts at i+2 when the `v=` alternative matches and at i+1 when the `/` alternative matches. Eleven id characters start there. |
| VideoId.AlternativesExclusive | app.py:64 | At one position, the two alternatives `v=` and `/` cannot both match. |
| VideoId.FindMatch | app.py:65 | The search returns the first matching position at or after the start. It returns `None` exactly when no position from there on matches. |
| VideoId.ExtractVideoId | app.py:63-66 | The result is `None` exactly when the pattern matches nowhere in the URL. Otherwise it has 11 characters, all from `[0-9A-Za-z_-]`. |
| VideoId.ExtractIsLeftmost | app.py:63-66 | When i is the leftmost match, the result is the 11 characters after that match's `v=` or `/`. |
| VideoId.ShortLinkExample | app.py:63-66 | `https://youtu.be/dQw4w9WgXcQ` gives `dQw4w9WgXcQ`, through the `/` alternative. |
| VideoId.WatchLinkExample | app.py:63-66 | `https://www.youtube.com/watch?v=dQw4w9WgXcQ` gives `dQw4w9WgXcQ`, through the `v=` alternative. |
| VideoId.NoTokenExample | app.py:63-66 | `https://youtu.be/short` gives `None`. |
| VideoId.NotAMatchInShortLink | app.py:64 | No position of `https://youtu.be` starts a match. |
| VideoId.NotAMatchInWatchPath | app.py:64 | No position before the `v=` of `https://www.youtube.com/watch?v=` starts a match. |
| Sources.FetchTweets | app.py:43-58 | The request records the intended parameters: the token, the keyword and min(count, 100) results. Status 200 returns the texts of `data`, or nothing when `data` is absent, with no notice. Status 429 returns `count` corpus texts with a warning. Any other status returns no texts, with an error naming the status. |
| Sources.RateLimitOutcomes | app.py:53-55 | Under status 429, the results that some generator produces are exactly the sequences of corpus texts of the requested length. |
| Sources.CommentTexts | app.py:86-89 | The item texts are collected, in order, exactly when every item has one. A missing nested key gives no result. |
| Sources.ReplyTexts | app.py:85-89 | An exception from `execute()` gives no texts, meaning the `except` branch. A reply without `items` gives the empty list. Otherwise the texts are those of the items. |
| Sources.FetchYouTubeComments | app.py:71-93 | An unusable URL gives no request, no texts and an error. Otherwise the request carries the extracted id and min(count, 100). A reply without an exception returns its item texts (none when `items` is absent). An exception returns `count` corpus texts with a warning. |
| Sources.CommentsFallbackIff | app.py:84-93 | The fallback is taken exactly when executing the request raises, or when some item lacks its text. |
| Sources.KeptParagraphs | app.py:110 | Filtering never adds paragraphs. Its result is empty exactly when no paragraph's raw text is longer than 40 characters. |
| Sources.KeptParagraphsConcat | app.py:110 | The filter keeps document order: on two runs of paragraphs joined, it keeps the texts of the first run, then those of the second. |
| Sources.KeptParagraphsSingle | app.py:110 | One paragraph is kept, stripped, exactly when its raw text is longer than 40 characters. |
| Sources.KeptParagraphsMembers | app.py:110 | Every kept text is the stripped text of a paragraph longer than 40 characters, and every such paragraph contributes one. |
| Sources.PaddedParagraphKept | app.py:110 | The length test is on the raw text: a paragraph of padding plus a short stripped text is kept as that short text when the total length is over 40. |
| Sources.ShortTextKept | app.py:110 | Forty spaces followed by `!` are kept as `!`. |
| Sources.Spaces | app.py:110 | `pad` spaces: a string of length `pad` made only of spaces. |
| Sources.ScrapeWebsiteReviews | app.py:98-114 | When building the request raises, no request exists. Otherwise the request carries the URL and the `Mozilla/5.0` user agent. A raise, at build, open or parse, returns `count` corpus texts with an error. When some paragraph is kept, the result is the first min(#kept, count) kept texts. When none is kept, the result is `count` corpus texts with no notice. |
| Sources.TweetsWithinCount | app.py:47-58 | For every count, when the API honours the page size of min(count, 100), no more texts than the count come back. The mock fallback gives exactly the count. |
| Sources.CommentsWithinCount | app.py:71-93 | The same bound as for the search adapter, for every count, for the comment adapter. |
| Sources.ReviewsWithinCount | app.py:110-111 | The scraper never returns more texts than asked for. When some paragraph is kept, it never returns more than it kept: a short list is not padded. |
| Sources.FailurePolicies | app.py:56-114 | The adapters handle failures differently, at lines 56-58, 91-93 and 112-114. An exception from `requests.get` is not covered. On an error status, the search adapter returns no texts with an error. When executing the request raises, the comment adapter returns mock texts with a warning. When building the request, fetching or parsing raises, the scraper returns mock texts with an error. |
| MockCorpus.CorpusLayout | app.py:25-37 | The mock table has 30 rows: the ten example texts, three times over. It holds nothing else. |
| MockCorpus.SampleRows | app.py:55 | A draw of n with replacement gives n texts, each from the table. |
| MockCorpus.Sample | app.py:55 | `mock_data["text"].sample(n, replace=True)` gives n texts, each from the corpus. |
| MockCorpus.SampleReachesEveryDraw | app.py:55 | Every sequence of corpus texts is the result of some generator, so the contract of `Sample` is all a caller can rely on. |
| MockCorpus.SampleRowsReachesEvery | app.py:55 | The same for a draw from any table that is not empty. |
| MockCorpus.IndexOf | app.py:55 | Finds the first row holding a given text of the table. |
| MockCorpus.RowNumbers | app.py:55 | Gives, for each text of a sequence drawn from a table, a row of the table that holds it. |
| Wrappers.Option.GetOr | app.py:52 | `dict.get(key, default)`: the value when the key is present, the default when it is absent. |
| Builtins.Min | app.py:47 | `min(a, b)` is at most both arguments and is one of them. |
| Builtins.Upper | app.py:125 | Upper-casing keeps the length of the label. |
| Builtins.UpperEqualsIgnoringCase | app.py:125-128 | Comparing `s.upper()` with a word that has no lower-case letters is a case-insensitive comparison. |
| Builtins.UpperIdempotent | app.py:125 | Upper-casing twice equals upper-casing once, and leaves no lower-case letter. |
| Builtins.IsSpace | app.py:110 | `str.isspace`, the characters that `strip` removes: Python 3's whitespace set. |
| Builtins.SkipSpace | app.py:110 | Leading whitespace ends at the first non-whitespace position. |
| Builtins.SkipSpaceBack | app.py:110 | Trailing whitespace starts just after the last non-whitespace position. |
| Builtins.Strip | app.py:110 | The stripped text is no longer than the input and neither starts nor ends with whitespace. It is empty exactly when the input is all whitespace. |
| Builtins.StripSlice | app.py:110 | `strip` removes only whitespace, and only at the two ends: the result is a contiguous slice of the input. |
| Builtins.StripOfStripped | app.py:110 | A text that neither starts nor ends with whitespace is its own `strip`. |
| Builtins.StripIdempotent | app.py:110 | Stripping twice equals stripping once. |
| Builtins.StripLeadingPad | app.py:110 | Whitespace placed in front of a stripped text is exactly what `strip` removes. |

## Left out

- The Streamlit interface is not modelled: page layout, widgets, the slider (10..100), the pie chart, the table display and the CSV download.
- Model loading and the classifier are not modelled. The classifier's output for the texts is a parameter of `AnalyzeMood`.
- Classifier scores are not modelled; they keep an arbitrary type `S` and pass through unchanged.
- The HTTP client, the API client library, the URL opener and the HTML parser are not modelled. What each returns is a datatype parameter:
  - `SearchResponse` for the search endpoint;
  - `CommentsReply` for the comment-thread request;
  - `PageReply` for the parsed page.
- Randomness in `sample` is the parameter `pick`.
- Message texts are not modelled. Each `st.warning` / `st.error` is a `Notice` value.
- Sources.FetchTweets: an exception raised by `requests.get` itself escapes the function, because nothing in it catches it. Examples are a connection error, a DNS failure and a timeout. The model has no such reply, so `FetchTweets` and `FailurePolicies` cover only responses that arrive.
- Sources.FetchTweets: the model does not build the URL string, so the request records the intended query parameters, not what reaches the server. The keyword is spliced into the URL unencoded. A keyword holding `#`, such as the default `#AI`, turns the rest of the URL into a fragment, so `max_results` never reaches the server. A keyword holding `&` splits the query.
- Sources.FetchTweets: also raises when the 200-response body is malformed, e.g. invalid JSON or an entry without `text`. That raise escapes the function and is left out: the model takes the texts of `data` as given.
- Sources.FetchYouTubeComments: two calls run before the `try`, and an exception from either escapes the function. They are `build(...)`, which constructs the client, and `commentThreads().list(...)`, which builds the request. The model covers only exceptions raised inside the `try`: a raise from `execute()` and the comprehension's `KeyError`.
- The default arguments `max_comments=20` and `max_reviews=20` are not modelled: every call site passes the slider's count explicitly.
- Sources.ScrapeWebsiteReviews: the exceptions inside the `try` are two replies, and which exception was raised is not modelled. `PageRequestRaised` is the request constructor's raise, e.g. a URL with no scheme, and its result has no request. `PageRaised` is a raise from opening the URL or parsing the page.
- Builtins.Upper: upper-cases ASCII letters only. Python's `str.upper` also maps non-ASCII letters, and can change the length (`ß` becomes `SS`). A label that upper-cases to `POSITIVE` or `NEGATIVE` only through such a mapping is counted neutral in the model.
- Counts are `nat`. A negative count would make `sample` raise, and the dashboard never passes one.
- The `sentiment_counts` dictionary is a map keyed by the three-valued `Sentiment` enumeration, whose `Key()` is the dictionary's string key.
- Mood.EmptyRunShowsPositive: the lemma is about `InsightOf` only. The model makes no claim that an empty run reaches line 201. On an empty run, the interface code at lines 182-199 runs before the insight and is not modelled. That code draws a pie of three zero counts at line 192, then, with the confidence box off, drops the `score` column at line 198.
- The dashboard's branch that leaves `sentiment_counts` undefined is not modelled. It occurs when the Analyze button is pressed with a missing token, API key or URL, and is an interface matter.

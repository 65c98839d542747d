# Financial news sentiment service: a Dafny model

The service's one endpoint, `GET /sentiment?ticker=…&days=…`, works in five steps:

1. It normalises and validates the ticker.
2. It fetches the company's news from the Finnhub `company-news` endpoint, with retries and backoff.
3. It cleans the headline and summary of every item.
4. It scores each item that still has text with a sentiment oracle.
5. It reduces the scores to one summary and answers with that summary and a preview of at most ten scored items.

This project models each step and proves what it promises:

- **`Builtins`** models the Python built-ins the core relies on:
  - `str.isspace`;
  - `str.strip`, as the slice between the leading and trailing whitespace;
  - substring `in`;
  - list slicing `xs[:k]`, including negative `k`;
  - `str(int)`.
- **`Sentiment`**: the oracle's result. It holds a label from {positive, neutral, negative}, a score and an optional per-label score map.
- **`Aggregator`** models `aggregate_sentiment`:
  - the `Counter` of labels, with keys kept in first-seen order, and `most_common(1)`;
  - the score-collecting loop, as a method over a map of lists;
  - the averages, the confidence and the distribution;
  - the `KeyError` raised when a result has no `scores`.
- **`NewsClient`** models `get_company_news`:
  - each HTTP attempt is an `Attempt` drawn from a script supplied by the caller;
  - the retry loop is a method with an attempt counter and the current backoff delay;
  - the method performs the same sleeps and returns or raises the same outcome as a recursive reference definition;
  - the schedule is proved: which attempts are retried, how long each sleep is, and which attempt ends the call.
- **`Preprocessor`** models `preprocess`:
  - the falsy guard;
  - the removal of `http[s]?://\S+` matches, scanning left to right as `re.sub` does;
  - the collapse of every whitespace run to one space, then `strip`.

  The markup-to-text conversion and the entity unescaping are an opaque function parameter.
- **`App`** models `get_sentiment`:
  - `ticker.strip().upper()` and the `^[A-Z]{1,5}$` test;
  - the mapping of fetch errors to 404/500;
  - the no-news default;
  - the skip-or-score loop, as a method;
  - aggregation and the 10-item preview;
  - the HTTP status of every outcome.

Several behaviours of the code are easy to misread. The model follows the code as written:

- **Tie-break for the overall label.** `Counter.most_common` breaks ties by first occurrence, not by which label reaches the maximum count first. `[neg, pos, pos, neg]` gives `negative`; `MostCommonTieBreak` states exactly this.
- **A 429 on the last attempt** is not a separate "rate limited" failure. It falls through to the non-200 branch, so it becomes `API request failed with status code 429` and a 404 (`LastRateLimitFails`).
- **Rate-limit and network retries share one budget** of three attempts. Only a network error doubles the delay (`RateLimitKeepsDelay`).
- **404 or 500 for a fetch error** depends only on whether the exception's text contains `API request failed`. A parse, format or connection error becomes a 404 only when its quoted detail happens to contain that phrase (`FetchErrorStatus`).
- **A result's `scores` map need not hold all three labels.** A missing label contributes nothing to that label's average.

## Model

| member | source | states |
|---|---|---|
| Builtins.Strip | preprocessor.py:25 | `s.strip()` is no longer than `s`, has no whitespace at either end, and is empty exactly when `s` is all whitespace |
| Builtins.IsSpace | preprocessor.py:25 | the characters `str.isspace` and the pattern `\s` treat as whitespace: the ASCII controls 9-13 and 28-31, the space, the C1 control NEL (U+0085), and the Unicode separators |
| Builtins.StripOffset | app.py:90 | the stripped text is a contiguous slice of `s`, and only whitespace lies before and after it |
| Builtins.StripTrimmed | app.py:90 | stripping a text with no whitespace at its ends leaves it unchanged |
| Builtins.ContainsPrefix | app.py:52 | a string contains each of its prefixes |
| Builtins.ContainsInSuffix | app.py:52 | a phrase found in the tail of a message is found in the whole message |
| Builtins.Contains | app.py:52 | the substring test `t in s`: `t` is a prefix of some suffix of `s` |
| Builtins.ContainsAfterPrefix | app.py:52 | for a message prefix that lacks one of the phrase's characters, whose second-to-last character is a colon the phrase does not contain, and whose last character is not the phrase's first, the phrase occurs in prefix + detail exactly when it occurs in the detail |
| Builtins.Head | api_client.py:60 | `xs[:k]` is a prefix of `xs`, of length `min(k, len)` for `k >= 0` and `max(0, len + k)` for negative `k` |
| Builtins.NatToString | api_client.py:37 | the decimal text of a status code: non-empty digits with no leading zero whose decimal value is the code itself |
| Aggregator.LabelsOf | aggregator.py:12 | the list of labels has one entry per result, in input order |
| Aggregator.Count | aggregator.py:12 | a label's tally is at most the number of results and is positive exactly when the label occurs |
| Aggregator.Keys | aggregator.py:12 | the counter's keys are exactly the labels that occur |
| Aggregator.KeysFirstSeen | aggregator.py:12 | the counter's keys are distinct and ordered by first occurrence in the input |
| Aggregator.MostCommon | aggregator.py:33 | `most_common(1)` returns a key whose tally no other key exceeds |
| Aggregator.MostCommonIsFirst | aggregator.py:33 | no key placed before the chosen one has the maximal tally |
| Aggregator.MostCommonIsMax | aggregator.py:33 | the overall label occurs in the input and no label has a larger tally |
| Aggregator.MostCommonTieBreak | aggregator.py:33 | among the labels with the maximal tally, the chosen one occurs first in the input |
| Aggregator.MostCommonIsModal | aggregator.py:33 | the chosen label has the maximal tally and is the earliest-occurring label with it |
| Aggregator.CountsAddUp | aggregator.py:12 | the three tallies sum to the number of results |
| Aggregator.ScoresFor | aggregator.py:21-24 | `sentiment_scores[l]` after the loop: the `l` entries of the results' `scores` maps, in input order |
| Aggregator.ScoresForBounds | aggregator.py:21-24 | each label's score list has at most one entry per result, is empty when no result reports the label, and holds only probabilities when the oracle's scores are probabilities |
| Aggregator.Aggregate | aggregator.py:8-44 | empty input gives the short neutral summary with confidence 0; otherwise the call fails exactly when a result lacks `scores`; a full summary's `item_count` is the number of results |
| Aggregator.AppendScores | aggregator.py:22-24 | the inner loop appends a result's score to the list of each label the result reports, and changes no other list |
| Aggregator.CollectScores | aggregator.py:15-24 | the collecting loop succeeds exactly when every result has `scores`; each label's list is then that label's scores in input order |
| Aggregator.AggregateSentiment | aggregator.py:6-44 | the method computes exactly the summary or error of the reference reduction |
| Aggregator.DistributionShares | aggregator.py:41 | the distribution's keys are the labels that occur; each value is that label's share, in (0, 1]; the values sum to 1 |
| Aggregator.Distribution | aggregator.py:41 | `distribution`: one entry per counter key, its count over the number of results |
| Aggregator.DistributionEntry | aggregator.py:41 | every label's share, taking 0 for an absent key, is its tally over the number of results |
| Aggregator.DistributionTotal | aggregator.py:41 | the distribution sums to 1 |
| Aggregator.DistributionIsShare | aggregator.py:41 | the returned distribution has the labels that occur as keys, each label's share as its value, and sums to 1 |
| Aggregator.OverallIsModal | aggregator.py:32-39 | `overall_sentiment` occurs in the input, has the largest tally, and is the earliest-occurring label among those tied for it |
| Aggregator.ConfidenceIsModalShare | aggregator.py:35-41 | `confidence` is the modal label's share, in (0, 1], and equals that label's distribution entry |
| Aggregator.Mean | aggregator.py:28 | `np.mean` of a non-empty list: the mean times the number of scores is their sum |
| Aggregator.SumBounds | aggregator.py:28 | a sum of probabilities lies between 0 and the number of terms |
| Aggregator.MeanBound | aggregator.py:28 | the mean of a non-empty list of probabilities is a probability |
| Aggregator.AverageScores | aggregator.py:27-30 | `avg_scores`: for each of the three labels, the mean of its score list, or 0.0 when the list is empty |
| Aggregator.AverageEntry | aggregator.py:27-30 | each label has an average: 0.0 when no result reports it, the mean of its scores otherwise, and a probability for valid oracle results |
| Aggregator.AverageScoresShape | aggregator.py:26-30 | `average_scores` has all three labels; each average is 0.0 when no result reports the label, the mean of its scores otherwise, and a probability for valid oracle results |
| Aggregator.CountsPNNP | aggregator.py:12 | `[pos, neg, neg, pos]` tallies two positives, two negatives, no neutral |
| Aggregator.CountsPPN | aggregator.py:12 | `[pos, pos, neu]` tallies two positives and one neutral |
| Aggregator.FirstModalWins | aggregator.py:33 | when the first item's label has the largest tally, it is the overall label |
| Aggregator.TieGoesToFirstSeen | aggregator.py:33 | `[pos, neg, neg, pos]` is overall positive |
| Aggregator.FirstSeenWinsOneEach | aggregator.py:33 | `[neg, pos]` is overall negative |
| Aggregator.DistributionPPN | aggregator.py:41 | `[pos, pos, neu]` has distribution {positive: 2/3, neutral: 1/3} |
| Aggregator.TwoThirdsPositive | aggregator.py:33-43 | `[pos, pos, neu]` is overall positive with confidence 2/3, item count 3 and distribution {positive: 2/3, neutral: 1/3} |
| NewsClient.Message | api_client.py:37-43 | the text of a status-code error starts with `API request failed with status code ` |
| NewsClient.Truncate | api_client.py:60 | the returned items are a prefix of the list; no limit or a zero limit keeps the whole list; the length follows Python slicing for positive and negative limits |
| NewsClient.Classify | api_client.py:36-60 | a non-200 status raises the status-code error; a 200 whose body does not decode raises the parse error with its reason; a 200 with a truthy non-list body raises the format error quoting it; a falsy body gives `[]`; a list gives exactly `Truncate(items, limit)`; the call succeeds exactly on a 200 with a list or a falsy body |
| NewsClient.Retried | api_client.py:30-65 | an attempt waits and tries again exactly when it is not the last and saw a network error or a 429 |
| NewsClient.Final | api_client.py:36-67 | an attempt that is not retried ends the call: a network error raises the connection error, a response is classified |
| NewsClient.FetchFrom | api_client.py:26-67 | the remaining iterations from a given attempt and delay: a retried network error sleeps the delay and doubles it, a retried 429 sleeps `Retry-After` (60 when absent) and keeps the delay, any other attempt ends the call |
| NewsClient.Fetch | api_client.py:23-69 | the whole call: the iterations from attempt 0 with a delay of 1 second |
| NewsClient.GetCompanyNews | api_client.py:13-69 | the retry loop returns or raises, sleeps and issues requests exactly as the reference definition of the call |
| NewsClient.FetchBounds | api_client.py:26 | a call issues between one and three requests and sleeps once fewer than it requests |
| NewsClient.ScheduleFrom | api_client.py:26-67 | from any attempt onward, every attempt but the last is a retried 429 or network error; each sleep is that attempt's `Retry-After` (default 60) or the delay doubled once per earlier network error; the last attempt decides the outcome |
| NewsClient.ExpectedSleep | api_client.py:31-65 | the sleep after a retried attempt, without reference to the loop: `Retry-After` (60 when absent) for a 429, 2 to the number of earlier network errors for a network error |
| NewsClient.FetchSchedule | api_client.py:23-67 | a whole call issues 1 to 3 requests; the retried attempts, the sleep lengths and the deciding attempt are as above |
| NewsClient.NoRetryWithoutCause | api_client.py:36-60 | a first response that is not a 429 ends the call after one request without sleeping, with that response's classification as the outcome; a non-200 status raises the status-code error |
| NewsClient.SuccessIsPrefix | api_client.py:46-60 | a non-empty result comes from a 200 response whose body is a list and is exactly that list truncated to the limit: the whole list without a limit, `min(limit, len)` items for a positive limit |
| NewsClient.RateLimitThenList | api_client.py:30-60 | a 429 with `Retry-After: 1` followed by a list returns the list after one sleep of 1 second and two requests |
| NewsClient.BackoffDoubles | api_client.py:62-67 | three network errors sleep 1 then 2 seconds and raise the connection error quoting the last one |
| NewsClient.RateLimitKeepsDelay | api_client.py:24-67 | a 429 without `Retry-After` sleeps 60 seconds and does not double the network backoff delay |
| NewsClient.LastRateLimitFails | api_client.py:30-43 | three 429s sleep twice, then the last one raises the status-code error for 429 |
| Preprocessor.SchemeLength | preprocessor.py:22 | a scheme is `http://`, `https://` or absent |
| Preprocessor.RunLength | preprocessor.py:22 | `\S+` spans the longest run of non-whitespace, stopping at whitespace or the end |
| Preprocessor.UrlLength | preprocessor.py:22 | a match starts exactly where the pattern can match; it extends past the scheme through non-whitespace up to whitespace or the end |
| Preprocessor.RemoveUrls | preprocessor.py:22 | the substitution never lengthens the text |
| Preprocessor.RemoveUrlsUnchanged | preprocessor.py:22 | the substitution leaves the text unchanged exactly when no match starts anywhere in it |
| Preprocessor.AgreeUntilBreak | preprocessor.py:22 | the substituted text agrees with the input up to its first whitespace or its end |
| Preprocessor.NoUrlRemains | preprocessor.py:22 | no match starts anywhere in the substituted text |
| Preprocessor.RunLengthBeforeSpace | preprocessor.py:22 | `\S+` stops at the first whitespace character, whatever follows it |
| Preprocessor.UrlLengthBeforeSpace | preprocessor.py:22 | a match never reaches past a whitespace character |
| Preprocessor.RemoveUrlsAroundSpace | preprocessor.py:22 | a whitespace character is kept, and the text on either side of it is substituted independently |
| Preprocessor.FirstUrl | preprocessor.py:22 | the first position where a match starts, or the length when there is none |
| Preprocessor.RemoveUrlsInWord | preprocessor.py:22 | in a text without whitespace the first match runs to the end, so exactly the characters before it are kept |
| Preprocessor.NoUrlWord | preprocessor.py:22 | a text without the letter `h` is left unchanged |
| Preprocessor.UrlWordGoes | preprocessor.py:22 | `"http://x"` is removed entirely |
| Preprocessor.UrlThenWord | preprocessor.py:22 | `"http://x now"` becomes `" now"` |
| Preprocessor.UrlInSentence | preprocessor.py:22 | `"see http://x now"` becomes `"see  now"`: the URL goes and both spaces stay |
| Preprocessor.Collapse | preprocessor.py:25 | collapsing whitespace runs never lengthens the text, keeps it non-empty, and keeps whether it starts with whitespace |
| Preprocessor.CollapseSingleSpaced | preprocessor.py:25 | after `\s+ → ' '` every whitespace character is a single plain space |
| Preprocessor.CollapseVisible | preprocessor.py:25 | collapsing keeps every non-whitespace character, in order |
| Preprocessor.CollapseSingleSpacedFixed | preprocessor.py:25 | collapsing a single-spaced text changes nothing |
| Preprocessor.CollapseRun | preprocessor.py:25 | a non-empty whitespace run on its own becomes exactly one space |
| Preprocessor.CollapseAroundVisible | preprocessor.py:25 | a non-whitespace character is kept, and the text on either side of it is collapsed independently, so no run is dropped or merged with another |
| Preprocessor.CollapseTwoSpaces | preprocessor.py:25 | `"a  b"` becomes `"a b"` |
| Preprocessor.SliceSingleSpaced | preprocessor.py:25 | any slice of a single-spaced text is single-spaced |
| Preprocessor.StripNormalized | preprocessor.py:25 | stripping a single-spaced text gives a normalised text |
| Preprocessor.StripVisible | preprocessor.py:25 | stripping removes only whitespace |
| Preprocessor.CleanNormalized | preprocessor.py:25 | the cleaned text is single-spaced with no whitespace at either end |
| Preprocessor.CleanVisible | preprocessor.py:25 | cleaning keeps every non-whitespace character in order and never lengthens the text |
| Preprocessor.CleanFixed | preprocessor.py:25 | a normalised text is left unchanged by cleaning |
| Preprocessor.CleanIdempotent | preprocessor.py:25 | cleaning twice is cleaning once |
| Preprocessor.Clean | preprocessor.py:25 | the cleanup: collapse every whitespace run to one space, then strip |
| Preprocessor.Preprocess | preprocessor.py:9-10 | a falsy argument gives the empty string |
| Preprocessor.PreprocessNormalized | preprocessor.py:7-27 | every output is single-spaced with no whitespace at either end |
| Preprocessor.PreprocessKeeps | preprocessor.py:13-25 | for a non-empty argument the output keeps every visible character of the URL-free converted text, no URL survives, the output is never longer than the converted text, and a URL-free text loses nothing |
| App.UpperChar | app.py:31 | upper-casing maps `a-z` to `A-Z` and keeps `A-Z`; a result of only capitals comes from an ASCII letter or a non-ASCII character; only a newline ends in a newline |
| App.Upper | app.py:31 | upper-casing never shortens a string |
| App.NormalizeTicker | app.py:31 | `ticker.strip().upper()` |
| App.IsTicker | app.py:32 | one to five capital ASCII letters |
| App.TickerPatternMatches | app.py:32 | what `^[A-Z]{1,5}$` accepts, counting the match of `$` before a final newline |
| App.UpperAppend | app.py:31 | upper-casing distributes over concatenation |
| App.UpperLast | app.py:31-32 | an upper-cased text ends in a newline only when the original does |
| App.PatternIsTicker | app.py:31-32 | after `strip().upper()`, the pattern's `$` matching before a final newline never matters: the regex accepts exactly one to five capitals |
| App.UpperOfCapitals | app.py:31 | capitals are unchanged by upper-casing |
| App.TickerIsFixed | app.py:31-32 | a valid ticker is unchanged by normalisation |
| App.UpperOfAsciiLetters | app.py:31 | upper-casing ASCII letters keeps the length and gives only capitals |
| App.AsciiTickerAccepted | app.py:31-32 | a ticker of ASCII letters is accepted exactly when it has one to five letters after stripping |
| App.StripExample | app.py:31 | `" aapl "` strips to `"aapl"` |
| App.UpperExample | app.py:31 | `"aapl"` upper-cases to `"AAPL"` |
| App.TickerAccepted | app.py:31-32 | `" aapl "` normalises to the valid ticker `"AAPL"` |
| App.DigitTickerRejected | app.py:31-40 | `"aapl1"` is rejected |
| App.EmptyTickerRejected | app.py:31-40 | the empty ticker is rejected |
| App.PreprocessWithNormalized | app.py:86-87 | every preprocessed field is normalised |
| App.ItemText | app.py:86-90 | the text scored for an item: the preprocessed headline and summary joined by a space, then stripped |
| App.Processed | app.py:99-104 | the preview entry: the item's datetime, its preprocessed headline, and the result's label and score |
| App.ItemTextEmpty | app.py:86-92 | an item is skipped exactly when both its preprocessed headline and summary are empty |
| App.Kept | app.py:84-92 | the loop keeps at most as many items as it is given |
| App.KeptAreNonEmpty | app.py:84-92 | every kept item comes from the input and has non-empty text |
| App.NonEmptyAreKept | app.py:84-92 | every input item with non-empty text is kept |
| App.ScoreAll | app.py:84-104 | the loop: an item with empty text is skipped; otherwise it is scored and both lists grow by one; the first oracle exception ends the loop |
| App.ScoreAllSucceeds | app.py:84-96 | the loop finishes exactly when the oracle succeeds on every kept item |
| App.ScoreAllLockstep | app.py:84-104 | on success both lists have one entry per kept item, in order; each result is the oracle's verdict on that item's text; each processed item carries the item's datetime, its preprocessed headline and the result's label and score |
| App.NothingKept | app.py:84-92 | when every item is skipped, both lists are empty |
| App.ScoreAllFailureSticks | app.py:95-96 | once the oracle raises, later items do not change the outcome |
| App.ScoreItems | app.py:80-104 | the loop method builds exactly the lists, or raises exactly the error, of the reference definition |
| App.FetchErrorResponse | app.py:51-61 | the handler of a client exception: a 404 quoting the message when it contains `API request failed`, otherwise the re-raised exception becomes the 500 |
| App.RequestFailedMentionsPhrase | app.py:52 | a status-code error always contains `API request failed` |
| App.ParseFailedMentionsPhrase | app.py:52 | a parse error contains the phrase exactly when its quoted reason does |
| App.UnexpectedFormatMentionsPhrase | app.py:52 | a format error contains the phrase exactly when the quoted body does |
| App.ConnectMessage | api_client.py:67 | the connection error's text is its fixed prefix with the attempt count 3, followed by the reason |
| App.ConnectFailedMentionsPhrase | app.py:52 | a connection error contains the phrase exactly when its reason does |
| App.FetchErrorStatus | app.py:51-61 | a fetch error gives a 404 exactly when it is a status-code error or its detail contains the phrase; a 404 quotes the message; otherwise the answer is the 500 |
| App.GetSentiment | app.py:25-131 | the endpoint returns the reference response and issues the reference number of requests |
| App.Respond | app.py:31-131 | the handler's answer: 400 for a bad ticker, the fetch-error mapping, the no-news default, a 500 when the oracle or the aggregator raises, otherwise the analysis with the 10-item preview |
| App.StatusCode | app.py:39-130 | the status of an answer is one of 200, 400, 404 and 500, and it is 200 exactly for the no-news answer and for the normal return |
| App.RequestCount | app.py:31-50 | the number of `requests.get` calls (api_client.py:28) one request makes: none exactly when the ticker is rejected, otherwise one per attempt and at most three |
| App.BadTickerRejected | app.py:31-40 | the answer is 400 exactly when the normalised ticker is not one to five capitals, and then no request is made |
| App.FetchFailureStatus | app.py:49-61 | for a valid ticker whose fetch raises, the answer is a 404 quoting the message exactly under the condition above, otherwise a 500 |
| App.MalformedOkStatus | app.py:49-61 | a 200 whose body does not decode or is a truthy non-list takes one request, and gives a 404 exactly when the quoted reason or body mentions `API request failed`, otherwise a 500 |
| App.NoNewsDefault | app.py:63-78 | no news gives a 200 whose summary has an empty distribution, zero averages and item count 0 |
| App.AnalysisPreview | app.py:106-114 | with news and a successful loop, the answer carries the ticker, the period and the aggregate of all scored items; the preview is the first `min(10, kept)` processed items; an aggregate error gives the 500 |
| App.AllSkipped | app.py:84-114 | when every fetched item is skipped, the answer is a 200 with the short neutral summary and an empty preview |
| App.OracleFailureIsServerError | app.py:84-131 | when the oracle raises on a kept item, the answer is the 500 |
| App.ScoresAlwaysAggregate | app.py:95-107 | if the oracle always reports per-label scores, aggregating the loop's results cannot fail |

## Left out

- The markup-to-text conversion (`BeautifulSoup(...).get_text()`) and `html.unescape` are not modelled. `Preprocess` takes them as one opaque function `toText`, which also covers `str(text)`.
- The FinBERT classifier: the oracle is a parameter `analyze` that returns a result or an error. sentiment_analyzer.py is not part of this model.
- The network, `time.sleep` and the clock.
  - Each HTTP attempt's outcome comes from a caller-supplied script of at least three outcomes (only three can ever be used).
  - Sleeps are recorded as a list of seconds.
  - The date range is an opaque `Period`.
- The request URL, its parameters, the API key, the constructor's key check and the 10-second timeout are not modelled. They do not change what the loop does.
- `int(Retry-After)` parsing: the header is a number of seconds or absent. A non-numeric header, which raises `ValueError` and becomes a 500, is not modelled.
- The `days` parameter's 1..30 range check is done by the web framework before the handler runs, and is not modelled. The value is only echoed back.
- Floating point: scores, shares and averages are exact reals, so `float(...)` and `np.mean` rounding are not modelled.
- The JSON bodies' fixed texts and the exact formatting of a non-200 error body's details are not modelled. The details are an opaque string.
- App.Upper: `str.upper` is modelled for ASCII letters and for the characters whose upper case is made of ASCII letters. Every other character is left as it is, which cannot change the validity of a ticker.
- News items are records with an optional datetime, headline and summary. A non-dict list element, which raises in `item.get` and becomes a 500, is not modelled.
- NewsClient.Message: its contract states only the fixed prefix of the status-code message. The full text of every message is given by its definition and used by the `App` lemmas.
- The trailing `return []` after the retry loop cannot be reached: every iteration returns, raises or retries, and the last one never retries. The loop method asserts this.
- The root route `GET /` and the server start-up are not modelled.

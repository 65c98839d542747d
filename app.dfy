/** The `/sentiment` endpoint, `get_sentiment` (app.py): ticker normalisation and validation, the
    news fetch, the per-item preprocessing and scoring loop, the aggregation, the ten-item preview
    and the mapping of failures to HTTP statuses. The sentiment model is an oracle `analyze`, the
    markup-to-text conversion is an opaque `toText`, and the network is a script of attempts. */
module App {
  import opened Wrappers
  import opened Builtins
  import opened Sentiment
  import opened Aggregator
  import opened NewsClient
  import opened Preprocessor

  /** `get_company_news` is called without `limit`, so its default of 50 applies. */
  const NEWS_LIMIT: Option<int> := Some(50)
  /** The response lists only the first 10 processed items. */
  const PREVIEW_LIMIT: nat := 10
  /** The phrase whose presence in an exception's text makes a fetch failure a 404. */
  const NOT_FOUND_PHRASE: string := "API request failed"

  // ---------------------------------------------------------------------------------------------
  // `ticker.strip().upper()` and `re.match(r'^[A-Z]{1,5}$', ticker)`

  /** `str.upper` on one character: ASCII letters, and the characters whose upper case consists of
      ASCII letters (sharp s, dotless i, long s and the Latin ligatures U+FB00..U+FB06). Every other
      character is left as it is; the upper case of every other character contains a non-ASCII
      character, so it can never be part of a valid ticker either way. */
  function UpperChar(c: char): (r: string)
    ensures 1 <= |r| <= 3
    ensures r[|r| - 1] == '\n' ==> c == '\n'
    ensures 'a' <= c <= 'z' ==> r == [(c as int - 32) as char]
    ensures 'A' <= c <= 'Z' ==> r == [c]
    ensures (forall k :: 0 <= k < |r| ==> 'A' <= r[k] <= 'Z') ==> 'a' <= c <= 'z' || 'A' <= c <= 'Z' || c as int >= 0x80
  {
    if 'a' <= c <= 'z' then [(c as int - 32) as char]
    else if c == 'ß' then "SS"
    else if c == 'ı' then "I"
    else if c == 'ſ' then "S"
    else if c == 'ﬀ' then "FF"
    else if c == 'ﬁ' then "FI"
    else if c == 'ﬂ' then "FL"
    else if c == 'ﬃ' then "FFI"
    else if c == 'ﬄ' then "FFL"
    else if c == 'ﬅ' || c == 'ﬆ' then "ST"
    else [c]
  }

  function Upper(s: string): (r: string)
    ensures |s| <= |r|
  {
    if s == [] then [] else UpperChar(s[0]) + Upper(s[1..])
  }

  function NormalizeTicker(raw: string): string {
    Upper(Strip(raw))
  }

  predicate IsCapitals(t: string) {
    forall k :: 0 <= k < |t| ==> 'A' <= t[k] <= 'Z'
  }

  /** One to five capital ASCII letters. */
  predicate IsTicker(t: string) {
    1 <= |t| <= 5 && IsCapitals(t)
  }

  /** What the regular expression accepts: `$` also matches just before a final newline. */
  predicate TickerPatternMatches(t: string) {
    IsTicker(t) || (t != [] && t[|t| - 1] == '\n' && IsTicker(t[..|t| - 1]))
  }

  /** The last character of `s.upper()` is a newline only when the last character of `s` is. */
  lemma {:induction false} UpperLast(s: string)
    requires s != []
    ensures Upper(s)[|Upper(s)| - 1] == '\n' ==> s[|s| - 1] == '\n'
    decreases |s|
  {
    if |s| > 1 {
      UpperLast(s[1..]);
    } else {
      assert Upper(s) == UpperChar(s[0]) + Upper([]);
    }
  }

  /** After `strip` the pattern's end anchor can only match at the very end, so the check is
      exactly "one to five capital letters". */
  lemma PatternIsTicker(raw: string)
    ensures TickerPatternMatches(NormalizeTicker(raw)) <==> IsTicker(NormalizeTicker(raw))
  {
    var s := Strip(raw);
    if s != [] {
      UpperLast(s);
    }
  }

  /** A valid ticker is left unchanged by the normalisation. */
  lemma {:induction false} UpperOfCapitals(t: string)
    requires IsCapitals(t)
    ensures Upper(t) == t
    decreases |t|
  {
    if t != [] {
      assert IsCapitals(t[1..]);
      UpperOfCapitals(t[1..]);
    }
  }

  lemma TickerIsFixed(t: string)
    requires IsTicker(t)
    ensures NormalizeTicker(t) == t
  {
    StripTrimmed(t);
    UpperOfCapitals(t);
  }

  /** On ASCII letters, upper-casing is letter by letter. */
  lemma {:induction false} UpperOfAsciiLetters(s: string)
    requires forall k :: 0 <= k < |s| ==> 'a' <= s[k] <= 'z' || 'A' <= s[k] <= 'Z'
    ensures |Upper(s)| == |s| && IsCapitals(Upper(s))
    decreases |s|
  {
    if s != [] {
      UpperOfAsciiLetters(s[1..]);
    }
  }

  /** A ticker made of ASCII letters is accepted exactly when it has one to five of them once
      surrounding whitespace is removed. */
  lemma AsciiTickerAccepted(raw: string)
    requires var s := Strip(raw); forall k :: 0 <= k < |s| ==> 'a' <= s[k] <= 'z' || 'A' <= s[k] <= 'Z'
    ensures IsTicker(NormalizeTicker(raw)) <==> 1 <= |Strip(raw)| <= 5
  {
    UpperOfAsciiLetters(Strip(raw));
  }

  lemma {:induction false} UpperAppend(a: string, b: string)
    ensures Upper(a + b) == Upper(a) + Upper(b)
    decreases |a|
  {
    if a == [] {
      assert a + b == b;
    } else {
      assert (a + b)[0] == a[0];
      assert (a + b)[1..] == a[1..] + b;
      UpperAppend(a[1..], b);
      assert Upper(a + b) == UpperChar(a[0]) + Upper(a[1..] + b);
    }
  }

  lemma StripLeftExample()
    ensures StripLeft(" aapl ") == "aapl "
  {
    assert StripLeft(" aapl ") == StripLeft("aapl ");
  }

  lemma StripRightExample()
    ensures StripRight("aapl ") == "aapl"
  {
    assert StripRight("aapl ") == StripRight("aapl");
  }

  lemma StripExample()
    ensures Strip(" aapl ") == "aapl"
  {
    StripLeftExample();
    StripRightExample();
  }

  lemma UpperExample()
    ensures Upper("aapl") == "AAPL"
  {
    UpperAppend("a", "apl");
    UpperAppend("a", "pl");
    UpperAppend("p", "l");
    assert "aapl" == "a" + "apl" && "apl" == "a" + "pl" && "pl" == "p" + "l";
  }

  lemma AaplIsTicker()
    ensures IsTicker("AAPL")
  {
  }

  /** " aapl " normalises to the accepted "AAPL". */
  lemma TickerAccepted()
    ensures NormalizeTicker(" aapl ") == "AAPL" && IsTicker("AAPL")
  {
    StripExample();
    assert NormalizeTicker(" aapl ") == Upper("aapl");
    UpperExample();
    AaplIsTicker();
  }

  /** A trailing digit survives upper-casing, so "aapl1" is rejected. */
  lemma DigitTickerRejected()
    ensures !IsTicker(NormalizeTicker("aapl1"))
  {
    StripTrimmed("aapl1");
    assert NormalizeTicker("aapl1") == Upper("aapl1");
    UpperAppend("aapl", "1");
    assert "aapl" + "1" == "aapl1";
    assert Upper("1") == "1";
    var u := Upper("aapl1");
    assert u[|u| - 1] == '1';
  }

  /** The empty string is rejected. */
  lemma EmptyTickerRejected()
    ensures !IsTicker(NormalizeTicker(""))
  {
  }

  // ---------------------------------------------------------------------------------------------
  // The per-item loop

  /** The dictionary appended to `processed_items`. */
  datatype ProcessedItem = ProcessedItem(datetime: Option<int>, headline: string, sentiment: Label, score: real)

  /** The two lists the loop builds, `sentiment_results` and `processed_items`. */
  datatype Scored = Scored(results: seq<SentimentResult>, processed: seq<ProcessedItem>)

  /** `f"{headline} {summary}".strip()` of the preprocessed fields. */
  function ItemText(item: NewsItem, pre: Option<string> -> string): string {
    Strip(pre(item.headline) + " " + pre(item.summary))
  }

  /** `preprocess` with the given markup-to-text conversion, as a function value. */
  function PreprocessWith(toText: string -> string): Option<string> -> string {
    t => Preprocess(t, toText)
  }

  lemma PreprocessWithNormalized(toText: string -> string)
    ensures forall t :: Normalized(PreprocessWith(toText)(t))
  {
    forall t ensures Normalized(PreprocessWith(toText)(t)) {
      PreprocessNormalized(t, toText);
    }
  }

  /** The text the loop scores for each item. */
  function TextOf(pre: Option<string> -> string): NewsItem -> string {
    item => ItemText(item, pre)
  }

  /** With a preprocessor whose output has no whitespace at either end, an item is skipped exactly
      when both its preprocessed headline and summary are empty. */
  lemma ItemTextEmpty(item: NewsItem, pre: Option<string> -> string)
    requires forall t :: Normalized(pre(t))
    ensures ItemText(item, pre) == [] <==>
      pre(item.headline) == [] && pre(item.summary) == []
  {
    var h := pre(item.headline);
    var s := pre(item.summary);
    var j := h + " " + s;
    if h != [] {
      assert j[0] == h[0];
    } else if s != [] {
      assert j[1] == s[0];
    } else {
      assert j == " ";
    }
  }

  /** The items the loop does not skip, in order, where `text` gives the text each item is
      scored on (`TextOf(pre)` in the endpoint). */
  function Kept(items: seq<NewsItem>, text: NewsItem -> string): (kept: seq<NewsItem>)
    ensures |kept| <= |items|
  {
    if items == [] then []
    else
      var last := items[|items| - 1];
      Kept(items[..|items| - 1], text) + if text(last) == [] then [] else [last]
  }

  /** Every kept item is one of the items and has a non-empty text. */
  lemma {:induction false} KeptAreNonEmpty(items: seq<NewsItem>, text: NewsItem -> string)
    ensures forall x :: x in Kept(items, text) ==> x in items && text(x) != []
  {
    if items != [] {
      var init := items[..|items| - 1];
      KeptAreNonEmpty(init, text);
      forall x | x in Kept(items, text) ensures x in items && text(x) != [] {
        if x in Kept(init, text) {
          var i :| 0 <= i < |init| && init[i] == x;
          assert items[i] == x;
        }
      }
    }
  }

  /** Every item with a non-empty text is kept. */
  lemma {:induction false} NonEmptyAreKept(items: seq<NewsItem>, text: NewsItem -> string)
    ensures forall i :: 0 <= i < |items| && text(items[i]) != [] ==> items[i] in Kept(items, text)
  {
    if items != [] {
      var init := items[..|items| - 1];
      NonEmptyAreKept(init, text);
      forall i | 0 <= i < |items| && text(items[i]) != [] ensures items[i] in Kept(items, text) {
        if i < |init| {
          assert init[i] == items[i];
          assert items[i] in Kept(init, text);
        } else {
          assert Kept(items, text) == Kept(init, text) + [items[i]];
        }
      }
    }
  }

  /** The record of a scored item. */
  function Processed(item: NewsItem, r: SentimentResult, pre: Option<string> -> string): ProcessedItem {
    ProcessedItem(item.datetime, pre(item.headline), r.predicted, r.score)
  }

  /** The loop, item by item: skip an item with empty text, otherwise score it and record it; an
      exception from the oracle ends the loop. */
  function ScoreAll(items: seq<NewsItem>, text: NewsItem -> string, pre: Option<string> -> string, analyze: string -> Result<SentimentResult, string>): Result<Scored, string> {
    if items == [] then Success(Scored([], []))
    else
      var item := items[|items| - 1];
      match ScoreAll(items[..|items| - 1], text, pre, analyze)
      case Failure(e) => Failure(e)
      case Success(acc) =>
        if text(item) == [] then Success(acc)
        else
          match analyze(text(item))
          case Failure(e) => Failure(e)
          case Success(r) => Success(Scored(acc.results + [r], acc.processed + [Processed(item, r, pre)]))
  }

  /** The loop succeeds exactly when the oracle succeeds on every kept item. */
  lemma {:induction false} ScoreAllSucceeds(items: seq<NewsItem>, text: NewsItem -> string, pre: Option<string> -> string, analyze: string -> Result<SentimentResult, string>)
    ensures ScoreAll(items, text, pre, analyze).Success? <==> forall x :: x in Kept(items, text) ==> analyze(text(x)).Success?
  {
    if items != [] {
      var init := items[..|items| - 1];
      var last := items[|items| - 1];
      ScoreAllSucceeds(init, text, pre, analyze);
      if text(last) == [] {
        assert Kept(items, text) == Kept(init, text);
      } else {
        assert Kept(items, text) == Kept(init, text) + [last];
      }
    }
  }

  /** When the loop succeeds the two lists have one entry per kept item, in order: the results
      are the oracle's answers, and each processed item records its item and carries the label and
      score of its own result. */
  lemma {:induction false} ScoreAllLockstep(items: seq<NewsItem>, text: NewsItem -> string, pre: Option<string> -> string, analyze: string -> Result<SentimentResult, string>)
    requires ScoreAll(items, text, pre, analyze).Success?
    ensures var kept := Kept(items, text);
      var out := ScoreAll(items, text, pre, analyze).value;
      && |out.results| == |kept| && |out.processed| == |kept|
      && (forall k :: 0 <= k < |kept| ==>
            && analyze(text(kept[k])).Success?
            && out.results[k] == analyze(text(kept[k])).value
            && out.processed[k] == Processed(kept[k], out.results[k], pre)
            && out.processed[k].sentiment == out.results[k].predicted
            && out.processed[k].score == out.results[k].score)
  {
    if items != [] {
      var init := items[..|items| - 1];
      var last := items[|items| - 1];
      assert ScoreAll(init, text, pre, analyze).Success?;
      ScoreAllLockstep(init, text, pre, analyze);
      var kept0 := Kept(init, text);
      var kept := Kept(items, text);
      var acc := ScoreAll(init, text, pre, analyze).value;
      var out := ScoreAll(items, text, pre, analyze).value;
      if text(last) == [] {
        assert kept == kept0 && out == acc;
      } else {
        var r := analyze(text(last)).value;
        assert kept == kept0 + [last];
        assert out == Scored(acc.results + [r], acc.processed + [Processed(last, r, pre)]);
        assert forall k :: 0 <= k < |kept0| ==> kept[k] == kept0[k] && out.results[k] == acc.results[k] && out.processed[k] == acc.processed[k];
      }
    }
  }

  /** With every item skipped, the loop ends with two empty lists. */
  lemma NothingKept(items: seq<NewsItem>, text: NewsItem -> string, pre: Option<string> -> string, analyze: string -> Result<SentimentResult, string>)
    requires Kept(items, text) == []
    ensures ScoreAll(items, text, pre, analyze) == Success(Scored([], []))
  {
    ScoreAllSucceeds(items, text, pre, analyze);
    ScoreAllLockstep(items, text, pre, analyze);
  }

  /** When the loop fails on a prefix of the items it fails on all of them, with the same error. */
  lemma {:induction false} ScoreAllFailureSticks(items: seq<NewsItem>, j: nat, text: NewsItem -> string, pre: Option<string> -> string, analyze: string -> Result<SentimentResult, string>)
    requires j <= |items| && ScoreAll(items[..j], text, pre, analyze).Failure?
    ensures ScoreAll(items, text, pre, analyze) == ScoreAll(items[..j], text, pre, analyze)
    decreases |items| - j
  {
    if j < |items| {
      assert items[..j + 1][..j] == items[..j];
      ScoreAllFailureSticks(items, j + 1, text, pre, analyze);
    } else {
      assert items[..j] == items;
    }
  }

  /** The loop of `get_sentiment`, appending to both lists in lock-step. */
  method ScoreItems(items: seq<NewsItem>, pre: Option<string> -> string, analyze: string -> Result<SentimentResult, string>)
    returns (r: Result<Scored, string>)
    ensures r == ScoreAll(items, TextOf(pre), pre, analyze)
  {
    var sentimentResults: seq<SentimentResult> := [];
    var processedItems: seq<ProcessedItem> := [];
    var i := 0;
    while i < |items|
      invariant 0 <= i <= |items|
      invariant ScoreAll(items[..i], TextOf(pre), pre, analyze) == Success(Scored(sentimentResults, processedItems))
    {
      var item := items[i];
      assert items[..i + 1][..i] == items[..i];
      var headline := pre(item.headline);
      var summary := pre(item.summary);
      var text := Strip(headline + " " + summary);
      if text != [] {
        var sentiment := analyze(text);
        if sentiment.Failure? {
          ScoreAllFailureSticks(items, i + 1, TextOf(pre), pre, analyze);
          return Failure(sentiment.error);
        }
        sentimentResults := sentimentResults + [sentiment.value];
        processedItems := processedItems + [ProcessedItem(item.datetime, headline, sentiment.value.predicted, sentiment.value.score)];
      }
      i := i + 1;
    }
    assert items[..i] == items;
    return Success(Scored(sentimentResults, processedItems));
  }

  // ---------------------------------------------------------------------------------------------
  // The endpoint

  /** The date range of the request, computed from the clock (not modelled). */
  datatype Period = Period(fromDate: string, toDate: string)

  /** The five kinds of answer, with the fields that vary. */
  datatype Response =
    | InvalidTicker
    | NoNews(ticker: string, period: Period, days: int, summary: Summary)
    | Analysis(ticker: string, period: Period, summary: Summary, newsItems: seq<ProcessedItem>)
    | NotFound(ticker: string, details: string)
    | ServerError(ticker: string, days: int)

  /** The HTTP status of an answer: 200 for the two normal answers, 400, 404 or 500 otherwise. */
  function StatusCode(r: Response): (code: nat)
    ensures code in {200, 400, 404, 500}
    ensures code == 200 <==> r.NoNews? || r.Analysis?
  {
    match r
    case InvalidTicker => 400
    case NoNews(_, _, _, _) => 200
    case Analysis(_, _, _, _) => 200
    case NotFound(_, _) => 404
    case ServerError(_, _) => 500
  }

  /** The summary sent when no news is found, without calling the aggregator. */
  const NO_NEWS_SUMMARY: Summary :=
    Full(Neutral, 0.0, map[], map[Positive := 0.0, Neutral := 0.0, Negative := 0.0], 0)

  /** The text an exception from the client carries after its fixed prefix. */
  function Detail(e: FetchError): string {
    match e
    case RequestFailed(_, details) => details
    case ParseFailed(reason) => reason
    case UnexpectedFormat(repr) => repr
    case ConnectFailed(reason) => reason
  }

  /** The handler of a client exception: a 404 quoting the message when it contains the phrase,
      otherwise the exception is re-raised and becomes a 500. */
  function FetchErrorResponse(ticker: string, days: int, e: FetchError): Response {
    if Contains(Message(e), NOT_FOUND_PHRASE) then NotFound(ticker, Message(e)) else ServerError(ticker, days)
  }

  /** The phrase occurs in a status-code error, always. */
  lemma RequestFailedMentionsPhrase(status: nat, details: string)
    ensures Contains(Message(RequestFailed(status, details)), NOT_FOUND_PHRASE)
  {
    var m := Message(RequestFailed(status, details));
    assert NOT_FOUND_PHRASE <= m;
    ContainsPrefix(m, NOT_FOUND_PHRASE);
  }

  /** In the other messages the phrase occurs only if the quoted text contains it. */
  lemma ParseFailedMentionsPhrase(reason: string)
    ensures Contains(Message(ParseFailed(reason)), NOT_FOUND_PHRASE) <==> Contains(reason, NOT_FOUND_PHRASE)
  {
    assert NOT_FOUND_PHRASE[6] == 'q' && ':' !in NOT_FOUND_PHRASE;
    ContainsAfterPrefix("Failed to parse API response: ", reason, NOT_FOUND_PHRASE, 6);
  }

  lemma UnexpectedFormatMentionsPhrase(repr: string)
    ensures Contains(Message(UnexpectedFormat(repr)), NOT_FOUND_PHRASE) <==> Contains(repr, NOT_FOUND_PHRASE)
  {
    assert NOT_FOUND_PHRASE[6] == 'q' && ':' !in NOT_FOUND_PHRASE;
    ContainsAfterPrefix("Unexpected API response format: ", repr, NOT_FOUND_PHRASE, 6);
  }

  lemma ConnectMessage(reason: string)
    ensures Message(ConnectFailed(reason)) == ("Failed to connect to Finnhub API after " + "3 attempts: ") + reason
  {
    assert NatToString(MAX_RETRIES) + " attempts: " == "3 attempts: ";
  }

  lemma ConnectPrefixLacks()
    ensures var p := "Failed to connect to Finnhub API after " + "3 attempts: ";
      2 <= |p| && 'q' !in p && p[|p| - 2] == ':' && p[|p| - 1] == ' '
  {
    assert 'q' !in "Failed to connect to Finnhub API after ";
  }

  lemma ConnectFailedMentionsPhrase(reason: string)
    ensures Contains(Message(ConnectFailed(reason)), NOT_FOUND_PHRASE) <==> Contains(reason, NOT_FOUND_PHRASE)
  {
    ConnectMessage(reason);
    ConnectPrefixLacks();
    assert NOT_FOUND_PHRASE[6] == 'q' && ':' !in NOT_FOUND_PHRASE;
    ContainsAfterPrefix("Failed to connect to Finnhub API after " + "3 attempts: ", reason, NOT_FOUND_PHRASE, 6);
  }

  /** The substring test singles out every status-code error, and any other client error only
      when the phrase occurs in the text it quotes. */
  lemma FetchErrorStatus(ticker: string, days: int, e: FetchError)
    ensures var r := FetchErrorResponse(ticker, days, e);
      && (StatusCode(r) == 404 <==> e.RequestFailed? || Contains(Detail(e), NOT_FOUND_PHRASE))
      && (StatusCode(r) == 404 ==> r == NotFound(ticker, Message(e)))
      && (StatusCode(r) != 404 ==> r == ServerError(ticker, days))
  {
    match e
    case RequestFailed(status, details) => RequestFailedMentionsPhrase(status, details);
    case ParseFailed(reason) => ParseFailedMentionsPhrase(reason);
    case UnexpectedFormat(repr) => UnexpectedFormatMentionsPhrase(repr);
    case ConnectFailed(reason) => ConnectFailedMentionsPhrase(reason);
  }

  /** What `get_sentiment` answers. */
  function Respond(raw: string, days: int, period: Period, script: seq<Attempt>,
                   toText: string -> string, analyze: string -> Result<SentimentResult, string>): Response
    requires MAX_RETRIES <= |script|
  {
    var ticker := NormalizeTicker(raw);
    if !IsTicker(ticker) then InvalidTicker
    else
      match Fetch(script, NEWS_LIMIT).result
      case Failure(e) => FetchErrorResponse(ticker, days, e)
      case Success(items) =>
        if items == [] then NoNews(ticker, period, days, NO_NEWS_SUMMARY)
        else
          var pre := PreprocessWith(toText);
          match ScoreAll(items, TextOf(pre), pre, analyze)
          case Failure(_) => ServerError(ticker, days)
          case Success(scored) =>
            match Aggregate(scored.results)
            case Failure(_) => ServerError(ticker, days)
            case Success(summary) => Analysis(ticker, period, summary, Head(scored.processed, PREVIEW_LIMIT as int))
  }

  /** How many requests the endpoint issues: none for a rejected ticker. */
  function RequestCount(raw: string, script: seq<Attempt>): (n: nat)
    requires MAX_RETRIES <= |script|
    ensures n <= MAX_RETRIES
    ensures n == 0 <==> !IsTicker(NormalizeTicker(raw))
  {
    if IsTicker(NormalizeTicker(raw)) then
      FetchBounds(script, NEWS_LIMIT, 0, BASE_DELAY);
      Fetch(script, NEWS_LIMIT).requests
    else 0
  }

  /** `get_sentiment`. */
  method GetSentiment(raw: string, days: int, period: Period, script: seq<Attempt>,
                      toText: string -> string, analyze: string -> Result<SentimentResult, string>)
    returns (resp: Response, requests: nat)
    requires MAX_RETRIES <= |script|
    ensures resp == Respond(raw, days, period, script, toText, analyze)
    ensures requests == RequestCount(raw, script)
  {
    var ticker := Upper(Strip(raw));
    if !IsTicker(ticker) {
      return InvalidTicker, 0;
    }
    var result, _, issued := GetCompanyNews(script, NEWS_LIMIT);
    requests := issued;
    if result.Failure? {
      var message := Message(result.error);
      if Contains(message, NOT_FOUND_PHRASE) {
        return NotFound(ticker, message), requests;
      }
      return ServerError(ticker, days), requests;
    }
    var newsItems := result.value;
    if newsItems == [] {
      return NoNews(ticker, period, days, NO_NEWS_SUMMARY), requests;
    }
    var scored := ScoreItems(newsItems, PreprocessWith(toText), analyze);
    if scored.Failure? {
      return ServerError(ticker, days), requests;
    }
    var aggregated := AggregateSentiment(scored.value.results);
    if aggregated.Failure? {
      return ServerError(ticker, days), requests;
    }
    resp := Analysis(ticker, period, aggregated.value, Head(scored.value.processed, PREVIEW_LIMIT as int));
  }

  // ---------------------------------------------------------------------------------------------
  // Properties of the endpoint

  /** A 400 is answered exactly for a ticker that is not one to five capital letters after
      normalisation, and then no request is issued; otherwise at least one is. */
  lemma BadTickerRejected(raw: string, days: int, period: Period, script: seq<Attempt>,
                          toText: string -> string, analyze: string -> Result<SentimentResult, string>)
    requires MAX_RETRIES <= |script|
    ensures StatusCode(Respond(raw, days, period, script, toText, analyze)) == 400 <==> !IsTicker(NormalizeTicker(raw))
    ensures RequestCount(raw, script) == 0 <==> !IsTicker(NormalizeTicker(raw))
  {
    FetchSchedule(script, NEWS_LIMIT);
    var ticker := NormalizeTicker(raw);
    if IsTicker(ticker) && Fetch(script, NEWS_LIMIT).result.Failure? {
      FetchErrorStatus(ticker, days, Fetch(script, NEWS_LIMIT).result.error);
    }
  }

  /** A failed fetch is a 404 quoting the exception exactly when it is a status-code error or the
      phrase occurs in the text it quotes, and a 500 otherwise. */
  lemma FetchFailureStatus(raw: string, days: int, period: Period, script: seq<Attempt>,
                           toText: string -> string, analyze: string -> Result<SentimentResult, string>)
    requires MAX_RETRIES <= |script|
    requires IsTicker(NormalizeTicker(raw)) && Fetch(script, NEWS_LIMIT).result.Failure?
    ensures var e := Fetch(script, NEWS_LIMIT).result.error;
      var r := Respond(raw, days, period, script, toText, analyze);
      && (StatusCode(r) == 404 <==> e.RequestFailed? || Contains(Detail(e), NOT_FOUND_PHRASE))
      && (StatusCode(r) == 404 ==> r == NotFound(NormalizeTicker(raw), Message(e)))
      && (StatusCode(r) != 404 ==> r == ServerError(NormalizeTicker(raw), days))
  {
    FetchErrorStatus(NormalizeTicker(raw), days, Fetch(script, NEWS_LIMIT).result.error);
  }

  /** No news: a 200 with the default summary (no distribution, three zero averages, no items). */
  lemma NoNewsDefault(raw: string, days: int, period: Period, script: seq<Attempt>,
                      toText: string -> string, analyze: string -> Result<SentimentResult, string>)
    requires MAX_RETRIES <= |script|
    requires IsTicker(NormalizeTicker(raw)) && Fetch(script, NEWS_LIMIT).result == Success([])
    ensures var r := Respond(raw, days, period, script, toText, analyze);
      && StatusCode(r) == 200 && r.NoNews?
      && r.summary.distribution == map[] && r.summary.itemCount == 0
      && r.summary.averageScores == map[Positive := 0.0, Neutral := 0.0, Negative := 0.0]
  {
  }

  /** When news arrives and every kept item is scored, the aggregator receives all the results in
      item order, and the response lists the first min(10, k) of the k processed items, each with
      its own label and score; an aggregator failure is a 500. */
  lemma AnalysisPreview(raw: string, days: int, period: Period, script: seq<Attempt>,
                        toText: string -> string, analyze: string -> Result<SentimentResult, string>)
    requires MAX_RETRIES <= |script|
    requires IsTicker(NormalizeTicker(raw))
    requires var f := Fetch(script, NEWS_LIMIT).result;
      var pre := PreprocessWith(toText);
      f.Success? && f.value != [] && ScoreAll(f.value, TextOf(pre), pre, analyze).Success?
    ensures var pre := PreprocessWith(toText);
      var items := Fetch(script, NEWS_LIMIT).result.value;
      var kept := Kept(items, TextOf(pre));
      var scored := ScoreAll(items, TextOf(pre), pre, analyze).value;
      var r := Respond(raw, days, period, script, toText, analyze);
      && |scored.results| == |kept| && |scored.processed| == |kept|
      && (Aggregate(scored.results).Failure? ==> r == ServerError(NormalizeTicker(raw), days))
      && (Aggregate(scored.results).Success? ==>
            && r.Analysis? && r.ticker == NormalizeTicker(raw) && r.period == period
            && r.summary == Aggregate(scored.results).value
            && r.newsItems <= scored.processed
            && |r.newsItems| == (if |kept| < PREVIEW_LIMIT then |kept| else PREVIEW_LIMIT)
            && (forall k :: 0 <= k < |r.newsItems| ==>
                  r.newsItems[k] == Processed(kept[k], scored.results[k], pre)))
  {
    var items := Fetch(script, NEWS_LIMIT).result.value;
    var pre := PreprocessWith(toText);
    ScoreAllLockstep(items, TextOf(pre), pre, analyze);
  }

  /** When every fetched item is skipped, the aggregator gets the empty list, and its short
      summary is the response's sentiment, with no items listed. */
  lemma AllSkipped(raw: string, days: int, period: Period, script: seq<Attempt>,
                   toText: string -> string, analyze: string -> Result<SentimentResult, string>)
    requires MAX_RETRIES <= |script|
    requires IsTicker(NormalizeTicker(raw))
    requires var f := Fetch(script, NEWS_LIMIT).result;
      var pre := PreprocessWith(toText);
      f.Success? && f.value != [] && Kept(f.value, TextOf(pre)) == []
    ensures Respond(raw, days, period, script, toText, analyze)
      == Analysis(NormalizeTicker(raw), period, Brief(Neutral, 0.0), [])
  {
    var items := Fetch(script, NEWS_LIMIT).result.value;
    var pre := PreprocessWith(toText);
    NothingKept(items, TextOf(pre), pre, analyze);
  }

  /** When the oracle raises on a kept item, the exception reaches the outer handler: a 500. */
  lemma OracleFailureIsServerError(raw: string, days: int, period: Period, script: seq<Attempt>,
                                   toText: string -> string, analyze: string -> Result<SentimentResult, string>)
    requires MAX_RETRIES <= |script|
    requires IsTicker(NormalizeTicker(raw))
    requires var f := Fetch(script, NEWS_LIMIT).result;
      var pre := PreprocessWith(toText);
      && f.Success? && f.value != []
      && exists x :: x in Kept(f.value, TextOf(pre)) && analyze(ItemText(x, pre)).Failure?
    ensures Respond(raw, days, period, script, toText, analyze) == ServerError(NormalizeTicker(raw), days)
  {
    var items := Fetch(script, NEWS_LIMIT).result.value;
    var pre := PreprocessWith(toText);
    ScoreAllSucceeds(items, TextOf(pre), pre, analyze);
  }

  /** A 200 whose body does not decode, or decodes to a truthy value that is not a list, ends the
      call at once; the answer is a 404 exactly when the quoted reason or body mentions the
      phrase, and a 500 otherwise. */
  lemma MalformedOkStatus(raw: string, days: int, period: Period, script: seq<Attempt>,
                          toText: string -> string, analyze: string -> Result<SentimentResult, string>)
    requires MAX_RETRIES <= |script|
    requires IsTicker(NormalizeTicker(raw))
    requires script[0].Response? && script[0].status == STATUS_OK
    requires script[0].body.Unparseable? || script[0].body.json.Truthy?
    ensures var detail := if script[0].body.Unparseable? then script[0].body.reason else script[0].body.json.repr;
      var r := Respond(raw, days, period, script, toText, analyze);
      && RequestCount(raw, script) == 1
      && (StatusCode(r) == 404 <==> Contains(detail, NOT_FOUND_PHRASE))
      && (StatusCode(r) != 404 ==> r == ServerError(NormalizeTicker(raw), days))
  {
    NoRetryWithoutCause(script, NEWS_LIMIT);
    FetchFailureStatus(raw, days, period, script, toText, analyze);
  }

  /** An oracle that always reports per-label scores never makes the aggregator fail. */
  lemma ScoresAlwaysAggregate(items: seq<NewsItem>, text: NewsItem -> string, pre: Option<string> -> string, analyze: string -> Result<SentimentResult, string>)
    requires forall t :: analyze(t).Success? ==> analyze(t).value.scores.Some?
    requires ScoreAll(items, text, pre, analyze).Success?
    ensures Aggregate(ScoreAll(items, text, pre, analyze).value.results).Success?
  {
    ScoreAllLockstep(items, text, pre, analyze);
  }
}

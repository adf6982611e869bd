/**
 * `TickerResolver`: whether a language-model client exists, how an index is
 * classified as Indian or international, how a reply is unwrapped from a
 * Markdown code fence, and how tickers are shown with company names.
 *
 * The model call and `json.loads` are parameters: `ask` stands for
 * `client.messages.create(...)` followed by `.content[0].text`, and `parse`
 * for `json.loads`.
 */
module TickerResolver {
  import opened Wrappers
  import opened Text

  /** The keywords that mark an Indian index. */
  const IndianKeywords: seq<string> := ["nifty", "sensex", "bse", "nse"]

  const IndianContext: string := "Indian stock market (NSE/BSE)"
  const InternationalContext: string := "International stock market"

  /** A client of the model API, built for a key. */
  datatype Client = Client(apiKey: string)

  /** What the prompt is built from (its fixed wording is not modelled). */
  datatype Request = Request(indexName: string, marketContext: string, diffText: string)

  /** What the API call gave: the reply text, or an exception. */
  datatype Reply = Answered(text: string) | Failed

  /** `any(keyword in index_name.lower() for keyword in indian_keywords)`. */
  predicate IsIndian(indexName: string)
    ensures IsIndian(indexName) <==>
      exists k :: 0 <= k < |IndianKeywords| && Contains(Lower(indexName), IndianKeywords[k])
  {
    var name := Lower(indexName);
    assert IndianKeywords[0] == "nifty" && IndianKeywords[1] == "sensex";
    assert IndianKeywords[2] == "bse" && IndianKeywords[3] == "nse";
    Contains(name, "nifty") || Contains(name, "sensex") || Contains(name, "bse") || Contains(name, "nse")
  }

  /** The market context put into the prompt. */
  function MarketContext(indexName: string): (r: string)
    ensures r == IndianContext <==> IsIndian(indexName)
    ensures r == InternationalContext <==> !IsIndian(indexName)
  {
    if IsIndian(indexName) then IndianContext else InternationalContext
  }

  /** `lines[1:-1]`: all but the first and the last line, empty for fewer than three. */
  function InnerLines(lines: seq<string>): (r: seq<string>)
    ensures |lines| <= 2 ==> r == []
    ensures |lines| > 2 ==> r == lines[1..|lines| - 1]
  {
    if |lines| <= 2 then [] else lines[1..|lines| - 1]
  }

  /** The reply text after stripping and removing a Markdown code fence. */
  function Unfenced(reply: string): string {
    var text := Strip(reply);
    if StartsWith(text, "```") then Join(InnerLines(Split(text, '\n')), '\n') else text
  }

  /** A stripped reply that does not open a fence is passed on unchanged. */
  lemma UnfencedPlain(reply: string)
    requires Strip(reply) == reply
    requires !StartsWith(reply, "```")
    ensures Unfenced(reply) == reply
  {
  }

  /**
   * A fenced reply, an opening line then the body then a closing line, is
   * unwrapped to exactly its body: the first and last lines are dropped and
   * the rest joined back.
   */
  lemma UnfencedBody(opening: string, body: string, closing: string)
    requires StartsWith(opening, "```")
    requires '\n' !in opening && '\n' !in closing
    requires Strip(opening + "\n" + body + "\n" + closing) == opening + "\n" + body + "\n" + closing
    ensures Unfenced(opening + "\n" + body + "\n" + closing) == body
  {
    var text := opening + "\n" + body + "\n" + closing;
    assert text[..3] == opening[..3];
    assert text == opening + ['\n'] + (body + ['\n'] + closing);
    SplitAt(opening, '\n', body + ['\n'] + closing);
    SplitAt(body, '\n', closing);
    SplitSingle(opening, '\n');
    SplitSingle(closing, '\n');
    var pieces := Split(body, '\n');
    assert Split(text, '\n') == [opening] + pieces + [closing];
    assert InnerLines([opening] + pieces + [closing]) == pieces;
    JoinSplit(body, '\n');
  }

  /** The reply of the code-fence test case is unwrapped to its JSON object. */
  lemma UnfencedExample()
    ensures Unfenced("```json\n{\"AAPL\": \"Apple Inc.\"}\n```") == "{\"AAPL\": \"Apple Inc.\"}"
  {
    var opening, body, closing := "```json", "{\"AAPL\": \"Apple Inc.\"}", "```";
    ExampleParts(opening, body, closing);
    assert StartsWith(opening, "```") by {
      assert opening[..3] == "```";
    }
    assert '\n' !in opening && '\n' !in closing;
    ExampleStripped(opening, body, closing);
    UnfencedBody(opening, body, closing);
  }

  lemma ExampleParts(opening: string, body: string, closing: string)
    requires opening == "```json" && body == "{\"AAPL\": \"Apple Inc.\"}" && closing == "```"
    ensures opening + "\n" + body + "\n" + closing == "```json\n{\"AAPL\": \"Apple Inc.\"}\n```"
  {
  }

  lemma ExampleStripped(opening: string, body: string, closing: string)
    requires opening == "```json" && closing == "```"
    ensures Strip(opening + "\n" + body + "\n" + closing) == opening + "\n" + body + "\n" + closing
  {
    var text := opening + "\n" + body + "\n" + closing;
    assert text[0] == opening[0] == '`';
    assert text[|text| - 1] == closing[2] == '`';
    StripUnchanged(text);
  }

  /** `company_name and company_name != "Unknown Company"`: a usable name. */
  predicate Named(tickerMap: map<string, string>, ticker: string) {
    ticker in tickerMap && tickerMap[ticker] != "" && tickerMap[ticker] != "Unknown Company"
  }

  /** How one ticker is shown. */
  function WithCompanyName(ticker: string, tickerMap: map<string, string>): (r: string)
    ensures StartsWith(r, ticker)
    ensures Named(tickerMap, ticker) ==> r == ticker + " (" + tickerMap[ticker] + ")"
    ensures !Named(tickerMap, ticker) ==> r == ticker
  {
    if Named(tickerMap, ticker) then
      var r := ticker + " (" + tickerMap[ticker] + ")";
      assert r[..|ticker|] == ticker;
      r
    else ticker
  }

  class TickerResolver {
    const apiKey: Option<string>
    const client: Option<Client>

    /**
     * `TickerResolver(api_key)`: `environmentKey` is `ANTHROPIC_API_KEY`, and
     * `clientStarts` whether constructing the client succeeds.
     */
    constructor(apiKey: Option<string>, environmentKey: Option<string>, clientStarts: bool)
      ensures this.apiKey == (if apiKey.Some? && apiKey.value != "" then apiKey else environmentKey)
      ensures IsAvailable() <==> this.apiKey.Some? && this.apiKey.value != "" && clientStarts
      ensures client.Some? ==> client.value.apiKey == this.apiKey.value
    {
      var key := if apiKey.Some? && apiKey.value != "" then apiKey else environmentKey;
      this.apiKey := key;
      if key.Some? && key.value != "" && clientStarts {
        this.client := Some(Client(key.value));
      } else {
        this.client := None;
      }
    }

    /** `is_available()`. */
    predicate IsAvailable() {
      client.Some?
    }

    /** `resolve_tickers(diff_text, index_name)`. */
    method ResolveTickers(diffText: string, indexName: string, ask: (Client, Request) -> Reply,
                          parse: string -> Option<map<string, string>>)
      returns (tickerMap: map<string, string>)
      ensures !IsAvailable() ==> tickerMap == map[]
      ensures IsAvailable() ==>
        var reply := ask(client.value, Request(indexName, MarketContext(indexName), diffText));
        tickerMap == if reply.Failed? then map[] else parse(Unfenced(reply.text)).GetOr(map[])
    {
      if !IsAvailable() {
        return map[];
      }
      var marketContext := if IsIndian(indexName) then IndianContext else InternationalContext;
      var reply := ask(client.value, Request(indexName, marketContext, diffText));
      if reply.Failed? {
        return map[];
      }
      var responseText := Strip(reply.text);
      if StartsWith(responseText, "```") {
        var lines := Split(responseText, '\n');
        responseText := Join(InnerLines(lines), '\n');
      }
      match parse(responseText) {
        case Some(parsed) => tickerMap := parsed;
        case None => tickerMap := map[];
      }
    }

    /** `format_with_company_names(tickers, ticker_map)`. */
    method FormatWithCompanyNames(tickers: seq<string>, tickerMap: map<string, string>) returns (formatted: seq<string>)
      ensures |formatted| == |tickers|
      ensures forall i :: 0 <= i < |tickers| ==> formatted[i] == WithCompanyName(tickers[i], tickerMap)
    {
      formatted := [];
      for k := 0 to |tickers|
        invariant |formatted| == k
        invariant forall i :: 0 <= i < k ==> formatted[i] == WithCompanyName(tickers[i], tickerMap)
      {
        var ticker := tickers[k];
        if ticker in tickerMap && tickerMap[ticker] != "" && tickerMap[ticker] != "Unknown Company" {
          formatted := formatted + [ticker + " (" + tickerMap[ticker] + ")"];
        } else {
          formatted := formatted + [ticker];
        }
      }
    }
  }

  /** With an empty map every ticker is shown as it is. */
  lemma EmptyMapIsIdentity(tickers: seq<string>, formatted: seq<string>)
    requires |formatted| == |tickers|
    requires forall i :: 0 <= i < |tickers| ==> formatted[i] == WithCompanyName(tickers[i], map[])
    ensures formatted == tickers
  {
  }

  /** A ticker mapped to "Unknown Company" is shown bare. */
  lemma UnknownCompanyShownBare(ticker: string, tickerMap: map<string, string>)
    requires ticker in tickerMap && tickerMap[ticker] == "Unknown Company"
    ensures WithCompanyName(ticker, tickerMap) == ticker
  {
  }

  /** "Nifty 50" is Indian; "VXUS" and "S&P 500" are international. */
  lemma MarketExamples()
    ensures MarketContext("Nifty 50") == IndianContext
    ensures MarketContext("VXUS") == InternationalContext
    ensures MarketContext("S&P 500") == InternationalContext
  {
    NiftyIsIndian();
    VxusIsInternational();
    SpIsInternational();
  }

  lemma VxusIsInternational()
    ensures !IsIndian("VXUS")
  {
    NotIndian("VXUS");
  }

  lemma SpIsInternational()
    ensures !IsIndian("S&P 500")
  {
    NotIndian("S&P 500");
  }

  lemma NiftyIsIndian()
    ensures IsIndian("Nifty 50")
  {
    var name := Lower("Nifty 50");
    assert name[..5] == "nifty";
    assert OccursAt(name, "nifty", 0);
  }

  /** A name none of whose lower-cased letters is 'n' or 'b' has no keyword. */
  lemma NotIndian(indexName: string)
    requires forall i :: 0 <= i < |indexName| ==> LowerChar(indexName[i]) != 'n' && LowerChar(indexName[i]) != 'b'
    ensures !IsIndian(indexName)
  {
    var name := Lower(indexName);
    Absent(name, "nifty", 0);
    Absent(name, "sensex", 2);
    Absent(name, "bse", 0);
    Absent(name, "nse", 0);
  }

  /** A word one of whose characters never occurs in `s` is not contained in `s`. */
  lemma Absent(s: string, word: string, j: nat)
    requires j < |word|
    requires forall i :: 0 <= i < |s| ==> s[i] != word[j]
    ensures !Contains(s, word)
  {
  }
}

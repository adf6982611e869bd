/**
 * The index constituent fetchers: symbol cleaning and the rules by which each
 * source accepts a ticker. The HTTP requests, the JSON decoding and the HTML
 * and CSV parsing are not part of this model: each fetcher receives what that
 * step produced (the symbols of the response, the cell texts of a table), or
 * `None`/an error value when the step raised.
 */
module IndexFetchers {
  import opened Wrappers
  import opened Text

  /** The no-break space U+00A0 (written both `'\xa0'` and `' '` in the source). */
  const NoBreakSpace: char := '\U{A0}'

  /** `s.replace('\xa0', ' ')`. */
  function ReplaceNoBreakSpace(s: string): (r: string)
    ensures |r| == |s|
    ensures forall i :: 0 <= i < |s| ==> r[i] == (if s[i] == NoBreakSpace then ' ' else s[i])
  {
    if s == [] then [] else [if s[0] == NoBreakSpace then ' ' else s[0]] + ReplaceNoBreakSpace(s[1..])
  }

  /** `clean_symbol(symbol)`. */
  function CleanSymbol(symbol: string): string {
    Strip(ReplaceNoBreakSpace(symbol))
  }

  /** Stripping only removes characters. */
  lemma StripKeeps(s: string)
    ensures forall i :: 0 <= i < |Strip(s)| ==> Strip(s)[i] in s
  {
    var t := TrimStart(s);
    var r := Strip(s);
    assert t == s[|s| - |t|..];
    assert r == t[..|r|];
    forall i | 0 <= i < |r| ensures r[i] in s {
      assert r[i] == s[|s| - |t| + i];
    }
  }

  /** After the replacement no no-break space is left. */
  lemma ReplacedHasNoBreakSpace(s: string)
    ensures NoBreakSpace !in ReplaceNoBreakSpace(s)
    ensures ReplaceNoBreakSpace(ReplaceNoBreakSpace(s)) == ReplaceNoBreakSpace(s)
  {
    var r := ReplaceNoBreakSpace(s);
    assert forall i :: 0 <= i < |r| ==> r[i] != NoBreakSpace;
  }

  /** A cleaned symbol holds no no-break space and has no whitespace at either end. */
  lemma CleanSymbolClean(symbol: string)
    ensures NoBreakSpace !in CleanSymbol(symbol)
    ensures CleanSymbol(symbol) == [] || (!IsSpace(CleanSymbol(symbol)[0]) && !IsSpace(CleanSymbol(symbol)[|CleanSymbol(symbol)| - 1]))
  {
    var replaced := ReplaceNoBreakSpace(symbol);
    var r := Strip(replaced);
    ReplacedHasNoBreakSpace(symbol);
    StripKeeps(replaced);
    forall i | 0 <= i < |r| ensures r[i] != NoBreakSpace {
      assert r[i] in replaced;
    }
  }

  /** Cleaning a cleaned symbol changes nothing. */
  lemma CleanSymbolIdempotent(symbol: string)
    ensures CleanSymbol(CleanSymbol(symbol)) == CleanSymbol(symbol)
  {
    var r := CleanSymbol(symbol);
    CleanSymbolClean(symbol);
    assert ReplaceNoBreakSpace(r) == r;
    StripUnchanged(r);
  }

  /**
   * Between non-blank ends, cleaning only turns each no-break space into an
   * ordinary space: the inner spacing of a name such as "M&M FIN" is kept.
   */
  lemma CleanSymbolInner(symbol: string)
    requires symbol != []
    requires !IsSpace(symbol[0]) && !IsSpace(symbol[|symbol| - 1])
    ensures CleanSymbol(symbol) == ReplaceNoBreakSpace(symbol)
  {
    StripUnchanged(ReplaceNoBreakSpace(symbol));
  }

  /* ---------- Regular expressions ---------- */

  /** The character class `[A-Z]` of the Nasdaq filter. */
  predicate IsUpperLetter(c: char) {
    'A' <= c <= 'Z'
  }

  /** The character class `[A-Z0-9./]` of the Vanguard filter. */
  predicate IsVanguardChar(c: char) {
    'A' <= c <= 'Z' || '0' <= c <= '9' || c == '.' || c == '/'
  }

  /** 1 to 5 characters from `[A-Z]`. */
  predicate IsNasdaqTicker(s: string) {
    1 <= |s| <= 5 && forall i :: 0 <= i < |s| ==> IsUpperLetter(s[i])
  }

  /** 1 to 12 characters from `[A-Z0-9./]`. */
  predicate IsVanguardTicker(s: string) {
    1 <= |s| <= 12 && forall i :: 0 <= i < |s| ==> IsVanguardChar(s[i])
  }

  /**
   * `re.match(r'^[A-Z]{1,5}$', s)`: Python's `$` also matches just before a
   * final newline, so a conforming text followed by "\n" matches too.
   */
  predicate NasdaqMatch(s: string) {
    IsNasdaqTicker(s) || (s != [] && s[|s| - 1] == '\n' && IsNasdaqTicker(s[..|s| - 1]))
  }

  /** `re.match(r'^[A-Z0-9./]{1,12}$', s)`, with the same final-newline case. */
  predicate VanguardMatch(s: string) {
    IsVanguardTicker(s) || (s != [] && s[|s| - 1] == '\n' && IsVanguardTicker(s[..|s| - 1]))
  }

  /** On a stripped text the final-newline case cannot arise. */
  lemma StrippedMatch(s: string)
    ensures NasdaqMatch(Strip(s)) <==> IsNasdaqTicker(Strip(s))
    ensures VanguardMatch(Strip(s)) <==> IsVanguardTicker(Strip(s))
  {
  }

  /* ---------- NSE ---------- */

  /** What the NSE API call gave: the `symbol` of each `data` item ("" when absent), or an exception. */
  datatype ApiReply = ApiData(symbols: seq<string>) | ApiError

  /** What the CSV fallback read: column 2, `None` for a missing cell, or an exception. */
  datatype CsvReply = CsvData(column: seq<Option<string>>) | CsvError

  /** The symbols the API loop adds. */
  function ApiSymbols(symbols: seq<string>, indexName: string): (r: set<string>)
    ensures "" !in r && indexName !in r
    ensures forall s :: s in r <==> s in symbols && s != "" && s != indexName
  {
    if symbols == [] then {}
    else
      var init := symbols[..|symbols| - 1];
      var last := symbols[|symbols| - 1];
      assert symbols == init + [last];
      ApiSymbols(init, indexName) + (if last != "" && last != indexName then {last} else {})
  }

  /** `_fetch_nse_csv_fallback(index_name)`: the present cells, without the index name. */
  function CsvSymbols(csv: CsvReply, indexName: string): (r: set<string>)
    ensures indexName !in r
    ensures forall s :: s in r <==> csv.CsvData? && Some(s) in csv.column && s != indexName
  {
    if csv.CsvError? then {}
    else (set c | c in csv.column && c.Some? :: c.value) - {indexName}
  }

  /** `NSEFetcher.fetch(params)`. */
  method NseFetch(params: map<string, string>, api: ApiReply, csv: CsvReply) returns (constituents: set<string>)
    ensures Get(params, "index_name", "") == "" ==> constituents == {}
    ensures Get(params, "index_name", "") != "" ==>
      var indexName := params["index_name"];
      constituents == if api.ApiData? then ApiSymbols(api.symbols, indexName) else CsvSymbols(csv, indexName)
    ensures Get(params, "index_name", "") !in constituents
    ensures "" in constituents ==> api.ApiError? && csv.CsvData? && Some("") in csv.column
  {
    var indexName := Get(params, "index_name", "");
    if indexName == "" {
      return {};
    }
    if api.ApiError? {
      return CsvSymbols(csv, indexName);
    }
    constituents := {};
    for k := 0 to |api.symbols|
      invariant constituents == ApiSymbols(api.symbols[..k], indexName)
    {
      assert api.symbols[..k + 1][..k] == api.symbols[..k];
      var symbol := api.symbols[k];
      if symbol != "" && symbol != indexName {
        constituents := constituents + {symbol};
      }
    }
    assert api.symbols[..|api.symbols|] == api.symbols;
  }

  /* ---------- Nasdaq ---------- */

  /** The header texts that name the ticker column. */
  const TickerHeaders: set<string> := {"ticker", "symbol", "ticker symbol"}

  /** `cell.get_text().strip().lower()`. */
  function HeaderText(cell: string): string {
    Lower(Strip(cell))
  }

  /** The header text of each cell. */
  function HeaderTexts(cells: seq<string>): (r: seq<string>)
    ensures |r| == |cells| && forall i :: 0 <= i < |cells| ==> r[i] == HeaderText(cells[i])
  {
    if cells == [] then [] else [HeaderText(cells[0])] + HeaderTexts(cells[1..])
  }

  /** A header text naming the ticker column. */
  predicate IsTickerHeader(text: string) {
    text in TickerHeaders
  }

  /** The first header text naming the ticker column, if any. */
  function FirstTickerHeader(texts: seq<string>): (r: Option<nat>)
    ensures r.Some? ==> r.value < |texts| && IsTickerHeader(texts[r.value])
                        && forall j :: 0 <= j < r.value ==> !IsTickerHeader(texts[j])
    ensures r.None? ==> forall i :: 0 <= i < |texts| ==> !IsTickerHeader(texts[i])
  {
    if texts == [] then None
    else if IsTickerHeader(texts[0]) then Some(0)
    else
      match FirstTickerHeader(texts[1..])
      case Some(i) => Some(i + 1)
      case None => None
  }

  /** The column `_find_ticker_column` chooses: the first ticker header, else column 1. */
  function TickerColumn(headerCells: seq<string>): nat {
    FirstTickerHeader(HeaderTexts(headerCells)).GetOr(1)
  }

  /**
   * The chosen column is the first whose stripped, lower-cased header is
   * "ticker", "symbol" or "ticker symbol"; when no header is, it is column 1.
   */
  lemma TickerColumnChoice(headerCells: seq<string>)
    ensures var texts, c := HeaderTexts(headerCells), TickerColumn(headerCells);
      && ((exists i :: 0 <= i < |texts| && IsTickerHeader(texts[i])) ==>
            c < |texts| && IsTickerHeader(texts[c]) && forall j :: 0 <= j < c ==> !IsTickerHeader(texts[j]))
      && ((forall i :: 0 <= i < |texts| ==> !IsTickerHeader(texts[i])) ==> c == 1)
  {
  }

  lemma NoTickerHeaderYet(texts: seq<string>, k: nat)
    requires k < |texts| && !IsTickerHeader(texts[k])
    requires forall j :: 0 <= j < k ==> !IsTickerHeader(texts[j])
    ensures forall j :: 0 <= j < k + 1 ==> !IsTickerHeader(texts[j])
  {
  }

  lemma FirstTickerHeaderAt(texts: seq<string>, k: nat)
    requires k < |texts| && IsTickerHeader(texts[k])
    requires forall j :: 0 <= j < k ==> !IsTickerHeader(texts[j])
    ensures FirstTickerHeader(texts) == Some(k)
  {
  }

  lemma FirstTickerHeaderAbsent(texts: seq<string>)
    requires forall j :: 0 <= j < |texts| ==> !IsTickerHeader(texts[j])
    ensures FirstTickerHeader(texts) == None
  {
  }

  /** `_find_ticker_column(table)`, over the cell texts of the first row. */
  method FindTickerColumn(headerCells: seq<string>) returns (tickerColumn: nat)
    ensures tickerColumn == TickerColumn(headerCells)
  {
    ghost var texts := HeaderTexts(headerCells);
    var found: Option<nat> := None;
    var k := 0;
    while k < |headerCells|
      invariant 0 <= k <= |headerCells|
      invariant forall j :: 0 <= j < k ==> !IsTickerHeader(texts[j])
      invariant found.None?
    {
      var cellText := Lower(Strip(headerCells[k]));
      assert cellText == texts[k];
      if cellText in TickerHeaders {
        FirstTickerHeaderAt(texts, k);
        found := Some(k);
        break;
      }
      NoTickerHeaderYet(texts, k);
      k := k + 1;
    }
    if found.None? {
      FirstTickerHeaderAbsent(texts);
    }
    return found.GetOr(1);
  }

  /** The ticker one row contributes: its stripped cell in the ticker column when that matches the pattern. */
  function RowTicker(cells: seq<string>, column: nat): (r: set<string>)
    ensures forall t :: t in r ==> IsNasdaqTicker(t)
    ensures |cells| > column && Strip(cells[column]) != "" && NasdaqMatch(Strip(cells[column])) ==> r == {Strip(cells[column])}
    ensures !(|cells| > column && NasdaqMatch(Strip(cells[column]))) ==> r == {}
  {
    StrippedMatch(if |cells| > column then cells[column] else "");
    if |cells| > column && NasdaqMatch(Strip(cells[column])) then {Strip(cells[column])} else {}
  }

  /** The stripped texts of column `column` of `rows` that match the Nasdaq pattern. */
  function ColumnTickers(rows: seq<seq<string>>, column: nat): (r: set<string>)
    ensures forall t :: t in r ==> IsNasdaqTicker(t)
  {
    if rows == [] then {}
    else ColumnTickers(rows[..|rows| - 1], column) + RowTicker(rows[|rows| - 1], column)
  }

  lemma ColumnTickersStep(rows: seq<seq<string>>, k: nat, column: nat)
    requires k < |rows|
    ensures ColumnTickers(rows[..k + 1], column) == ColumnTickers(rows[..k], column) + RowTicker(rows[k], column)
  {
    assert rows[..k + 1][..k] == rows[..k];
  }

  /** The empty text is no ticker. */
  lemma EmptyIsNoNasdaqTicker()
    ensures !NasdaqMatch("")
  {
  }

  /** The body of the Nasdaq loop for one row. */
  method AddRow(constituents: set<string>, cells: seq<string>, tickerColumn: nat) returns (r: set<string>)
    ensures r == constituents + RowTicker(cells, tickerColumn)
  {
    r := constituents;
    if |cells| > tickerColumn {
      var ticker := Strip(cells[tickerColumn]);
      EmptyIsNoNasdaqTicker();
      if ticker != "" && NasdaqMatch(ticker) {
        r := r + {ticker};
      }
    }
  }

  /** The tickers of a constituents table: its first row is the header. */
  function NasdaqTickers(table: seq<seq<string>>): set<string> {
    if table == [] then {} else ColumnTickers(table[1..], TickerColumn(table[0]))
  }

  /**
   * `NasdaqFetcher.fetch(params)`, over the cell texts of the constituents
   * table (`None` when no table was found or the request raised).
   */
  method NasdaqFetch(table: Option<seq<seq<string>>>) returns (constituents: set<string>)
    ensures table.None? ==> constituents == {}
    ensures table.Some? ==> constituents == NasdaqTickers(table.value)
    ensures forall t :: t in constituents ==> IsNasdaqTicker(t)
  {
    if table.None? {
      return {};
    }
    var headerCells := if table.value == [] then [] else table.value[0];
    var tickerColumn := FindTickerColumn(headerCells);
    var rows := if table.value == [] then [] else table.value[1..];
    constituents := {};
    for k := 0 to |rows|
      invariant constituents == ColumnTickers(rows[..k], tickerColumn)
    {
      ColumnTickersStep(rows, k, tickerColumn);
      constituents := AddRow(constituents, rows[k], tickerColumn);
    }
    assert rows[..|rows|] == rows;
  }

  /* ---------- Vanguard ---------- */

  /** The `ticker` of a holding: absent, JSON null, or a string. */
  datatype TickerField = Missing | Null | Text(value: string)

  /** The ticker one holding contributes: its stripped text when that matches the pattern. */
  function FieldTicker(field: TickerField): (r: set<string>)
    ensures forall t :: t in r ==> IsVanguardTicker(t)
  {
    StrippedMatch(if field.Text? then field.value else "");
    if field.Text? && VanguardMatch(Strip(field.value)) then {Strip(field.value)} else {}
  }

  /** The tickers the Vanguard loop adds; `Null` fields never reach it. */
  function HoldingTickers(holdings: seq<TickerField>): (r: set<string>)
    ensures forall t :: t in r ==> IsVanguardTicker(t)
  {
    if holdings == [] then {}
    else HoldingTickers(holdings[..|holdings| - 1]) + FieldTicker(holdings[|holdings| - 1])
  }

  lemma HoldingTickersStep(holdings: seq<TickerField>, k: nat)
    requires k < |holdings|
    ensures HoldingTickers(holdings[..k + 1]) == HoldingTickers(holdings[..k]) + FieldTicker(holdings[k])
  {
    assert holdings[..k + 1][..k] == holdings[..k];
  }

  /** The empty text is no ticker. */
  lemma EmptyIsNoTicker()
    ensures !VanguardMatch("")
  {
  }

  /**
   * `VanguardFetcher.fetch(params)`, over the `ticker` fields of the holdings
   * (`None` when the request raised). A null ticker makes `.strip()` raise,
   * and the handler then returns the empty set for the whole fund.
   */
  method VanguardFetch(holdings: Option<seq<TickerField>>) returns (constituents: set<string>)
    ensures holdings.None? ==> constituents == {}
    ensures holdings.Some? && Null in holdings.value ==> constituents == {}
    ensures holdings.Some? && Null !in holdings.value ==> constituents == HoldingTickers(holdings.value)
    ensures forall t :: t in constituents ==> IsVanguardTicker(t)
  {
    if holdings.None? {
      return {};
    }
    var entries := holdings.value;
    constituents := {};
    for k := 0 to |entries|
      invariant constituents == HoldingTickers(entries[..k])
      invariant Null !in entries[..k]
    {
      var field := entries[k];
      if field.Null? {
        return {};
      }
      NullFreeStep(entries, k);
      HoldingTickersStep(entries, k);
      constituents := AddHolding(constituents, field);
    }
    assert entries[..|entries|] == entries;
  }

  lemma NullFreeStep(entries: seq<TickerField>, k: nat)
    requires k < |entries| && Null !in entries[..k] && !entries[k].Null?
    ensures Null !in entries[..k + 1]
  {
    assert entries[..k + 1] == entries[..k] + [entries[k]];
  }

  /** The body of the Vanguard loop for one holding whose ticker is not null. */
  method AddHolding(constituents: set<string>, field: TickerField) returns (r: set<string>)
    requires !field.Null?
    ensures r == constituents + FieldTicker(field)
  {
    var tickerSymbol := if field.Text? then Strip(field.value) else "";
    EmptyIsNoTicker();
    r := constituents;
    if tickerSymbol != "" && VanguardMatch(tickerSymbol) {
      r := r + {tickerSymbol};
    }
  }

  /* ---------- Invesco ---------- */

  /**
   * `InvescoFetcher.fetch(params)`: QQQM tracks the Nasdaq-100, so it is
   * answered by the Nasdaq fetcher; every other fund gives the empty set.
   */
  method InvescoFetch(params: map<string, string>, nasdaqTable: Option<seq<seq<string>>>) returns (constituents: set<string>)
    ensures Upper(Get(params, "ticker", "QQQM")) != "QQQM" ==> constituents == {}
    ensures Upper(Get(params, "ticker", "QQQM")) == "QQQM" ==>
              constituents == if nasdaqTable.None? then {} else NasdaqTickers(nasdaqTable.value)
    ensures forall t :: t in constituents ==> IsNasdaqTicker(t)
  {
    var ticker := Upper(Get(params, "ticker", "QQQM"));
    if ticker == "QQQM" {
      constituents := NasdaqFetch(nasdaqTable);
    } else {
      constituents := {};
    }
  }
}

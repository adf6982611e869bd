# Argus portfolio monitor — Dafny model

Argus watches a set of stock indexes and mutual funds. Each month it does five things:
- fetches the current constituents of each index and the holdings of each fund;
- compares them with the snapshot saved by the previous run;
- saves the new snapshot;
- builds an e-mail subject and body;
- hands the e-mail to an SMTP notifier.

This project models the core of that pipeline and proves what each part promises.

- **Text** and **Ordering** model the pieces of Python's string and list behaviour the core relies on:
  - `str.strip`, `lower`, `upper`, `startswith`, `in`, `split` and `join`;
  - decimal rendering of counts;
  - string `<`, and `sorted(set(xs))`.
- **ChangeDetector** models `src/detectors/change_detector.py`.
  - The fund diff has four parts: additions, exits, and increases and decreases of at least the threshold.
  - The index diff holds the added and removed tickers of every index, each list sorted.
  - Each result is specified by a predicate: `IsFundDiff` or `IsIndexDiff`.
  - The methods are proved to meet those predicates, and the lemmas prove what the predicates imply.
- **IndexMonitor** models the legacy `monitor_indexes.py`: its own diff, proved equal to the new detector's, and its plain-text report.
- **Credentials** models `_clean_credential`, shared by the notifier and the Gmail fetcher.
- **Notifier** models `EmailNotifier`: its constructor and `send_email`.
- **Monitor** models `PortfolioMonitor` (`src/monitor.py`): the fetch loop, loading and saving state, the fund diffs, the subject and one whole run.
- **TickerResolver** models `TickerResolver`: the market context of the prompt, code-fence removal and the `TICKER (Company)` formatting.
- **GmailFetcher** models `extract_download_links` and `fetch_portfolio_from_email`. These cover candidate filtering, de-duplication by URL and prioritising links that name the fund.
- **IndexFetchers** models the parsing in the NSE, Nasdaq, Vanguard and Invesco fetchers.

The outside world enters as parameters. These include:
- fetch outcomes: `Fetched(value)` or `Raised`;
- the stored state file, as an `Option`;
- the current month and date, as a `Clock`;
- the SMTP exchange outcome;
- the language-model reply and the JSON parser;
- the anchors and table cells an HTML parser would produce.

Percentages are `real`. Python sets and dicts whose iteration order the program does not fix are modelled as follows:
- the loops pick elements with `:|`;
- the results are specified by membership, plus "each ticker once".

Where the specification and the code differ, the model follows the code. For example:
- `IndexFetchers.VanguardFetch`: a holding whose `ticker` is JSON `null` makes the whole Vanguard fetch return the empty set. `.strip()` on `None` raises an error, and the fetcher's handler catches it.
- `TickerResolver.IsIndian`: the market is decided by substring tests on the lower-cased name. Any name containing `nse`, `bse`, `nifty` or `sensex` counts as Indian.

## Model

| member | source | states |
|---|---|---|
| ChangeDetector.MFChangeDetector.constructor | src/detectors/change_detector.py:29-36 | the detector keeps the threshold it is given, 0.5 by default |
| ChangeDetector.MFChangeDetector.DetectChanges | src/detectors/change_detector.py:38-88 | additions are exactly the stocks held now and not before, with their current weight; exits are exactly those held before and not now, with their old weight; a stock in both is reported exactly when its weight moved by at least the threshold, as an increase if the change is positive and a decrease otherwise; no list repeats a ticker |
| ChangeDetector.DetectIndexChanges | src/detectors/change_detector.py:103-137 | an index of the current snapshot is reported exactly when its ticker set differs from the previous one (a missing previous entry counts as empty); `added` is the sorted current-minus-previous set, `removed` the sorted previous-minus-current set; indexes only in the previous snapshot never appear |
| ChangeDetector.FundDiffTickersDistinct | src/detectors/change_detector.py:62-86 | no ticker is reported twice across additions, exits, increases and decreases |
| ChangeDetector.IdenticalHoldingsNoChanges | src/detectors/change_detector.py:73-86 | comparing a fund with itself under a positive threshold reports nothing |
| ChangeDetector.IdenticalHoldingsZeroThreshold | src/detectors/change_detector.py:80-86 | with threshold 0 every unchanged stock is reported as a zero-change decrease, because the test is inclusive and zero is not positive |
| ChangeDetector.ThresholdIsInclusive | src/detectors/change_detector.py:80 | a move from 5.0 to 5.5 under threshold 0.5 is reported as an increase of exactly 0.5 |
| ChangeDetector.BelowThresholdIgnored | src/detectors/change_detector.py:80 | a move from 5.0 to 5.3 under threshold 0.5 reports nothing |
| ChangeDetector.RebalanceReportedIff | src/detectors/change_detector.py:73-86 | a stock held in both snapshots is among the rebalances if and only if its absolute weight change reaches the threshold |
| ChangeDetector.HasChangesIff | src/detectors/change_detector.py:90-100 | `has_changes` is true exactly when some stock was added or exited, or moved by at least the threshold |
| ChangeDetector.NewFundAllAdditions | src/detectors/change_detector.py:65-67 | against an empty previous fund every current holding is an addition and nothing else is reported |
| ChangeDetector.FundDiffUniqueUpToOrder | src/detectors/change_detector.py:62-86 | any two results meeting the fund-diff specification hold the same entries in each list, differing only in order |
| ChangeDetector.IndexDiffUnique | src/detectors/change_detector.py:103-137 | the index diff is fully determined by the two snapshots |
| ChangeDetector.IndexChangeSymmetric | src/detectors/change_detector.py:127-134 | added and removed are disjoint; previous plus added equals current plus removed; a reported index has at least one of them non-empty |
| ChangeDetector.IdenticalSnapshotsNoChanges | src/detectors/change_detector.py:130 | comparing a snapshot with itself reports no index |
| ChangeDetector.NewIndexAllAdded | src/detectors/change_detector.py:124-134 | a new non-empty index is reported with all its tickers, sorted, as added and nothing removed |
| ChangeDetector.VanishedIndexInvisible | src/detectors/change_detector.py:123 | an index present only in the previous snapshot is never reported |
| ChangeDetector.SortedExampleSets | src/detectors/change_detector.py:127-128 | the set differences of a sample index that gained D, E and F and lost B and C |
| ChangeDetector.IndexDiffSortedExample | src/detectors/change_detector.py:131-134 | for that sample the reported lists are exactly ["D", "E", "F"] and ["B", "C"], in ascending order |
| Ordering.LessTransitive | src/detectors/change_detector.py:131-134 | Python's string order used by `sorted` is transitive |
| Ordering.LessTotal | src/detectors/change_detector.py:131-134 | any two distinct strings are ordered one way |
| Ordering.Sorted | src/detectors/change_detector.py:131-134 | `sorted(set(xs))` is strictly ascending and holds exactly the elements of `xs` |
| Ordering.Difference | src/detectors/change_detector.py:127-128 | the list difference holds exactly the elements of the first list missing from the second |
| Ordering.AscendingUnique | src/detectors/change_detector.py:131-134 | two strictly ascending lists with the same elements are equal, so a sorted diff has one possible value |
| IndexMonitor.DetectChanges | monitor_indexes.py:211-229 | the legacy diff meets the same index-diff specification as the new detector |
| IndexMonitor.DetectorsAgree | monitor_indexes.py:211-229 | the legacy and new detectors return the same changes for every pair of snapshots |
| IndexMonitor.AppendListing | monitor_indexes.py:243-253 | appending a listing adds the heading with its count, one bullet per stock and a blank line, or nothing for an empty list |
| IndexMonitor.AppendSection | monitor_indexes.py:240-255 | a section is the index name, a dash rule as long as the name, the added and removed listings and a blank line |
| IndexMonitor.FormatEmailBody | monitor_indexes.py:231-257 | no changes gives the fixed message; otherwise the body is the header followed by one section per changed index, in order |
| IndexMonitor.UnlinesAppend | monitor_indexes.py:236-255 | the body of two blocks of lines is the concatenation of their bodies |
| IndexMonitor.SplitUnlines | monitor_indexes.py:236-255 | splitting the body at newlines gives back its lines, then an empty tail |
| IndexMonitor.BodyLines | monitor_indexes.py:236-257 | when names and tickers have no newline, the body's lines are exactly the report lines |
| IndexMonitor.AllSectionLinesAppend | monitor_indexes.py:239-255 | the sections of two runs of entries are the sections of each, in order |
| IndexMonitor.SectionHeading | monitor_indexes.py:240-241 | the block of the k-th changed index starts with its name followed by a dash rule of the same length, and blocks appear in entry order |
| IndexMonitor.ListingShape | monitor_indexes.py:243-253 | a listing is empty exactly when its list is; otherwise it has the heading, one bullet per stock and a blank line |
| IndexMonitor.ListingCount | monitor_indexes.py:244 | the heading line carries the decimal number of stocks, which reads back as the list length |
| IndexMonitor.HeaderText | monitor_indexes.py:236-237 | the report opens with the dated title, a blank line, sixty `=` and a blank line |
| Text.ParseNatToString | monitor_indexes.py:244 | the decimal rendering of a count reads back as the count |
| Credentials.Words | src/notifiers/email_notifier.py:32 | `split()` gives non-empty words with no whitespace in them |
| Credentials.ConcatWords | src/notifiers/email_notifier.py:32 | joining the words of `split()` is the value with every whitespace character removed |
| Credentials.CleanCredentialKeeps | src/notifiers/email_notifier.py:21-34 | cleaning keeps exactly the ASCII non-whitespace characters, in order |
| Credentials.CleanCredentialChars | src/notifiers/email_notifier.py:21-34 | a cleaned credential holds only ASCII, non-whitespace characters |
| Credentials.CleanCredentialFixpoint | src/notifiers/email_notifier.py:21-34 | cleaning leaves a value unchanged if and only if it already holds only ASCII non-whitespace characters |
| Credentials.CleanCredentialIdempotent | src/notifiers/email_notifier.py:21-34 | cleaning twice is cleaning once |
| Credentials.CleanCredentialAppend | src/notifiers/email_notifier.py:21-34 | cleaning distributes over concatenation |
| Credentials.FilterDropsSome | src/notifiers/email_notifier.py:32-34 | a value with some whitespace or non-ASCII character gets strictly shorter |
| Credentials.BlankCleansToEmpty | src/notifiers/email_notifier.py:21-34 | a whitespace-only credential cleans to the empty string |
| Notifier.CleanedOr | src/notifiers/email_notifier.py:62-64 | a missing or empty value falls back; any other is cleaned |
| Notifier.EmailNotifier.constructor | src/notifiers/email_notifier.py:43-64 | server and port are kept; sender and password are cleaned, empty when missing; the recipient is cleaned and defaults to the sender |
| Notifier.EmailNotifier.SendEmail | src/notifiers/email_notifier.py:66-119 | per-call credentials override the stored ones; nothing is attempted exactly when the sender or password is empty; the recipient falls back to the sender; the result is true exactly when an attempt was made and the server delivered |
| Notifier.BlankCredentialIsMissing | src/notifiers/email_notifier.py:62-64 | a whitespace-only credential counts as missing |
| Monitor.Constituents | src/monitor.py:137-143 | a fetched index is stored as its sorted distinct tickers; a fetch that raised stores the empty list |
| Monitor.FundHoldings | src/monitor.py:165-179 | a fetched fund keeps its holdings; a fetch that raised records empty holdings |
| Monitor.IndexStep | src/monitor.py:125-145 | processing one more index entry extends the fetched-index specification |
| Monitor.FundStep | src/monitor.py:148-181 | processing one more fund entry extends the fetched-fund specification |
| Monitor.PreviousIndexes | src/monitor.py:185-190 | a missing state file, or one without an `indexes` entry, gives no previous indexes; otherwise its `indexes` entry is used |
| Monitor.PreviousHoldings | src/monitor.py:224-225 | previous holdings of a fund are the stored ones, and empty when the file, its funds entry, the fund or the fund's holdings entry is missing |
| Monitor.Subject | src/monitor.py:241-256 | the subject is the "changes detected" form exactly when some index changed or some fund has changes, and the "no changes" form otherwise |
| Monitor.SubjectReflectsHoldings | src/monitor.py:215-256 | the subject reports changes if and only if some index's ticker set moved or some fund had an addition, exit or rebalance beyond the threshold |
| Monitor.IndexChangesIff | src/monitor.py:215-218 | the index diff is non-empty exactly when some current index differs from its previous ticker set |
| Monitor.FundChangesIff | src/monitor.py:222-243 | some fund report has changes exactly when some fund's holdings moved |
| Monitor.RerunIsQuiet | src/monitor.py:207-256 | re-running against the state a run just saved, with unchanged data, reports no changes |
| Monitor.NewFundReportsAdditions | src/monitor.py:223-232 | a fund absent from the previous state reports all its holdings as additions and nothing else |
| Monitor.AsWrittenNotifier | src/monitor.py:58 | the monitor's notifier receives the settings dictionary as its server and no credentials |
| Monitor.AsWrittenNeverSends | src/monitor.py:58 | with that notifier no e-mail is ever handed to a server |
| Monitor.IntendedNotifier | src/notifiers/email_notifier.py:43-64 | a notifier built from the configured server, port and recipient, with the supplied credentials |
| Monitor.IntendedSends | src/notifiers/email_notifier.py:84-111 | with usable credentials that notifier always hands the message over, and reports success exactly on delivery |
| Monitor.PortfolioMonitor.constructor | src/monitor.py:28-58 | keeps the config and the state file as found, with no events yet; the detector threshold is the configured one, 0.5 by default; the notifier is built as written, with the `email` settings as its server and empty sender, password and recipient |
| Monitor.PortfolioMonitor.FetchAllConstituents | src/monitor.py:112-183 | the snapshot holds exactly the names of index entries with a known source, each mapped to the sorted constituents its last such entry fetched; likewise for funds that are not disabled and have a known source, each mapped to the run's month, date and fetched holdings; a later entry with the same name wins |
| Monitor.PortfolioMonitor.DetectFundChanges | src/monitor.py:222-232 | every current fund is reported, with a fund diff against its previous holdings and the fund's month |
| Monitor.PortfolioMonitor.Run | src/monitor.py:197-262 | the run fetches, diffs indexes and funds against the stored state, saves the current state, then builds the subject and body and hands them to the notifier, in that order; the run reports a send exactly when the notifier has a sender and a password and the server delivers, which with the notifier as built never happens |
| TickerResolver.TickerResolver.constructor | src/resolvers/ticker_resolver.py:18-35 | an empty or missing key falls back to the environment's; the resolver is available exactly when a key exists and the client starts |
| TickerResolver.TickerResolver.ResolveTickers | src/resolvers/ticker_resolver.py:41-108 | an unavailable resolver or a failed call gives an empty map; otherwise the reply, stripped and unfenced, is parsed, and a parse failure also gives an empty map |
| TickerResolver.TickerResolver.FormatWithCompanyNames | src/resolvers/ticker_resolver.py:110-128 | one entry per ticker, in order, each starting with its ticker |
| TickerResolver.WithCompanyName | src/resolvers/ticker_resolver.py:123-127 | a ticker with a known, non-empty name other than "Unknown Company" is shown as `TICKER (Name)`, any other as the bare ticker |
| TickerResolver.IsIndian | src/resolvers/ticker_resolver.py:57-58 | a name is Indian exactly when its lower-cased form contains one of the Indian keywords |
| TickerResolver.MarketContext | src/resolvers/ticker_resolver.py:60 | the Indian context is chosen exactly for Indian names, the international one otherwise |
| TickerResolver.MarketExamples | src/resolvers/ticker_resolver.py:57-60 | "Nifty 50" gets the Indian context; "VXUS" and "S&P 500" the international one |
| TickerResolver.NotIndian | src/resolvers/ticker_resolver.py:57-58 | a name with no `n` or `b` in any case is never Indian |
| TickerResolver.InnerLines | src/resolvers/ticker_resolver.py:99-100 | the fence lines are dropped: the first and last line go, and nothing is left for two lines or fewer |
| TickerResolver.UnfencedPlain | src/resolvers/ticker_resolver.py:94-100 | a stripped reply without a fence is parsed as it is |
| TickerResolver.UnfencedBody | src/resolvers/ticker_resolver.py:94-100 | a fenced reply gives back exactly the body between the fence lines |
| TickerResolver.UnfencedExample | src/resolvers/ticker_resolver.py:94-100 | a sample `json` fence around a one-entry object yields the object |
| TickerResolver.EmptyMapIsIdentity | src/resolvers/ticker_resolver.py:121-128 | with an empty map the tickers are returned unchanged |
| TickerResolver.UnknownCompanyShownBare | src/resolvers/ticker_resolver.py:124-127 | a ticker mapped to "Unknown Company" is shown bare |
| Text.JoinSplit | src/resolvers/ticker_resolver.py:99-100 | joining the parts of a split with the same separator gives back the string |
| Text.StripIdempotent | src/fetchers/index_fetchers.py:25 | stripping twice is stripping once |
| GmailFetcher.Candidates | src/fetchers/gmail_fetcher.py:182-206 | candidates are at most as many as the anchors, each starting with `http` and none an image |
| GmailFetcher.DedupUrls | src/fetchers/gmail_fetcher.py:208-214 | de-duplication keeps every URL that occurs |
| GmailFetcher.DedupDistinct | src/fetchers/gmail_fetcher.py:208-214 | after de-duplication no URL occurs twice |
| GmailFetcher.DedupFirstOccurrence | src/fetchers/gmail_fetcher.py:208-214 | each kept link is the first link with its URL |
| GmailFetcher.DedupOrder | src/fetchers/gmail_fetcher.py:208-214 | kept links appear in the order of their first occurrences |
| GmailFetcher.DedupDistinctUnchanged | src/fetchers/gmail_fetcher.py:208-214 | a list whose URLs are already distinct is unchanged |
| GmailFetcher.DedupIdempotent | src/fetchers/gmail_fetcher.py:208-214 | de-duplicating twice is de-duplicating once |
| GmailFetcher.Matching | src/fetchers/gmail_fetcher.py:218 | matching links all mention the fund and come from the list |
| GmailFetcher.NotMatching | src/fetchers/gmail_fetcher.py:219 | the other links do not mention the fund and come from the list |
| GmailFetcher.SplitPermutation | src/fetchers/gmail_fetcher.py:217-220 | matching and non-matching links together are a permutation of the list |
| GmailFetcher.PrioritisedReorders | src/fetchers/gmail_fetcher.py:217-220 | prioritising is a permutation in which no link naming the fund comes after one that does not |
| GmailFetcher.FiltersKeepOrder | src/fetchers/gmail_fetcher.py:218-219 | the links naming the fund and the other links each keep their order from the input: each list is a subsequence of the de-duplicated links |
| GmailFetcher.NoFundNameKeepsOrder | src/fetchers/gmail_fetcher.py:217-222 | without a fund name the de-duplicated candidates are returned in order |
| GmailFetcher.DownloadLinksSafe | src/fetchers/gmail_fetcher.py:165-222 | every returned link starts with `http` and is not an image |
| GmailFetcher.DownloadLinksDistinct | src/fetchers/gmail_fetcher.py:165-222 | returned links never repeat a URL |
| GmailFetcher.GmailPortfolioFetcher.constructor | src/fetchers/gmail_fetcher.py:46-57 | the address and app password are cleaned; the server is `imap.gmail.com` |
| GmailFetcher.GmailPortfolioFetcher.ExtractDownloadLinks | src/fetchers/gmail_fetcher.py:165-222 | the method returns exactly the filtered, de-duplicated, prioritised links |
| GmailFetcher.GmailPortfolioFetcher.CollectCandidates | src/fetchers/gmail_fetcher.py:182-206 | the loop collects exactly the candidates |
| GmailFetcher.GmailPortfolioFetcher.RemoveDuplicates | src/fetchers/gmail_fetcher.py:208-214 | the loop keeps exactly the first link per URL |
| GmailFetcher.GmailPortfolioFetcher.FetchPortfolioFromEmail | src/fetchers/gmail_fetcher.py:224-259 | nothing is found exactly when no e-mail has a download link; otherwise the first link of the first e-mail, most recent first, that has one |
| IndexFetchers.ReplaceNoBreakSpace | src/fetchers/index_fetchers.py:25 | each no-break space becomes a space and every other character is kept |
| IndexFetchers.CleanSymbolClean | src/fetchers/index_fetchers.py:23-25 | a cleaned symbol has no no-break space and no surrounding whitespace |
| IndexFetchers.CleanSymbolIdempotent | src/fetchers/index_fetchers.py:23-25 | cleaning twice is cleaning once |
| IndexFetchers.CleanSymbolInner | src/fetchers/index_fetchers.py:23-25 | a symbol already trimmed only has its no-break spaces replaced |
| IndexFetchers.StrippedMatch | src/fetchers/index_fetchers.py:193 | on a stripped cell, the anchored pattern matches exactly the valid tickers |
| IndexFetchers.ApiSymbols | src/fetchers/index_fetchers.py:83-88 | API symbols are the listed non-empty symbols other than the index's own name |
| IndexFetchers.CsvSymbols | src/fetchers/index_fetchers.py:115-118 | CSV symbols are the non-missing values of the column other than the index name |
| IndexFetchers.NseFetch | src/fetchers/index_fetchers.py:51-125 | no index name gives the empty set; otherwise the API symbols, or the CSV ones when the API fails, or empty when both fail; the index's own name is never a constituent |
| IndexFetchers.FirstTickerHeader | src/fetchers/index_fetchers.py:220-226 | returns the first header cell reading `ticker`, `symbol` or `ticker symbol`, or none |
| IndexFetchers.TickerColumnChoice | src/fetchers/index_fetchers.py:217-229 | the ticker column is the first matching header cell, or column 1 when none matches |
| IndexFetchers.FindTickerColumn | src/fetchers/index_fetchers.py:207-229 | the loop returns that column |
| IndexFetchers.RowTicker | src/fetchers/index_fetchers.py:186-194 | a row contributes its stripped ticker cell exactly when the row is long enough and the cell matches; otherwise nothing |
| IndexFetchers.ColumnTickersStep | src/fetchers/index_fetchers.py:186-194 | the tickers of one more row are the previous tickers plus that row's |
| IndexFetchers.AddRow | src/fetchers/index_fetchers.py:187-194 | one loop step adds exactly that row's ticker |
| IndexFetchers.NasdaqFetch | src/fetchers/index_fetchers.py:144-205 | a missing table gives the empty set; otherwise the tickers of every data row; each is one to five capital letters |
| IndexFetchers.FieldTicker | src/fetchers/index_fetchers.py:282-285 | a holding contributes its stripped ticker when it matches the pattern, and nothing when the ticker is missing or does not match |
| IndexFetchers.HoldingTickersStep | src/fetchers/index_fetchers.py:281-285 | the tickers of one more holding are the previous tickers plus that holding's |
| IndexFetchers.VanguardFetch | src/fetchers/index_fetchers.py:252-303 | a failed request, or any holding with a null ticker, gives the empty set; otherwise the valid tickers of all holdings |
| IndexFetchers.InvescoFetch | src/fetchers/index_fetchers.py:320-343 | QQQM, in any case, gives the Nasdaq-100 constituents; any other ticker gives the empty set |

## Left out

- I/O of every kind is left out:
  - HTTP requests, the NSE session cookie and the CSV download;
  - the IMAP login and search;
  - JSON and YAML loading;
  - the state file's reads and writes;
  - SMTP;
  - logging and `print`;
  - `time.sleep` between requests.

  Their outcomes are parameters of the model. The state file is an `Option` value. A fetcher or parser failure is a `Raised` or `None` outcome.
- HTML parsing with BeautifulSoup is left out. The model receives the anchors (href and text) and the table cells the parser would produce.
- `search_portfolio_emails` is left out. Its result is the list of e-mails, most recent first, given to `FetchPortfolioFromEmail`.
- The Nasdaq fallback that searches for any table with a "ticker" header is not modelled. The table is a parameter.
- The 90-stock warning in the Nasdaq fetcher is not modelled, because it only logs.
- `mf_fetchers.py` is not part of this model. Fund holdings are fetch outcomes.
- `email_formatter.py` is not part of this model. Its output is the `render` parameter of `Run`.
- `run.py` is not part of this model. The credentials it reads appear only as a parameter of the corrected notifier, `Monitor.IntendedNotifier`.
- The `gmail_credentials` and `anthropic_api_key` arguments of `PortfolioMonitor` are left out. They only configure the Gmail fetcher and the ticker resolver used by the fund fetchers and the formatter, which are parameters here.
- The legacy script's own fetchers, e-mail sending and `run` are left out. Its diff and report are modelled.
- The Anthropic API call is the `ask` parameter, and `json.loads` is the `parse` parameter. The prompt text beyond its index name, market context and diff is not modelled.
- `datetime.now()` is read once as a `Clock` value. The month and date strings are not derived from a calendar.
- Text.Lower: models ASCII case mapping only, because Python's full Unicode case mapping is out of scope. Text.Upper and Text.IsSpace follow the same ASCII restriction.
- Percentages are mathematical reals rather than binary floating point. A weight change that floats would round just below the threshold is reported here.
- Python's `None` and `""` for optional credentials are one value. The code only tests their truthiness.
- A pandas cell that is empty or `NaN` is a `None` entry of the CSV column.
- The Vanguard `ticker` parameter only forms the request URL. The model takes the reply's holdings directly.
- Where the code iterates a set or dict in an unspecified order, the model fixes no order:
  - ChangeDetector.MFChangeDetector.DetectChanges: its lists are specified up to order.
  - IndexMonitor.FormatEmailBody: it takes its entries as an ordered list.
- Monitor.PortfolioMonitor.Run: the body is `render(...)` of the changes, because the formatter is not modelled. Whether the handed-over e-mail was delivered is left open.
- ChangeDetector.MFChangeDetector.HasChanges: has no contract of its own. It is stated by the lemma `HasChangesIff`.

## Findings

| source | as written | input that shows it | evidently intended | confidence | as-written member | corrected member |
|---|---|---|---|---|---|---|
| src/monitor.py:58 | `EmailNotifier(self.config.get('email', {}))` passes the whole `email` settings dictionary as `smtp_server` and passes no sender or password, so `send_email` finds the credentials empty and returns without sending | any run, with any configuration | build the notifier from the configured server, port and recipient and from the sender credentials, so a run with usable credentials hands its e-mail to the server | not executed | Monitor.AsWrittenNeverSends | Monitor.IntendedSends |

/**
 * The orchestrator `PortfolioMonitor`: one run fetches the configured
 * indexes and funds, diffs them against the stored previous state, saves the
 * new state, chooses the subject line and hands the e-mail to the notifier.
 *
 * The fetchers, the state file, the clock, the report formatter and the SMTP
 * server are inputs: a fetcher is a function from its registry key and
 * parameters to what its `fetch` call returns or that it raised, the state
 * file is a field holding what `previous_state.json` contains (`None` when
 * there is no file), and `clock` carries the two `strftime` results.
 */
module Monitor {
  import opened Wrappers
  import opened Ordering
  import opened ChangeDetector
  import opened Notifier

  type Params = map<string, string>

  /** An entry of the `indexes` configuration list. */
  datatype IndexConfig = IndexConfig(name: string, source: string, params: Params)

  /** An entry of the `mutual_funds` list; `enabled` is the optional `_enabled` flag. */
  datatype FundConfig = FundConfig(name: string, source: string, params: Params, enabled: Option<bool>)

  /**
   * The configuration: the two lists (a missing list is empty), the optional
   * `thresholds.mf_percentage_change`, and the `email` section.
   */
  datatype Config = Config(indexes: seq<IndexConfig>, mutualFunds: seq<FundConfig>,
                           mfPercentageChange: Option<real>, email: EmailSettings)

  /** The Gmail address and password the entry point reads from the environment. */
  datatype GmailCredentials = GmailCredentials(email: string, password: string)

  /** What a fetcher's `fetch` call did: returned a value or raised. */
  datatype Fetch<T> = Fetched(value: T) | Raised

  /** `strftime('%Y-%m')` and `strftime('%Y-%m-%d')` of the run. */
  datatype Clock = Clock(month: string, date: string)

  /** `current_state['mutual_funds'][name]`. */
  datatype FundRecord = FundRecord(month: string, disclosureDate: string, holdings: Holdings)

  /** The state one run fetches and saves. */
  datatype PortfolioState = PortfolioState(indexes: IndexSnapshot, mutualFunds: map<string, FundRecord>)

  /** A fund entry as read back from the state file, where any key may be missing. */
  datatype StoredFund = StoredFund(month: Option<string>, disclosureDate: Option<string>, holdings: Option<Holdings>)

  /** The state file's content, where either top-level key may be missing. */
  datatype StoredState = StoredState(indexes: Option<IndexSnapshot>, mutualFunds: Option<map<string, StoredFund>>)

  /** `mf_changes[name]`. */
  datatype FundReport = FundReport(changes: FundChanges, month: string)

  /** What a run does to the outside world, in order. */
  datatype Event = StateSaved(state: StoredState) | EmailHandedOver(subject: string, body: string, sent: bool)

  /** Everything a run computes. */
  datatype RunReport = RunReport(current: PortfolioState, indexChanges: map<string, IndexChange>,
                                 mfChanges: map<string, FundReport>, subject: string, body: string)

  /** The keys of the index fetcher registry. */
  const IndexSources: set<string> := {"nse_api", "nasdaq_official", "vanguard_etf", "invesco_etf"}

  /** The keys of the fund fetcher registry. */
  const FundSources: set<string> := {"ppfas_mf", "tata_mf", "quant_mf", "bandhan_mf", "hdfc_mf"}

  /** `thresholds.get('mf_percentage_change', 0.5)`. */
  function Threshold(config: Config): real {
    config.mfPercentageChange.GetOr(0.5)
  }

  // ---------------------------------------------------------------------
  // Fetching
  // ---------------------------------------------------------------------

  /** The stored constituents: sorted fetched tickers, or an empty list if the fetcher raised. */
  function Constituents(outcome: Fetch<seq<string>>): (r: seq<string>)
    ensures StrictlyAscending(r)
    ensures outcome.Fetched? ==> Elems(r) == Elems(outcome.value)
    ensures outcome.Raised? ==> r == []
  {
    match outcome
    case Fetched(tickers) => Sorted(tickers)
    case Raised => []
  }

  /** The stored holdings: what the fetcher returned, or none if it raised. */
  function FundHoldings(outcome: Fetch<Holdings>): (r: Holdings)
    ensures outcome.Fetched? ==> r == outcome.value
    ensures outcome.Raised? ==> r == map[]
  {
    match outcome
    case Fetched(holdings) => holdings
    case Raised => map[]
  }

  /** An index entry that is fetched: its source is a registry key. */
  predicate IndexFetched(c: IndexConfig) {
    c.source in IndexSources
  }

  /** A fund entry that is fetched: not disabled, and its source is a registry key. */
  predicate FundFetched(c: FundConfig) {
    c.enabled.GetOr(true) && c.source in FundSources
  }

  /** Entry `j` is the last fetched index entry with its name: its value is the one kept. */
  predicate LastIndexEntry(configs: seq<IndexConfig>, j: int)
    requires 0 <= j < |configs|
  {
    forall k :: j < k < |configs| && IndexFetched(configs[k]) ==> configs[k].name != configs[j].name
  }

  /** Entry `j` is the last fetched fund entry with its name. */
  predicate LastFundEntry(configs: seq<FundConfig>, j: int)
    requires 0 <= j < |configs|
  {
    forall k :: j < k < |configs| && FundFetched(configs[k]) ==> configs[k].name != configs[j].name
  }

  /**
   * `indexes` holds an entry exactly for the names of fetched index entries,
   * and for each name the constituents the last such entry fetched.
   */
  ghost predicate IsFetchedIndexes(configs: seq<IndexConfig>, fetch: (string, Params) -> Fetch<seq<string>>, indexes: IndexSnapshot) {
    && (forall n :: n in indexes <==> exists j :: 0 <= j < |configs| && IndexFetched(configs[j]) && configs[j].name == n)
    && (forall j :: 0 <= j < |configs| && IndexFetched(configs[j]) && LastIndexEntry(configs, j) ==>
          configs[j].name in indexes && indexes[configs[j].name] == Constituents(fetch(configs[j].source, configs[j].params)))
  }

  /**
   * `funds` holds an entry exactly for the names of fetched fund entries, and
   * for each name the record of the last such entry, stamped with the run's dates.
   */
  ghost predicate IsFetchedFunds(configs: seq<FundConfig>, fetch: (string, Params) -> Fetch<Holdings>, clock: Clock, funds: map<string, FundRecord>) {
    && (forall n :: n in funds <==> exists j :: 0 <= j < |configs| && FundFetched(configs[j]) && configs[j].name == n)
    && (forall j :: 0 <= j < |configs| && FundFetched(configs[j]) && LastFundEntry(configs, j) ==>
          && configs[j].name in funds
          && funds[configs[j].name] == FundRecord(clock.month, clock.date, FundHoldings(fetch(configs[j].source, configs[j].params))))
  }

  /** One iteration of the index loop of `fetch_all_constituents`. */
  lemma IndexStep(configs: seq<IndexConfig>, fetch: (string, Params) -> Fetch<seq<string>>, indexes: IndexSnapshot, entry: IndexConfig)
    requires IsFetchedIndexes(configs, fetch, indexes)
    ensures IsFetchedIndexes(configs + [entry], fetch,
      if IndexFetched(entry) then indexes[entry.name := Constituents(fetch(entry.source, entry.params))] else indexes)
  {
    var all := configs + [entry];
    var next := if IndexFetched(entry) then indexes[entry.name := Constituents(fetch(entry.source, entry.params))] else indexes;
    forall n ensures n in next <==> exists j :: 0 <= j < |all| && IndexFetched(all[j]) && all[j].name == n {
      if n in indexes {
        var j :| 0 <= j < |configs| && IndexFetched(configs[j]) && configs[j].name == n;
        assert all[j] == configs[j];
      }
      if IndexFetched(entry) && n == entry.name {
        assert all[|configs|] == entry;
      }
      if exists j :: 0 <= j < |all| && IndexFetched(all[j]) && all[j].name == n {
        var j :| 0 <= j < |all| && IndexFetched(all[j]) && all[j].name == n;
        if j < |configs| {
          assert configs[j] == all[j];
        }
      }
    }
    forall j | 0 <= j < |all| && IndexFetched(all[j]) && LastIndexEntry(all, j)
      ensures all[j].name in next && next[all[j].name] == Constituents(fetch(all[j].source, all[j].params))
    {
      if j < |configs| {
        assert all[j] == configs[j];
        assert LastIndexEntry(configs, j) by {
          forall k | j < k < |configs| && IndexFetched(configs[k]) ensures configs[k].name != configs[j].name {
            assert all[k] == configs[k];
          }
        }
        if IndexFetched(entry) {
          assert all[|configs|] == entry;
        }
      }
    }
  }

  /** One iteration of the fund loop of `fetch_all_constituents`. */
  lemma FundStep(configs: seq<FundConfig>, fetch: (string, Params) -> Fetch<Holdings>, clock: Clock,
                 funds: map<string, FundRecord>, entry: FundConfig)
    requires IsFetchedFunds(configs, fetch, clock, funds)
    ensures IsFetchedFunds(configs + [entry], fetch, clock,
      if FundFetched(entry) then funds[entry.name := FundRecord(clock.month, clock.date, FundHoldings(fetch(entry.source, entry.params)))] else funds)
  {
    var all := configs + [entry];
    var next := if FundFetched(entry) then funds[entry.name := FundRecord(clock.month, clock.date, FundHoldings(fetch(entry.source, entry.params)))] else funds;
    forall n ensures n in next <==> exists j :: 0 <= j < |all| && FundFetched(all[j]) && all[j].name == n {
      if n in funds {
        var j :| 0 <= j < |configs| && FundFetched(configs[j]) && configs[j].name == n;
        assert all[j] == configs[j];
      }
      if FundFetched(entry) && n == entry.name {
        assert all[|configs|] == entry;
      }
      if exists j :: 0 <= j < |all| && FundFetched(all[j]) && all[j].name == n {
        var j :| 0 <= j < |all| && FundFetched(all[j]) && all[j].name == n;
        if j < |configs| {
          assert configs[j] == all[j];
        }
      }
    }
    forall j | 0 <= j < |all| && FundFetched(all[j]) && LastFundEntry(all, j)
      ensures all[j].name in next
      ensures next[all[j].name] == FundRecord(clock.month, clock.date, FundHoldings(fetch(all[j].source, all[j].params)))
    {
      if j < |configs| {
        assert all[j] == configs[j];
        assert LastFundEntry(configs, j) by {
          forall k | j < k < |configs| && FundFetched(configs[k]) ensures configs[k].name != configs[j].name {
            assert all[k] == configs[k];
          }
        }
        if FundFetched(entry) {
          assert all[|configs|] == entry;
        }
      }
    }
  }

  ghost predicate IsFetchedState(config: Config, fetchIndex: (string, Params) -> Fetch<seq<string>>,
                                 fetchFund: (string, Params) -> Fetch<Holdings>, clock: Clock, state: PortfolioState) {
    && IsFetchedIndexes(config.indexes, fetchIndex, state.indexes)
    && IsFetchedFunds(config.mutualFunds, fetchFund, clock, state.mutualFunds)
  }

  // ---------------------------------------------------------------------
  // The previous state
  // ---------------------------------------------------------------------

  /** `previous_state.get('indexes', {})`, with a missing file read as `{}`. */
  function PreviousIndexes(stored: Option<StoredState>): (r: IndexSnapshot)
    ensures stored.None? ==> r == map[]
    ensures stored.Some? && stored.value.indexes.Some? ==> r == stored.value.indexes.value
    ensures stored.Some? && stored.value.indexes.None? ==> r == map[]
  {
    match stored
    case None => map[]
    case Some(s) => s.indexes.GetOr(map[])
  }

  /** `previous_state.get('mutual_funds', {}).get(fund, {}).get('holdings', {})`. */
  function PreviousHoldings(stored: Option<StoredState>, fund: string): (r: Holdings)
    ensures stored.None? ==> r == map[]
    ensures stored.Some? && stored.value.mutualFunds.Some? && fund in stored.value.mutualFunds.value
        && stored.value.mutualFunds.value[fund].holdings.Some?
        ==> r == stored.value.mutualFunds.value[fund].holdings.value
    ensures stored.Some? && stored.value.mutualFunds.None? ==> r == map[]
    ensures stored.Some? && stored.value.mutualFunds.Some? && fund !in stored.value.mutualFunds.value ==> r == map[]
    ensures stored.Some? && stored.value.mutualFunds.Some? && fund in stored.value.mutualFunds.value ==>
      stored.value.mutualFunds.value[fund].holdings.None? ==> r == map[]
  {
    match stored
    case None => map[]
    case Some(s) =>
      var funds := s.mutualFunds.GetOr(map[]);
      if fund in funds then funds[fund].holdings.GetOr(map[]) else map[]
  }

  /** What `json.dump(current_state)` writes. */
  function Saved(state: PortfolioState): StoredState {
    StoredState(Some(state.indexes), Some(map f | f in state.mutualFunds ::
      StoredFund(Some(state.mutualFunds[f].month), Some(state.mutualFunds[f].disclosureDate),
                 Some(state.mutualFunds[f].holdings))))
  }

  /**
   * Consistency of the model's own encoding: `Saved` and the two readers
   * agree. This is a property of the representation, not of the program.
   */
  lemma SavedStateReadsBack(state: PortfolioState, fund: string)
    ensures PreviousIndexes(Some(Saved(state))) == state.indexes
    ensures PreviousHoldings(Some(Saved(state)), fund)
         == if fund in state.mutualFunds then state.mutualFunds[fund].holdings else map[]
  {
  }

  // ---------------------------------------------------------------------
  // The subject line
  // ---------------------------------------------------------------------

  /** `has_index_changes or has_mf_changes`. */
  predicate AnyChanges(indexChanges: map<string, IndexChange>, mfChanges: map<string, FundReport>) {
    indexChanges != map[] || exists f :: f in mfChanges && MFChangeDetector.HasChanges(mfChanges[f].changes)
  }

  /** The subject line chosen at the end of a run. */
  function Subject(indexChanges: map<string, IndexChange>, mfChanges: map<string, FundReport>, month: string): (r: string)
    ensures AnyChanges(indexChanges, mfChanges) <==> r == "Portfolio Changes Detected - " + month
    ensures !AnyChanges(indexChanges, mfChanges) <==> r == "No Portfolio Changes - " + month
  {
    var detected := "Portfolio Changes Detected - ";
    var quiet := "No Portfolio Changes - ";
    assert detected[0] != quiet[0];
    if AnyChanges(indexChanges, mfChanges) then detected + month else quiet + month
  }

  /** `mf_changes` for the funds of `current`, each diffed against its previous holdings. */
  ghost predicate IsFundReports(threshold: real, stored: Option<StoredState>, current: map<string, FundRecord>, mfChanges: map<string, FundReport>) {
    && mfChanges.Keys == current.Keys
    && forall f :: f in mfChanges ==>
         && mfChanges[f].month == current[f].month
         && IsFundDiff(threshold, PreviousHoldings(stored, f), current[f].holdings, mfChanges[f].changes)
  }

  /** The holdings of fund `f` differ from before: a stock entered or left, or moved by at least the threshold. */
  ghost predicate FundMoved(threshold: real, stored: Option<StoredState>, current: map<string, FundRecord>, f: string)
    requires f in current
  {
    var p, c := PreviousHoldings(stored, f), current[f].holdings;
    || p.Keys != c.Keys
    || exists t :: t in p && t in c && Abs(c[t] - p[t]) >= threshold
  }

  /** Some fund's holdings differ from before. */
  ghost predicate SomeFundMoved(threshold: real, stored: Option<StoredState>, current: map<string, FundRecord>) {
    exists f :: f in current && FundMoved(threshold, stored, current, f)
  }

  /** Some index of the current snapshot has a different constituent set than before. */
  ghost predicate SomeIndexMoved(stored: Option<StoredState>, current: IndexSnapshot) {
    exists i :: i in current && SetsDiffer(PreviousTickers(PreviousIndexes(stored), i), current[i])
  }

  /**
   * The subject announces changes exactly when some current index's set
   * changed, or some current fund's holdings entered, left or moved by at
   * least the threshold.
   */
  lemma SubjectReflectsHoldings(threshold: real, stored: Option<StoredState>, current: PortfolioState,
                                indexChanges: map<string, IndexChange>, mfChanges: map<string, FundReport>, month: string)
    requires IsIndexDiff(PreviousIndexes(stored), current.indexes, indexChanges)
    requires IsFundReports(threshold, stored, current.mutualFunds, mfChanges)
    ensures Subject(indexChanges, mfChanges, month) == "Portfolio Changes Detected - " + month
        <==> SomeIndexMoved(stored, current.indexes) || SomeFundMoved(threshold, stored, current.mutualFunds)
  {
    IndexChangesIff(stored, current.indexes, indexChanges);
    FundChangesIff(threshold, stored, current.mutualFunds, mfChanges);
  }

  /** The index diff is non-empty exactly when some index moved. */
  lemma IndexChangesIff(stored: Option<StoredState>, current: IndexSnapshot, indexChanges: map<string, IndexChange>)
    requires IsIndexDiff(PreviousIndexes(stored), current, indexChanges)
    ensures indexChanges != map[] <==> SomeIndexMoved(stored, current)
  {
    if SomeIndexMoved(stored, current) {
      var i :| i in current && SetsDiffer(PreviousTickers(PreviousIndexes(stored), i), current[i]);
      assert i in indexChanges;
    }
    if indexChanges != map[] {
      var i :| i in indexChanges;
      assert i in current && SetsDiffer(PreviousTickers(PreviousIndexes(stored), i), current[i]);
    }
  }

  /** Some fund report has changes exactly when some fund moved. */
  lemma FundChangesIff(threshold: real, stored: Option<StoredState>, current: map<string, FundRecord>,
                       mfChanges: map<string, FundReport>)
    requires IsFundReports(threshold, stored, current, mfChanges)
    ensures (exists f :: f in mfChanges && MFChangeDetector.HasChanges(mfChanges[f].changes))
        <==> SomeFundMoved(threshold, stored, current)
  {
    forall f | f in mfChanges
      ensures MFChangeDetector.HasChanges(mfChanges[f].changes) <==> FundMoved(threshold, stored, current, f)
    {
      HasChangesIff(threshold, PreviousHoldings(stored, f), current[f].holdings, mfChanges[f].changes);
    }
  }

  /**
   * Running again on unchanged data is quiet: when the state file holds the
   * state that is fetched again, and the threshold is positive, the subject
   * says no changes.
   */
  lemma RerunIsQuiet(threshold: real, current: PortfolioState,
                     indexChanges: map<string, IndexChange>, mfChanges: map<string, FundReport>, month: string)
    requires threshold > 0.0
    requires IsIndexDiff(PreviousIndexes(Some(Saved(current))), current.indexes, indexChanges)
    requires IsFundReports(threshold, Some(Saved(current)), current.mutualFunds, mfChanges)
    ensures Subject(indexChanges, mfChanges, month) == "No Portfolio Changes - " + month
  {
    var stored := Some(Saved(current));
    SavedStateReadsBack(current, "");
    IdenticalSnapshotsNoChanges(current.indexes, indexChanges);
    forall f | f in mfChanges ensures !MFChangeDetector.HasChanges(mfChanges[f].changes) {
      SavedStateReadsBack(current, f);
      IdenticalHoldingsNoChanges(threshold, current.mutualFunds[f].holdings, mfChanges[f].changes);
    }
  }

  /** A fund with no previous entry, or no state file at all, reports all its holdings as additions. */
  lemma NewFundReportsAdditions(threshold: real, stored: Option<StoredState>, current: map<string, FundRecord>,
                                mfChanges: map<string, FundReport>, f: string)
    requires IsFundReports(threshold, stored, current, mfChanges)
    requires f in current
    requires stored.None? || stored.value.mutualFunds.None? || f !in stored.value.mutualFunds.value
    ensures f in mfChanges
    ensures forall t :: t in current[f].holdings ==> Holding(t, current[f].holdings[t]) in mfChanges[f].changes.additions
    ensures mfChanges[f].changes.exits == [] && mfChanges[f].changes.increased == [] && mfChanges[f].changes.decreased == []
  {
    assert PreviousHoldings(stored, f) == map[];
    NewFundAllAdditions(threshold, current[f].holdings, mfChanges[f].changes);
  }

  // ---------------------------------------------------------------------
  // The notifier wiring
  // ---------------------------------------------------------------------

  /**
   * The notifier as the constructor builds it: the `email` settings
   * dictionary lands in the `smtp_server` parameter and no credentials are
   * passed.
   */
  method AsWrittenNotifier(config: Config) returns (n: EmailNotifier)
    ensures fresh(n)
    ensures n.smtpServer == SettingsDict(config.email) && n.smtpPort == 587
    ensures n.sender == "" && n.password == "" && n.recipient == ""
  {
    n := new EmailNotifier(SettingsDict(config.email));
  }

  /** With the notifier built as written, no run ever hands an e-mail to a server. */
  method AsWrittenNeverSends(config: Config, subject: string, body: string, smtp: SmtpOutcome)
    returns (sent: bool, attempt: Option<Message>)
    ensures !sent && attempt == None
  {
    var n := AsWrittenNotifier(config);
    sent, attempt := n.SendEmail(subject, body, smtp);
  }

  /**
   * The notifier built from the `email` settings (server, port, recipient)
   * and the credentials the entry point reads.
   */
  method IntendedNotifier(config: Config, credentials: Option<GmailCredentials>) returns (n: EmailNotifier)
    ensures fresh(n)
    ensures n.smtpServer == Host(config.email.smtpServer.GetOr("smtp.gmail.com"))
    ensures n.smtpPort == config.email.smtpPort.GetOr(587)
    ensures credentials.Some? ==>
      n.sender == CleanedOr(Some(credentials.value.email), "")
      && n.password == CleanedOr(Some(credentials.value.password), "")
    ensures credentials.None? ==> n.sender == "" && n.password == ""
    ensures n.recipient == CleanedOr(config.email.recipient, n.sender)
  {
    var sender: Option<string> := None;
    var password: Option<string> := None;
    if credentials.Some? {
      sender := Some(credentials.value.email);
      password := Some(credentials.value.password);
    }
    n := new EmailNotifier(Host(config.email.smtpServer.GetOr("smtp.gmail.com")), config.email.smtpPort.GetOr(587),
                           sender, password, config.email.recipient);
  }

  /** With the intended wiring, usable credentials always reach the server. */
  method IntendedSends(config: Config, credentials: GmailCredentials, subject: string, body: string, smtp: SmtpOutcome)
    returns (sent: bool, attempt: Option<Message>)
    ensures CleanedOr(Some(credentials.email), "") != "" && CleanedOr(Some(credentials.password), "") != "" ==>
      attempt.Some? && attempt.value.subject == subject && (sent <==> smtp == Delivered)
  {
    var n := IntendedNotifier(config, Some(credentials));
    sent, attempt := n.SendEmail(subject, body, smtp);
  }

  // ---------------------------------------------------------------------
  // The monitor
  // ---------------------------------------------------------------------

  class PortfolioMonitor {
    const config: Config
    const detector: MFChangeDetector
    const notifier: EmailNotifier
    /** The content of `previous_state.json`; `None` while there is no such file. */
    var stateFile: Option<StoredState>
    /** The saves and e-mails of all runs so far, in order. */
    var events: seq<Event>

    /**
     * `PortfolioMonitor(...)` with the loaded configuration and the state file
     * as found. The notifier is wired as the source writes it, so it holds no
     * credentials.
     */
    constructor(config: Config, stateFile: Option<StoredState>)
      ensures this.config == config && this.stateFile == stateFile && events == []
      ensures detector.threshold == Threshold(config)
      ensures notifier.smtpServer == SettingsDict(config.email)
      ensures notifier.sender == "" && notifier.password == "" && notifier.recipient == ""
    {
      var detector := new MFChangeDetector(Threshold(config));
      var notifier := AsWrittenNotifier(config);
      this.config := config;
      this.detector := detector;
      this.notifier := notifier;
      this.stateFile := stateFile;
      this.events := [];
    }

    /** `fetch_all_constituents()`. */
    method FetchAllConstituents(fetchIndex: (string, Params) -> Fetch<seq<string>>,
                                fetchFund: (string, Params) -> Fetch<Holdings>, clock: Clock)
      returns (state: PortfolioState)
      ensures IsFetchedState(config, fetchIndex, fetchFund, clock, state)
    {
      var indexes: IndexSnapshot := map[];
      var k := 0;
      while k < |config.indexes|
        invariant 0 <= k <= |config.indexes|
        invariant IsFetchedIndexes(config.indexes[..k], fetchIndex, indexes)
      {
        var entry := config.indexes[k];
        assert config.indexes[..k + 1] == config.indexes[..k] + [entry];
        IndexStep(config.indexes[..k], fetchIndex, indexes, entry);
        if entry.source !in IndexSources {
          k := k + 1;
          continue;
        }
        indexes := indexes[entry.name := Constituents(fetchIndex(entry.source, entry.params))];
        k := k + 1;
      }
      assert config.indexes[..k] == config.indexes;

      var funds: map<string, FundRecord> := map[];
      k := 0;
      while k < |config.mutualFunds|
        invariant 0 <= k <= |config.mutualFunds|
        invariant IsFetchedFunds(config.mutualFunds[..k], fetchFund, clock, funds)
      {
        var entry := config.mutualFunds[k];
        assert config.mutualFunds[..k + 1] == config.mutualFunds[..k] + [entry];
        FundStep(config.mutualFunds[..k], fetchFund, clock, funds, entry);
        if !entry.enabled.GetOr(true) {
          k := k + 1;
          continue;
        }
        if entry.source !in FundSources {
          k := k + 1;
          continue;
        }
        var holdings := FundHoldings(fetchFund(entry.source, entry.params));
        funds := funds[entry.name := FundRecord(clock.month, clock.date, holdings)];
        k := k + 1;
      }
      assert config.mutualFunds[..k] == config.mutualFunds;
      state := PortfolioState(indexes, funds);
    }

    /** The loop of `run()` that diffs every current fund against its previous holdings. */
    method DetectFundChanges(previous: Option<StoredState>, current: map<string, FundRecord>)
      returns (mfChanges: map<string, FundReport>)
      ensures IsFundReports(detector.threshold, previous, current, mfChanges)
    {
      mfChanges := map[];
      var pending := current.Keys;
      while pending != {}
        invariant pending <= current.Keys
        invariant mfChanges.Keys == current.Keys - pending
        invariant forall f :: f in mfChanges ==>
          && mfChanges[f].month == current[f].month
          && IsFundDiff(detector.threshold, PreviousHoldings(previous, f), current[f].holdings, mfChanges[f].changes)
        decreases pending
      {
        var fund :| fund in pending;
        var changes := detector.DetectChanges(PreviousHoldings(previous, fund), current[fund].holdings);
        mfChanges := mfChanges[fund := FundReport(changes, current[fund].month)];
        pending := pending - {fund};
      }
    }

    /**
     * `run()`: `render` is the report formatter and `smtp` how the server
     * exchange ends.
     */
    method Run(fetchIndex: (string, Params) -> Fetch<seq<string>>, fetchFund: (string, Params) -> Fetch<Holdings>,
               clock: Clock, render: (map<string, IndexChange>, map<string, FundReport>) -> string, smtp: SmtpOutcome)
      returns (report: RunReport)
      modifies this
      ensures IsFetchedState(config, fetchIndex, fetchFund, clock, report.current)
      ensures IsIndexDiff(PreviousIndexes(old(stateFile)), report.current.indexes, report.indexChanges)
      ensures IsFundReports(detector.threshold, old(stateFile), report.current.mutualFunds, report.mfChanges)
      ensures report.subject == Subject(report.indexChanges, report.mfChanges, clock.month)
      ensures report.body == render(report.indexChanges, report.mfChanges)
      ensures stateFile == Some(Saved(report.current))
      ensures exists sent: bool ::
        && events == old(events) + [StateSaved(Saved(report.current)), EmailHandedOver(report.subject, report.body, sent)]
        && (sent <==> notifier.sender != "" && notifier.password != "" && smtp == Delivered)
    {
      var current := FetchAllConstituents(fetchIndex, fetchFund, clock);
      var previous := stateFile;
      var indexChanges := DetectIndexChanges(PreviousIndexes(previous), current.indexes);

      var mfChanges := DetectFundChanges(previous, current.mutualFunds);

      stateFile := Some(Saved(current));
      events := events + [StateSaved(Saved(current))];

      var subject := Subject(indexChanges, mfChanges, clock.month);
      var body := render(indexChanges, mfChanges);
      var sent, _ := notifier.SendEmail(subject, body, smtp);
      events := events + [EmailHandedOver(subject, body, sent)];
      report := RunReport(current, indexChanges, mfChanges, subject, body);
      assert old(events) + [StateSaved(Saved(current))] + [EmailHandedOver(subject, body, sent)]
          == old(events) + [StateSaved(Saved(current)), EmailHandedOver(subject, body, sent)];
    }
  }
}

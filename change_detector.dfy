/**
 * The change-detection engine: the fund-holdings diff of `MFChangeDetector`
 * (additions, exits, and rebalances gated by an inclusive threshold) and the
 * index-constituent diff `detect_index_changes` (sorted added/removed lists,
 * reported only for indexes still present and actually changed).
 */
module ChangeDetector {
  import opened Wrappers
  import opened Ordering

  /** A fund's holdings: ticker to percentage of assets. */
  type Holdings = map<string, real>

  /** Index name to its list of constituent tickers. */
  type IndexSnapshot = map<string, seq<string>>

  /** An `(stock, pct)` entry of `additions` or `exits`. */
  datatype Holding = Holding(ticker: string, pct: real)

  /** An `(stock, old_pct, new_pct, change)` entry of `increases` or `decreases`. */
  datatype Rebalance = Rebalance(ticker: string, oldPct: real, newPct: real, change: real)

  /** The dictionary `detect_changes` returns, one field per key (`increased` and `decreased` hold the `increases` and `decreases` lists). */
  datatype FundChanges = FundChanges(
    additions: seq<Holding>,
    exits: seq<Holding>,
    increased: seq<Rebalance>,
    decreased: seq<Rebalance>)

  /** The `{'added': [...], 'removed': [...]}` entry of one changed index. */
  datatype IndexChange = IndexChange(added: seq<string>, removed: seq<string>)

  function Abs(x: real): real {
    if x < 0.0 then -x else x
  }

  // ---------------------------------------------------------------------
  // Fund diff: what `detect_changes` promises
  // ---------------------------------------------------------------------

  /** `h` is the entry of a stock held now and not before. */
  ghost predicate IsAddition(previous: Holdings, current: Holdings, h: Holding) {
    h.ticker in current && h.ticker !in previous && h.pct == current[h.ticker]
  }

  /** `h` is the entry of a stock held before and not now. */
  ghost predicate IsExit(previous: Holdings, current: Holdings, h: Holding) {
    h.ticker in previous && h.ticker !in current && h.pct == previous[h.ticker]
  }

  /** `r` is the entry of a stock held in both whose weight moved by at least `threshold`. */
  ghost predicate IsRebalance(threshold: real, previous: Holdings, current: Holdings, r: Rebalance) {
    && r.ticker in previous && r.ticker in current
    && r.oldPct == previous[r.ticker] && r.newPct == current[r.ticker]
    && r.change == current[r.ticker] - previous[r.ticker]
    && Abs(r.change) >= threshold
  }

  ghost predicate DistinctHoldings(hs: seq<Holding>) {
    forall i, j :: 0 <= i < j < |hs| ==> hs[i].ticker != hs[j].ticker
  }

  ghost predicate DistinctRebalances(rs: seq<Rebalance>) {
    forall i, j :: 0 <= i < j < |rs| ==> rs[i].ticker != rs[j].ticker
  }

  /**
   * `c` is a correct result of `detect_changes(previous, current)` with the
   * given threshold: each list holds exactly its entries, once each, in any
   * order (the order Python's set iteration happens to give).
   */
  ghost predicate IsFundDiff(threshold: real, previous: Holdings, current: Holdings, c: FundChanges) {
    && DistinctHoldings(c.additions) && DistinctHoldings(c.exits)
    && DistinctRebalances(c.increased) && DistinctRebalances(c.decreased)
    && (forall h :: h in c.additions <==> IsAddition(previous, current, h))
    && (forall h :: h in c.exits <==> IsExit(previous, current, h))
    && (forall r :: r in c.increased <==> IsRebalance(threshold, previous, current, r) && r.change > 0.0)
    && (forall r :: r in c.decreased <==> IsRebalance(threshold, previous, current, r) && r.change <= 0.0)
  }

  class MFChangeDetector {
    /** Minimum percentage-point move reported as a rebalance. */
    const threshold: real

    constructor(threshold: real := 0.5)
      ensures this.threshold == threshold
    {
      this.threshold := threshold;
    }

    /** Compares a fund's previous and current holdings. */
    method DetectChanges(previous: Holdings, current: Holdings) returns (changes: FundChanges)
      ensures IsFundDiff(threshold, previous, current, changes)
    {
      // New additions (not in previous)
      var additions: seq<Holding> := [];
      var pending := current.Keys - previous.Keys;
      while pending != {}
        invariant pending <= current.Keys - previous.Keys
        invariant DistinctHoldings(additions)
        invariant forall h :: h in additions <==> IsAddition(previous, current, h) && h.ticker !in pending
        decreases pending
      {
        var stock :| stock in pending;
        additions := additions + [Holding(stock, current[stock])];
        pending := pending - {stock};
      }

      // Complete exits (not in current)
      var exits: seq<Holding> := [];
      pending := previous.Keys - current.Keys;
      while pending != {}
        invariant pending <= previous.Keys - current.Keys
        invariant DistinctHoldings(exits)
        invariant forall h :: h in exits <==> IsExit(previous, current, h) && h.ticker !in pending
        decreases pending
      {
        var stock :| stock in pending;
        exits := exits + [Holding(stock, previous[stock])];
        pending := pending - {stock};
      }

      // Rebalances (present in both)
      var increased: seq<Rebalance> := [];
      var decreased: seq<Rebalance> := [];
      pending := previous.Keys * current.Keys;
      while pending != {}
        invariant pending <= previous.Keys * current.Keys
        invariant DistinctRebalances(increased) && DistinctRebalances(decreased)
        invariant forall r :: r in increased <==>
          IsRebalance(threshold, previous, current, r) && r.change > 0.0 && r.ticker !in pending
        invariant forall r :: r in decreased <==>
          IsRebalance(threshold, previous, current, r) && r.change <= 0.0 && r.ticker !in pending
        decreases pending
      {
        var stock :| stock in pending;
        var oldPct := previous[stock];
        var newPct := current[stock];
        var change := newPct - oldPct;
        if Abs(change) >= threshold {
          var entry := Rebalance(stock, oldPct, newPct, change);
          if change > 0.0 {
            increased := increased + [entry];
          } else {
            decreased := decreased + [entry];
          }
        }
        pending := pending - {stock};
      }

      changes := FundChanges(additions, exits, increased, decreased);
    }

    /** `has_changes`: whether any of the four lists is non-empty. */
    static function HasChanges(changes: FundChanges): bool {
      || |changes.additions| > 0 || |changes.exits| > 0
      || |changes.increased| > 0 || |changes.decreased| > 0
    }
  }

  // ---------------------------------------------------------------------
  // Index diff: what `detect_index_changes` promises
  // ---------------------------------------------------------------------

  /** `previous.get(index, [])`. */
  function PreviousTickers(previous: IndexSnapshot, index: string): seq<string> {
    Get(previous, index, [])
  }

  /** The constituent set of the index changed between the two lists. */
  predicate SetsDiffer(prev: seq<string>, curr: seq<string>) {
    Elems(curr) - Elems(prev) != {} || Elems(prev) - Elems(curr) != {}
  }

  /** `c` lists `curr - prev` and `prev - curr`, each in ascending order without repeats. */
  ghost predicate IsIndexChange(prev: seq<string>, curr: seq<string>, c: IndexChange) {
    && StrictlyAscending(c.added) && StrictlyAscending(c.removed)
    && Elems(c.added) == Elems(curr) - Elems(prev)
    && Elems(c.removed) == Elems(prev) - Elems(curr)
  }

  /**
   * `changes` is the result of diffing two index snapshots: an entry exactly
   * for the indexes of `current` whose set changed (an index missing from
   * `previous` counts as previously empty), and nothing for indexes that
   * left `current`.
   */
  ghost predicate IsIndexDiff(previous: IndexSnapshot, current: IndexSnapshot, changes: map<string, IndexChange>) {
    && (forall i :: i in changes <==> i in current && SetsDiffer(PreviousTickers(previous, i), current[i]))
    && (forall i :: i in changes ==> IsIndexChange(PreviousTickers(previous, i), current[i], changes[i]))
  }

  /** `detect_index_changes(previous, current)`. */
  method DetectIndexChanges(previous: IndexSnapshot, current: IndexSnapshot) returns (changes: map<string, IndexChange>)
    ensures changes.Keys <= current.Keys
    ensures IsIndexDiff(previous, current, changes)
  {
    changes := map[];
    var pending := current.Keys;
    while pending != {}
      invariant pending <= current.Keys
      invariant forall i :: i in changes <==>
        i in current && i !in pending && SetsDiffer(PreviousTickers(previous, i), current[i])
      invariant forall i :: i in changes ==> IsIndexChange(PreviousTickers(previous, i), current[i], changes[i])
      decreases pending
    {
      var index :| index in pending;
      var prev := PreviousTickers(previous, index);
      var added := Sorted(Difference(current[index], prev));
      var removed := Sorted(Difference(prev, current[index]));
      if added != [] || removed != [] {
        changes := changes[index := IndexChange(added, removed)];
      }
      pending := pending - {index};
    }
  }

  // ---------------------------------------------------------------------
  // Properties of the fund diff
  // ---------------------------------------------------------------------

  /** The tickers of all four lists, one after the other. */
  function AllTickers(c: FundChanges): seq<string> {
    seq(|c.additions|, i requires 0 <= i < |c.additions| => c.additions[i].ticker)
    + seq(|c.exits|, i requires 0 <= i < |c.exits| => c.exits[i].ticker)
    + seq(|c.increased|, i requires 0 <= i < |c.increased| => c.increased[i].ticker)
    + seq(|c.decreased|, i requires 0 <= i < |c.decreased| => c.decreased[i].ticker)
  }

  /** Every ticker appears in at most one of the four lists, and at most once there. */
  lemma FundDiffTickersDistinct(threshold: real, previous: Holdings, current: Holdings, c: FundChanges)
    requires IsFundDiff(threshold, previous, current, c)
    ensures forall i, j :: 0 <= i < j < |AllTickers(c)| ==> AllTickers(c)[i] != AllTickers(c)[j]
  {
    var all := AllTickers(c);
    var a, e, n := |c.additions|, |c.exits|, |c.increased|;
    forall i, j | 0 <= i < j < |all| ensures all[i] != all[j] {
      // the list an index of `all` falls in, and where in it
      HeadListed(c.additions);
      if j < a {
        assert all[i] == c.additions[i].ticker && all[j] == c.additions[j].ticker;
      } else if j < a + e {
        assert all[j] == c.exits[j - a].ticker;
        assert c.exits[j - a] in c.exits;
        if i < a {
          assert all[i] == c.additions[i].ticker && c.additions[i] in c.additions;
        } else {
          assert all[i] == c.exits[i - a].ticker;
        }
      } else if j < a + e + n {
        assert all[j] == c.increased[j - a - e].ticker;
        assert c.increased[j - a - e] in c.increased;
        if i < a {
          assert all[i] == c.additions[i].ticker && c.additions[i] in c.additions;
        } else if i < a + e {
          assert all[i] == c.exits[i - a].ticker && c.exits[i - a] in c.exits;
        } else {
          assert all[i] == c.increased[i - a - e].ticker;
        }
      } else {
        assert all[j] == c.decreased[j - a - e - n].ticker;
        assert c.decreased[j - a - e - n] in c.decreased;
        if i < a {
          assert all[i] == c.additions[i].ticker && c.additions[i] in c.additions;
        } else if i < a + e {
          assert all[i] == c.exits[i - a].ticker && c.exits[i - a] in c.exits;
        } else if i < a + e + n {
          assert all[i] == c.increased[i - a - e].ticker && c.increased[i - a - e] in c.increased;
        } else {
          assert all[i] == c.decreased[i - a - e - n].ticker;
        }
      }
    }
  }

  /** Proof helper on sequences: the first element of a non-empty list is one of its elements. */
  lemma HeadListed<T>(xs: seq<T>)
    ensures xs == [] || xs[0] in xs
  {
  }

  /** Proof helper on sequences: the first two elements of a longer list are among its elements. */
  lemma SecondListed<T>(xs: seq<T>)
    ensures |xs| <= 1 || (xs[0] in xs && xs[1] in xs)
  {
  }

  /** With a positive threshold, comparing holdings with themselves reports nothing. */
  lemma IdenticalHoldingsNoChanges(threshold: real, h: Holdings, c: FundChanges)
    requires threshold > 0.0
    requires IsFundDiff(threshold, h, h, c)
    ensures c == FundChanges([], [], [], [])
  {
    HeadListed(c.additions);
    HeadListed(c.exits);
    HeadListed(c.increased);
    HeadListed(c.decreased);
  }

  /** With threshold 0, every unchanged holding is listed under `decreases` with change 0. */
  lemma IdenticalHoldingsZeroThreshold(h: Holdings, c: FundChanges)
    requires IsFundDiff(0.0, h, h, c)
    ensures c.additions == [] && c.exits == [] && c.increased == []
    ensures forall r :: r in c.decreased <==> r.ticker in h && r == Rebalance(r.ticker, h[r.ticker], h[r.ticker], 0.0)
  {
    HeadListed(c.additions);
    HeadListed(c.exits);
    HeadListed(c.increased);
  }

  /** A rebalance of exactly the threshold is reported: 5.0 to 5.5 at 0.5 is one increase. */
  lemma ThresholdIsInclusive(c: FundChanges)
    requires IsFundDiff(0.5, map["X" := 5.0], map["X" := 5.5], c)
    ensures c == FundChanges([], [], [Rebalance("X", 5.0, 5.5, 0.5)], [])
  {
    var p, q := map["X" := 5.0], map["X" := 5.5];
    var entry := Rebalance("X", 5.0, 5.5, 0.5);
    assert IsRebalance(0.5, p, q, entry);
    assert entry in c.increased;
    SecondListed(c.increased);
    assert c.increased[0] in c.increased;
    HeadListed(c.additions);
    HeadListed(c.exits);
    HeadListed(c.decreased);
  }

  /** A move below the threshold is not reported: 5.0 to 5.3 at 0.5 gives no rebalance. */
  lemma BelowThresholdIgnored(c: FundChanges)
    requires IsFundDiff(0.5, map["X" := 5.0], map["X" := 5.3], c)
    ensures c == FundChanges([], [], [], [])
  {
    HeadListed(c.additions);
    HeadListed(c.exits);
    HeadListed(c.increased);
    HeadListed(c.decreased);
  }

  /** For a stock held in both, a rebalance entry exists iff the move reaches the threshold. */
  lemma RebalanceReportedIff(threshold: real, previous: Holdings, current: Holdings, c: FundChanges, t: string)
    requires IsFundDiff(threshold, previous, current, c)
    requires t in previous && t in current
    ensures (exists r :: r in c.increased + c.decreased && r.ticker == t)
        <==> Abs(current[t] - previous[t]) >= threshold
  {
    var entry := Rebalance(t, previous[t], current[t], current[t] - previous[t]);
    if Abs(current[t] - previous[t]) >= threshold {
      assert entry in c.increased + c.decreased;
    }
  }

  /**
   * `has_changes` on a diff is true iff the holdings differ: a stock entered
   * or left, or a common stock moved by at least the threshold.
   */
  lemma HasChangesIff(threshold: real, previous: Holdings, current: Holdings, c: FundChanges)
    requires IsFundDiff(threshold, previous, current, c)
    ensures MFChangeDetector.HasChanges(c) <==>
      (|| previous.Keys != current.Keys
       || exists t :: t in previous && t in current && Abs(current[t] - previous[t]) >= threshold)
  {
    if previous.Keys != current.Keys {
      if t :| t in current && t !in previous {
        assert Holding(t, current[t]) in c.additions;
      } else {
        var t :| t in previous && t !in current;
        assert Holding(t, previous[t]) in c.exits;
      }
    } else if t :| t in previous && t in current && Abs(current[t] - previous[t]) >= threshold {
      assert Rebalance(t, previous[t], current[t], current[t] - previous[t]) in c.increased + c.decreased;
    } else {
      HeadListed(c.additions);
      HeadListed(c.exits);
      HeadListed(c.increased);
      HeadListed(c.decreased);
    }
  }

  /** A fund with no previous holdings reports every current holding as an addition, and nothing else. */
  lemma NewFundAllAdditions(threshold: real, current: Holdings, c: FundChanges)
    requires IsFundDiff(threshold, map[], current, c)
    ensures forall t :: t in current ==> Holding(t, current[t]) in c.additions
    ensures forall h :: h in c.additions ==> h.ticker in current
    ensures c.exits == [] && c.increased == [] && c.decreased == []
  {
    HeadListed(c.exits);
    HeadListed(c.increased);
    HeadListed(c.decreased);
  }

  /** A list without repeated entries holds each of its elements exactly once. */
  lemma {:induction false} DistinctMultiset<T>(xs: seq<T>)
    requires forall i, j :: 0 <= i < j < |xs| ==> xs[i] != xs[j]
    ensures forall x :: multiset(xs)[x] == if x in xs then 1 else 0
  {
    if xs != [] {
      var rest := xs[1..];
      DistinctMultiset(rest);
      assert xs == [xs[0]] + rest;
      forall k | 0 <= k < |rest| ensures rest[k] != xs[0] {
        assert rest[k] == xs[k + 1];
      }
    }
  }

  /** Two lists without repeats and with the same elements are permutations of each other. */
  lemma SameElementsPermutation<T>(xs: seq<T>, ys: seq<T>)
    requires forall i, j :: 0 <= i < j < |xs| ==> xs[i] != xs[j]
    requires forall i, j :: 0 <= i < j < |ys| ==> ys[i] != ys[j]
    requires forall x :: x in xs <==> x in ys
    ensures multiset(xs) == multiset(ys)
  {
    DistinctMultiset(xs);
    DistinctMultiset(ys);
    assert forall x :: multiset(xs)[x] == multiset(ys)[x];
  }

  /**
   * The fund diff is determined up to the order of each list: any two
   * results for the same inputs are permutations of each other, list by list.
   */
  lemma FundDiffUniqueUpToOrder(threshold: real, previous: Holdings, current: Holdings, a: FundChanges, b: FundChanges)
    requires IsFundDiff(threshold, previous, current, a)
    requires IsFundDiff(threshold, previous, current, b)
    ensures multiset(a.additions) == multiset(b.additions)
    ensures multiset(a.exits) == multiset(b.exits)
    ensures multiset(a.increased) == multiset(b.increased)
    ensures multiset(a.decreased) == multiset(b.decreased)
  {
    SameElementsPermutation(a.additions, b.additions);
    SameElementsPermutation(a.exits, b.exits);
    SameElementsPermutation(a.increased, b.increased);
    SameElementsPermutation(a.decreased, b.decreased);
  }

  // ---------------------------------------------------------------------
  // Properties of the index diff
  // ---------------------------------------------------------------------

  /** The index diff is a function of its inputs: any two results are equal. */
  lemma IndexDiffUnique(previous: IndexSnapshot, current: IndexSnapshot, x: map<string, IndexChange>, y: map<string, IndexChange>)
    requires IsIndexDiff(previous, current, x)
    requires IsIndexDiff(previous, current, y)
    ensures x == y
  {
    forall i | i in x ensures x[i] == y[i] {
      AscendingUnique(x[i].added, y[i].added);
      AscendingUnique(x[i].removed, y[i].removed);
    }
    assert x.Keys == y.Keys;
  }

  /** For a reported index, `added` and `removed` are disjoint and account exactly for the difference. */
  lemma IndexChangeSymmetric(previous: IndexSnapshot, current: IndexSnapshot, changes: map<string, IndexChange>, i: string)
    requires IsIndexDiff(previous, current, changes)
    requires i in changes
    ensures Elems(changes[i].added) !! Elems(changes[i].removed)
    ensures Elems(changes[i].added) + Elems(PreviousTickers(previous, i))
         == Elems(current[i]) + Elems(changes[i].removed)
    ensures changes[i].added != [] || changes[i].removed != []
  {
    var c := changes[i];
    assert c.added == [] ==> Elems(c.added) == {};
    assert c.removed == [] ==> Elems(c.removed) == {};
  }

  /** Diffing a snapshot against itself reports nothing. */
  lemma IdenticalSnapshotsNoChanges(s: IndexSnapshot, changes: map<string, IndexChange>)
    requires IsIndexDiff(s, s, changes)
    ensures changes == map[]
  {
    assert forall i :: i in s ==> PreviousTickers(s, i) == s[i];
    assert changes.Keys == {};
  }

  /** An index new in `current` reports all its tickers, sorted, as added and nothing removed. */
  lemma NewIndexAllAdded(previous: IndexSnapshot, current: IndexSnapshot, changes: map<string, IndexChange>, i: string)
    requires IsIndexDiff(previous, current, changes)
    requires i in current && i !in previous && current[i] != []
    ensures i in changes && changes[i] == IndexChange(Sorted(current[i]), [])
  {
    assert current[i][0] in Elems(current[i]);
    assert i in changes;
    var c := changes[i];
    AscendingUnique(c.added, Sorted(current[i]));
    var empty: seq<string> := [];
    assert PreviousTickers(previous, i) == empty && Elems(empty) == {};
    AscendingUnique(c.removed, empty);
  }

  /** An index that left `current` is never reported, whatever it held before. */
  lemma VanishedIndexInvisible(previous: IndexSnapshot, current: IndexSnapshot, changes: map<string, IndexChange>, i: string)
    requires IsIndexDiff(previous, current, changes)
    requires i in previous && i !in current
    ensures i !in changes
  {
  }

  /** The sets behind the sorting example of the index tests. */
  lemma SortedExampleSets()
    ensures Elems(["A", "F", "E", "D"]) - Elems(["A", "B", "C"]) == Elems(["D", "E", "F"])
    ensures Elems(["A", "B", "C"]) - Elems(["A", "F", "E", "D"]) == Elems(["B", "C"])
  {
    assert Elems(["A", "F", "E", "D"]) == {"A", "F", "E", "D"};
    assert Elems(["A", "B", "C"]) == {"A", "B", "C"};
    assert Elems(["D", "E", "F"]) == {"D", "E", "F"};
    assert Elems(["B", "C"]) == {"B", "C"};
  }

  /** The lists come out in ascending order: A,B,C to A,F,E,D adds D,E,F and removes B,C. */
  lemma IndexDiffSortedExample(changes: map<string, IndexChange>)
    requires IsIndexDiff(map["Index_1" := ["A", "B", "C"]], map["Index_1" := ["A", "F", "E", "D"]], changes)
    ensures changes == map["Index_1" := IndexChange(["D", "E", "F"], ["B", "C"])]
  {
    var previous := map["Index_1" := ["A", "B", "C"]];
    var current := map["Index_1" := ["A", "F", "E", "D"]];
    SortedExampleSets();
    assert "D" in Elems(["D", "E", "F"]);
    assert PreviousTickers(previous, "Index_1") == ["A", "B", "C"];
    assert SetsDiffer(["A", "B", "C"], ["A", "F", "E", "D"]);
    assert "Index_1" in changes;
    var c := changes["Index_1"];
    assert Less("D", "E") && Less("E", "F") && Less("D", "F") && Less("B", "C");
    AscendingUnique(c.added, ["D", "E", "F"]);
    AscendingUnique(c.removed, ["B", "C"]);
    assert changes.Keys == {"Index_1"};
  }
}

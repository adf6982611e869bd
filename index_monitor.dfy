/**
 * The standalone index monitor script `monitor_indexes.py`: its own copy of
 * the index-constituent diff, and the plain-text report it mails when some
 * index changed. The report is specified line by line: every line of the
 * body ends in a newline, and the lines are a header, then one block per
 * changed index (its name underlined by dashes, an "Added" and a "Removed"
 * listing when non-empty, and a blank line).
 */
module IndexMonitor {
  import opened Text
  import opened Ordering
  import opened ChangeDetector

  // ---------------------------------------------------------------------
  // The diff
  // ---------------------------------------------------------------------

  /** `IndexMonitor.detect_changes(previous, current)`. */
  method DetectChanges(previous: IndexSnapshot, current: IndexSnapshot) returns (changes: map<string, IndexChange>)
    ensures IsIndexDiff(previous, current, changes)
  {
    changes := map[];
    var pending := current.Keys;
    while pending != {}
      invariant pending <= current.Keys
      invariant forall i :: i in changes <==>
        i in current && i !in pending && SetsDiffer(PreviousTickers(previous, i), current[i])
      invariant forall i :: i in changes ==> IsIndexChange(PreviousTickers(previous, i), current[i], changes[i])
      decreases pending
    {
      var index :| index in pending;
      var prevSet := PreviousTickers(previous, index);
      var currSet := current[index];
      var added := Difference(currSet, prevSet);
      var removed := Difference(prevSet, currSet);
      if added != [] || removed != [] {
        changes := changes[index := IndexChange(Sorted(added), Sorted(removed))];
      } else {
        assert Elems(added) == {} && Elems(removed) == {};
      }
      pending := pending - {index};
    }
  }

  /**
   * The script's diff and the detector module's diff give the same map on
   * every pair of snapshots.
   */
  method DetectorsAgree(previous: IndexSnapshot, current: IndexSnapshot) returns (legacy: map<string, IndexChange>, modern: map<string, IndexChange>)
    ensures IsIndexDiff(previous, current, legacy)
    ensures legacy == modern
  {
    legacy := DetectChanges(previous, current);
    modern := DetectIndexChanges(previous, current);
    IndexDiffUnique(previous, current, legacy, modern);
  }

  // ---------------------------------------------------------------------
  // The report, line by line
  // ---------------------------------------------------------------------

  /** The whole body when nothing changed. */
  const NoChangesMessage: string := "No changes detected in any index constituents."

  /** The lines joined, each followed by a newline. */
  function Unlines(lines: seq<string>): string {
    if lines == [] then "" else lines[0] + "\n" + Unlines(lines[1..])
  }

  /** The four header lines: title with the month, blank, a rule of 60 '=', blank. */
  function HeaderLines(monthYear: string): seq<string> {
    ["Index Constituent Changes - " + monthYear, "", Repeat('=', 60), ""]
  }

  /** One bullet line per stock, in the order given. */
  function BulletLines(stocks: seq<string>): (r: seq<string>)
    ensures |r| == |stocks|
  {
    seq(|stocks|, i requires 0 <= i < |stocks| => "  \U{2022} " + stocks[i])
  }

  /** A listing: nothing for no stocks, else a count line, the bullets and a blank line. */
  function ListingLines(heading: string, stocks: seq<string>): seq<string> {
    if stocks == [] then []
    else [heading + " (" + NatToString(|stocks|) + "):"] + BulletLines(stocks) + [""]
  }

  const AddedLabel: string := "\U{2713} Added"
  const RemovedLabel: string := "\U{2717} Removed"

  /** The block of one changed index. */
  function SectionLines(index: string, change: IndexChange): seq<string> {
    [index, Repeat('-', |index|)]
      + ListingLines(AddedLabel, change.added)
      + ListingLines(RemovedLabel, change.removed)
      + [""]
  }

  /** The blocks of all entries, in the order of the entries. */
  function AllSectionLines(entries: seq<(string, IndexChange)>): seq<string> {
    if entries == [] then []
    else
      var last := entries[|entries| - 1];
      AllSectionLines(entries[..|entries| - 1]) + SectionLines(last.0, last.1)
  }

  /** All lines of the report on a non-empty list of changes. */
  function ReportLines(entries: seq<(string, IndexChange)>, monthYear: string): seq<string> {
    HeaderLines(monthYear) + AllSectionLines(entries)
  }

  lemma {:induction false} UnlinesAppend(a: seq<string>, b: seq<string>)
    ensures Unlines(a + b) == Unlines(a) + Unlines(b)
  {
    if a != [] {
      assert (a + b)[1..] == a[1..] + b;
      UnlinesAppend(a[1..], b);
    } else {
      assert a + b == b;
    }
  }

  lemma UnlinesOne(line: string)
    ensures Unlines([line]) == line + "\n"
  {
    assert [line][1..] == [];
  }

  /** Appending the text of more lines is appending the lines. */
  lemma UnlinesExtend(body: string, lines: seq<string>, more: seq<string>)
    ensures body + Unlines(lines) + Unlines(more) == body + Unlines(lines + more)
  {
    UnlinesAppend(lines, more);
  }

  /** Appending one line and its newline. */
  lemma UnlinesPush(body: string, lines: seq<string>, line: string)
    ensures body + Unlines(lines) + line + "\n" == body + Unlines(lines + [line])
  {
    UnlinesOne(line);
    UnlinesExtend(body, lines, [line]);
  }

  /** Appending one line followed by a blank line. */
  lemma UnlinesPushBlank(body: string, lines: seq<string>, line: string)
    ensures body + Unlines(lines) + line + "\n\n" == body + Unlines(lines + [line, ""])
  {
    UnlinesPush(body, lines, line);
    UnlinesPush(body, lines + [line], "");
    assert lines + [line] + [""] == lines + [line, ""];
  }

  /**
   * One `if change[...]:` block of `format_email_body`: a count line, a
   * bullet per stock and a blank line, appended only for a non-empty list.
   */
  method AppendListing(body: string, heading: string, stocks: seq<string>) returns (r: string)
    ensures r == body + Unlines(ListingLines(heading, stocks))
  {
    r := body;
    if stocks != [] {
      var countLine := heading + " (" + NatToString(|stocks|) + "):";
      r := r + countLine + "\n";
      UnlinesPush(body, [], countLine);
      ghost var lines := [countLine];
      var j := 0;
      while j < |stocks|
        invariant 0 <= j <= |stocks|
        invariant lines == [countLine] + BulletLines(stocks[..j])
        invariant r == body + Unlines(lines)
      {
        var bullet := "  \U{2022} " + stocks[j];
        r := r + bullet + "\n";
        UnlinesPush(body, lines, bullet);
        lines := lines + [bullet];
        assert BulletLines(stocks[..j + 1]) == BulletLines(stocks[..j]) + [bullet];
        j := j + 1;
      }
      assert stocks[..j] == stocks;
      r := r + "\n";
      UnlinesPush(body, lines, "");
    }
  }

  /** The body of the loop over `changes.items()` in `format_email_body`: the block of one index. */
  method AppendSection(body: string, index: string, change: IndexChange) returns (r: string)
    ensures r == body + Unlines(SectionLines(index, change))
  {
    var rule := Repeat('-', |index|);
    ghost var added := ListingLines(AddedLabel, change.added);
    ghost var removed := ListingLines(RemovedLabel, change.removed);
    r := body + index + "\n";
    UnlinesPush(body, [], index);
    assert r == body + Unlines([index]);
    r := r + rule + "\n";
    UnlinesPush(body, [index], rule);
    assert [index] + [rule] == [index, rule];
    ghost var lines := [index, rule];
    assert r == body + Unlines(lines);
    r := AppendListing(r, AddedLabel, change.added);
    SectionExtend(body, lines, added);
    lines := lines + added;
    assert r == body + Unlines(lines);
    r := AppendListing(r, RemovedLabel, change.removed);
    SectionExtend(body, lines, removed);
    lines := lines + removed;
    assert r == body + Unlines(lines);
    r := r + "\n";
    UnlinesPush(body, lines, "");
    assert lines + [""] == SectionLines(index, change);
  }

  /** Appending the text of more lines to the text of some lines. */
  lemma SectionExtend(body: string, lines: seq<string>, more: seq<string>)
    ensures (body + Unlines(lines)) + Unlines(more) == body + Unlines(lines + more)
  {
    UnlinesExtend(body, lines, more);
  }

  /** The text of the header lines. */
  lemma HeaderText(monthYear: string)
    ensures Unlines(HeaderLines(monthYear))
         == "Index Constituent Changes - " + monthYear + "\n\n" + Repeat('=', 60) + "\n\n"
  {
    var title := "Index Constituent Changes - " + monthYear;
    var rule := Repeat('=', 60);
    UnlinesPushBlank("", [], title);
    assert [] + [title, ""] == [title, ""];
    assert "" + Unlines([]) + title + "\n\n" == title + "\n\n";
    assert Unlines([title, ""]) == title + "\n\n" by {
      assert "" + Unlines([title, ""]) == Unlines([title, ""]);
    }
    UnlinesPushBlank("", [title, ""], rule);
    assert [title, ""] + [rule, ""] == HeaderLines(monthYear);
    assert "" + Unlines([title, ""]) + rule + "\n\n" == title + "\n\n" + rule + "\n\n";
    assert "" + Unlines(HeaderLines(monthYear)) == Unlines(HeaderLines(monthYear));
  }

  /** The text of the report up to entry `k + 1` extends that up to entry `k` by the block of entry `k`. */
  lemma ReportStep(header: seq<string>, entries: seq<(string, IndexChange)>, k: nat)
    requires k < |entries|
    ensures Unlines(header + AllSectionLines(entries[..k + 1]))
         == Unlines(header + AllSectionLines(entries[..k])) + Unlines(SectionLines(entries[k].0, entries[k].1))
  {
    assert entries[..k + 1][..k] == entries[..k];
    var sections := AllSectionLines(entries[..k]);
    var block := SectionLines(entries[k].0, entries[k].1);
    assert header + AllSectionLines(entries[..k + 1]) == (header + sections) + block;
    UnlinesAppend(header + sections, block);
  }

  /**
   * `format_email_body` over the entries of the `changes` dict, in the
   * dict's iteration order, with the month header passed in.
   */
  method FormatEmailBody(entries: seq<(string, IndexChange)>, monthYear: string) returns (body: string)
    ensures entries == [] ==> body == NoChangesMessage
    ensures entries != [] ==> body == Unlines(ReportLines(entries, monthYear))
  {
    if entries == [] {
      return NoChangesMessage;
    }
    body := "Index Constituent Changes - " + monthYear + "\n\n";
    body := body + Repeat('=', 60) + "\n\n";
    HeaderText(monthYear);
    ghost var header := HeaderLines(monthYear);
    assert entries[..0] == [] && header + [] == header;
    var k := 0;
    while k < |entries|
      invariant 0 <= k <= |entries|
      invariant body == Unlines(header + AllSectionLines(entries[..k]))
    {
      var entry := entries[k];
      body := AppendSection(body, entry.0, entry.1);
      ReportStep(header, entries, k);
      k := k + 1;
    }
    assert entries[..k] == entries;
  }

  // ---------------------------------------------------------------------
  // Properties of the report
  // ---------------------------------------------------------------------

  /** Splitting the joined lines at newlines gives the lines back, plus the empty tail. */
  lemma {:induction false} SplitUnlines(lines: seq<string>)
    requires forall k :: 0 <= k < |lines| ==> '\n' !in lines[k]
    ensures Split(Unlines(lines), '\n') == lines + [""]
  {
    if lines == [] {
      SplitSingle("", '\n');
    } else {
      SplitUnlines(lines[1..]);
      SplitSingle(lines[0], '\n');
      SplitAt(lines[0], '\n', Unlines(lines[1..]));
      assert lines[0] + "\n" + Unlines(lines[1..]) == lines[0] + ['\n'] + Unlines(lines[1..]);
      assert lines == [lines[0]] + lines[1..];
    }
  }

  /** No stock, index name or month in the report holds a line break. */
  ghost predicate SingleLineNames(entries: seq<(string, IndexChange)>, monthYear: string) {
    && '\n' !in monthYear
    && (forall k :: 0 <= k < |entries| ==> '\n' !in entries[k].0)
    && (forall k, i :: 0 <= k < |entries| && 0 <= i < |entries[k].1.added| ==> '\n' !in entries[k].1.added[i])
    && (forall k, i :: 0 <= k < |entries| && 0 <= i < |entries[k].1.removed| ==> '\n' !in entries[k].1.removed[i])
  }

  lemma ListingLinesSingle(heading: string, stocks: seq<string>)
    requires '\n' !in heading
    requires forall i :: 0 <= i < |stocks| ==> '\n' !in stocks[i]
    ensures forall k :: 0 <= k < |ListingLines(heading, stocks)| ==> '\n' !in ListingLines(heading, stocks)[k]
  {
    if stocks != [] {
      var digits := NatToString(|stocks|);
      assert '\n' !in digits;
      var bullets := BulletLines(stocks);
      assert forall i :: 0 <= i < |bullets| ==> bullets[i] == "  \U{2022} " + stocks[i];
    }
  }

  lemma {:induction false} AllSectionLinesSingle(entries: seq<(string, IndexChange)>, monthYear: string)
    requires SingleLineNames(entries, monthYear)
    ensures forall k :: 0 <= k < |AllSectionLines(entries)| ==> '\n' !in AllSectionLines(entries)[k]
  {
    if entries != [] {
      var n := |entries| - 1;
      var last := entries[n];
      assert SingleLineNames(entries[..n], monthYear);
      AllSectionLinesSingle(entries[..n], monthYear);
      ListingLinesSingle(AddedLabel, last.1.added);
      ListingLinesSingle(RemovedLabel, last.1.removed);
      assert '\n' !in Repeat('-', |last.0|);
    }
  }

  /**
   * When names and stocks are single-line, the lines of the mailed body are
   * exactly the report lines, followed by the empty piece after the final
   * newline.
   */
  lemma BodyLines(entries: seq<(string, IndexChange)>, monthYear: string)
    requires entries != []
    requires SingleLineNames(entries, monthYear)
    ensures Split(Unlines(ReportLines(entries, monthYear)), '\n') == ReportLines(entries, monthYear) + [""]
  {
    AllSectionLinesSingle(entries, monthYear);
    assert '\n' !in Repeat('=', 60);
    SplitUnlines(ReportLines(entries, monthYear));
  }

  lemma {:induction false} AllSectionLinesAppend(a: seq<(string, IndexChange)>, b: seq<(string, IndexChange)>)
    ensures AllSectionLines(a + b) == AllSectionLines(a) + AllSectionLines(b)
    decreases |b|
  {
    if b == [] {
      assert a + b == a;
    } else {
      var n := |b| - 1;
      var ab := a + b;
      assert ab[..|ab| - 1] == a + b[..n];
      assert ab[|ab| - 1] == b[n];
      AllSectionLinesLast(ab);
      AllSectionLinesLast(b);
      AllSectionLinesAppend(a, b[..n]);
      AssociateBlocks(AllSectionLines(a), AllSectionLines(b[..n]), SectionLines(b[n].0, b[n].1));
    }
  }

  lemma AssociateBlocks(x: seq<string>, y: seq<string>, z: seq<string>)
    ensures (x + y) + z == x + (y + z)
  {
  }

  /** The blocks of a non-empty list end with the block of its last entry. */
  lemma AllSectionLinesLast(entries: seq<(string, IndexChange)>)
    requires entries != []
    ensures var n := |entries| - 1;
      AllSectionLines(entries) == AllSectionLines(entries[..n]) + SectionLines(entries[n].0, entries[n].1)
  {
  }

  /** The line number at which the block of entry `k` starts. */
  function SectionStart(entries: seq<(string, IndexChange)>, k: nat): nat
    requires k <= |entries|
  {
    4 + |AllSectionLines(entries[..k])|
  }

  /**
   * The block of entry `k` starts with the index name, underlined by a line
   * of as many dashes as the name has characters, and then lists its added
   * and removed stocks; the blocks come in the order of the entries.
   */
  lemma SectionHeading(entries: seq<(string, IndexChange)>, monthYear: string, k: nat)
    requires k < |entries|
    ensures SectionStart(entries, k) + 1 < |ReportLines(entries, monthYear)|
    ensures ReportLines(entries, monthYear)[SectionStart(entries, k)] == entries[k].0
    ensures ReportLines(entries, monthYear)[SectionStart(entries, k) + 1] == Repeat('-', |entries[k].0|)
    ensures |ReportLines(entries, monthYear)[SectionStart(entries, k) + 1]| == |entries[k].0|
    ensures SectionStart(entries, k) < SectionStart(entries, k + 1)
  {
    var before, here, after := entries[..k], [entries[k]], entries[k + 1..];
    assert entries == before + here + after;
    AllSectionLinesAppend(before + here, after);
    AllSectionLinesAppend(before, here);
    assert AllSectionLines(here) == SectionLines(entries[k].0, entries[k].1) by {
      assert here[..0] == [];
    }
    assert entries[..k + 1] == before + here;
  }

  /** A listing appears exactly when its list is non-empty, with one bullet per stock in order. */
  lemma ListingShape(heading: string, stocks: seq<string>)
    ensures stocks == [] <==> ListingLines(heading, stocks) == []
    ensures stocks != [] ==>
      && |ListingLines(heading, stocks)| == |stocks| + 2
      && (forall i :: 0 <= i < |stocks| ==> ListingLines(heading, stocks)[i + 1] == "  \U{2022} " + stocks[i])
      && ListingLines(heading, stocks)[|stocks| + 1] == ""
  {
  }

  /** The count in a listing's first line reads back as the number of stocks. */
  lemma ListingCount(heading: string, stocks: seq<string>)
    requires stocks != []
    ensures var line := ListingLines(heading, stocks)[0];
      && line == heading + " (" + NatToString(|stocks|) + "):"
      && ParseNat(NatToString(|stocks|)) == |stocks|
  {
    ParseNatToString(|stocks|);
  }
}

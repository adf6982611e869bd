/**
 * `GmailPortfolioFetcher`: the choice of a portfolio download link from
 * disclosure e-mails. Each e-mail body is given as the anchors an HTML parser
 * found in it (`<a href=...>text</a>`); the IMAP search that finds the e-mails
 * and the HTML parsing are not part of this model.
 */
module GmailFetcher {
  import opened Wrappers
  import opened Text
  import opened Credentials

  /** An anchor element: its `href` and its raw text. */
  datatype Anchor = Anchor(href: string, text: string)

  /** A found link: the anchor's stripped text and its URL. */
  datatype Link = Link(text: string, url: string)

  /** Some keyword occurs in `s`. */
  predicate ContainsAny(s: string, keywords: seq<string>)
    ensures ContainsAny(s, keywords) <==> exists k :: 0 <= k < |keywords| && Contains(s, keywords[k])
  {
    if keywords == [] then false
    else Contains(s, keywords[0]) || ContainsAny(s, keywords[1..])
  }

  /**
   * `is_portfolio_link`: an Excel link, a CAMS delivery link, a URL naming a
   * portfolio, a disclosure or a download, or a text naming a portfolio, a
   * disclosure, ELSS, a fund or a scheme (all case-insensitively).
   */
  predicate IsPortfolioLink(href: string, linkText: string) {
    var url := Lower(href);
    var text := Lower(linkText);
    || Contains(url, ".xls") || Contains(url, ".xlsx")
    || (Contains(url, "camsonline.com") && Contains(url, "delivery"))
    || ContainsAny(url, ["portfolio", "disclosure", "download"])
    || ContainsAny(text, ["portfolio", "disclosure", "elss", "fund", "scheme"])
  }

  /** The URL names an image file. */
  predicate IsImage(href: string) {
    ContainsAny(Lower(href), [".jpg", ".jpeg", ".png", ".gif"])
  }

  /** The anchor is kept by the first pass of `extract_download_links`. */
  predicate Accepted(anchor: Anchor) {
    StartsWith(anchor.href, "http") && IsPortfolioLink(anchor.href, Strip(anchor.text)) && !IsImage(anchor.href)
  }

  /** The links of the accepted anchors, in document order. */
  function Candidates(anchors: seq<Anchor>): (r: seq<Link>)
    ensures |r| <= |anchors|
    ensures forall i :: 0 <= i < |r| ==> StartsWith(r[i].url, "http") && !IsImage(r[i].url)
  {
    if anchors == [] then []
    else
      var init := anchors[..|anchors| - 1];
      var last := anchors[|anchors| - 1];
      Candidates(init) + (if Accepted(last) then [Link(Strip(last.text), last.href)] else [])
  }

  /** The URLs of some links. */
  function Urls(links: seq<Link>): set<string> {
    set l | l in links :: l.url
  }

  /** The links with the URL of an earlier link dropped, as the `seen` pass does. */
  function Dedup(links: seq<Link>): seq<Link> {
    if links == [] then []
    else
      var init := links[..|links| - 1];
      var last := links[|links| - 1];
      Dedup(init) + (if last.url in Urls(init) then [] else [last])
  }

  /** No two links share a URL. */
  predicate DistinctUrls(links: seq<Link>) {
    forall i, j :: 0 <= i < j < |links| ==> links[i].url != links[j].url
  }

  /** Where the URL `u` first occurs. */
  function FirstIndex(links: seq<Link>, u: string): (r: nat)
    requires u in Urls(links)
    ensures r < |links| && links[r].url == u
    ensures forall q :: 0 <= q < r ==> links[q].url != u
  {
    if links[0].url == u then 0
    else
      assert forall l :: l in links && l != links[0] ==> l in links[1..];
      1 + FirstIndex(links[1..], u)
  }

  lemma UrlsSplit(links: seq<Link>)
    requires links != []
    ensures Urls(links) == Urls(links[..|links| - 1]) + {links[|links| - 1].url}
  {
    var init := links[..|links| - 1];
    assert links == init + [links[|links| - 1]];
  }

  /** De-duplication keeps every URL. */
  lemma {:induction false} DedupUrls(links: seq<Link>)
    ensures Urls(Dedup(links)) == Urls(links)
  {
    if links != [] {
      var init := links[..|links| - 1];
      DedupUrls(init);
      UrlsSplit(links);
    }
  }

  /** After de-duplication the URLs are pairwise distinct. */
  lemma {:induction false} DedupDistinct(links: seq<Link>)
    ensures DistinctUrls(Dedup(links))
  {
    if links != [] {
      var init := links[..|links| - 1];
      var last := links[|links| - 1];
      DedupDistinct(init);
      DedupUrls(init);
      if last.url !in Urls(init) {
        var d := Dedup(init);
        forall i | 0 <= i < |d| ensures d[i].url != last.url {
          assert d[i] in d;
        }
      }
    }
  }

  /** Every kept link is one of the input links. */
  lemma {:induction false} DedupSubset(links: seq<Link>)
    ensures forall l :: l in Dedup(links) ==> l in links
  {
    if links != [] {
      DedupSubset(links[..|links| - 1]);
    }
  }

  /** Adding a link at the end does not move the first occurrence of an earlier URL. */
  lemma FirstIndexExtend(links: seq<Link>, u: string)
    requires links != [] && u in Urls(links[..|links| - 1])
    ensures u in Urls(links)
    ensures FirstIndex(links, u) == FirstIndex(links[..|links| - 1], u)
  {
    var init := links[..|links| - 1];
    UrlsSplit(links);
    var a, b := FirstIndex(links, u), FirstIndex(init, u);
    assert init[b] == links[b];
  }

  /** A URL new at the end first occurs at the end. */
  lemma FirstIndexLast(links: seq<Link>)
    requires links != [] && links[|links| - 1].url !in Urls(links[..|links| - 1])
    ensures links[|links| - 1].url in Urls(links)
    ensures FirstIndex(links, links[|links| - 1].url) == |links| - 1
  {
    var init := links[..|links| - 1];
    var last := links[|links| - 1];
    UrlsSplit(links);
    var a := FirstIndex(links, last.url);
  }

  /** Each kept link is the first link with its URL, with that link's text. */
  lemma {:induction false} DedupFirstOccurrence(links: seq<Link>)
    ensures forall i :: 0 <= i < |Dedup(links)| ==>
      Dedup(links)[i].url in Urls(links) && Dedup(links)[i] == links[FirstIndex(links, Dedup(links)[i].url)]
  {
    if links != [] {
      var init := links[..|links| - 1];
      var last := links[|links| - 1];
      var d := Dedup(init);
      DedupFirstOccurrence(init);
      forall i | 0 <= i < |d| ensures d[i].url in Urls(links) && d[i] == links[FirstIndex(links, d[i].url)] {
        FirstIndexExtend(links, d[i].url);
      }
      if last.url !in Urls(init) {
        FirstIndexLast(links);
      }
    }
  }

  /** The kept links appear in the order of the first occurrences of their URLs. */
  lemma {:induction false} DedupOrder(links: seq<Link>)
    ensures forall i :: 0 <= i < |Dedup(links)| ==> Dedup(links)[i].url in Urls(links)
    ensures forall i, j :: 0 <= i < j < |Dedup(links)| ==>
      FirstIndex(links, Dedup(links)[i].url) < FirstIndex(links, Dedup(links)[j].url)
  {
    DedupFirstOccurrence(links);
    if links != [] {
      var init := links[..|links| - 1];
      var last := links[|links| - 1];
      var d := Dedup(init);
      DedupOrder(init);
      forall i | 0 <= i < |d| ensures FirstIndex(links, d[i].url) == FirstIndex(init, d[i].url) {
        FirstIndexExtend(links, d[i].url);
      }
      if last.url !in Urls(init) {
        FirstIndexLast(links);
      }
    }
  }

  /** Links whose URLs are already distinct pass through unchanged. */
  lemma {:induction false} DedupDistinctUnchanged(links: seq<Link>)
    requires DistinctUrls(links)
    ensures Dedup(links) == links
  {
    if links != [] {
      var init := links[..|links| - 1];
      var last := links[|links| - 1];
      assert DistinctUrls(init);
      DedupDistinctUnchanged(init);
      forall l | l in init ensures l.url != last.url {
        var p :| 0 <= p < |init| && init[p] == l;
        assert links[p] == l;
      }
      assert last.url !in Urls(init);
      assert Dedup(links) == Dedup(init) + [last];
      assert init + [last] == links;
    }
  }

  /** De-duplicating twice is de-duplicating once. */
  lemma DedupIdempotent(links: seq<Link>)
    ensures Dedup(Dedup(links)) == Dedup(links)
  {
    DedupDistinct(links);
    DedupDistinctUnchanged(Dedup(links));
  }

  /** `fund_name.lower() in t.lower()`. */
  predicate Mentions(link: Link, fundName: string) {
    Contains(Lower(link.text), Lower(fundName))
  }

  /** The links that mention the fund, in order. */
  function Matching(links: seq<Link>, fundName: string): (r: seq<Link>)
    ensures forall i :: 0 <= i < |r| ==> Mentions(r[i], fundName) && r[i] in links
  {
    if links == [] then []
    else (if Mentions(links[0], fundName) then [links[0]] else []) + Matching(links[1..], fundName)
  }

  /** The links that do not mention the fund, in order. */
  function NotMatching(links: seq<Link>, fundName: string): (r: seq<Link>)
    ensures forall i :: 0 <= i < |r| ==> !Mentions(r[i], fundName) && r[i] in links
  {
    if links == [] then []
    else (if Mentions(links[0], fundName) then [] else [links[0]]) + NotMatching(links[1..], fundName)
  }

  /** `r` is `s` with some elements left out and the rest in their original order. */
  predicate IsSubsequence(r: seq<Link>, s: seq<Link>)
    decreases |s|
  {
    r == [] || (s != [] && ((r[0] == s[0] && IsSubsequence(r[1..], s[1..])) || IsSubsequence(r, s[1..])))
  }

  /** Both filters keep the links they select in the order of the input. */
  lemma {:induction false} FiltersKeepOrder(links: seq<Link>, fundName: string)
    ensures IsSubsequence(Matching(links, fundName), links)
    ensures IsSubsequence(NotMatching(links, fundName), links)
  {
    if links != [] {
      FiltersKeepOrder(links[1..], fundName);
      var m, n := Matching(links, fundName), NotMatching(links, fundName);
      if Mentions(links[0], fundName) {
        assert m[0] == links[0] && m[1..] == Matching(links[1..], fundName);
        assert n == NotMatching(links[1..], fundName);
      } else {
        assert n[0] == links[0] && n[1..] == NotMatching(links[1..], fundName);
        assert m == Matching(links[1..], fundName);
      }
    }
  }

  /** With a fund name, the links mentioning it are moved to the front. */
  function Prioritised(links: seq<Link>, fundName: string): seq<Link> {
    if fundName != "" then Matching(links, fundName) + NotMatching(links, fundName) else links
  }

  /** The result of `extract_download_links(email_body, fund_name)`. */
  function DownloadLinks(anchors: seq<Anchor>, fundName: string): seq<Link> {
    Prioritised(Dedup(Candidates(anchors)), fundName)
  }

  lemma {:induction false} SplitPermutation(links: seq<Link>, fundName: string)
    ensures multiset(Matching(links, fundName)) + multiset(NotMatching(links, fundName)) == multiset(links)
  {
    if links != [] {
      var rest := links[1..];
      SplitPermutation(rest, fundName);
      assert links == [links[0]] + rest;
      ConsSplit(links[0], Mentions(links[0], fundName), rest, Matching(rest, fundName), NotMatching(rest, fundName));
    }
  }

  /** Sending the head to one side or the other keeps a split of the tail a split of the whole. */
  lemma ConsSplit(head: Link, toFirst: bool, rest: seq<Link>, first: seq<Link>, second: seq<Link>)
    requires multiset(first) + multiset(second) == multiset(rest)
    ensures multiset((if toFirst then [head] else []) + first) + multiset((if toFirst then [] else [head]) + second)
         == multiset([head] + rest)
  {
  }

  /**
   * Prioritisation only reorders: the result is a permutation of its input,
   * and every link that mentions the fund comes before every link that does not.
   */
  lemma PrioritisedReorders(links: seq<Link>, fundName: string)
    ensures multiset(Prioritised(links, fundName)) == multiset(links)
    ensures forall i, j :: 0 <= i < j < |Prioritised(links, fundName)| && Mentions(Prioritised(links, fundName)[j], fundName) ==>
                          Mentions(Prioritised(links, fundName)[i], fundName)
  {
    SplitPermutation(links, fundName);
    if fundName != "" {
      var m, n := Matching(links, fundName), NotMatching(links, fundName);
      var r := m + n;
      forall i, j | 0 <= i < j < |r| && Mentions(r[j], fundName) ensures Mentions(r[i], fundName) {
        if j < |m| {
          assert r[i] == m[i];
        }
      }
    }
  }

  /** Without a fund name the de-duplicated links come back as they are. */
  lemma NoFundNameKeepsOrder(anchors: seq<Anchor>)
    ensures DownloadLinks(anchors, "") == Dedup(Candidates(anchors))
  {
  }

  lemma FilterKeepsDistinct(links: seq<Link>, fundName: string)
    requires DistinctUrls(links)
    ensures DistinctUrls(Matching(links, fundName)) && DistinctUrls(NotMatching(links, fundName))
    ensures forall a, b :: a in Matching(links, fundName) && b in NotMatching(links, fundName) ==> a.url != b.url
  {
    MatchingDistinct(links, fundName);
    NotMatchingDistinct(links, fundName);
    forall a, b | a in Matching(links, fundName) && b in NotMatching(links, fundName) ensures a.url != b.url {
      if a.url == b.url {
        SameUrlSameLink(links, a, b);
      }
    }
  }

  /** In a list with distinct URLs, a URL names one link. */
  lemma SameUrlSameLink(links: seq<Link>, a: Link, b: Link)
    requires DistinctUrls(links)
    requires a in links && b in links && a.url == b.url
    ensures a == b
  {
    var i :| 0 <= i < |links| && links[i] == a;
    var j :| 0 <= j < |links| && links[j] == b;
    assert !(i < j) && !(j < i);
  }

  /** The URL of the head of a list with distinct URLs is not in its tail. */
  lemma HeadUrlFresh(links: seq<Link>)
    requires links != [] && DistinctUrls(links)
    ensures forall l :: l in links[1..] ==> l.url != links[0].url
  {
    forall l | l in links[1..] ensures l.url != links[0].url {
      var p :| 0 <= p < |links| - 1 && links[1..][p] == l;
      assert links[p + 1] == l;
    }
  }

  lemma {:induction false} MatchingDistinct(links: seq<Link>, fundName: string)
    requires DistinctUrls(links)
    ensures DistinctUrls(Matching(links, fundName))
  {
    if links != [] {
      var rest := links[1..];
      assert DistinctUrls(rest);
      MatchingDistinct(rest, fundName);
      HeadUrlFresh(links);
      var tail := Matching(rest, fundName);
      if Mentions(links[0], fundName) {
        assert forall i :: 0 <= i < |tail| ==> tail[i] in rest;
        ConsDistinct(links[0], tail);
      } else {
        assert [] + tail == tail;
      }
    }
  }

  lemma {:induction false} NotMatchingDistinct(links: seq<Link>, fundName: string)
    requires DistinctUrls(links)
    ensures DistinctUrls(NotMatching(links, fundName))
  {
    if links != [] {
      var rest := links[1..];
      assert DistinctUrls(rest);
      NotMatchingDistinct(rest, fundName);
      HeadUrlFresh(links);
      var tail := NotMatching(rest, fundName);
      if !Mentions(links[0], fundName) {
        assert forall i :: 0 <= i < |tail| ==> tail[i] in rest;
        ConsDistinct(links[0], tail);
      } else {
        assert [] + tail == tail;
      }
    }
  }

  /** A link put in front of distinct links whose URLs differ from its own. */
  lemma ConsDistinct(head: Link, tail: seq<Link>)
    requires DistinctUrls(tail)
    requires forall i :: 0 <= i < |tail| ==> tail[i].url != head.url
    ensures DistinctUrls([head] + tail)
  {
    var r := [head] + tail;
    forall i, j | 0 <= i < j < |r| ensures r[i].url != r[j].url {
      assert r[j] == tail[j - 1];
      if i > 0 {
        assert r[i] == tail[i - 1];
      }
    }
  }

  /** Every returned link starts with "http" and names no image. */
  lemma DownloadLinksSafe(anchors: seq<Anchor>, fundName: string)
    ensures forall i :: 0 <= i < |DownloadLinks(anchors, fundName)| ==>
      StartsWith(DownloadLinks(anchors, fundName)[i].url, "http") && !IsImage(DownloadLinks(anchors, fundName)[i].url)
  {
    var c := Candidates(anchors);
    var d := Dedup(c);
    var r := DownloadLinks(anchors, fundName);
    DedupSubset(c);
    PrioritisedReorders(d, fundName);
    forall i | 0 <= i < |r| ensures StartsWith(r[i].url, "http") && !IsImage(r[i].url) {
      assert r[i] in multiset(d);
      assert r[i] in c;
    }
  }

  /** No URL is returned twice. */
  lemma DownloadLinksDistinct(anchors: seq<Anchor>, fundName: string)
    ensures DistinctUrls(DownloadLinks(anchors, fundName))
  {
    var d := Dedup(Candidates(anchors));
    var r := DownloadLinks(anchors, fundName);
    DedupDistinct(Candidates(anchors));
    if fundName != "" {
      FilterKeepsDistinct(d, fundName);
      ConcatDistinct(Matching(d, fundName), NotMatching(d, fundName));
    }
  }

  lemma ConcatDistinct(m: seq<Link>, n: seq<Link>)
    requires DistinctUrls(m) && DistinctUrls(n)
    requires forall a, b :: a in m && b in n ==> a.url != b.url
    ensures DistinctUrls(m + n)
  {
    var r := m + n;
    forall i, j | 0 <= i < j < |r| ensures r[i].url != r[j].url {
      if i < |m| && j >= |m| {
        assert r[i] == m[i] && r[j] == n[j - |m|];
        assert m[i] in m && n[j - |m|] in n;
      } else if i >= |m| {
        assert r[i] == n[i - |m|] && r[j] == n[j - |m|];
      }
    }
  }

  class GmailPortfolioFetcher {
    const emailAddress: string
    const emailPassword: string
    const imapServer: string

    /** `GmailPortfolioFetcher(email_address, email_password)`. */
    constructor(emailAddress: string, emailPassword: string)
      ensures this.emailAddress == CleanCredential(emailAddress)
      ensures this.emailPassword == CleanCredential(emailPassword)
      ensures imapServer == "imap.gmail.com"
    {
      this.emailAddress := CleanCredential(emailAddress);
      this.emailPassword := CleanCredential(emailPassword);
      imapServer := "imap.gmail.com";
    }

    /** `extract_download_links(email_body, fund_name)`, over the body's anchors. */
    method ExtractDownloadLinks(anchors: seq<Anchor>, fundName: string) returns (links: seq<Link>)
      ensures links == DownloadLinks(anchors, fundName)
    {
      var candidates := CollectCandidates(anchors);
      var uniqueLinks := RemoveDuplicates(candidates);
      if fundName != "" {
        return Matching(uniqueLinks, fundName) + NotMatching(uniqueLinks, fundName);
      }
      return uniqueLinks;
    }

    /** The first pass of `extract_download_links`: the portfolio links that are not images. */
    method CollectCandidates(anchors: seq<Anchor>) returns (candidates: seq<Link>)
      ensures candidates == Candidates(anchors)
    {
      candidates := [];
      for k := 0 to |anchors|
        invariant candidates == Candidates(anchors[..k])
      {
        assert anchors[..k + 1][..k] == anchors[..k];
        var href := anchors[k].href;
        var linkText := Strip(anchors[k].text);
        if !StartsWith(href, "http") {
          continue;
        }
        if IsPortfolioLink(href, linkText) && !IsImage(href) {
          candidates := candidates + [Link(linkText, href)];
        }
      }
      assert anchors[..|anchors|] == anchors;
    }

    /** The `seen` pass of `extract_download_links`. */
    method RemoveDuplicates(links: seq<Link>) returns (uniqueLinks: seq<Link>)
      ensures uniqueLinks == Dedup(links)
    {
      var seen: set<string> := {};
      uniqueLinks := [];
      for k := 0 to |links|
        invariant uniqueLinks == Dedup(links[..k])
        invariant seen == Urls(links[..k])
      {
        assert links[..k + 1][..k] == links[..k];
        UrlsSplit(links[..k + 1]);
        var link := links[k];
        if link.url !in seen {
          seen := seen + {link.url};
          uniqueLinks := uniqueLinks + [link];
        }
      }
      assert links[..|links|] == links;
    }

    /**
     * `fetch_portfolio_from_email(amc_name, fund_name)`, over the anchors of
     * the e-mails the search returned, most recent first.
     */
    method FetchPortfolioFromEmail(emails: seq<seq<Anchor>>, fundName: string) returns (url: Option<string>)
      ensures url.None? <==> forall i :: 0 <= i < |emails| ==> DownloadLinks(emails[i], fundName) == []
      ensures url.Some? ==> exists i :: (0 <= i < |emails| && DownloadLinks(emails[i], fundName) != []
        && url.value == DownloadLinks(emails[i], fundName)[0].url
        && forall j :: 0 <= j < i ==> DownloadLinks(emails[j], fundName) == [])
    {
      if emails == [] {
        return None;
      }
      for k := 0 to |emails|
        invariant forall j :: 0 <= j < k ==> DownloadLinks(emails[j], fundName) == []
      {
        var downloadLinks := ExtractDownloadLinks(emails[k], fundName);
        if downloadLinks != [] {
          url := Some(downloadLinks[0].url);
          assert 0 <= k < |emails| && DownloadLinks(emails[k], fundName) != []
            && url.value == DownloadLinks(emails[k], fundName)[0].url;
          return;
        }
      }
      return None;
    }
  }
}

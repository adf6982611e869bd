/**
 * `_clean_credential`, defined identically in the e-mail notifier and the
 * Gmail fetcher: join the whitespace-separated words of the value (so every
 * whitespace character goes), then encode to ASCII ignoring errors (so every
 * character from code point 128 up goes).
 */
module Credentials {
  import opened Text

  /** `s.split()` with no argument: the maximal runs of non-whitespace characters. */
  function Words(s: string): (r: seq<string>)
    ensures forall k :: 0 <= k < |r| ==> r[k] != []
    ensures forall k, i :: 0 <= k < |r| && 0 <= i < |r[k]| ==> !IsSpace(r[k][i])
    ensures s != [] && !IsSpace(s[0]) ==> r != [] && r[0][0] == s[0]
  {
    if s == [] then []
    else
      var rest := Words(s[1..]);
      if IsSpace(s[0]) then rest
      else if |s| > 1 && !IsSpace(s[1]) then [[s[0]] + rest[0]] + rest[1..]
      else [[s[0]]] + rest
  }

  /** `''.join(words)`. */
  function Concat(words: seq<string>): string {
    if words == [] then "" else words[0] + Concat(words[1..])
  }

  /** The characters of `s` satisfying `keep`, in their original order. */
  function Filter(s: string, keep: char -> bool): (r: string)
    ensures |r| <= |s|
    ensures forall i :: 0 <= i < |r| ==> keep(r[i])
  {
    if s == [] then "" else (if keep(s[0]) then [s[0]] else "") + Filter(s[1..], keep)
  }

  /** `s.encode('ascii', 'ignore').decode('ascii')`. */
  function AsciiOnly(s: string): string {
    Filter(s, IsAscii)
  }

  /** `_clean_credential(value)`. */
  function CleanCredential(value: string): string {
    AsciiOnly(Concat(Words(value)))
  }

  /** A character survives cleaning: it is neither whitespace nor beyond ASCII. */
  predicate Kept(c: char) {
    !IsSpace(c) && IsAscii(c)
  }

  lemma {:induction false} FilterAppend(a: string, b: string, keep: char -> bool)
    ensures Filter(a + b, keep) == Filter(a, keep) + Filter(b, keep)
  {
    if a != [] {
      assert (a + b)[1..] == a[1..] + b;
      FilterAppend(a[1..], b, keep);
    } else {
      assert a + b == b;
    }
  }

  /** Joining the words of `s` drops exactly its whitespace characters. */
  lemma {:induction false} ConcatWords(s: string)
    ensures Concat(Words(s)) == Filter(s, c => !IsSpace(c))
  {
    if s != [] {
      var rest := Words(s[1..]);
      ConcatWords(s[1..]);
      if !IsSpace(s[0]) {
        if |s| > 1 && !IsSpace(s[1]) {
          var w := Words(s);
          assert w == [[s[0]] + rest[0]] + rest[1..];
          assert rest == [rest[0]] + rest[1..];
          assert Concat(rest) == rest[0] + Concat(rest[1..]);
          assert Concat(w) == [s[0]] + rest[0] + Concat(rest[1..]);
        } else {
          assert Words(s) == [[s[0]]] + rest;
          assert Concat([[s[0]]] + rest) == [s[0]] + Concat(rest);
        }
      }
    }
  }

  lemma {:induction false} FilterFilter(s: string, first: char -> bool, second: char -> bool, both: char -> bool)
    requires forall c :: both(c) == (first(c) && second(c))
    ensures Filter(Filter(s, first), second) == Filter(s, both)
  {
    if s != [] {
      FilterFilter(s[1..], first, second, both);
      var head: string := if first(s[0]) then [s[0]] else "";
      FilterAppend(head, Filter(s[1..], first), second);
      if first(s[0]) {
        assert head[1..] == "";
      }
    }
  }

  /**
   * Cleaning keeps exactly the non-whitespace ASCII characters of the value,
   * in their original order.
   */
  lemma CleanCredentialKeeps(value: string)
    ensures CleanCredential(value) == Filter(value, Kept)
  {
    var notSpace := c => !IsSpace(c);
    ConcatWords(value);
    assert Concat(Words(value)) == Filter(value, notSpace);
    FilterFilter(value, notSpace, IsAscii, Kept);
  }

  /** A cleaned credential holds no whitespace and nothing beyond ASCII. */
  lemma CleanCredentialChars(value: string)
    ensures forall i :: 0 <= i < |CleanCredential(value)| ==>
      !IsSpace(CleanCredential(value)[i]) && IsAscii(CleanCredential(value)[i])
  {
    CleanCredentialKeeps(value);
  }

  lemma {:induction false} FilterAllKept(s: string, keep: char -> bool)
    requires forall i :: 0 <= i < |s| ==> keep(s[i])
    ensures Filter(s, keep) == s
  {
    if s != [] {
      FilterAllKept(s[1..], keep);
    }
  }

  lemma {:induction false} FilterDropsSome(s: string, keep: char -> bool)
    requires exists i :: 0 <= i < |s| && !keep(s[i])
    ensures |Filter(s, keep)| < |s|
  {
    if keep(s[0]) {
      var i :| 0 <= i < |s| && !keep(s[i]);
      assert s[1..][i - 1] == s[i];
      FilterDropsSome(s[1..], keep);
    }
  }

  /** Cleaning is the identity exactly on values made only of non-whitespace ASCII. */
  lemma CleanCredentialFixpoint(value: string)
    ensures CleanCredential(value) == value <==> forall i :: 0 <= i < |value| ==> Kept(value[i])
  {
    CleanCredentialKeeps(value);
    if forall i :: 0 <= i < |value| ==> Kept(value[i]) {
      FilterAllKept(value, Kept);
    } else {
      FilterDropsSome(value, Kept);
    }
  }

  /** Cleaning twice is cleaning once. */
  lemma CleanCredentialIdempotent(value: string)
    ensures CleanCredential(CleanCredential(value)) == CleanCredential(value)
  {
    CleanCredentialChars(value);
    CleanCredentialFixpoint(CleanCredential(value));
  }

  /** Cleaning works character by character: it distributes over concatenation. */
  lemma CleanCredentialAppend(a: string, b: string)
    ensures CleanCredential(a + b) == CleanCredential(a) + CleanCredential(b)
  {
    CleanCredentialKeeps(a);
    CleanCredentialKeeps(b);
    CleanCredentialKeeps(a + b);
    FilterAppend(a, b, Kept);
  }

  /** A value of only whitespace, such as a pasted "  \t", cleans to the empty string. */
  lemma BlankCleansToEmpty(value: string)
    requires forall i :: 0 <= i < |value| ==> IsSpace(value[i])
    ensures CleanCredential(value) == ""
  {
    CleanCredentialKeeps(value);
    BlankFilter(value);
  }

  lemma {:induction false} BlankFilter(value: string)
    requires forall i :: 0 <= i < |value| ==> IsSpace(value[i])
    ensures Filter(value, Kept) == ""
  {
    if value != [] {
      BlankFilter(value[1..]);
    }
  }
}

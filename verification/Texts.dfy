/** Finding, splitting and trimming text, as Python's str does it for ASCII. */
module Texts {

  /** Where a character first is, or the length if it is nowhere. */
  function UpTo(s: string, c: char): (k: nat)
    ensures k <= |s|
  {
    if s == "" || s[0] == c then 0 else 1 + UpTo(s[1..], c)
  }

  lemma {:induction false} UpToAppended(a: string, c: char, b: string)
    requires c !in a
    ensures UpTo(a + [c] + b, c) == |a|
  {
    if a != "" {
      assert (a + [c] + b)[1..] == a[1..] + [c] + b;
      UpToAppended(a[1..], c, b);
    }
  }

  lemma {:induction false} UpToNowhere(s: string, c: char)
    requires c !in s
    ensures UpTo(s, c) == |s|
  {
    if s != "" {
      UpToNowhere(s[1..], c);
    }
  }

  /** `split(c)`: the pieces between all its occurrences. */
  function SplitAll(s: string, c: char): seq<string>
    decreases |s|
  {
    var k := UpTo(s, c);
    if k == |s| then [s] else [s[..k]] + SplitAll(s[k + 1..], c)
  }

  lemma SplitFront(a: string, c: char, b: string)
    requires c !in a
    ensures SplitAll(a + [c] + b, c) == [a] + SplitAll(b, c)
  {
    UpToAppended(a, c, b);
    assert (a + [c] + b)[..|a|] == a && (a + [c] + b)[|a| + 1..] == b;
  }

  lemma SplitNone(s: string, c: char)
    requires c !in s
    ensures SplitAll(s, c) == [s]
  {
    UpToNowhere(s, c);
  }

  function Joined(parts: seq<string>, c: char): string
    requires parts != []
  {
    if |parts| == 1 then parts[0] else parts[0] + [c] + Joined(parts[1..], c)
  }

  lemma {:induction false} SplitJoined(parts: seq<string>, c: char)
    requires parts != [] && forall k :: 0 <= k < |parts| ==> c !in parts[k]
    ensures SplitAll(Joined(parts, c), c) == parts
  {
    if |parts| == 1 {
      SplitNone(parts[0], c);
    } else {
      SplitJoined(parts[1..], c);
      SplitFront(parts[0], c, Joined(parts[1..], c));
    }
  }

  predicate IsSpace(c: char) {
    c == ' ' || c == '\t' || c == '\n' || c == '\r'
  }

  predicate AllSpace(s: string) {
    forall i :: 0 <= i < |s| ==> IsSpace(s[i])
  }

  /** `strip()`: without the spaces at both ends. */
  function Strip(s: string): string
    decreases |s|
  {
    if s == "" then ""
    else if IsSpace(s[0]) then Strip(s[1..])
    else if IsSpace(s[|s| - 1]) then Strip(s[..|s| - 1])
    else s
  }

  predicate Trimmed(s: string) {
    s == "" || (!IsSpace(s[0]) && !IsSpace(s[|s| - 1]))
  }

  /** Spaces around a text that has none at its ends are stripped, and nothing else is. */
  lemma {:induction false} StripPadded(before: string, s: string, after: string)
    requires AllSpace(before) && Trimmed(s) && AllSpace(after)
    ensures Strip(before + s + after) == s
    decreases |before| + |after|
  {
    var all := before + s + after;
    if before != "" {
      assert all[1..] == before[1..] + s + after;
      StripPadded(before[1..], s, after);
    } else if after != "" {
      var n := |after| - 1;
      assert all[..|all| - 1] == before + s + after[..n];
      assert all[|all| - 1] == after[n];
      if s == "" {
        assert all == after && all[1..] == before + s + after[1..];
        StripPadded(before, s, after[1..]);
      } else {
        assert all[0] == s[0];
        StripPadded(before, s, after[..n]);
      }
    } else {
      assert all == s;
    }
  }

  function LowerChar(c: char): char {
    if 'A' <= c <= 'Z' then (c as int - 'A' as int + 'a' as int) as char else c
  }

  function Lower(s: string): string {
    seq(|s|, k requires 0 <= k < |s| => LowerChar(s[k]))
  }
}

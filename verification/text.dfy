/** The few Python string operations the pipeline relies on, over `seq<char>`. */
module Text {

  /** Python's slice `s[:n]` for a non-negative `n`: the longest prefix of `s` of length at most `n`. */
  function Truncate(s: string, n: nat): (r: string)
    ensures |r| <= n && |r| <= |s|
    ensures |r| == n || |r| == |s|
  {
    if |s| <= n then s else s[..n]
  }

  /** The truncation is the prefix of `s` of its own length. */
  lemma TruncateIsPrefix(s: string, n: nat)
    ensures Truncate(s, n) == s[..|Truncate(s, n)|]
  {
    if |s| <= n {
      assert s[..|s|] == s;
    }
  }

  /** Truncation leaves a string that already fits unchanged. */
  lemma TruncateFits(s: string, n: nat)
    requires |s| <= n
    ensures Truncate(s, n) == s
  {
  }

  /** The concatenation of a sequence of strings, in order. */
  function Concat(xs: seq<string>): string
    decreases |xs|
  {
    if |xs| == 0 then "" else Concat(xs[..|xs| - 1]) + xs[|xs| - 1]
  }

  /** Concatenating one more string adds it at the end. */
  lemma ConcatSnoc(xs: seq<string>, x: string)
    ensures Concat(xs + [x]) == Concat(xs) + x
  {
    assert (xs + [x])[..|xs|] == xs;
  }

  /** The sum of the lengths of a sequence of strings. */
  function TotalLength(xs: seq<string>): nat
    decreases |xs|
  {
    if |xs| == 0 then 0 else TotalLength(xs[..|xs| - 1]) + |xs[|xs| - 1]|
  }

  /** Python's `sep.join(xs)`: the strings of `xs` in order with `sep` between neighbours. */
  function Join(sep: string, xs: seq<string>): (r: string)
    ensures |xs| > 0 ==> |r| == TotalLength(xs) + (|xs| - 1) * |sep|
    ensures |xs| == 0 ==> r == ""
    decreases |xs|
  {
    if |xs| == 0 then ""
    else if |xs| == 1 then xs[0]
    else Join(sep, xs[..|xs| - 1]) + sep + xs[|xs| - 1]
  }

  /** Joining from the front: the first string, the separator, then the join of the rest. */
  lemma {:induction false} JoinCons(sep: string, x: string, xs: seq<string>)
    requires |xs| > 0
    ensures Join(sep, [x] + xs) == x + sep + Join(sep, xs)
    decreases |xs|
  {
    var ys := [x] + xs;
    if |xs| == 1 {
      assert ys[..|ys| - 1] == [x];
    } else {
      var init := xs[..|xs| - 1];
      assert ys[..|ys| - 1] == [x] + init;
      JoinCons(sep, x, init);
    }
  }

  /** `s` holds `t` verbatim starting at position `i`. */
  predicate OccursAt(s: string, t: string, i: nat)
  {
    i + |t| <= |s| && s[i..i + |t|] == t
  }

  /** `s` holds `t` verbatim somewhere: Python's `t in s`. */
  predicate Contains(s: string, t: string)
  {
    exists i: nat | i <= |s| :: OccursAt(s, t, i)
  }
}

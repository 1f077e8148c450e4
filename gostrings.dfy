/**
 * The few operations of Go's `strings` package that the helm wrapper uses,
 * over strings of characters, each with a single-character separator or
 * cutset as in every call site of the wrapper.
 */
module GoStrings {

  /** Number of occurrences of `c` in `s`. */
  function Count(c: char, s: string): (n: nat)
    ensures n <= |s|
  {
    if s == [] then 0 else (if s[0] == c then 1 else 0) + Count(c, s[1..])
  }

  /** A character is absent exactly when it is counted zero times. */
  lemma {:induction false} CountZero(c: char, s: string)
    ensures Count(c, s) == 0 <==> c !in s
  {
    if s != [] {
      CountZero(c, s[1..]);
      assert s == [s[0]] + s[1..];
    }
  }

  lemma {:induction false} CountAppend(c: char, a: string, b: string)
    ensures Count(c, a + b) == Count(c, a) + Count(c, b)
  {
    if a == [] {
      assert a + b == b;
    } else {
      assert (a + b)[1..] == a[1..] + b;
      CountAppend(c, a[1..], b);
    }
  }

  /** Position of the first `c` in `s` (strings.IndexByte). */
  function IndexOf(s: string, c: char): (i: nat)
    requires c in s
    ensures i < |s| && s[i] == c
    ensures forall k :: 0 <= k < i ==> s[k] != c
  {
    if s[0] == c then 0
    else
      var k := IndexOf(s[1..], c);
      assert forall j :: 1 <= j < k + 1 ==> s[j] == s[1..][j - 1];
      1 + k
  }

  /** `sub` occurs in `s` starting at position `i`. */
  predicate OccursAt(s: string, sub: string, i: nat)
  {
    i + |sub| <= |s| && s[i..i + |sub|] == sub
  }

  /** strings.Contains. */
  predicate Contains(s: string, sub: string)
    decreases |s|
  {
    |sub| <= |s| && (s[..|sub|] == sub || (|s| > 0 && Contains(s[1..], sub)))
  }

  /** Contains finds `sub` exactly when it occurs at some position. */
  lemma {:induction false} ContainsIff(s: string, sub: string)
    ensures Contains(s, sub) <==> exists i: nat :: OccursAt(s, sub, i)
    decreases |s|
  {
    if Contains(s, sub) {
      if s[..|sub|] == sub {
        assert OccursAt(s, sub, 0);
      } else {
        ContainsIff(s[1..], sub);
        var i: nat :| OccursAt(s[1..], sub, i);
        assert s[1..][i..i + |sub|] == s[i + 1..i + 1 + |sub|];
        assert OccursAt(s, sub, i + 1);
      }
    }
    if exists i: nat :: OccursAt(s, sub, i) {
      var i: nat :| OccursAt(s, sub, i);
      if i > 0 {
        assert s[1..][i - 1..i - 1 + |sub|] == s[i..i + |sub|];
        assert OccursAt(s[1..], sub, i - 1);
        ContainsIff(s[1..], sub);
      }
    }
  }

  /**
   * strings.SplitN(s, string(sep), n) for n > 0: the text between the
   * first n - 1 separators, then the unsplit remainder.
   */
  function SplitN(s: string, sep: char, n: nat): (parts: seq<string>)
    requires n > 0
    ensures 1 <= |parts| <= n
    decreases n
  {
    if n == 1 || sep !in s then [s]
    else
      var i := IndexOf(s, sep);
      [s[..i]] + SplitN(s[i + 1..], sep, n - 1)
  }

  /** The inverse of splitting: the parts with `sep` between them (strings.Join). */
  function Join(parts: seq<string>, sep: char): string
    requires |parts| > 0
  {
    if |parts| == 1 then parts[0] else parts[0] + [sep] + Join(parts[1..], sep)
  }

  lemma {:induction false} JoinCons(first: string, rest: seq<string>, sep: char)
    requires |rest| > 0
    ensures Join([first] + rest, sep) == first + [sep] + Join(rest, sep)
  {
    assert ([first] + rest)[1..] == rest;
  }

  lemma {:induction false} SplitAround(s: string, i: nat)
    requires i < |s|
    ensures s == s[..i] + [s[i]] + s[i + 1..]
  {
  }

  /** Joining the parts of a split rebuilds the input. */
  lemma {:induction false} JoinSplitN(s: string, sep: char, n: nat)
    requires n > 0
    ensures Join(SplitN(s, sep, n), sep) == s
    decreases n
  {
    if n == 1 {
      assert SplitN(s, sep, n) == [s];
    } else if sep !in s {
      assert SplitN(s, sep, n) == [s];
    } else {
      var i := IndexOf(s, sep);
      var rest := SplitN(s[i + 1..], sep, n - 1);
      JoinCons(s[..i], rest, sep);
      JoinSplitN(s[i + 1..], sep, n - 1);
      SplitAround(s, i);
    }
  }

  function Min(a: nat, b: nat): nat { if a <= b then a else b }

  /** The occurrences of `c` are the first one and those after it. */
  lemma {:induction false} CountFromFirst(c: char, s: string)
    requires c in s
    ensures Count(c, s) == 1 + Count(c, s[IndexOf(s, c) + 1..])
  {
    var i := IndexOf(s, c);
    SplitAround(s, i);
    CountAppend(c, s[..i] + [c], s[i + 1..]);
    CountAppend(c, s[..i], [c]);
    assert c !in s[..i] by {
      assert forall k :: 0 <= k < i ==> s[..i][k] == s[k];
    }
    CountZero(c, s[..i]);
    assert [c][1..] == [];
  }

  /** SplitN yields one part more than there are separators, but never more than n. */
  lemma {:induction false} SplitNLength(s: string, sep: char, n: nat)
    requires n > 0
    ensures |SplitN(s, sep, n)| == Min(n, Count(sep, s) + 1)
    decreases n
  {
    if n == 1 {
      assert SplitN(s, sep, n) == [s];
    } else if sep !in s {
      assert SplitN(s, sep, n) == [s];
      CountZero(sep, s);
    } else {
      var t := s[IndexOf(s, sep) + 1..];
      assert |SplitN(s, sep, n)| == 1 + |SplitN(t, sep, n - 1)|;
      SplitNLength(t, sep, n - 1);
      CountFromFirst(sep, s);
    }
  }

  /** SplitN yields all `n` parts exactly when `s` holds at least `n - 1` separators. */
  lemma SplitNFull(s: string, sep: char, n: nat)
    requires n > 0
    ensures |SplitN(s, sep, n)| == n <==> Count(sep, s) >= n - 1
  {
    SplitNLength(s, sep, n);
  }

  /**
   * No part but the last contains the separator, and the last does not
   * either when there are fewer than n parts.
   */
  predicate PartsLackSep(parts: seq<string>, sep: char, n: nat)
  {
    && (forall k :: 0 <= k < |parts| - 1 ==> sep !in parts[k])
    && (0 < |parts| < n ==> sep !in parts[|parts| - 1])
  }

  lemma {:induction false} PartsLackSepCons(first: string, rest: seq<string>, sep: char, n: nat)
    requires sep !in first && |rest| > 0 && n > 0 && PartsLackSep(rest, sep, n - 1)
    ensures PartsLackSep([first] + rest, sep, n)
  {
    var parts := [first] + rest;
    forall k | 1 <= k < |parts|
      ensures parts[k] == rest[k - 1]
    {
    }
  }

  /** The parts of SplitN lack the separator, save the unsplit remainder when n parts came out. */
  lemma {:induction false} SplitNPartsLackSep(s: string, sep: char, n: nat)
    requires n > 0
    ensures PartsLackSep(SplitN(s, sep, n), sep, n)
    decreases n
  {
    if n == 1 {
      assert SplitN(s, sep, n) == [s];
    } else if sep !in s {
      assert SplitN(s, sep, n) == [s];
    } else {
      var i := IndexOf(s, sep);
      var rest := SplitN(s[i + 1..], sep, n - 1);
      assert SplitN(s, sep, n) == [s[..i]] + rest;
      SplitNPartsLackSep(s[i + 1..], sep, n - 1);
      assert sep !in s[..i] by {
        assert forall k :: 0 <= k < i ==> s[..i][k] == s[k];
      }
      PartsLackSepCons(s[..i], rest, sep, n);
    }
  }

  /** strings.Split(s, string(sep)): every separator splits. */
  function Split(s: string, sep: char): (parts: seq<string>)
    ensures |parts| == Count(sep, s) + 1
    ensures forall k :: 0 <= k < |parts| ==> sep !in parts[k]
    ensures Join(parts, sep) == s
  {
    SplitAllLength(s, sep, |s| + 2);
    SplitAllLackSep(s, sep, |s| + 2);
    JoinSplitN(s, sep, |s| + 2);
    SplitN(s, sep, |s| + 2)
  }

  /** With more room than there are separators, SplitN splits at every one. */
  lemma {:induction false} SplitAllLength(s: string, sep: char, n: nat)
    requires n > Count(sep, s) + 1
    ensures |SplitN(s, sep, n)| == Count(sep, s) + 1
  {
    SplitNLength(s, sep, n);
  }

  /** With more room than there are separators, no part of SplitN holds one. */
  lemma {:induction false} SplitAllLackSep(s: string, sep: char, n: nat)
    requires n > Count(sep, s) + 1
    ensures forall k :: 0 <= k < |SplitN(s, sep, n)| ==> sep !in SplitN(s, sep, n)[k]
  {
    SplitNLength(s, sep, n);
    SplitNPartsLackSep(s, sep, n);
  }

  /** The length of the run of `cut` characters that starts `s`. */
  function LeadingCut(s: string, cut: char): (n: nat)
    ensures n <= |s|
    ensures forall k :: 0 <= k < n ==> s[k] == cut
    ensures n < |s| ==> s[n] != cut
  {
    if s != [] && s[0] == cut then
      var m := LeadingCut(s[1..], cut);
      assert forall k :: 1 <= k < m + 1 ==> s[k] == s[1..][k - 1];
      1 + m
    else 0
  }

  /** The length of the run of `cut` characters that ends `s`. */
  function TrailingCut(s: string, cut: char): (n: nat)
    ensures n <= |s|
    ensures forall k :: |s| - n <= k < |s| ==> s[k] == cut
    ensures n < |s| ==> s[|s| - n - 1] != cut
  {
    if s != [] && s[|s| - 1] == cut then
      var m := TrailingCut(s[..|s| - 1], cut);
      assert forall k :: |s| - 1 - m <= k < |s| - 1 ==> s[k] == s[..|s| - 1][k];
      1 + m
    else 0
  }

  /** strings.Trim(s, string(cut)): `s` without the runs of `cut` at either end. */
  function Trim(s: string, cut: char): string
  {
    var l := s[LeadingCut(s, cut)..];
    l[..|l| - TrailingCut(l, cut)]
  }

  /**
   * The trimmed string is what is left of `s` after removing a run of `cut`
   * characters from each end, and it neither starts nor ends with one.
   */
  lemma {:induction false} TrimInfix(s: string, cut: char)
    ensures var i, r := LeadingCut(s, cut), Trim(s, cut);
      && i + |r| <= |s| && s[i..i + |r|] == r
      && (forall k :: 0 <= k < i ==> s[k] == cut)
      && (forall k :: i + |r| <= k < |s| ==> s[k] == cut)
      && (r == [] || (r[0] != cut && r[|r| - 1] != cut))
  {
    var i := LeadingCut(s, cut);
    var l := s[i..];
    var t := TrailingCut(l, cut);
    var r := l[..|l| - t];
    assert s[i..i + |r|] == r;
    forall k | i + |r| <= k < |s|
      ensures s[k] == cut
    {
      assert s[k] == l[k - i];
    }
    if r != [] {
      assert r[0] == s[i];
      assert r[|r| - 1] == l[|l| - t - 1];
    }
  }
}

/** array.go: filtering a slice and testing membership. */
module Array {

  /** `sub` is obtained from `s` by leaving elements out, keeping the order
      of the rest. */
  ghost predicate IsSubsequence<T>(sub: seq<T>, s: seq<T>)
    decreases |s|
  {
    || |sub| == 0
    || (|s| > 0 && (IsSubsequence(sub, s[1..]) || (sub[0] == s[0] && IsSubsequence(sub[1..], s[1..]))))
  }

  /** ArrayFilter: the elements of `s` that satisfy `keep`, in their order
      in `s`; FilterKeeps says each is kept as often as it occurs in `s`. */
  function ArrayFilter<T>(s: seq<T>, keep: T -> bool): (r: seq<T>)
    ensures |r| <= |s|
    ensures forall i :: 0 <= i < |r| ==> keep(r[i])
    decreases |s|
  {
    if |s| == 0 then []
    else
      var rest := ArrayFilter(s[1..], keep);
      (if keep(s[0]) then [s[0]] else []) + rest
  }

  /** `r` holds every element of `s` that satisfies `keep` as often as `s`
      does, and nothing else. */
  ghost predicate KeepsCounts<T>(r: seq<T>, s: seq<T>, keep: T -> bool) {
    && multiset(r) <= multiset(s)
    && forall i :: 0 <= i < |s| ==> multiset(r)[s[i]] == if keep(s[i]) then multiset(s)[s[i]] else 0
  }

  /** The filtered slice is a subsequence of `s` holding each kept element
      as often as `s` does. */
  lemma {:induction false} FilterKeeps<T>(s: seq<T>, keep: T -> bool)
    ensures IsSubsequence(ArrayFilter(s, keep), s)
    ensures KeepsCounts(ArrayFilter(s, keep), s, keep)
    decreases |s|
  {
    if |s| > 0 {
      FilterKeeps(s[1..], keep);
      FilterCons(s, keep);
      FilterStep(s, keep, ArrayFilter(s[1..], keep));
    }
  }

  /** Filtering the first element in front of the filtered rest keeps both
      properties. */
  lemma FilterStep<T>(s: seq<T>, keep: T -> bool, rest: seq<T>)
    requires |s| > 0
    requires IsSubsequence(rest, s[1..])
    requires KeepsCounts(rest, s[1..], keep)
    ensures var r := (if keep(s[0]) then [s[0]] else []) + rest;
      IsSubsequence(r, s) && KeepsCounts(r, s, keep)
  {
    if keep(s[0]) {
      assert ([s[0]] + rest)[1..] == rest;
      CountsCons(s, rest, keep);
    } else {
      assert [] + rest == rest;
      CountsSkip(s, rest, keep);
    }
  }

  lemma CountsCons<T>(s: seq<T>, rest: seq<T>, keep: T -> bool)
    requires |s| > 0 && keep(s[0])
    requires KeepsCounts(rest, s[1..], keep)
    ensures KeepsCounts([s[0]] + rest, s, keep)
  {
    assert s == [s[0]] + s[1..];
    assert multiset([s[0]] + rest) == multiset{s[0]} + multiset(rest);
    assert multiset(s) == multiset{s[0]} + multiset(s[1..]);
    forall i | 0 <= i < |s|
      ensures multiset([s[0]] + rest)[s[i]] == if keep(s[i]) then multiset(s)[s[i]] else 0
    {
      if i > 0 {
        assert s[i] == s[1..][i - 1];
      } else if |s| > 1 {
        assert multiset(rest)[s[0]] == if keep(s[0]) then multiset(s[1..])[s[0]] else 0 by {
          if s[0] in s[1..] {
            var j :| 0 <= j < |s[1..]| && s[1..][j] == s[0];
          } else {
            assert multiset(s[1..])[s[0]] == 0;
          }
        }
      }
    }
  }

  lemma CountsSkip<T>(s: seq<T>, rest: seq<T>, keep: T -> bool)
    requires |s| > 0 && !keep(s[0])
    requires KeepsCounts(rest, s[1..], keep)
    ensures KeepsCounts(rest, s, keep)
  {
    assert s == [s[0]] + s[1..];
    assert multiset(s) == multiset{s[0]} + multiset(s[1..]);
    forall i | 0 <= i < |s|
      ensures multiset(rest)[s[i]] == if keep(s[i]) then multiset(s)[s[i]] else 0
    {
      if i > 0 {
        assert s[i] == s[1..][i - 1];
      } else if s[0] in s[1..] {
        var j :| 0 <= j < |s[1..]| && s[1..][j] == s[0];
      } else {
        assert multiset(s[1..])[s[0]] == 0;
        assert multiset(rest)[s[0]] == 0;
      }
    }
  }

  /** Filtering looks at the first element and then at the rest. */
  lemma FilterCons<T>(s: seq<T>, keep: T -> bool)
    requires |s| > 0
    ensures ArrayFilter(s, keep) == (if keep(s[0]) then [s[0]] else []) + ArrayFilter(s[1..], keep)
  {
  }

  /** A predicate that holds of no element of `s` filters everything out. */
  lemma {:induction false} FilterRejectingAll<T>(s: seq<T>, keep: T -> bool)
    requires forall i :: 0 <= i < |s| ==> !keep(s[i])
    ensures ArrayFilter(s, keep) == []
    decreases |s|
  {
    if |s| > 0 {
      FilterCons(s, keep);
      FilterRejectingAll(s[1..], keep);
    }
  }

  /** Filtering distributes over concatenation. */
  lemma {:induction false} FilterAppend<T>(a: seq<T>, b: seq<T>, keep: T -> bool)
    ensures ArrayFilter(a + b, keep) == ArrayFilter(a, keep) + ArrayFilter(b, keep)
    decreases |a|
  {
    if |a| > 0 {
      FilterAppend(a[1..], b, keep);
      FilterAppendStep(a, b, keep);
    } else {
      assert a + b == b;
    }
  }

  lemma FilterAppendStep<T>(a: seq<T>, b: seq<T>, keep: T -> bool)
    requires |a| > 0
    requires ArrayFilter(a[1..] + b, keep) == ArrayFilter(a[1..], keep) + ArrayFilter(b, keep)
    ensures ArrayFilter(a + b, keep) == ArrayFilter(a, keep) + ArrayFilter(b, keep)
  {
    var head := if keep(a[0]) then [a[0]] else [];
    ConsAppend(a, b);
    FilterCons(a + b, keep);
    FilterCons(a, keep);
    AppendAssoc(head, ArrayFilter(a[1..], keep), ArrayFilter(b, keep));
  }

  lemma ConsAppend<T>(a: seq<T>, b: seq<T>)
    requires |a| > 0
    ensures (a + b)[0] == a[0] && (a + b)[1..] == a[1..] + b
  {
  }

  lemma AppendAssoc<T>(x: seq<T>, y: seq<T>, z: seq<T>)
    ensures x + (y + z) == (x + y) + z
  {
  }

  /** ArrayContains (slices.Contains): a front-to-back scan for `item`. */
  method ArrayContains<T(==)>(s: seq<T>, item: T) returns (found: bool)
    ensures found <==> exists i :: 0 <= i < |s| && s[i] == item
  {
    var k := 0;
    while k < |s|
      invariant 0 <= k <= |s|
      invariant forall i :: 0 <= i < k ==> s[i] != item
    {
      if s[k] == item {
        return true;
      }
      k := k + 1;
    }
    return false;
  }
}

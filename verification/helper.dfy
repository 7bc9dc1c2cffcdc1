/** helper.go: Max, Min and the first/last non-nil argument. */
module Helper {
  import opened Wrappers

  /** Max over a non-empty argument list (Go panics on an empty one). The
      running maximum is replaced only by a strictly larger argument, so of
      several equal maxima the first is returned; `at` is its index. */
  method Max(args: seq<int>) returns (max: int, at: nat)
    requires |args| > 0
    ensures at < |args| && args[at] == max
    ensures forall i :: 0 <= i < |args| ==> args[i] <= max
    ensures forall i :: 0 <= i < at ==> args[i] < max
  {
    max, at := args[0], 0;
    var k := 1;
    while k < |args|
      invariant 1 <= k <= |args|
      invariant at < k && args[at] == max
      invariant forall i :: 0 <= i < k ==> args[i] <= max
      invariant forall i :: 0 <= i < at ==> args[i] < max
    {
      if args[k] > max {
        max, at := args[k], k;
      }
      k := k + 1;
    }
  }

  /** Min over a non-empty argument list (Go panics on an empty one); the
      first of several equal minima is returned, `at` being its index. */
  method Min(args: seq<int>) returns (min: int, at: nat)
    requires |args| > 0
    ensures at < |args| && args[at] == min
    ensures forall i :: 0 <= i < |args| ==> min <= args[i]
    ensures forall i :: 0 <= i < at ==> min < args[i]
  {
    min, at := args[0], 0;
    var k := 1;
    while k < |args|
      invariant 1 <= k <= |args|
      invariant at < k && args[at] == min
      invariant forall i :: 0 <= i < k ==> min <= args[i]
      invariant forall i :: 0 <= i < at ==> min < args[i]
    {
      if args[k] < min {
        min, at := args[k], k;
      }
      k := k + 1;
    }
  }

  /** FirstNotNil: the non-nil argument of lowest index, or nil (`None`,
      the zero value of a nullable type) when every argument is nil. */
  function FirstNotNil<T>(args: seq<Option<T>>): (r: Option<T>)
    ensures r.None? <==> AllNil(args)
    ensures r.Some? ==> IsFirstNotNil(r, args)
  {
    if |args| == 0 then None
    else if args[0].Some? then
      FirstNotNilAt(args, 0);
      args[0]
    else
      var r := FirstNotNil(args[1..]);
      FirstNotNilStep(args, r);
      r
  }

  /** Every argument is nil. */
  predicate AllNil<T>(args: seq<Option<T>>) {
    forall i :: 0 <= i < |args| ==> args[i].None?
  }

  /** `r` is an argument with only nil arguments before it. */
  ghost predicate IsFirstNotNil<T>(r: Option<T>, args: seq<Option<T>>) {
    exists k :: 0 <= k < |args| && args[k] == r && forall i :: 0 <= i < k ==> args[i].None?
  }

  /** `r` is an argument with only nil arguments after it. */
  ghost predicate IsLastNotNil<T>(r: Option<T>, args: seq<Option<T>>) {
    exists k :: 0 <= k < |args| && args[k] == r && forall i :: k < i < |args| ==> args[i].None?
  }

  lemma FirstNotNilAt<T>(args: seq<Option<T>>, k: nat)
    requires k < |args| && forall i :: 0 <= i < k ==> args[i].None?
    ensures IsFirstNotNil(args[k], args)
  {
  }

  lemma LastNotNilAt<T>(args: seq<Option<T>>, k: nat)
    requires k < |args| && forall i :: k < i < |args| ==> args[i].None?
    ensures IsLastNotNil(args[k], args)
  {
  }

  lemma FirstNotNilStep<T>(args: seq<Option<T>>, r: Option<T>)
    requires |args| > 0 && args[0].None?
    requires r.None? <==> AllNil(args[1..])
    requires r.Some? ==> IsFirstNotNil(r, args[1..])
    ensures r.None? <==> AllNil(args)
    ensures r.Some? ==> IsFirstNotNil(r, args)
  {
    assert forall i :: 1 <= i < |args| ==> args[i] == args[1..][i - 1];
    if r.Some? {
      var k :| 0 <= k < |args[1..]| && args[1..][k] == r && forall i :: 0 <= i < k ==> args[1..][i].None?;
      assert args[k + 1] == r;
    }
  }

  /** LastNotNil: the non-nil argument of highest index, or nil when every
      argument is nil. */
  function LastNotNil<T>(args: seq<Option<T>>): (r: Option<T>)
    ensures r.None? <==> AllNil(args)
    ensures r.Some? ==> IsLastNotNil(r, args)
  {
    if |args| == 0 then None
    else if args[|args| - 1].Some? then
      LastNotNilAt(args, |args| - 1);
      args[|args| - 1]
    else
      var r := LastNotNil(args[..|args| - 1]);
      LastNotNilStep(args, r);
      r
  }

  lemma LastNotNilStep<T>(args: seq<Option<T>>, r: Option<T>)
    requires |args| > 0 && args[|args| - 1].None?
    requires r.None? <==> AllNil(args[..|args| - 1])
    requires r.Some? ==> IsLastNotNil(r, args[..|args| - 1])
    ensures r.None? <==> AllNil(args)
    ensures r.Some? ==> IsLastNotNil(r, args)
  {
    var init := args[..|args| - 1];
    assert args == init + [args[|args| - 1]];
    AllNilSnoc(init, args[|args| - 1]);
    if r.Some? {
      var k :| 0 <= k < |init| && init[k] == r && forall i :: k < i < |init| ==> init[i].None?;
      assert args[k] == r;
      LastNotNilAt(args, k);
    }
  }

  lemma AllNilSnoc<T>(init: seq<Option<T>>, last: Option<T>)
    requires last.None?
    ensures AllNil(init + [last]) <==> AllNil(init)
  {
    assert forall i :: 0 <= i < |init| ==> (init + [last])[i] == init[i];
  }

  function Reverse<T>(s: seq<T>): (r: seq<T>)
    ensures |r| == |s|
    ensures forall i :: 0 <= i < |s| ==> r[i] == s[|s| - 1 - i]
  {
    if |s| == 0 then [] else [s[|s| - 1]] + Reverse(s[..|s| - 1])
  }

  /** Scanning backwards finds what scanning the reversed arguments forwards finds. */
  lemma {:induction false} LastNotNilIsFirstOfReversed<T>(args: seq<Option<T>>)
    ensures LastNotNil(args) == FirstNotNil(Reverse(args))
    decreases |args|
  {
    if |args| > 0 {
      var rev := Reverse(args);
      assert rev[0] == args[|args| - 1];
      assert rev[1..] == Reverse(args[..|args| - 1]);
      LastNotNilIsFirstOfReversed(args[..|args| - 1]);
    }
  }
}

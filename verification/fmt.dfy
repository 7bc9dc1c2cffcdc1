/** fmt.go: WarpTabs, the one formatting helper with logic of its own. */
module Fmt {
  import opened GoInts

  /** A Go `uint` (64 bits wide on the platforms the module targets). */
  type Uint = n: int | W64.InUnsigned(n)

  /** How often `for range int(numbOfTab)` runs: the conversion to `int`
      reinterprets a count of 2^63 or more as a negative number, and ranging
      over a negative number runs no iterations. */
  function TabCount(numbOfTab: Uint): (n: nat)
    ensures numbOfTab < W64.Half() ==> n == numbOfTab
    ensures numbOfTab >= W64.Half() ==> n == 0
  {
    assert W64.InUnsigned(numbOfTab);
    var converted := W64.WrapSigned(numbOfTab);
    if converted > 0 then converted else 0
  }

  /** WarpTabs: `s` preceded by one tab per loop iteration. */
  method WarpTabs(numbOfTab: Uint, s: string) returns (r: string)
    ensures |r| == TabCount(numbOfTab) + |s|
    ensures forall i :: 0 <= i < TabCount(numbOfTab) ==> r[i] == '\t'
    ensures r[TabCount(numbOfTab)..] == s
    ensures numbOfTab == 0 ==> r == s
  {
    var prefix := "";
    var k := 0;
    var count := TabCount(numbOfTab);
    while k < count
      invariant 0 <= k <= count
      invariant |prefix| == k
      invariant forall i :: 0 <= i < k ==> prefix[i] == '\t'
    {
      prefix := prefix + "\t";
      k := k + 1;
    }
    r := prefix + s;
    assert r[|prefix|..] == s;
  }
}

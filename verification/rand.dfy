/** rand.go: random strings built from 6-bit chunks of random draws, and
    random integers in a range. Randomness is not modelled: the values
    math/rand returns are given as parameters. */
module Rand {
  import opened Wrappers
  import opened GoInts

  /** `count` consecutive ASCII characters starting at `first`. */
  function AsciiRun(first: char, count: nat): (s: string)
    requires first as int + count <= 128
    ensures |s| == count
    ensures forall i :: 0 <= i < count ==> s[i] as int == first as int + i
  {
    seq(count, i requires 0 <= i < count => (first as int + i) as char)
  }

  /** "abcdefghijklmnopqrstuvwxyz" */
  const LowerCase: string := AsciiRun('a', 26)

  /** "ABCDEFGHIJKLMNOPQRSTUVWXYZ" */
  const UpperCase: string := AsciiRun('A', 26)

  /** "0123456789" */
  const Digits: string := AsciiRun('0', 10)

  /** The alphabet of RandString: lower-case letters, upper-case letters,
      digits, 62 characters. */
  const StringLetters: string := LowerCase + UpperCase + Digits

  /** The alphabet of RandFileName: lower-case letters, digits, 36
      characters. */
  const FileNameLetters: string := LowerCase + Digits

  /** `d & letterIdxMask`: the low 6-bit chunk of `d`, one of 64 values.
      Euclidean `%` by 64 agrees with the mask for every `d`. */
  function LowChunk(d: int): (c: int)
    ensures 0 <= c < 64
  {
    d % 64
  }

  /** `d >> letterIdxBits`: an arithmetic shift right by 6 bits, which is
      Euclidean division by 64. */
  function ShiftChunk(d: int): int
  {
    d / 64
  }

  /** letterIdxMax: one 63-bit draw yields 63 / 6 = 10 chunks. */
  const ChunksPerDraw: nat := 10

  // ---------------------------------------------------------------------
  // Chunks
  // ---------------------------------------------------------------------

  /** The `t`-th 6-bit chunk of `d`: `d >> (6 * t) & 63`. */
  function ChunkAt(d: int, t: nat): (c: int)
    ensures 0 <= c < 64
    decreases t
  {
    if t == 0 then LowChunk(d) else ChunkAt(ShiftChunk(d), t - 1)
  }

  /** The first `count` chunks of `d`, lowest first: what masking and
      shifting a cached draw `count` times reads. */
  function Chunks(d: int, count: nat): seq<int>
    decreases count
  {
    if count == 0 then [] else [LowChunk(d)] + Chunks(ShiftChunk(d), count - 1)
  }

  /** The chunks of every draw, ten per draw, in order. */
  function AllChunks(draws: seq<int>): seq<int>
  {
    if |draws| == 0 then [] else Chunks(draws[0], ChunksPerDraw) + AllChunks(draws[1..])
  }

  lemma {:induction false} ChunksAt(d: int, count: nat, t: nat)
    requires t < count
    ensures |Chunks(d, count)| == count
    ensures Chunks(d, count)[t] == ChunkAt(d, t)
    decreases count
  {
    if t > 0 {
      ChunksAt(ShiftChunk(d), count - 1, t - 1);
    } else {
      ChunksLength(ShiftChunk(d), count - 1);
    }
  }

  lemma {:induction false} ChunksLength(d: int, count: nat)
    ensures |Chunks(d, count)| == count
    decreases count
  {
    if count > 0 {
      ChunksLength(ShiftChunk(d), count - 1);
    }
  }

  /** The first ten chunks come from the first draw, read from the low
      bits up. */
  lemma AllChunksHead(draws: seq<int>, t: nat)
    requires |draws| > 0 && t < ChunksPerDraw
    ensures |AllChunks(draws)| >= ChunksPerDraw
    ensures AllChunks(draws)[t] == ChunkAt(draws[0], t)
  {
    ChunksAt(draws[0], ChunksPerDraw, t);
    var head, tail := Chunks(draws[0], ChunksPerDraw), AllChunks(draws[1..]);
    assert AllChunks(draws) == head + tail;
    assert (head + tail)[t] == head[t];
  }

  lemma {:induction false} AllChunksLength(draws: seq<int>)
    ensures |AllChunks(draws)| == 10 * |draws|
    decreases |draws|
  {
    if |draws| > 0 {
      ChunksLength(draws[0], ChunksPerDraw);
      AllChunksLength(draws[1..]);
    }
  }

  // ---------------------------------------------------------------------
  // RandString and RandFileName
  // ---------------------------------------------------------------------

  /** The chunks that name a letter of an alphabet of `n` letters, in order. */
  function Accepted(chunks: seq<int>, n: int): (r: seq<int>)
    ensures |r| <= |chunks|
    ensures AllIndices(r, n)
  {
    if |chunks| == 0 then []
    else
      var c := chunks[|chunks| - 1];
      Accepted(chunks[..|chunks| - 1], n) + (if 0 <= c < n then [c] else [])
  }

  lemma {:induction false} AcceptedAppend(a: seq<int>, b: seq<int>, n: int)
    ensures Accepted(a + b, n) == Accepted(a, n) + Accepted(b, n)
    decreases |b|
  {
    if |b| == 0 {
      assert a + b == a;
    } else {
      assert (a + b)[..|a + b| - 1] == a + b[..|b| - 1];
      AcceptedAppend(a, b[..|b| - 1], n);
    }
  }

  lemma AcceptedNone(chunks: seq<int>, n: int)
    requires forall p :: 0 <= p < |chunks| ==> !(0 <= chunks[p] < n)
    ensures Accepted(chunks, n) == []
  {
    if |chunks| > 0 {
      AcceptedNone(chunks[..|chunks| - 1], n);
    }
  }

  predicate AllIndices(idxs: seq<int>, n: int) {
    forall i :: 0 <= i < |idxs| ==> 0 <= idxs[i] < n
  }

  /** The letters the chunks name. */
  function Letters(alphabet: string, idxs: seq<int>): (s: string)
    requires AllIndices(idxs, |alphabet|)
    ensures |s| == |idxs|
    ensures forall i :: 0 <= i < |idxs| ==> s[i] == alphabet[idxs[i]]
  {
    seq(|idxs|, i requires 0 <= i < |idxs| => alphabet[idxs[i]])
  }

  /** The first `need` letters the chunks name, or None when they name
      fewer. */
  function Take(alphabet: string, chunks: seq<int>, need: nat): (s: Option<string>)
    ensures s.Some? ==> |s.value| == need
    ensures s.Some? ==> forall i :: 0 <= i < need ==> s.value[i] in alphabet
    ensures s.None? <==> |Accepted(chunks, |alphabet|)| < need
  {
    var accepted := Accepted(chunks, |alphabet|);
    if |accepted| >= need then
      var s := Letters(alphabet, accepted[..need]);
      assert forall i :: 0 <= i < need ==> s[i] == alphabet[accepted[i]];
      Some(s)
    else None
  }

  /** The string the chunk loop spells: the letters named by the first
      `length` chunks that fit the alphabet, or None when the draws run out
      first (the program would then keep drawing). */
  function Spelled(alphabet: string, draws: seq<int>, length: int): (s: Option<string>)
    ensures s.Some? ==> |s.value| == (if length <= 0 then 0 else length)
    ensures s.Some? ==> forall i :: 0 <= i < |s.value| ==> s.value[i] in alphabet
    ensures length <= 0 ==> s == Some("")
  {
    if length <= 0 then Some("") else Take(alphabet, AllChunks(draws), length)
  }

  /** The loop read as a recursion over its state: the `remain` chunks
      left in `cache`, the draws not taken yet, and the letters still
      needed. */
  function SpellFrom(alphabet: string, rest: seq<int>, cache: int, remain: nat, need: nat): Option<string>
    decreases |rest|, remain
  {
    if need == 0 then Some("")
    else if remain == 0 then
      if |rest| == 0 then None else SpellFrom(alphabet, rest[1..], rest[0], ChunksPerDraw, need)
    else
      var idx := LowChunk(cache);
      if idx < |alphabet| then
        Prefixed([alphabet[idx]], SpellFrom(alphabet, rest, ShiftChunk(cache), remain - 1, need - 1))
      else SpellFrom(alphabet, rest, ShiftChunk(cache), remain - 1, need)
  }

  /** `s` with `prefix` in front, if there is one. */
  function Prefixed(prefix: string, s: Option<string>): (r: Option<string>)
    ensures r.Some? <==> s.Some?
    ensures r.Some? ==> |r.value| == |prefix| + |s.value|
    ensures r.Some? ==> r.value[..|prefix|] == prefix && r.value[|prefix|..] == s.value
  {
    if s.Some? then Some(prefix + s.value) else None
  }

  lemma PrefixedNothing(s: Option<string>)
    ensures Prefixed("", s) == s
  {
    if s.Some? {
      assert "" + s.value == s.value;
    }
  }

  lemma PrefixedTwice(a: string, b: string, s: Option<string>)
    ensures Prefixed(a, Prefixed(b, s)) == Prefixed(a + b, s)
  {
    if s.Some? {
      assert a + (b + s.value) == (a + b) + s.value;
    }
  }

  /** The chunks the loop has still to read, in the order it reads them:
      the `remain` left in `cache`, then ten from each later draw. */
  function Pending(rest: seq<int>, cache: int, remain: nat): seq<int>
    decreases |rest|, remain
  {
    if remain > 0 then [LowChunk(cache)] + Pending(rest, ShiftChunk(cache), remain - 1)
    else if |rest| == 0 then []
    else Pending(rest[1..], rest[0], ChunksPerDraw)
  }

  /** The pending chunks are the cached draw's chunks and then every later
      draw's. */
  lemma {:induction false} PendingChunks(rest: seq<int>, cache: int, remain: nat)
    ensures Pending(rest, cache, remain) == Chunks(cache, remain) + AllChunks(rest)
    decreases |rest|, remain
  {
    if remain > 0 {
      PendingChunks(rest, ShiftChunk(cache), remain - 1);
      ChunksCons(cache, remain, AllChunks(rest));
    } else if |rest| > 0 {
      PendingChunks(rest[1..], rest[0], ChunksPerDraw);
      ChunksNone(cache, AllChunks(rest));
    } else {
      ChunksNone(cache, AllChunks(rest));
    }
  }

  lemma ChunksCons(cache: int, remain: nat, later: seq<int>)
    requires remain > 0
    ensures Chunks(cache, remain) + later == [LowChunk(cache)] + (Chunks(ShiftChunk(cache), remain - 1) + later)
  {
  }

  lemma ChunksNone(cache: int, later: seq<int>)
    ensures Chunks(cache, 0) + later == later
  {
  }

  /** The loop's recursion takes the letters its pending chunks name. */
  lemma {:induction false} SpellFromTakes(alphabet: string, rest: seq<int>, cache: int, remain: nat, need: nat)
    ensures SpellFrom(alphabet, rest, cache, remain, need) == Take(alphabet, Pending(rest, cache, remain), need)
    decreases |rest|, remain
  {
    if need == 0 {
      TakeNone(alphabet, Pending(rest, cache, remain));
    } else if remain == 0 {
      if |rest| > 0 {
        SpellFromTakes(alphabet, rest[1..], rest[0], ChunksPerDraw, need);
      } else {
        assert Pending(rest, cache, remain) == [];
      }
    } else if LowChunk(cache) < |alphabet| {
      SpellFromTakes(alphabet, rest, ShiftChunk(cache), remain - 1, need - 1);
      TakeAccepted(alphabet, LowChunk(cache), Pending(rest, ShiftChunk(cache), remain - 1), need);
    } else {
      SpellFromTakes(alphabet, rest, ShiftChunk(cache), remain - 1, need);
      TakeRejected(alphabet, LowChunk(cache), Pending(rest, ShiftChunk(cache), remain - 1), need);
    }
  }

  /** Started on the first draw, the loop's recursion spells what the
      chunk stream spells. */
  lemma SpellFromSpelled(alphabet: string, draws: seq<int>, length: int)
    requires length > 0 && |draws| > 0
    ensures SpellFrom(alphabet, draws[1..], draws[0], ChunksPerDraw, length) == Spelled(alphabet, draws, length)
  {
    SpellFromTakes(alphabet, draws[1..], draws[0], ChunksPerDraw, length);
    PendingChunks(draws[1..], draws[0], ChunksPerDraw);
    assert Chunks(draws[0], ChunksPerDraw) + AllChunks(draws[1..]) == AllChunks(draws);
  }

  lemma TakeNone(alphabet: string, chunks: seq<int>)
    ensures Take(alphabet, chunks, 0) == Some("")
  {
  }

  /** A leading chunk that names a letter supplies the first letter. */
  lemma TakeAccepted(alphabet: string, idx: int, later: seq<int>, need: nat)
    requires 0 <= idx < |alphabet| && need > 0
    ensures Take(alphabet, [idx] + later, need) == Prefixed([alphabet[idx]], Take(alphabet, later, need - 1))
  {
    var acc := Accepted(later, |alphabet|);
    AcceptedCons(idx, later, |alphabet|);
    if |acc| >= need - 1 {
      LettersCons(alphabet, idx, acc, need - 1);
    }
  }

  lemma AcceptedCons(idx: int, later: seq<int>, n: int)
    requires 0 <= idx < n
    ensures Accepted([idx] + later, n) == [idx] + Accepted(later, n)
  {
    AcceptedAppend([idx], later, n);
    assert [idx][..0] == [];
  }

  lemma LettersCons(alphabet: string, idx: int, acc: seq<int>, m: nat)
    requires 0 <= idx < |alphabet| && AllIndices(acc, |alphabet|) && m <= |acc|
    ensures AllIndices(([idx] + acc)[..m + 1], |alphabet|)
    ensures Letters(alphabet, ([idx] + acc)[..m + 1]) == [alphabet[idx]] + Letters(alphabet, acc[..m])
  {
    assert ([idx] + acc)[..m + 1] == [idx] + acc[..m];
  }

  /** A leading chunk past the alphabet is dropped. */
  lemma TakeRejected(alphabet: string, idx: int, later: seq<int>, need: nat)
    requires !(0 <= idx < |alphabet|)
    ensures Take(alphabet, [idx] + later, need) == Take(alphabet, later, need)
  {
    AcceptedAppend([idx], later, |alphabet|);
    assert [idx][..0] == [];
    assert Accepted([idx] + later, |alphabet|) == Accepted(later, |alphabet|);
  }

  /** The loop shared by RandString and RandFileName: a cached draw is read
      6 bits at a time; a chunk that names a letter appends it, any other
      chunk is dropped without advancing; after ten chunks a fresh draw is
      taken. `draws` are the values rand.Int63 returns. */
  method Spell(length: int, alphabet: string, draws: seq<int>) returns (s: Option<string>)
    ensures s == Spelled(alphabet, draws, length)
  {
    if length <= 0 {
      return Some("");
    }
    if |draws| == 0 {
      return None;
    }
    SpellFromSpelled(alphabet, draws, length);
    s := SpellLoop(alphabet, draws, length);
  }

  /** The loop itself, on at least one draw and a positive length. */
  method SpellLoop(alphabet: string, draws: seq<int>, length: int) returns (s: Option<string>)
    requires |draws| > 0 && length > 0
    ensures s == SpellFrom(alphabet, draws[1..], draws[0], ChunksPerDraw, length)
  {
    ghost var goal := SpellFrom(alphabet, draws[1..], draws[0], ChunksPerDraw, length);
    var i, sb, cache, remain, k := 0, "", draws[0], ChunksPerDraw, 1;
    PrefixedNothing(goal);
    while i < length
      invariant 1 <= k <= |draws| && 0 <= remain <= ChunksPerDraw && 0 <= i <= length
      invariant Prefixed(sb, SpellFrom(alphabet, draws[k..], cache, remain, length - i)) == goal
      decreases |draws| - k, remain
    {
      if remain == 0 {
        if k == |draws| {
          SpellFromExhausted(alphabet, draws[k..], cache, length - i);
          return None;
        }
        SpellFromRefill(alphabet, draws, k, cache, length - i);
        cache, remain, k := draws[k], ChunksPerDraw, k + 1;
      }
      var idx := LowChunk(cache);
      if idx < |alphabet| {
        SpellFromLetter(alphabet, draws[k..], cache, remain, length - i);
        PrefixedTwice(sb, [alphabet[idx]], SpellFrom(alphabet, draws[k..], ShiftChunk(cache), remain - 1, length - i - 1));
        sb := sb + [alphabet[idx]];
        i := i + 1;
      } else {
        SpellFromSkip(alphabet, draws[k..], cache, remain, length - i);
      }
      cache := ShiftChunk(cache);
      remain := remain - 1;
    }
    SpellFromDone(alphabet, draws[k..], cache, remain, sb);
    return Some(sb);
  }

  lemma SpellFromExhausted(alphabet: string, rest: seq<int>, cache: int, need: nat)
    requires |rest| == 0 && need > 0
    ensures forall sb :: Prefixed(sb, SpellFrom(alphabet, rest, cache, 0, need)) == None
  {
  }

  lemma SpellFromRefill(alphabet: string, draws: seq<int>, k: nat, cache: int, need: nat)
    requires k < |draws| && need > 0
    ensures SpellFrom(alphabet, draws[k..], cache, 0, need) == SpellFrom(alphabet, draws[k + 1..], draws[k], ChunksPerDraw, need)
  {
    assert draws[k..][1..] == draws[k + 1..];
  }

  lemma SpellFromLetter(alphabet: string, rest: seq<int>, cache: int, remain: nat, need: nat)
    requires remain > 0 && need > 0 && LowChunk(cache) < |alphabet|
    ensures SpellFrom(alphabet, rest, cache, remain, need)
      == Prefixed([alphabet[LowChunk(cache)]], SpellFrom(alphabet, rest, ShiftChunk(cache), remain - 1, need - 1))
  {
  }

  lemma SpellFromSkip(alphabet: string, rest: seq<int>, cache: int, remain: nat, need: nat)
    requires remain > 0 && need > 0 && LowChunk(cache) >= |alphabet|
    ensures SpellFrom(alphabet, rest, cache, remain, need) == SpellFrom(alphabet, rest, ShiftChunk(cache), remain - 1, need)
  {
  }

  lemma SpellFromDone(alphabet: string, rest: seq<int>, cache: int, remain: nat, sb: string)
    ensures Prefixed(sb, SpellFrom(alphabet, rest, cache, remain, 0)) == Some(sb)
  {
    assert sb + "" == sb;
  }

  /** RandString: `length` characters, each an ASCII letter or digit. */
  method RandString(length: int, draws: seq<int>) returns (s: Option<string>)
    ensures s == Spelled(StringLetters, draws, length)
    ensures s.Some? ==> |s.value| == (if length <= 0 then 0 else length)
    ensures s.Some? ==> forall i :: 0 <= i < |s.value| ==>
      ('a' <= s.value[i] <= 'z') || ('A' <= s.value[i] <= 'Z') || ('0' <= s.value[i] <= '9')
  {
    s := Spell(length, StringLetters, draws);
    if s.Some? {
      forall i | 0 <= i < |s.value|
        ensures ('a' <= s.value[i] <= 'z') || ('A' <= s.value[i] <= 'Z') || ('0' <= s.value[i] <= '9')
      {
        assert s.value[i] in StringLetters;
        var j :| 0 <= j < |StringLetters| && StringLetters[j] == s.value[i];
        StringLettersAt(j);
      }
    }
  }

  lemma StringLettersAt(j: int)
    requires 0 <= j < |StringLetters|
    ensures ('a' <= StringLetters[j] <= 'z') || ('A' <= StringLetters[j] <= 'Z') || ('0' <= StringLetters[j] <= '9')
  {
    if j < 26 {
      assert StringLetters[j] == LowerCase[j];
    } else if j < 52 {
      assert StringLetters[j] == UpperCase[j - 26];
    } else {
      assert StringLetters[j] == Digits[j - 52];
    }
  }

  /** RandFileName: `length` characters, each a lower-case letter or digit. */
  method RandFileName(length: int, draws: seq<int>) returns (s: Option<string>)
    ensures s == Spelled(FileNameLetters, draws, length)
    ensures s.Some? ==> |s.value| == (if length <= 0 then 0 else length)
    ensures s.Some? ==> forall i :: 0 <= i < |s.value| ==>
      ('a' <= s.value[i] <= 'z') || ('0' <= s.value[i] <= '9')
  {
    s := Spell(length, FileNameLetters, draws);
    if s.Some? {
      forall i | 0 <= i < |s.value|
        ensures ('a' <= s.value[i] <= 'z') || ('0' <= s.value[i] <= '9')
      {
        assert s.value[i] in FileNameLetters;
        var j :| 0 <= j < |FileNameLetters| && FileNameLetters[j] == s.value[i];
        FileNameLettersAt(j);
      }
    }
  }

  lemma FileNameLettersAt(j: int)
    requires 0 <= j < |FileNameLetters|
    ensures ('a' <= FileNameLetters[j] <= 'z') || ('0' <= FileNameLetters[j] <= '9')
  {
    if j < 26 {
      assert FileNameLetters[j] == LowerCase[j];
    } else {
      assert FileNameLetters[j] == Digits[j - 26];
    }
  }

  /** Chunks past the end of the alphabet are dropped: a draw whose every
      chunk is 63 spells nothing. */
  lemma RejectedChunksSpellNothing(d: int, length: int)
    requires length > 0
    requires forall t :: 0 <= t < ChunksPerDraw ==> ChunkAt(d, t) == 63
    ensures Spelled(StringLetters, [d], length) == None
  {
    var chunks := AllChunks([d]);
    AllChunksLength([d]);
    forall p | 0 <= p < |chunks|
      ensures !(0 <= chunks[p] < |StringLetters|)
    {
      AllChunksHead([d], p);
    }
    AcceptedNone(chunks, |StringLetters|);
  }

  /** RandFileName can start with a digit: a first chunk of 26 names `0`. */
  lemma FileNameMayStartWithDigit()
    ensures Spelled(FileNameLetters, [26], 1) == Some("0")
  {
    var chunks := AllChunks([26]);
    AllChunksHead([26], 0);
    assert chunks[0] == ChunkAt(26, 0) == 26;
    assert chunks == [26] + chunks[1..];
    assert FileNameLetters[26] == Digits[0] == '0';
    TakeAccepted(FileNameLetters, 26, chunks[1..], 1);
    TakeNone(FileNameLetters, chunks[1..]);
    assert ['0'] + "" == "0";
    assert Spelled(FileNameLetters, [26], 1) == Take(FileNameLetters, chunks, 1);
  }

  // ---------------------------------------------------------------------
  // Integers in a range
  // ---------------------------------------------------------------------

  /** rand.Intn and friends panic on a non-positive bound; `%` panics on a
      zero divisor. */
  datatype RandError = Panic

  /** The bound the two-argument form draws below: `args[1] - args[0] + 1`,
      computed in the argument type, so it may wrap. */
  function SignedSpan(w: Width, lo: int, hi: int): int
  {
    w.WrapSigned(hi - lo + 1)
  }

  /** The draw is what math/rand returns for the call the arguments lead
      to: any non-negative value without arguments, one below the bound
      otherwise (when the bound is positive; otherwise the call panics). */
  predicate SignedDrawFits(w: Width, args: seq<int>, draw: int) {
    if |args| == 0 then 0 <= draw < w.Half()
    else if |args| == 1 then args[0] > 0 ==> 0 <= draw < args[0]
    else SignedSpan(w, args[0], args[1]) > 0 ==> 0 <= draw < SignedSpan(w, args[0], args[1])
  }

  /** RandInt, RandInt64 and RandInt32 (`w` is the width of their type).
      Without arguments, the draw; with one, a draw below it; with two or
      more, a draw below `args[1] - args[0] + 1` shifted by `args[0]`. */
  function RandSigned(w: Width, args: seq<int>, draw: int): (r: Result<int, RandError>)
    requires forall i :: 0 <= i < |args| ==> w.InSigned(args[i])
    requires SignedDrawFits(w, args, draw)
    ensures r.Ok? ==> w.InSigned(r.value)
    ensures |args| == 0 ==> r.Ok? && 0 <= r.value
    ensures |args| == 1 ==> (r.Ok? <==> args[0] > 0) && (r.Ok? ==> 0 <= r.value < args[0])
    ensures |args| >= 2 && args[0] <= args[1] && w.InSigned(args[1] - args[0] + 1) ==>
      r.Ok? && args[0] <= r.value <= args[1]
    ensures |args| >= 2 ==> (r.Ok? <==> SignedSpan(w, args[0], args[1]) > 0)
  {
    if |args| == 0 then Ok(draw)
    else if |args| == 1 then
      assert w.InSigned(args[0]);
      if args[0] <= 0 then Err(Panic) else Ok(draw)
    else
      var lo, hi := args[0], args[1];
      assert w.InSigned(lo) && w.InSigned(hi);
      var n := SignedSpan(w, lo, hi);
      if n <= 0 then Err(Panic)
      else
        assert lo <= hi && w.InSigned(hi - lo + 1) ==> n == hi - lo + 1 && w.InSigned(draw + lo);
        Ok(w.WrapSigned(draw + lo))
  }

  /** RandInt. With Go's 64-bit `int`, RandInt64 (rand.Int63 and
      rand.Int63n in place of rand.Int and rand.Intn) is this same function. */
  function RandInt(args: seq<int>, draw: int): (r: Result<int, RandError>)
    requires forall i :: 0 <= i < |args| ==> W64.InSigned(args[i])
    requires SignedDrawFits(W64, args, draw)
    ensures |args| >= 2 && args[0] <= args[1] && W64.InSigned(args[1] - args[0] + 1) ==>
      r.Ok? && args[0] <= r.value <= args[1]
  {
    RandSigned(W64, args, draw)
  }

  function RandInt32(args: seq<int>, draw: int): (r: Result<int, RandError>)
    requires forall i :: 0 <= i < |args| ==> W32.InSigned(args[i])
    requires SignedDrawFits(W32, args, draw)
    ensures |args| >= 2 && args[0] <= args[1] && W32.InSigned(args[1] - args[0] + 1) ==>
      r.Ok? && args[0] <= r.value <= args[1]
  {
    RandSigned(W32, args, draw)
  }

  /** The full int64 range does not fit: its span wraps to 0 and the call
      panics instead of drawing any int64. */
  lemma FullSignedRangePanics(draw: int)
    ensures RandSigned(W64, [-W64.Half(), W64.Half() - 1], draw) == Err(Panic)
  {
    assert SignedSpan(W64, -W64.Half(), W64.Half() - 1) == 0;
  }

  /** RandUint64 and RandUint32 (`w` is the width of their type), which
      reduce a raw draw with `%` instead of drawing below a bound. */
  function RandUnsigned(w: Width, args: seq<int>, draw: int): (r: Result<int, RandError>)
    requires forall i :: 0 <= i < |args| ==> w.InUnsigned(args[i])
    requires w.InUnsigned(draw)
    ensures r.Ok? ==> w.InUnsigned(r.value)
    ensures |args| == 0 ==> r == Ok(draw)
    ensures |args| == 1 ==> (r.Ok? <==> args[0] != 0) && (r.Ok? ==> r.value < args[0])
    ensures |args| >= 2 && args[0] <= args[1] && args[1] - args[0] + 1 < w.Modulus() ==>
      r.Ok? && args[0] <= r.value <= args[1]
    ensures |args| >= 2 ==> (r.Ok? <==> w.WrapUnsigned(args[1] - args[0] + 1) != 0)
  {
    if |args| == 0 then Ok(draw)
    else if |args| == 1 then
      assert w.InUnsigned(args[0]);
      if args[0] == 0 then Err(Panic) else Ok(Remainder(draw, args[0]))
    else
      var lo, hi := args[0], args[1];
      assert w.InUnsigned(lo) && w.InUnsigned(hi);
      var n := w.WrapUnsigned(hi - lo + 1);
      if n == 0 then Err(Panic)
      else
        var d := Remainder(draw, n);
        assert lo <= hi && hi - lo + 1 < w.Modulus() ==> n == hi - lo + 1 && w.InUnsigned(d + lo);
        Ok(w.WrapUnsigned(d + lo))
  }

  /** Go's `%` on unsigned operands. */
  function Remainder(x: int, n: int): (r: int)
    requires 0 <= x && 0 < n
    ensures 0 <= r < n && r <= x
  {
    x % n
  }

  function RandUint64(args: seq<int>, draw: int): (r: Result<int, RandError>)
    requires forall i :: 0 <= i < |args| ==> W64.InUnsigned(args[i])
    requires W64.InUnsigned(draw)
    ensures |args| >= 2 && args[0] <= args[1] && args[1] - args[0] + 1 < W64.Modulus() ==>
      r.Ok? && args[0] <= r.value <= args[1]
  {
    RandUnsigned(W64, args, draw)
  }

  function RandUint32(args: seq<int>, draw: int): (r: Result<int, RandError>)
    requires forall i :: 0 <= i < |args| ==> W32.InUnsigned(args[i])
    requires W32.InUnsigned(draw)
    ensures |args| >= 2 && args[0] <= args[1] && args[1] - args[0] + 1 < W32.Modulus() ==>
      r.Ok? && args[0] <= r.value <= args[1]
  {
    RandUnsigned(W32, args, draw)
  }

  /** The full uint64 range does not fit either: its span wraps to 0 and
      the `%` panics. */
  lemma FullUnsignedRangePanics(draw: int)
    requires W64.InUnsigned(draw)
    ensures RandUnsigned(W64, [0, W64.Modulus() - 1], draw) == Err(Panic)
  {
  }
}

/** The functions of Go's `strings` and `strconv` packages that the core
    calls, defined once here with the behaviour the Go library documents.
    Go strings are byte strings; the model works on `char`s, which agrees
    with Go for the ASCII separators (`.`, `[`, `]`, `/`) the core splits on. */
module GoStrings {
  import opened Wrappers
  import opened GoInts

  /** strings.HasSuffix */
  predicate HasSuffix(s: string, suffix: string) {
    |suffix| <= |s| && s[|s| - |suffix|..] == suffix
  }

  /** strings.TrimSuffix: removes one occurrence of `suffix` at the end, if present. */
  function TrimSuffix(s: string, suffix: string): (r: string)
    ensures HasSuffix(s, suffix) ==> r + suffix == s
    ensures !HasSuffix(s, suffix) ==> r == s
  {
    if HasSuffix(s, suffix) then s[..|s| - |suffix|] else s
  }

  /** strings.TrimRight with a one-character cutset: removes every trailing `c`. */
  function TrimRight(s: string, c: char): (r: string)
    ensures |r| <= |s| && r == s[..|r|]
    ensures |r| > 0 ==> r[|r| - 1] != c
    ensures forall i :: |r| <= i < |s| ==> s[i] == c
    decreases |s|
  {
    if |s| > 0 && s[|s| - 1] == c then TrimRight(s[..|s| - 1], c) else s
  }

  /** The index of the first `c` in `s`. */
  function IndexOf(s: string, c: char): (i: nat)
    requires c in s
    ensures i < |s| && s[i] == c && c !in s[..i]
  {
    if s[0] == c then 0 else 1 + IndexOf(s[1..], c)
  }

  /** strings.Join with a one-character separator. */
  function Join(parts: seq<string>, sep: char): string
  {
    if |parts| == 0 then ""
    else if |parts| == 1 then parts[0]
    else parts[0] + [sep] + Join(parts[1..], sep)
  }

  /** strings.Split with a one-character separator: the pieces between
      consecutive separators; one more piece than there are separators, so
      the empty string splits into one empty piece. */
  function Split(s: string, sep: char): (parts: seq<string>)
    ensures |parts| >= 1
    ensures sep in s <==> |parts| >= 2
    decreases |s|
  {
    if sep !in s then [s]
    else
      var i := IndexOf(s, sep);
      var rest := Split(s[i + 1..], sep);
      assert ([s[..i]] + rest)[1..] == rest;
      [s[..i]] + rest
  }

  /** No piece Split returns holds the separator. */
  lemma {:induction false} SplitPiecesLackSeparator(s: string, sep: char)
    ensures forall i :: 0 <= i < |Split(s, sep)| ==> sep !in Split(s, sep)[i]
    decreases |s|
  {
    if sep in s {
      var i := IndexOf(s, sep);
      var rest := Split(s[i + 1..], sep);
      SplitPiecesLackSeparator(s[i + 1..], sep);
      assert Split(s, sep) == [s[..i]] + rest;
    }
  }

  /** Join inverts Split: the pieces, put back together with the
      separator, are the string. */
  lemma {:induction false} JoinSplit(s: string, sep: char)
    ensures Join(Split(s, sep), sep) == s
    decreases |s|
  {
    if sep in s {
      var i := IndexOf(s, sep);
      var rest := Split(s[i + 1..], sep);
      JoinSplit(s[i + 1..], sep);
      assert Split(s, sep) == [s[..i]] + rest;
      assert ([s[..i]] + rest)[1..] == rest;
      assert s == s[..i] + [sep] + s[i + 1..];
    }
  }

  lemma SplitWithoutSeparator(s: string, sep: char)
    requires sep !in s
    ensures Split(s, sep) == [s]
  {
  }

  lemma {:induction false} JoinAppend(a: seq<string>, b: seq<string>, sep: char)
    requires |a| >= 1 && |b| >= 1
    ensures Join(a + b, sep) == Join(a, sep) + [sep] + Join(b, sep)
    decreases |a|
  {
    if |a| == 1 {
      assert (a + b)[1..] == b;
    } else {
      assert (a + b)[1..] == a[1..] + b;
      JoinAppend(a[1..], b, sep);
    }
  }

  /** Split inverts Join when no piece contains the separator. */
  lemma {:induction false} SplitJoin(parts: seq<string>, sep: char)
    requires |parts| >= 1
    requires forall i :: 0 <= i < |parts| ==> sep !in parts[i]
    ensures Split(Join(parts, sep), sep) == parts
    decreases |parts|
  {
    if |parts| > 1 {
      var s := Join(parts, sep);
      assert s == parts[0] + [sep] + Join(parts[1..], sep);
      assert s[|parts[0]|] == sep;
      assert s[..|parts[0]|] == parts[0];
      assert IndexOf(s, sep) == |parts[0]|;
      assert s[|parts[0]| + 1..] == Join(parts[1..], sep);
      SplitJoin(parts[1..], sep);
    }
  }

  /** Splitting `a + sep + b` splits `a` and `b` independently. */
  lemma SplitAppend(a: string, b: string, sep: char)
    ensures Split(a + [sep] + b, sep) == Split(a, sep) + Split(b, sep)
  {
    var pa, pb := Split(a, sep), Split(b, sep);
    JoinSplit(a, sep);
    JoinSplit(b, sep);
    JoinAppend(pa, pb, sep);
    SplitPiecesLackSeparator(a, sep);
    SplitPiecesLackSeparator(b, sep);
    PiecesAppend(pa, pb, sep);
    SplitJoin(pa + pb, sep);
  }

  lemma PiecesAppend(pa: seq<string>, pb: seq<string>, sep: char)
    requires forall i :: 0 <= i < |pa| ==> sep !in pa[i]
    requires forall i :: 0 <= i < |pb| ==> sep !in pb[i]
    ensures forall i :: 0 <= i < |pa + pb| ==> sep !in (pa + pb)[i]
  {
    forall i | 0 <= i < |pa + pb|
      ensures sep !in (pa + pb)[i]
    {
      if i < |pa| {
        assert (pa + pb)[i] == pa[i];
      } else {
        assert (pa + pb)[i] == pb[i - |pa|];
      }
    }
  }

  predicate IsDigit(c: char) {
    '0' <= c <= '9'
  }

  predicate AllDigits(ds: string) {
    forall i :: 0 <= i < |ds| ==> IsDigit(ds[i])
  }

  /** The value of a string of decimal digits. */
  function DecimalValue(ds: string): nat
    requires AllDigits(ds)
  {
    if |ds| == 0 then 0
    else DecimalValue(ds[..|ds| - 1]) * 10 + (ds[|ds| - 1] as int - '0' as int)
  }

  /** strconv.Atoi on a 64-bit platform: an optional `+` or `-` followed by
      at least one decimal digit, whose value fits in an int64. */
  function Atoi(s: string): (r: Option<int>)
    ensures r.Some? ==> W64.InSigned(r.value)
    ensures r.Some? ==> |s| > 0 && (IsDigit(s[0]) || s[0] == '-' || s[0] == '+')
    ensures r.Some? && r.value < 0 ==> s[0] == '-'
  {
    var signed := |s| > 0 && (s[0] == '-' || s[0] == '+');
    var digits := if signed then s[1..] else s;
    if |digits| == 0 || !AllDigits(digits) then None
    else
      var v: int := if signed && s[0] == '-' then -(DecimalValue(digits) as int) else DecimalValue(digits);
      if W64.InSigned(v) then Some(v) else None
  }

  /** The decimal digits of `n`, most significant first, without leading zeros. */
  function DigitsOf(n: nat): (ds: string)
    ensures |ds| >= 1 && AllDigits(ds)
    ensures DecimalValue(ds) == n
    decreases n
  {
    var last := [((n % 10) + '0' as int) as char];
    if n < 10 then last
    else
      var ds := DigitsOf(n / 10) + last;
      assert ds[..|ds| - 1] == DigitsOf(n / 10);
      ds
  }

  /** strconv.Itoa: the decimal text of `n`, led by `-` when it is negative. */
  function Itoa(n: int): (s: string)
    ensures |s| >= 1 && IsDigit(s[|s| - 1])
    ensures forall i :: 0 < i < |s| ==> IsDigit(s[i])
    ensures s[0] == '-' <==> n < 0
    ensures s[0] != '-' ==> IsDigit(s[0])
  {
    if n < 0 then "-" + DigitsOf(-n) else DigitsOf(n)
  }

  /** Atoi reads back what Itoa writes, and succeeds exactly on the int64 values. */
  lemma AtoiItoa(n: int)
    ensures Atoi(Itoa(n)) == if W64.InSigned(n) then Some(n) else None
  {
    if n < 0 {
      assert Itoa(n)[1..] == DigitsOf(-n);
    }
  }

  /** Text holding anything but a digit after its optional sign is not a number. */
  lemma AtoiRejectsNonDigit(s: string, i: nat)
    requires i < |s| && !IsDigit(s[i])
    requires i > 0 || (s[0] != '-' && s[0] != '+')
    ensures Atoi(s) == None
  {
    if s[0] == '-' || s[0] == '+' {
      assert s[1..][i - 1] == s[i];
    }
  }

  /** A sign needs at least one digit after it. */
  lemma AtoiRejectsBareSign(s: string)
    requires s == "" || s == "-" || s == "+"
    ensures Atoi(s) == None
  {
    if s != "" {
      assert s[1..] == "";
    }
  }

  /** The characters unicode.IsSpace accepts, which strings.Fields uses:
      the Latin-1 spaces and the other characters with the Unicode
      White_Space property. */
  const WhiteSpace: set<char> := {
    '\t', '\n', '\U{000B}', '\U{000C}', '\r', ' ', '\U{0085}', '\U{00A0}', '\U{1680}',
    '\U{2000}', '\U{2001}', '\U{2002}', '\U{2003}', '\U{2004}', '\U{2005}',
    '\U{2006}', '\U{2007}', '\U{2008}', '\U{2009}', '\U{200A}',
    '\U{2028}', '\U{2029}', '\U{202F}', '\U{205F}', '\U{3000}'}

  predicate IsSpace(c: char) {
    c in WhiteSpace
  }

  /** The characters of `s` that are not white space, in order. */
  function NonSpace(s: string): string
  {
    if |s| == 0 then ""
    else (if IsSpace(s[0]) then "" else [s[0]]) + NonSpace(s[1..])
  }

  function Concat(parts: seq<string>): string
  {
    if |parts| == 0 then "" else parts[0] + Concat(parts[1..])
  }

  /** The length of the run of non-space characters at the start of `s`. */
  function WordLength(s: string): (n: nat)
    ensures n <= |s|
    ensures forall i :: 0 <= i < n ==> !IsSpace(s[i])
    ensures n < |s| ==> IsSpace(s[n])
  {
    if |s| == 0 || IsSpace(s[0]) then 0 else 1 + WordLength(s[1..])
  }

  lemma {:induction false} NonSpaceWord(s: string, n: nat)
    requires n <= |s|
    requires forall i :: 0 <= i < n ==> !IsSpace(s[i])
    ensures NonSpace(s) == s[..n] + NonSpace(s[n..])
    decreases n
  {
    if n > 0 {
      assert s[1..][..n - 1] == s[1..n];
      assert s[1..][n - 1..] == s[n..];
      NonSpaceWord(s[1..], n - 1);
    }
  }

  /** strings.Fields: the maximal runs of non-space characters, in order;
      FieldsConcat says they hold every non-space character. */
  function Fields(s: string): (r: seq<string>)
    ensures AreWords(r)
    ensures |r| == 0 <==> AllSpace(s)
    decreases |s|
  {
    if |s| == 0 then []
    else if IsSpace(s[0]) then
      var rest := Fields(s[1..]);
      FieldsSkip(s, rest);
      rest
    else
      var n := WordLength(s);
      var rest := Fields(s[n..]);
      FieldsWord(s, n, rest);
      [s[..n]] + rest
  }

  /** The fields, concatenated, are the non-space characters of `s`. */
  lemma {:induction false} FieldsConcat(s: string)
    ensures Concat(Fields(s)) == NonSpace(s)
    decreases |s|
  {
    if |s| > 0 {
      if IsSpace(s[0]) {
        FieldsConcat(s[1..]);
        FieldsOfSpace(s);
        assert "" + NonSpace(s[1..]) == NonSpace(s[1..]);
      } else {
        var n := WordLength(s);
        FieldsConcat(s[n..]);
        FieldsOfWord(s, n);
        NonSpaceWord(s, n);
        var r := [s[..n]] + Fields(s[n..]);
        assert r[1..] == Fields(s[n..]);
      }
    }
  }

  /** A word is non-empty and free of white space. */
  predicate IsWord(w: string) {
    |w| > 0 && forall j :: 0 <= j < |w| ==> !IsSpace(w[j])
  }

  predicate AreWords(words: seq<string>) {
    forall i :: 0 <= i < |words| ==> IsWord(words[i])
  }

  predicate AllSpace(s: string) {
    forall i :: 0 <= i < |s| ==> IsSpace(s[i])
  }

  /** A leading space starts no field. */
  lemma FieldsSkip(s: string, rest: seq<string>)
    requires |s| > 0 && IsSpace(s[0])
    requires |rest| == 0 <==> AllSpace(s[1..])
    ensures |rest| == 0 <==> AllSpace(s)
  {
    assert forall i :: 1 <= i < |s| ==> s[i] == s[1..][i - 1];
  }

  /** A leading word is the first field. */
  lemma FieldsWord(s: string, n: nat, rest: seq<string>)
    requires |s| > 0 && !IsSpace(s[0]) && n == WordLength(s)
    requires AreWords(rest)
    ensures AreWords([s[..n]] + rest)
    ensures !AllSpace(s)
  {
    var w := s[..n];
    assert IsWord(w);
    var r := [w] + rest;
    assert forall i :: 0 < i < |r| ==> r[i] == rest[i - 1];
    assert !IsSpace(s[0]);
  }

  /** Fields of a string that starts with a word of length `n`. */
  lemma FieldsOfWord(s: string, n: nat)
    requires |s| > 0 && !IsSpace(s[0]) && n == WordLength(s)
    ensures Fields(s) == [s[..n]] + Fields(s[n..])
  {
  }

  /** Fields of a string that starts with a space. */
  lemma FieldsOfSpace(s: string)
    requires |s| > 0 && IsSpace(s[0])
    ensures Fields(s) == Fields(s[1..])
  {
  }

  /** Joining space-free words with single spaces and splitting the result
      into fields gives the words back. */
  lemma {:induction false} FieldsOfJoin(words: seq<string>)
    requires AreWords(words)
    ensures Fields(Join(words, ' ')) == words
    decreases |words|
  {
    if |words| == 1 {
      FieldsOfOneWord(words);
    } else if |words| > 1 {
      assert AreWords(words[1..]) by {
        assert forall i :: 0 <= i < |words[1..]| ==> words[1..][i] == words[i + 1];
      }
      FieldsOfJoin(words[1..]);
      FieldsOfJoinStep(words);
    }
  }

  lemma FieldsOfOneWord(words: seq<string>)
    requires |words| == 1 && AreWords(words)
    ensures Fields(Join(words, ' ')) == words
  {
    var w := words[0];
    assert Join(words, ' ') == w;
    assert w + "" == w;
    WordLengthOfWord(w, "");
    assert w[..|w|] == w;
    assert w[|w|..] == "";
    FieldsOfWord(w, |w|);
    assert [w] + [] == words;
  }

  lemma FieldsOfJoinStep(words: seq<string>)
    requires |words| > 1 && AreWords(words)
    requires Fields(Join(words[1..], ' ')) == words[1..]
    ensures Fields(Join(words, ' ')) == words
  {
    var tail := Join(words[1..], ' ');
    JoinSpaced(words);
    FieldsOfWordThenSpace(words[0], tail);
    assert [words[0]] + words[1..] == words;
  }

  lemma JoinSpaced(words: seq<string>)
    requires |words| > 1
    ensures Join(words, ' ') == words[0] + (" " + Join(words[1..], ' '))
  {
  }

  /** A word followed by a space: the word is the first field. */
  lemma FieldsOfWordThenSpace(w: string, tail: string)
    requires IsWord(w)
    ensures Fields(w + (" " + tail)) == [w] + Fields(tail)
  {
    var s := w + (" " + tail);
    WordLengthOfWord(w, " " + tail);
    assert s[..|w|] == w;
    assert s[|w|..] == " " + tail;
    FieldsOfWord(s, |w|);
    assert (" " + tail)[1..] == tail;
    FieldsOfSpace(" " + tail);
  }

  lemma {:induction false} WordLengthOfWord(w: string, rest: string)
    requires forall j :: 0 <= j < |w| ==> !IsSpace(w[j])
    requires |rest| == 0 || IsSpace(rest[0])
    ensures WordLength(w + rest) == |w|
    decreases |w|
  {
    if |w| > 0 {
      assert (w + rest)[1..] == w[1..] + rest;
      WordLengthOfWord(w[1..], rest);
    } else {
      assert w + rest == rest;
    }
  }
}

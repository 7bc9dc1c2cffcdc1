/** json.go: typed accessors on decoded JSON values, and JsonPath, which
    resolves a dotted path such as `spec.containers[0].name` by walking
    object keys and array indices from left to right. */
module Json {
  import opened Wrappers
  import opened GoStrings
  import opened GoInts

  /** A value as encoding/json decodes it into `any`: nil, bool, float64,
      string, []any or map[string]any. */
  datatype Json =
    | Null
    | Bool(b: bool)
    | Num(n: real)
    | Str(s: string)
    | Arr(items: seq<Json>)
    | Obj(fields: map<string, Json>)

  /** The errors json.go reports, with the text each one formats. */
  datatype JsonError =
    | InvalidIndex(text: string)   // "invalid index: %s"
    | NotFound(key: string)        // "not found: %s"
    | IndexOutOfRange(index: int)  // "index out of range: %d"
    | NotAString                   // "not a string"
    | NotABool                     // "not a bool"
    | NotAMap                      // "not a map"
    | NotAnArray                   // "not an array"

  // ---------------------------------------------------------------------
  // Typed accessors: type assertions, never conversions.
  // ---------------------------------------------------------------------

  /** ToString: the string a string value holds; any other value is an error. */
  function ToString(v: Json): (r: Result<string, JsonError>)
    ensures r.Ok? <==> v.Str?
    ensures r.Ok? ==> v == Str(r.value)
    ensures r.Err? ==> r.error == NotAString
  {
    if v.Str? then Ok(v.s) else Err(NotAString)
  }

  /** ToBool: the boolean a bool value holds; any other value is an error. */
  function ToBool(v: Json): (r: Result<bool, JsonError>)
    ensures r.Ok? <==> v.Bool?
    ensures r.Ok? ==> v == Bool(r.value)
    ensures r.Err? ==> r.error == NotABool
  {
    if v.Bool? then Ok(v.b) else Err(NotABool)
  }

  /** ToJsonMap: the fields of an object; any other value is an error. */
  function ToJsonMap(v: Json): (r: Result<map<string, Json>, JsonError>)
    ensures r.Ok? <==> v.Obj?
    ensures r.Ok? ==> v == Obj(r.value)
    ensures r.Err? ==> r.error == NotAMap
  {
    if v.Obj? then Ok(v.fields) else Err(NotAMap)
  }

  /** ToJsonArray: the items of an array; any other value is an error. */
  function ToJsonArray(v: Json): (r: Result<seq<Json>, JsonError>)
    ensures r.Ok? <==> v.Arr?
    ensures r.Ok? ==> v == Arr(r.value)
    ensures r.Err? ==> r.error == NotAnArray
  {
    if v.Arr? then Ok(v.items) else Err(NotAnArray)
  }

  // ---------------------------------------------------------------------
  // Path segments
  // ---------------------------------------------------------------------

  /** One step of a path: an object key, and the array index written in
      brackets after it, or -1 when the segment has no bracket. */
  datatype Segment = Segment(name: string, index: int)

  /** Parses one `.`-separated segment: `name` or `name[index]`. A segment
      with a `[` must end in `]`; the key is the text before the first `[`,
      and the index is the text between that `[` and the next `[`, with its
      trailing `]`s removed, read by strconv.Atoi. So `a[1][2]` selects
      index 1 only, and `a[-1]` parses to a negative index. */
  function ParseSegment(attr: string): (r: Result<Segment, JsonError>)
    ensures '[' !in attr ==> r == Ok(Segment(attr, -1))
    ensures '[' in attr && !HasSuffix(attr, "]") ==> r == Err(InvalidIndex(attr))
    ensures r.Ok? && '[' in attr ==> r.value.name == attr[..IndexOf(attr, '[')]
    ensures r.Ok? ==> '[' !in r.value.name
    ensures r.Err? ==> r.error.InvalidIndex?
  {
    if '[' in attr then
      if !HasSuffix(attr, "]") then Err(InvalidIndex(attr))
      else
        var parts := Split(attr, '[');
        var indexStr := TrimRight(parts[1], ']');
        match Atoi(indexStr)
        case None => Err(InvalidIndex(indexStr))
        case Some(index) =>
          assert parts[0] == attr[..IndexOf(attr, '[')];
          Ok(Segment(parts[0], index))
    else
      Ok(Segment(attr, -1))
  }

  /** Applies one segment to the current value: the value must be an object
      holding the key; a non-negative index then requires that key's value
      to be an array long enough to hold the index. */
  function Step(v: Json, seg: Segment): (r: Result<Json, JsonError>)
    ensures !v.Obj? ==> r == Err(NotAMap)
    ensures v.Obj? && seg.name !in v.fields ==> r == Err(NotFound(seg.name))
    ensures v.Obj? && seg.name in v.fields && seg.index < 0 ==> r == Ok(v.fields[seg.name])
    ensures v.Obj? && seg.name in v.fields && seg.index >= 0 ==>
      var sub := v.fields[seg.name];
      && (!sub.Arr? ==> r == Err(NotAnArray))
      && (sub.Arr? && seg.index >= |sub.items| ==> r == Err(IndexOutOfRange(seg.index)))
      && (sub.Arr? && seg.index < |sub.items| ==> r == Ok(sub.items[seg.index]))
  {
    match ToJsonMap(v)
    case Err(e) => Err(e)
    case Ok(o) =>
      if seg.name !in o then Err(NotFound(seg.name))
      else
        var sub := o[seg.name];
        if seg.index >= 0 then
          match ToJsonArray(sub)
          case Err(e) => Err(e)
          case Ok(a) =>
            if seg.index >= |a| then Err(IndexOutOfRange(seg.index)) else Ok(a[seg.index])
        else
          Ok(sub)
  }

  // ---------------------------------------------------------------------
  // Path traversal
  // ---------------------------------------------------------------------

  /** Folds the segments over the value from left to right; each segment is
      parsed only once the segments before it have resolved, so the first
      failure, in path order, is the one reported. */
  function Resolve(v: Json, attrs: seq<string>): Result<Json, JsonError>
    decreases |attrs|
  {
    if |attrs| == 0 then Ok(v)
    else
      match ParseSegment(attrs[0])
      case Err(e) => Err(e)
      case Ok(seg) =>
        match Step(v, seg)
        case Err(e) => Err(e)
        case Ok(next) => Resolve(next, attrs[1..])
  }

  /** Continues a resolution with further segments, passing an error on. */
  function Continue(r: Result<Json, JsonError>, attrs: seq<string>): Result<Json, JsonError>
  {
    match r
    case Err(e) => Err(e)
    case Ok(w) => Resolve(w, attrs)
  }

  /** JsonPath: resolves the `.`-separated segments of `path` in `v`. The
      marshal/unmarshal round trip the Go code starts with is not modelled:
      `v` is already a decoded value. Every path has at least one segment,
      so anything but an object fails. */
  function JsonPath(v: Json, path: string): (r: Result<Json, JsonError>)
    ensures !v.Obj? ==> r.Err? && (r.error == NotAMap || r.error.InvalidIndex?)
  {
    Resolve(v, Split(path, '.'))
  }

  /** Resolving `a + b` resolves `a` and then `b` from where `a` ended. */
  lemma {:induction false} ResolveAppend(v: Json, a: seq<string>, b: seq<string>)
    ensures Resolve(v, a + b) == Continue(Resolve(v, a), b)
    decreases |a|
  {
    if |a| == 0 {
      assert a + b == b;
    } else {
      assert (a + b)[0] == a[0];
      assert (a + b)[1..] == a[1..] + b;
      match ParseSegment(a[0])
      case Err(e) =>
      case Ok(seg) =>
        match Step(v, seg)
        case Err(e) =>
        case Ok(next) => ResolveAppend(next, a[1..], b);
    }
  }

  /** Traversal is a left-to-right fold: resolving `p.q` resolves `q` in
      the value `p` resolves to. */
  lemma JsonPathComposes(v: Json, p: string, q: string)
    ensures JsonPath(v, p + "." + q) == Continue(JsonPath(v, p), Split(q, '.'))
  {
    assert p + "." + q == p + ['.'] + q;
    SplitAppend(p, q, '.');
    ResolveAppend(v, Split(p, '.'), Split(q, '.'));
  }

  /** A key usable as a whole path segment: no `.` and no `[`. */
  predicate PlainKey(k: string) {
    '.' !in k && '[' !in k
  }

  /** The object that holds `leaf` under the nested keys `keys`. */
  function Nest(keys: seq<string>, leaf: Json): Json
    decreases |keys|
  {
    if |keys| == 0 then leaf else Obj(map[keys[0] := Nest(keys[1..], leaf)])
  }

  lemma {:induction false} ResolveNest(keys: seq<string>, leaf: Json)
    requires forall i :: 0 <= i < |keys| ==> PlainKey(keys[i])
    ensures Resolve(Nest(keys, leaf), keys) == Ok(leaf)
    decreases |keys|
  {
    if |keys| > 0 {
      assert ParseSegment(keys[0]) == Ok(Segment(keys[0], -1));
      ResolveNest(keys[1..], leaf);
    }
  }

  /** Joining plain keys with `.` is a path that finds the value nested
      under those keys. */
  lemma JsonPathOfNest(keys: seq<string>, leaf: Json)
    requires |keys| >= 1
    requires forall i :: 0 <= i < |keys| ==> PlainKey(keys[i])
    ensures JsonPath(Nest(keys, leaf), Join(keys, '.')) == Ok(leaf)
  {
    SplitJoin(keys, '.');
    ResolveNest(keys, leaf);
  }

  /** A segment `name[text]` takes its index from `text`: the integer
      Atoi reads there, or an invalid index when Atoi reads none. */
  lemma ParseIndexText(name: string, text: string)
    requires '[' !in name && '[' !in text
    requires text == [] || text[|text| - 1] != ']'
    ensures ParseSegment(name + "[" + text + "]") ==
      if Atoi(text).Some? then Ok(Segment(name, Atoi(text).value)) else Err(InvalidIndex(text))
  {
    var attr := name + "[" + text + "]";
    PiecesOfBracket(name, text, []);
    assert attr + [] == attr;
    ClosedEndsWithBracket(name + "[" + text);
    TrimClosed(text);
    ParseBracketed(attr, name, text + "]");
  }

  /** `name[n]`, with `n` in decimal, selects index `n` when `n` is an
      int64, and is an invalid index otherwise. */
  lemma ParseIndex(name: string, n: int)
    requires '[' !in name
    ensures ParseSegment(name + "[" + Itoa(n) + "]") ==
      if W64.InSigned(n) then Ok(Segment(name, n)) else Err(InvalidIndex(Itoa(n)))
  {
    ParseIndexText(name, Itoa(n));
    AtoiItoa(n);
  }

  /** Bracket text with anything but a digit after its optional sign is
      an invalid index. */
  lemma ParseNonInteger(name: string, text: string, i: nat)
    requires '[' !in name && '[' !in text
    requires text == [] || text[|text| - 1] != ']'
    requires i < |text| && !IsDigit(text[i]) && (i > 0 || (text[0] != '-' && text[0] != '+'))
    ensures ParseSegment(name + "[" + text + "]") == Err(InvalidIndex(text))
  {
    ParseIndexText(name, text);
    AtoiRejectsNonDigit(text, i);
  }

  /** A bracketed segment is read from its first two `[`-separated
      pieces: the key, and the index text with its `]`s trimmed. */
  lemma ParseBracketed(attr: string, name: string, piece: string)
    requires HasSuffix(attr, "]")
    requires |Split(attr, '[')| >= 2 && Split(attr, '[')[..2] == [name, piece]
    ensures var text := TrimRight(piece, ']');
      ParseSegment(attr) == if Atoi(text).Some? then Ok(Segment(name, Atoi(text).value)) else Err(InvalidIndex(text))
  {
    assert Split(attr, '[')[0] == name && Split(attr, '[')[1] == piece;
  }

  lemma ClosedEndsWithBracket(s: string)
    ensures HasSuffix(s + "]", "]")
  {
    assert (s + "]")[|s|..] == "]";
  }

  lemma TrimClosed(text: string)
    requires text == [] || text[|text| - 1] != ']'
    ensures TrimRight(text + "]", ']') == text
  {
    assert (text + "]")[..|text|] == text;
  }

  /** A path without `.` is a single segment. */
  lemma JsonPathOneSegment(v: Json, attr: string)
    requires '.' !in attr
    ensures JsonPath(v, attr) == Resolve(v, [attr])
  {
    SplitWithoutSeparator(attr, '.');
  }

  lemma ResolveOne(v: Json, seg: Segment, attr: string)
    requires ParseSegment(attr) == Ok(seg)
    ensures Resolve(v, [attr]) == Step(v, seg)
  {
    match Step(v, seg)
    case Err(e) =>
    case Ok(w) => assert [attr][1..] == [];
  }

  /** A path that is one segment applies that segment. */
  lemma JsonPathOfOne(v: Json, attr: string, seg: Segment)
    requires '.' !in attr && ParseSegment(attr) == Ok(seg)
    ensures JsonPath(v, attr) == Step(v, seg)
  {
    JsonPathOneSegment(v, attr);
    ResolveOne(v, seg, attr);
  }

  lemma IndexKeepsDotFree(name: string, n: int)
    requires '.' !in name
    ensures '.' !in name + "[" + Itoa(n) + "]"
  {
    var attr := name + "[" + Itoa(n) + "]";
    forall i | 0 <= i < |attr|
      ensures attr[i] != '.'
    {
      if i < |name| {
        assert attr[i] == name[i];
      } else if |name| < i < |name| + 1 + |Itoa(n)| {
        assert attr[i] == Itoa(n)[i - |name| - 1];
      }
    }
  }

  /** The path `name[n]` selects item `n` of the array held under `name`,
      and reports why when it cannot. */
  lemma JsonPathIndex(v: Json, name: string, n: int)
    requires PlainKey(name) && 0 <= n && W64.InSigned(n)
    ensures JsonPath(v, name + "[" + Itoa(n) + "]") == Step(v, Segment(name, n))
    ensures v.Obj? && name in v.fields && v.fields[name].Arr? && n < |v.fields[name].items| ==>
      JsonPath(v, name + "[" + Itoa(n) + "]") == Ok(v.fields[name].items[n])
  {
    ParseIndex(name, n);
    IndexKeepsDotFree(name, n);
    JsonPathOfOne(v, name + "[" + Itoa(n) + "]", Segment(name, n));
  }

  /** A negative index is parsed but selects nothing: `name[n]` with
      `n < 0` finds the same value as `name`. */
  lemma NegativeIndexIgnored(v: Json, name: string, n: int)
    requires PlainKey(name) && n < 0 && W64.InSigned(n)
    ensures JsonPath(v, name + "[" + Itoa(n) + "]") == JsonPath(v, name)
  {
    ParseIndex(name, n);
    IndexKeepsDotFree(name, n);
    JsonPathOfOne(v, name + "[" + Itoa(n) + "]", Segment(name, n));
    JsonPathOfOne(v, name, Segment(name, -1));
  }

  /** A bracketed segment is parsed from its first two `[`-separated pieces only. */
  lemma ParseSegmentByPieces(a: string, b: string)
    requires '[' in a && '[' in b && HasSuffix(a, "]") && HasSuffix(b, "]")
    requires Split(a, '[')[..2] == Split(b, '[')[..2]
    ensures ParseSegment(a) == ParseSegment(b)
  {
    var pieces := Split(a, '[')[..2];
    ParseBracketed(a, pieces[0], pieces[1]);
    ParseBracketed(b, pieces[0], pieces[1]);
  }

  lemma PiecesOfBracket(name: string, text: string, tail: string)
    requires '[' !in name && '[' !in text
    requires tail == [] || tail[0] == '['
    ensures |Split(name + "[" + text + "]" + tail, '[')| >= 2
    ensures Split(name + "[" + text + "]" + tail, '[')[..2] == [name, text + "]"]
  {
    var piece := text + "]";
    ClosedHasNoBracket(text);
    var rest := piece + tail;
    assert name + "[" + text + "]" + tail == name + ['['] + rest;
    SplitAfterName(name, rest);
    SplitOfPiece(piece, tail);
  }

  lemma ClosedHasNoBracket(text: string)
    requires '[' !in text
    ensures '[' !in text + "]"
  {
    assert forall i :: 0 <= i < |text| ==> (text + "]")[i] == text[i];
  }

  /** The first `[`-separated piece of `name[...` is `name`. */
  lemma SplitAfterName(name: string, rest: string)
    requires '[' !in name
    ensures Split(name + ['['] + rest, '[') == [name] + Split(rest, '[')
  {
    SplitAppend(name, rest, '[');
    SplitWithoutSeparator(name, '[');
  }

  lemma SplitOfPiece(piece: string, tail: string)
    requires '[' !in piece
    requires tail == [] || tail[0] == '['
    ensures Split(piece + tail, '[')[0] == piece
  {
    SplitWithoutSeparator(piece, '[');
    if tail == [] {
      assert piece + tail == piece;
    } else {
      assert piece + tail == piece + ['['] + tail[1..];
      SplitAppend(piece, tail[1..], '[');
    }
  }

  /** Only the first bracket of a segment is read: whatever bracketed
      groups follow it are ignored, so `a[1][2]` is `a[1]`. */
  lemma FirstBracketOnly(name: string, text: string, tail: string)
    requires '[' !in name && '[' !in text
    requires tail == [] || (tail[0] == '[' && HasSuffix(tail, "]"))
    ensures ParseSegment(name + "[" + text + "]" + tail) == ParseSegment(name + "[" + text + "]")
  {
    var short := name + "[" + text + "]";
    var long := short + tail;
    PiecesOfBracket(name, text, tail);
    PiecesOfBracket(name, text, []);
    assert short + [] == short;
    assert long[|name|] == '[' && short[|name|] == '[';
    assert HasSuffix(short, "]") by {
      assert short[|short| - 1..] == "]";
    }
    assert HasSuffix(long, "]") by {
      if tail != [] {
        assert long[|long| - 1..] == tail[|tail| - 1..];
      }
    }
    ParseSegmentByPieces(long, short);
  }

  // ---------------------------------------------------------------------
  // Typed path accessors
  // ---------------------------------------------------------------------

  /** JsonPath_ToBool: the bool at `path`, never converting another type. */
  function JsonPathToBool(v: Json, path: string): (r: Result<bool, JsonError>)
    ensures JsonPath(v, path).Err? ==> r == Err(JsonPath(v, path).error)
    ensures JsonPath(v, path).Ok? ==>
      (r.Ok? <==> JsonPath(v, path).value.Bool?) && (r.Ok? ==> JsonPath(v, path).value == Bool(r.value))
    ensures JsonPath(v, path).Ok? && !JsonPath(v, path).value.Bool? ==> r == Err(NotABool)
  {
    match JsonPath(v, path)
    case Err(e) => Err(e)
    case Ok(w) => ToBool(w)
  }

  /** JsonPath_ToString: the string at `path`, never converting another type. */
  function JsonPathToString(v: Json, path: string): (r: Result<string, JsonError>)
    ensures JsonPath(v, path).Err? ==> r == Err(JsonPath(v, path).error)
    ensures JsonPath(v, path).Ok? ==>
      (r.Ok? <==> JsonPath(v, path).value.Str?) && (r.Ok? ==> JsonPath(v, path).value == Str(r.value))
    ensures JsonPath(v, path).Ok? && !JsonPath(v, path).value.Str? ==> r == Err(NotAString)
  {
    match JsonPath(v, path)
    case Err(e) => Err(e)
    case Ok(w) => ToString(w)
  }

  /** JsonPath_ToMap: the fields of the object at `path`. */
  function JsonPathToMap(v: Json, path: string): (r: Result<map<string, Json>, JsonError>)
    ensures JsonPath(v, path).Err? ==> r == Err(JsonPath(v, path).error)
    ensures JsonPath(v, path).Ok? ==>
      (r.Ok? <==> JsonPath(v, path).value.Obj?) && (r.Ok? ==> JsonPath(v, path).value == Obj(r.value))
    ensures JsonPath(v, path).Ok? && !JsonPath(v, path).value.Obj? ==> r == Err(NotAMap)
  {
    match JsonPath(v, path)
    case Err(e) => Err(e)
    case Ok(w) => ToJsonMap(w)
  }

  /** The strings of an item list, in order, failing at the first item that
      is not a string. */
  function StringsOf(items: seq<Json>): (r: Result<seq<string>, JsonError>)
    ensures r.Ok? <==> forall i :: 0 <= i < |items| ==> items[i].Str?
    ensures r.Ok? ==> |r.value| == |items| && forall i :: 0 <= i < |items| ==> items[i] == Str(r.value[i])
    ensures r.Err? ==> r.error == NotAString
    decreases |items|
  {
    if |items| == 0 then Ok([])
    else
      match ToString(items[0])
      case Err(e) => Err(e)
      case Ok(s) =>
        match StringsOf(items[1..])
        case Err(e) => Err(e)
        case Ok(rest) =>
          assert forall i :: 1 <= i < |items| ==> items[i] == items[1..][i - 1];
          Ok([s] + rest)
  }

  /** JsonPath_ToStringArray: the array at `path` as strings, in order,
      provided every item is a string. */
  function JsonPathToStringArray(v: Json, path: string): (r: Result<seq<string>, JsonError>)
    ensures JsonPath(v, path).Err? ==> r == Err(JsonPath(v, path).error)
    ensures JsonPath(v, path).Ok? && !JsonPath(v, path).value.Arr? ==> r == Err(NotAnArray)
    ensures r.Ok? <==>
      JsonPath(v, path).Ok? && JsonPath(v, path).value.Arr? &&
      forall i :: 0 <= i < |JsonPath(v, path).value.items| ==> JsonPath(v, path).value.items[i].Str?
    ensures r.Ok? ==>
      var items := JsonPath(v, path).value.items;
      |r.value| == |items| && forall i :: 0 <= i < |items| ==> items[i] == Str(r.value[i])
    ensures r.Err? && JsonPath(v, path).Ok? && JsonPath(v, path).value.Arr? ==> r.error == NotAString
  {
    match JsonPath(v, path)
    case Err(e) => Err(e)
    case Ok(w) =>
      match ToJsonArray(w)
      case Err(e) => Err(e)
      case Ok(items) => StringsOf(items)
  }

  /** JsonPath_ToStringMap: the object at `path` with every value a string.
      Go ranges over the map in no fixed order, but every failing order
      reports the same "not a string" error, so the outcome is determined. */
  function JsonPathToStringMap(v: Json, path: string): (r: Result<map<string, string>, JsonError>)
    ensures JsonPathToMap(v, path).Err? ==> r == Err(JsonPathToMap(v, path).error)
    ensures JsonPathToMap(v, path).Ok? ==>
      var fields := JsonPathToMap(v, path).value;
      && (r.Ok? <==> forall k :: k in fields ==> fields[k].Str?)
      && (r.Ok? ==> r.value.Keys == fields.Keys && forall k :: k in fields ==> fields[k] == Str(r.value[k]))
      && (r.Err? ==> r.error == NotAString)
  {
    match JsonPathToMap(v, path)
    case Err(e) => Err(e)
    case Ok(fields) =>
      if forall k :: k in fields ==> fields[k].Str? then
        Ok(map k | k in fields :: fields[k].s)
      else
        Err(NotAString)
  }
}

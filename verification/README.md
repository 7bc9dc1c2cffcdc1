# ootiny/x core, modelled in Dafny

`x` is a Go utility package. This project models the parts of it that make
decisions, as pure functions over immutable data:

- **JSON paths** (`json.go`). A decoded JSON value is walked along a dotted
  path such as `spec.containers[0].name`. The typed accessors sit on top
  (`JsonPath_ToString`, `_ToBool`, `_ToMap`, `_ToStringArray`,
  `_ToStringMap`).
- **Embedded tasks** (`embed.go`). `fnListJsonTasks` lists the `.json` task
  files of a directory tree. `LoadTaskConfig` finds a task file and copies
  the caller's overrides over it.
- **Local and remote commands** (`exec.go`, `ssh.go`). `runCommand`
  builds the argument vector and decides whether to feed the sudo
  password. It captures output lines and picks the error to return. `SSH`
  validates its option, picks the authentication method and defaults the
  timeout. It builds the dial address, captures both streams and chooses
  between the command's error and the streams' errors.
- **HTTP** (`http.go`). `AddCookies` guards the client's cookie jar.
  `DoRequest` checks the method and assembles the header: Accept-Encoding
  first, then the caller's headers, then cookies, then the Content-Type
  default. It then classifies the outcome of sending.
- **Randomness** (`rand.go`). `RandString` and `RandFileName` read six-bit
  chunks from each 63-bit draw. The two-argument ranges of `RandInt`
  (which, with a 64-bit `int`, is also `RandInt64`), `RandInt32`,
  `RandUint64` and `RandUint32` compute their bound in the argument's own
  width.
- **Generic helpers** (`helper.go`, `map.go`, `array.go`, `fmt.go`,
  `common.go`): `Max`, `Min`, `FirstNotNil`, `LastNotNil`, `CopyMap`,
  `MergeMap`, `ArrayFilter`, `ArrayContains`, `WarpTabs` and `Ternary`.

There is one module per Go file. `Wrappers` holds `Option` and `Result`.
`GoInts` holds the fixed-width integer ranges and wrap-around. `GoStrings`
holds the `strings` and `strconv` functions the core calls: `Split`, `Join`,
`HasSuffix`, `TrimSuffix`, `TrimRight`, `Atoi` and `Fields`.

Everything the Go code gets from outside becomes a parameter of the model:

- the file system, `os.ReadFile`, the process and its pipes;
- the SSH connection;
- `client.Do` and the decompressors;
- `math/rand`'s draws;
- the order in which goroutines deliver results and append lines to a
  shared buffer.

A Go map that the code ranges over is passed as a sequence of pairs in
iteration order.

Some quirks of the code are kept as written and proved:

- Only the first bracket of a path segment is read, so `a[1][2]` is `a[1]`
  (`Json.FirstBracketOnly`).
- A negative index such as `a[-1]` parses but selects nothing
  (`Json.NegativeIndexIgnored`).
- The stdout and stderr goroutines of `runCommand` and `SSH` append to
  one `bytes.Buffer` without a lock. The model takes each append as
  whole; see "Findings" for what the race can do.
- Directories are always recursed into, whatever their name.
- The full `int64` or `uint64` range makes the two-argument random
  functions panic, because the bound wraps to zero.
- A comment at `rand.go:121-122` says a file name must not start with a
  digit. The code does not enforce this: `Rand.FileNameMayStartWithDigit`
  exhibits a draw that spells `"0"`.

## Model

| member | source | states |
|---|---|---|
| `Common.Ternary` | common.go:3-9 | the true value when the condition holds, the false value otherwise |
| `Common.TernaryNegated` | common.go:3-9 | negating the condition and swapping the branches gives the same value |
| `Helper.Max` | helper.go:7-20 | on a non-empty list (an empty one panics): the result is an element, no element exceeds it, and it sits at the earliest position holding the maximum (strict `>`) |
| `Helper.Min` | helper.go:22-35 | on a non-empty list (an empty one panics): the result is an element, no element is below it, and it sits at the earliest position holding the minimum (strict `<`) |
| `Helper.FirstNotNil` | helper.go:41-50 | nil exactly when every argument is nil; otherwise an argument with only nils before it |
| `Helper.LastNotNil` | helper.go:52-61 | nil exactly when every argument is nil; otherwise an argument with only nils after it |
| `Helper.LastNotNilIsFirstOfReversed` | helper.go:41-61 | scanning backwards finds what scanning the reversed arguments forwards finds |
| `Maps.CopyMap` | map.go:3-9 | exactly the input's keys, each bound to the same value |
| `Maps.MergeMap` | map.go:11-19 | the keys are the union of all keys; each key holds its value in the last map that has it |
| `Maps.MergeMapEmpty` | map.go:11-19 | merging no maps gives the empty map |
| `Maps.MergeMapSingle` | map.go:3-19 | merging one map equals copying it |
| `Maps.MergeMapPair` | map.go:13-17 | merging two maps is the first overridden by the second |
| `Maps.MergeMapSnoc` | map.go:13-17 | one more map overrides the merge so far |
| `Array.ArrayFilter` | array.go:5-13 | no longer than the input, and every element satisfies the predicate |
| `Array.FilterKeeps` | array.go:7-11 | the result is an order-preserving subsequence of the input; it holds each satisfying element as often as the input does, and no other element |
| `Array.FilterRejectingAll` | array.go:5-13 | a predicate that rejects every element yields the empty result |
| `Array.FilterAppend` | array.go:7-11 | filtering a concatenation filters each part and concatenates |
| `Array.ArrayContains` | array.go:15-17 | true exactly when some element equals the item |
| `Fmt.TabCount` | fmt.go:11 | `int(numbOfTab)` runs the loop `numbOfTab` times below 2^63 and not at all from 2^63 up, where the conversion turns negative |
| `Fmt.WarpTabs` | fmt.go:9-15 | the tab count plus `s` in length, only tabs before `s`, then `s`; zero tabs leave `s` unchanged |
| `Json.ToString` | json.go:9-15 | succeeds exactly on a string value and returns it; anything else is "not a string" |
| `Json.ToBool` | json.go:17-23 | succeeds exactly on a bool value and returns it; anything else is "not a bool" |
| `Json.ToJsonMap` | json.go:33-39 | succeeds exactly on an object and returns its fields; anything else is "not a map" |
| `Json.ToJsonArray` | json.go:41-47 | succeeds exactly on an array and returns its items; anything else is "not an array" |
| `Json.ParseSegment` | json.go:61-79 | a segment without `[` is a key with index -1; with `[` but no final `]` it is an invalid index; otherwise the key is the text before the first `[` |
| `Json.Step` | json.go:81-96 | a non-object is "not a map", a missing key is "not found"; a negative index selects the key's value; otherwise the value must be an array long enough, else "not an array" or "index out of range" |
| `Json.JsonPath` | json.go:49-102 | a root that is not an object fails with "not a map" or an invalid index |
| `Json.ResolveAppend` | json.go:60-97 | resolving `a + b` resolves `a`, then `b` from where `a` ended, passing an error on |
| `Json.JsonPathComposes` | json.go:58-99 | resolving `p.q` resolves `q` in the value `p` resolves to |
| `Json.JsonPathOfNest` | json.go:58-99 | plain keys joined with `.` find the value nested under those keys |
| `Json.ParseIndexText` | json.go:63-79 | `name[text]` is the key `name` with the integer `strconv.Atoi` reads from `text`, or an invalid index naming `text` when it reads none |
| `Json.ParseIndex` | json.go:63-79 | `name[n]`, with `n` written in decimal, selects index `n` for every int64 `n`, and is an invalid index beyond the int64 range |
| `Json.ParseNonInteger` | json.go:72-75 | bracket text with anything but a digit after its optional sign is an invalid index |
| `Json.JsonPathIndex` | json.go:81-96 | the path `name[n]` with `n >= 0` selects item `n` of the array held under `name` |
| `Json.NegativeIndexIgnored` | json.go:72-95 | `name[n]` with any negative int64 `n` finds the same value as `name`, or fails the same way |
| `Json.ParseSegmentByPieces` | json.go:69-76 | a bracketed segment is parsed from its first two `[`-separated pieces only |
| `Json.FirstBracketOnly` | json.go:69-71 | bracketed groups after the first are ignored: `a[1][2]` parses as `a[1]` |
| `Json.JsonPathToBool` | json.go:104-110 | a path error is passed on; a bool is returned and any other value is "not a bool" |
| `Json.JsonPathToString` | json.go:130-136 | a path error is passed on; a string is returned and any other value is "not a string" |
| `Json.JsonPathToMap` | json.go:176-184 | a path error is passed on; an object's fields are returned and any other value is "not a map" |
| `Json.StringsOf` | json.go:146-152 | succeeds exactly when every item is a string; the strings keep order and count |
| `Json.JsonPathToStringArray` | json.go:138-156 | succeeds exactly when the path leads to an array of strings; the result keeps their order and count |
| `Json.JsonPathToStringMap` | json.go:158-174 | succeeds exactly when every field of the object is a string; same keys, each bound to its string |
| `Embed.SubPath` | embed.go:23 | a top-level entry's path is its bare name; a nested one is `subDir/name` |
| `Embed.ListEntriesAppend` | embed.go:22-33 | listing a sequence of entries lists each part in turn, keeping order; the earlier error wins |
| `Embed.ListEntriesFails` | embed.go:19-28 | the listing fails exactly when some directory reachable through readable ones cannot be read |
| `Embed.ListEntriesSound` | embed.go:22-32 | every listed name is the path of a `.json` file in the tree, without the suffix |
| `Embed.ListEntriesComplete` | embed.go:22-32 | every `.json` file reachable in the tree is listed under that name |
| `Embed.PathOfJoins` | embed.go:19-23 | the path of nested names is those names joined with `/`, below the listed root |
| `Embed.TaskSource` | embed.go:51-63 | a `.json` name is read from disk; any other name needs the embedded file system ("not found") and `<name>.json` in it (not found) |
| `Embed.MapsCopy` | embed.go:70 | override keys replace base keys and the other base keys stay; a nil destination panics exactly when there is something to copy |
| `Embed.LoadTaskConfig` | embed.go:43-79 | source errors and undecodable files are returned; a `null` file panics exactly when there are overrides; otherwise the merged map |
| `Embed.NullTaskFilePanics` | embed.go:65-70 | a task file holding `null` with a non-empty override ends in a nil-map panic |
| `Embed.LoadTaskConfigFixed` | embed.go:65-70 | never panics; fails exactly on a source error or an undecodable file; otherwise `MergeMap([base, overrides])` with `null` read as an empty base |
| `Embed.LoadTaskConfigFixedAgrees` | embed.go:43-79 | wherever the code as written does not panic, the corrected version returns the same |
| `Exec.Argv` | exec.go:31-37 | with sudo: `sudo` with `-S` and then every field; without: the first field, then the rest |
| `Exec.StdinFeed` | exec.go:65-70 | the password and a newline are written exactly when sudo is set and the password is non-empty |
| `Exec.InterleaveMerges` | exec.go:73-97 | with whole appends, the buffer's lines are those of both streams, each stream in its own order, whatever the schedule |
| `Exec.PrefixCoveringFirst` | exec.go:73-84 | once every stdout line is in, the buffer is all of stdout merged with the first stderr lines |
| `Exec.PrefixCoveringSecond` | exec.go:86-97 | once every stderr line is in, the buffer is all of stderr merged with the first stdout lines |
| `Exec.ReturnPosition` | exec.go:99-104 | the loop stops at the first non-nil result, after only nil ones, or runs through all three |
| `Exec.BufferedAtReturn` | exec.go:76-104 | the buffer read at return holds every append after a normal return, and every append of a stream goroutine that had already sent its result after an early one |
| `Exec.UnsyncedAppendLosesLine` | exec.go:81-94 | two overlapping unlocked appends of `x` and `y` leave `y\n`, which no order of whole appends produces |
| `Exec.CaptureAppend` | exec.go:81-94 | each line enters the buffer followed by `\n`, so capturing two runs of lines concatenates their captures |
| `Exec.ScanCapture` | exec.go:75-81 | scanning a buffer of captured lines gives the lines back |
| `Exec.SelectError` | exec.go:99-106 | the first non-nil goroutine result in arrival order, or else Wait's result |
| `Exec.RunCommand` | exec.go:20-107 | an empty command fails before a nil option does; the launched command is the argument vector plus the stdin feed; an early error returns the lines buffered so far, which include every line of a stream whose goroutine had reported; otherwise all lines with Wait's result |
| `Exec.StdoutErrorKeepsItsLines` | exec.go:73-104 | a stdout scanner error arriving first still returns every stdout line read before it |
| `Ssh.HostOfJoinHostPort` | ssh.go:69 | the host can be read back from the dial address `JoinHostPort(host, port)` |
| `Ssh.EffectiveTimeout` | ssh.go:52-54 | a zero timeout becomes sixty seconds (in nanoseconds) and any other is kept |
| `Ssh.Configure` | ssh.go:45-74 | an empty user fails, then an empty host; a private key wins over a password; with neither the call fails; dials `JoinHostPort(host, "22")` as the user with the effective timeout, from which the host reads back |
| `Ssh.Drain` | ssh.go:104-132 | a stream's buffered lines are a prefix of its lines; all of them with the scanner's error unless a writer fails, and then the lines before that failure with the writer's error |
| `Ssh.FinalError` | ssh.go:134-141 | the command's own error wins; otherwise the first non-nil stream result in arrival order |
| `Ssh.Ssh` | ssh.go:44-144 | a nil option panics; validation errors come before dialing; a dial error, then a session or pipe error in source order, returns no output; otherwise the captured streams and the chosen error |
| `Http.AddCookies` | http.go:36-65 | a nil client is an error; no cookies succeeds untouched; a bad URL is an error; otherwise the jar, created only if missing, records the cookies |
| `Http.AddCookiesKeepsJar` | http.go:53-62 | an existing jar is kept and receives the new call after its earlier ones |
| `Http.AddCookiesTwice` | http.go:36-65 | two successful calls record both cookie lists in call order |
| `Http.CanonicalKeyIdempotent` | http.go:142 | canonicalizing a header key twice is canonicalizing it once |
| `Http.LastSet` | http.go:141-143 | a canonical key is set exactly when some caller header canonicalizes to it |
| `Http.SetAll` | http.go:141-143 | after setting the caller's headers, each key holds the last value set for it, or its earlier value |
| `Http.AddAllCookies` | http.go:146-151 | cookies are appended to a non-empty Cookie header with `; `, or start it; no other key changes |
| `Http.AcceptEncodingHeader` | http.go:138-143 | the caller's Accept-Encoding, if any, replaces `gzip, deflate, br, zstd` |
| `Http.ContentTypeHeader` | http.go:153-156 | with a body, Content-Type is the caller's non-empty one or `application/json`; without one, only the caller's |
| `Http.CookieHeader` | http.go:145-151 | the caller's cookies follow a non-empty Cookie header the caller set |
| `Http.OtherHeaders` | http.go:140-143 | every other key holds what the caller's last header for it set |
| `Http.Classify` | http.go:176-235 | a decompressor that fails is 500; a status outside [200, 300) returns no body and that status; a read error is 500; otherwise the body and status |
| `Http.DoRequest` | http.go:96-236 | an unknown method is 400 before any request; a request error is 500; a send failure is 504 after the deadline and 503 otherwise; success always carries a body and a 2xx status |
| `Rand.LowChunk` | rand.go:108 | `cache & letterIdxMask` is a chunk in [0, 64) |
| `Rand.AllChunksLength` | rand.go:98-114 | each draw supplies ten chunks |
| `Rand.AllChunksHead` | rand.go:103-113 | the first ten chunks come from the first draw, low bits first |
| `Rand.PendingChunks` | rand.go:103-115 | the chunks the loop still has to read are those left in the cache, then ten from each later draw |
| `Rand.Take` | rand.go:103-116 | exactly the requested number of letters, all from the alphabet, or none when the chunks name too few |
| `Rand.TakeAccepted` | rand.go:108-111 | a chunk naming a letter supplies the next letter |
| `Rand.TakeRejected` | rand.go:108-111 | a chunk past the alphabet is dropped without advancing |
| `Rand.SpellFromTakes` | rand.go:103-115 | the loop takes the letters named by its pending chunks |
| `Rand.Spelled` | rand.go:90-118 | a non-positive length gives `""`; otherwise `length` characters from the alphabet |
| `Rand.Spell` | rand.go:100-117 | the loop spells the letters named by the first chunks that fit the alphabet |
| `Rand.RandString` | rand.go:90-118 | `length` characters (none for a non-positive length), each an ASCII letter or digit |
| `Rand.RandFileName` | rand.go:120-151 | `length` characters (none for a non-positive length), each a lower-case letter or digit |
| `Rand.FileNameMayStartWithDigit` | rand.go:121-149 | a first chunk of 26 starts the file name with the digit `0` |
| `Rand.RandSigned` | rand.go:16-24 | no arguments: a non-negative draw; one: below it, panicking unless positive; two: in `[args[0], args[1]]` when the span fits, panicking when the wrapped span is not positive |
| `Rand.RandInt` | rand.go:16-24 | with `args[0] <= args[1]` and a span that fits in an int, the result lies in `[args[0], args[1]]`; `RandInt64` (rand.go:46-54) is the same function |
| `Rand.RandInt32` | rand.go:56-64 | with `args[0] <= args[1]` and a span that fits in an int32, the result lies in `[args[0], args[1]]` |
| `Rand.FullSignedRangePanics` | rand.go:52 | the full int64 range wraps its span to 0 and panics |
| `Rand.RandUnsigned` | rand.go:66-84 | no arguments: the draw; one: the draw modulo it, panicking on 0; two: in `[args[0], args[1]]` when the span fits, panicking when it wraps to 0 |
| `Rand.RandUint64` | rand.go:66-74 | with `args[0] <= args[1]` and a span that fits in a uint64, the result lies in `[args[0], args[1]]` |
| `Rand.RandUint32` | rand.go:76-84 | with `args[0] <= args[1]` and a span that fits in a uint32, the result lies in `[args[0], args[1]]` |
| `Rand.FullUnsignedRangePanics` | rand.go:72 | the full uint64 range wraps its span to 0 and the `%` panics |
| `GoStrings.Fields` | exec.go:22 | the pieces are non-empty words without white space; there are none exactly when the command is all white space |
| `GoStrings.FieldsConcat` | exec.go:22 | the words, put together, are the command's non-space characters in order |
| `GoStrings.FieldsOfJoin` | exec.go:22 | splitting words joined by spaces gives the words back |
| `GoStrings.SplitJoin` | json.go:58 | splitting pieces joined by the separator gives the pieces back |
| `GoStrings.JoinSplit` | json.go:58 | joining the pieces of a split gives the string back |
| `GoStrings.SplitAppend` | json.go:58 | splitting `a + sep + b` splits `a` and `b` separately |
| `GoStrings.TrimRight` | json.go:71 | a prefix of the input with only `]` removed from its end and no `]` left at its end |
| `GoStrings.Atoi` | json.go:72 | a result is an int64, from an optional sign and at least one digit; a negative one comes from a leading `-` |
| `GoStrings.AtoiItoa` | json.go:72 | Atoi reads back the decimal text of every int64, and fails on the text of any integer outside that range |
| `GoStrings.AtoiRejectsNonDigit` | json.go:72 | text with anything but a digit after its optional sign is not a number |
| `GoStrings.AtoiRejectsBareSign` | json.go:72 | the empty text and a lone sign are not numbers |
| `GoStrings.TrimSuffix` | embed.go:31 | the result plus the suffix is the input when the suffix is present; the input otherwise |

## Left out

- `Rand.RandString`: the model promises the length and the alphabet only when the given draws suffice. The program keeps drawing, so it never runs out; the model returns `None` when the draws are used up.
- `Rand.RandFileName`: the same as `Rand.RandString`, for the same reason.
- `Rand.RandSigned`: the draw is a parameter that obeys `math/rand`'s promise (non-negative, below the bound); the generator itself is not modelled. The same holds for `Rand.RandUnsigned` and the five typed wrappers.
- `RandFloat64`, `RandFloat32`, `ToFloat64`, `JsonPath_ToInt` and `JsonPath_ToFloat64`: floating point is not modelled. JSON numbers are kept as `real`s and never computed on.
- `JsonPath`'s marshal/unmarshal round trip (json.go:52-56) is library behaviour: the model starts from the decoded value. For the same reason the final marshal/unmarshal into the caller's struct in `LoadTaskConfig` (embed.go:72-78) is left out, and the merged map is the result.
- `IsFileExists` and `efs.ReadFile` (embed.go:11-14, 55-58) become lookups in a map from file names to decoded contents. `os.ReadFile` (embed.go:52) becomes a lookup in a second map.
- `Exec.RunCommand`: the caller's `Stdout`/`Stderr` writers are left out, because writing to them does not change the result. The pipes and `cmd.Start` are one given start error. The goroutines' interleaving is given as an arrival order and a schedule. Each `outputBuf.WriteString` (exec.go:81, exec.go:94) is taken as one whole append, as a lock would make it. The code has no lock, and overlapping appends can lose or garble lines (see "Findings"). The model does not promise anything about that case. Goroutines left blocked on the unbuffered channel after an early return are not modelled.
- `Ssh.Ssh`: the SSH handshake, `ssh.ParsePrivateKey` and `ssh.Dial` are given outcomes. A nil option, which Go dereferences and panics on, is the `NilOption` outcome. The writers are modelled only as present or absent, with a given error per line. Each `outputBuf.WriteString` (ssh.go:114, ssh.go:129) is taken as one whole append, as a lock would make it. The code has no lock (see "Findings"), and the model promises nothing about overlapping appends.
- `Http.DoRequest`: the context and timeout become a "deadline exceeded" flag. `client.Do`, the decompressors and `io.ReadAll` are given outcomes, and the body's bytes are not decompressed. The branch at http.go:228-229 returns the same 500 as the one after it, with a different message. The model folds it into `ReadFailed`.
- `Http.AddCookies`: the cookie jar is the record of its `SetCookies` calls. Domain matching, expiry and `url.Parse` are not modelled; the URL's parse error is given.
- `Http.CookieString`: `http.Cookie` sanitization of names and values is not modelled.
- `RandInt64` has no member of its own: with Go's 64-bit `int` its body is that of `RandInt`, and `Rand.RandInt` models both.
- `Helper.Max` and `Helper.Min` are modelled on `int`; `constraints.Ordered` also admits floats (NaN) and strings.
- `UUID`, `RandBool`, `FetchJson`, `DownloadFile`, `GetURLBody`, `XCommand`, `XSudoCommand` and the `SSHOption` constructors are thin wrappers over the modelled functions or over libraries.
- log.go, debug.go, error.go, string.go, gin.go, net.go and the `fmt` forwarders other than `WarpTabs` wrap libraries and have no logic of their own.
- Strings are sequences of `char`, not bytes. This agrees with Go for the ASCII characters the core splits and matches on. `GoStrings.Fields` follows `unicode.IsSpace`.

## Findings

| source | as written | input that shows it | evidently intended | confidence | as-written member | corrected member |
|---|---|---|---|---|---|---|
| exec.go:81-94 | the stdout and stderr goroutines both call `outputBuf.WriteString` on one `bytes.Buffer` with no lock (so does ssh.go:114-129), a data race | a stdout line `x` and a stderr line `y` whose appends both read the empty buffer before either stores: the buffer ends as `y\n` | appends serialised, for example under a mutex, so that every line reaches the buffer whole and each stream keeps its order | medium, not executed | `Exec.UnsyncedAppendLosesLine` | `Exec.InterleaveMerges` |
| embed.go:65-70 | `json.Unmarshal` of a task file holding `null` leaves `baseConfig` a nil map, and `maps.Copy` then assigns into it, which panics | a task file `task.json` holding `null` and any non-empty `overrideConfig` | a `null` base read as an empty configuration, so that the overrides alone are loaded | medium, not executed | `Embed.NullTaskFilePanics` | `Embed.LoadTaskConfigFixed` |

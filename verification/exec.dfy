/** exec.go: runCommand, which runs a local command, optionally through
    `sudo -S`, and returns the lines it printed. The process, its pipes and
    the three goroutines that feed and drain them are outside the model:
    what they produce is given as a `ProcessRun`. */
module Exec {
  import opened Wrappers
  import opened GoStrings
  import Array
  import Helper

  // ---------------------------------------------------------------------
  // Line capture, shared with ssh.go
  // ---------------------------------------------------------------------

  /** The output buffer after appending each line followed by `\n`. */
  function Capture(lines: seq<string>): string
  {
    if |lines| == 0 then "" else lines[0] + "\n" + Capture(lines[1..])
  }

  lemma {:induction false} CaptureAppend(a: seq<string>, b: seq<string>)
    ensures Capture(a + b) == Capture(a) + Capture(b)
    decreases |a|
  {
    if |a| == 0 {
      assert a + b == b;
    } else {
      assert (a + b)[1..] == a[1..] + b;
      CaptureAppend(a[1..], b);
    }
  }

  /** A captured buffer is the lines joined by `\n`, with a final `\n`. */
  lemma {:induction false} CaptureIsJoin(lines: seq<string>)
    ensures |lines| > 0 ==> Capture(lines) == Join(lines, '\n') + "\n"
    decreases |lines|
  {
    if |lines| > 1 {
      CaptureIsJoin(lines[1..]);
    }
  }

  /** bufio.ScanLines: the lines of `data`, split at `\n`, without a final
      empty line, each with one trailing `\r` dropped. */
  function ScanLines(data: string): seq<string>
  {
    if data == "" then [] else DropCRs(TrimFinalEmpty(Split(data, '\n')))
  }

  function TrimFinalEmpty(parts: seq<string>): seq<string>
    requires |parts| > 0
  {
    if parts[|parts| - 1] == "" then parts[..|parts| - 1] else parts
  }

  function DropCRs(lines: seq<string>): seq<string>
  {
    seq(|lines|, i requires 0 <= i < |lines| => DropCR(lines[i]))
  }

  function DropCR(line: string): string
  {
    if |line| > 0 && line[|line| - 1] == '\r' then line[..|line| - 1] else line
  }

  /** A line the scanner can return: no `\n` in it and no `\r` at its end. */
  predicate ScannableLine(line: string) {
    '\n' !in line && (|line| == 0 || line[|line| - 1] != '\r')
  }

  /** Splitting a captured buffer at `\n` gives the lines and an empty tail. */
  lemma SplitCapture(lines: seq<string>)
    requires |lines| > 0
    requires forall i :: 0 <= i < |lines| ==> '\n' !in lines[i]
    ensures Split(Capture(lines), '\n') == lines + [""]
  {
    CaptureIsJoin(lines);
    JoinAppend(lines, [""], '\n');
    assert Join([""], '\n') == "";
    assert Join(lines + [""], '\n') == Capture(lines);
    SplitJoin(lines + [""], '\n');
  }

  /** Scanning a captured buffer gives the captured lines back. */
  lemma ScanCapture(lines: seq<string>)
    requires forall i :: 0 <= i < |lines| ==> ScannableLine(lines[i])
    ensures ScanLines(Capture(lines)) == lines
  {
    if |lines| > 0 {
      var data := Capture(lines);
      assert data != "" by {
        assert data == lines[0] + "\n" + Capture(lines[1..]);
      }
      SplitCapture(lines);
      assert (lines + [""])[..|lines|] == lines;
      assert TrimFinalEmpty(Split(data, '\n')) == lines;
      DropCRsOfScannable(lines);
    }
  }

  lemma DropCRsOfScannable(lines: seq<string>)
    requires forall i :: 0 <= i < |lines| ==> ScannableLine(lines[i])
    ensures DropCRs(lines) == lines
  {
    forall i | 0 <= i < |lines|
      ensures DropCRs(lines)[i] == lines[i]
    {
      assert ScannableLine(lines[i]);
    }
  }

  /** The lines of two streams in the order their writers appended them to
      the shared buffer: `schedule[k]` says whether the k-th append came
      from the first stream; once it runs out, the rest follow in order. */
  function Interleave(a: seq<string>, b: seq<string>, schedule: seq<bool>): (r: seq<string>)
    ensures |r| == |a| + |b|
    decreases |a| + |b|
  {
    if |a| == 0 then b
    else if |b| == 0 then a
    else if |schedule| == 0 || schedule[0] then [a[0]] + Interleave(a[1..], b, NextSchedule(schedule))
    else [b[0]] + Interleave(a, b[1..], schedule[1..])
  }

  /** Whatever the schedule, the buffer ends up holding every line of both
      streams, each stream in its own order. */
  lemma {:induction false} InterleaveMerges(a: seq<string>, b: seq<string>, schedule: seq<bool>)
    ensures Merges(Interleave(a, b, schedule), a, b)
    decreases |a| + |b|
  {
    if |a| == 0 {
      SubsequenceOfSelf(b);
      assert a + b == b;
    } else if |b| == 0 {
      SubsequenceOfSelf(a);
      assert a + b == a;
    } else if |schedule| == 0 || schedule[0] {
      InterleaveMerges(a[1..], b, NextSchedule(schedule));
      MergesFirst(a, b, Interleave(a[1..], b, NextSchedule(schedule)));
    } else {
      InterleaveMerges(a, b[1..], schedule[1..]);
      MergesSecond(a, b, Interleave(a, b[1..], schedule[1..]));
    }
  }

  /** `r` holds the lines of `a` and of `b`, each stream in its own order. */
  ghost predicate Merges(r: seq<string>, a: seq<string>, b: seq<string>) {
    && |r| == |a| + |b|
    && multiset(r) == multiset(a + b)
    && Array.IsSubsequence(a, r)
    && Array.IsSubsequence(b, r)
  }

  lemma MergesFirst(a: seq<string>, b: seq<string>, rest: seq<string>)
    requires |a| > 0 && Merges(rest, a[1..], b)
    ensures Merges([a[0]] + rest, a, b)
  {
    var r := [a[0]] + rest;
    assert r[1..] == rest;
    assert a == [a[0]] + a[1..];
    assert a + b == [a[0]] + (a[1..] + b);
  }

  lemma MergesSecond(a: seq<string>, b: seq<string>, rest: seq<string>)
    requires |b| > 0 && Merges(rest, a, b[1..])
    ensures Merges([b[0]] + rest, a, b)
  {
    var r := [b[0]] + rest;
    assert r[1..] == rest;
    assert b == [b[0]] + b[1..];
    assert multiset(a + b) == multiset(a) + multiset(b);
    assert multiset(a + b[1..]) == multiset(a) + multiset(b[1..]);
  }

  /** The schedule after one append of two streams that both still have lines. */
  function NextSchedule(schedule: seq<bool>): seq<bool>
  {
    if |schedule| == 0 then [] else schedule[1..]
  }

  /** How many appends it takes, in the order of `Interleave(a, b, schedule)`,
      for every line of `a` to reach the buffer. */
  function CoverFirst(a: seq<string>, b: seq<string>, schedule: seq<bool>): (n: nat)
    ensures |a| <= n <= |a| + |b|
    decreases |a| + |b|
  {
    if |a| == 0 then 0
    else if |b| == 0 then |a|
    else if |schedule| == 0 || schedule[0] then 1 + CoverFirst(a[1..], b, NextSchedule(schedule))
    else 1 + CoverFirst(a, b[1..], schedule[1..])
  }

  /** How many appends it takes for every line of `b` to reach the buffer. */
  function CoverSecond(a: seq<string>, b: seq<string>, schedule: seq<bool>): (n: nat)
    ensures |b| <= n <= |a| + |b|
    decreases |a| + |b|
  {
    if |b| == 0 then 0
    else if |a| == 0 then |b|
    else if |schedule| == 0 || schedule[0] then 1 + CoverSecond(a[1..], b, NextSchedule(schedule))
    else 1 + CoverSecond(a, b[1..], schedule[1..])
  }

  /** Once every line of `a` is in, the buffer holds all of `a` merged with
      the first lines of `b`, in the order of the schedule. */
  lemma {:induction false} PrefixCoveringFirst(a: seq<string>, b: seq<string>, schedule: seq<bool>, n: nat)
    requires CoverFirst(a, b, schedule) <= n <= |a| + |b|
    ensures Interleave(a, b, schedule)[..n] == Interleave(a, b[..n - |a|], schedule)
    decreases |a| + |b|
  {
    if |a| == 0 {
      assert b[..n] == b[..n - |a|];
    } else if |b| == 0 {
      assert b[..n - |a|] == b;
    } else if |schedule| == 0 || schedule[0] {
      PrefixCoveringFirst(a[1..], b, NextSchedule(schedule), n - 1);
      CoveringFirstTakesFirst(a, b, schedule, n);
    } else {
      PrefixCoveringFirst(a, b[1..], schedule[1..], n - 1);
      CoveringFirstTakesSecond(a, b, schedule, n);
    }
  }

  lemma CoveringFirstTakesFirst(a: seq<string>, b: seq<string>, schedule: seq<bool>, n: nat)
    requires |a| > 0 && |b| > 0 && (|schedule| == 0 || schedule[0])
    requires |a| <= n <= |a| + |b|
    requires Interleave(a[1..], b, NextSchedule(schedule))[..n - 1] ==
      Interleave(a[1..], b[..n - |a|], NextSchedule(schedule))
    ensures Interleave(a, b, schedule)[..n] == Interleave(a, b[..n - |a|], schedule)
  {
    var c := b[..n - |a|];
    if |c| == 0 {
      assert Interleave(a[1..], c, NextSchedule(schedule)) == a[1..];
      assert a == [a[0]] + a[1..];
    }
  }

  lemma CoveringFirstTakesSecond(a: seq<string>, b: seq<string>, schedule: seq<bool>, n: nat)
    requires |a| > 0 && |b| > 0 && |schedule| > 0 && !schedule[0]
    requires |a| + 1 <= n <= |a| + |b|
    requires Interleave(a, b[1..], schedule[1..])[..n - 1] == Interleave(a, b[1..][..n - 1 - |a|], schedule[1..])
    ensures Interleave(a, b, schedule)[..n] == Interleave(a, b[..n - |a|], schedule)
  {
    var c := b[..n - |a|];
    assert b[1..][..n - 1 - |a|] == c[1..];
    assert Interleave(a, b, schedule)[..n] == [b[0]] + Interleave(a, b[1..], schedule[1..])[..n - 1];
    assert Interleave(a, c, schedule) == [c[0]] + Interleave(a, c[1..], schedule[1..]);
  }

  /** Once every line of `b` is in, the buffer holds all of `b` merged with
      the first lines of `a`, in the order of the schedule. */
  lemma {:induction false} PrefixCoveringSecond(a: seq<string>, b: seq<string>, schedule: seq<bool>, n: nat)
    requires CoverSecond(a, b, schedule) <= n <= |a| + |b|
    ensures Interleave(a, b, schedule)[..n] == Interleave(a[..n - |b|], b, schedule)
    decreases |a| + |b|
  {
    if |b| == 0 {
      assert a[..n] == a[..n - |b|];
    } else if |a| == 0 {
      assert a[..n - |b|] == a;
    } else if |schedule| == 0 || schedule[0] {
      PrefixCoveringSecond(a[1..], b, NextSchedule(schedule), n - 1);
      CoveringSecondTakesFirst(a, b, schedule, n);
    } else {
      PrefixCoveringSecond(a, b[1..], schedule[1..], n - 1);
      CoveringSecondTakesSecond(a, b, schedule, n);
    }
  }

  lemma CoveringSecondTakesFirst(a: seq<string>, b: seq<string>, schedule: seq<bool>, n: nat)
    requires |a| > 0 && |b| > 0 && (|schedule| == 0 || schedule[0])
    requires |b| + 1 <= n <= |a| + |b|
    requires Interleave(a[1..], b, NextSchedule(schedule))[..n - 1] ==
      Interleave(a[1..][..n - 1 - |b|], b, NextSchedule(schedule))
    ensures Interleave(a, b, schedule)[..n] == Interleave(a[..n - |b|], b, schedule)
  {
    var c := a[..n - |b|];
    assert a[1..][..n - 1 - |b|] == c[1..];
    assert Interleave(a, b, schedule)[..n] == [a[0]] + Interleave(a[1..], b, NextSchedule(schedule))[..n - 1];
    assert Interleave(c, b, schedule) == [c[0]] + Interleave(c[1..], b, NextSchedule(schedule));
  }

  lemma CoveringSecondTakesSecond(a: seq<string>, b: seq<string>, schedule: seq<bool>, n: nat)
    requires |a| > 0 && |b| > 0 && |schedule| > 0 && !schedule[0]
    requires |b| <= n <= |a| + |b|
    requires Interleave(a, b[1..], schedule[1..])[..n - 1] == Interleave(a[..n - |b|], b[1..], schedule[1..])
    ensures Interleave(a, b, schedule)[..n] == Interleave(a[..n - |b|], b, schedule)
  {
    var c := a[..n - |b|];
    assert Interleave(a, b, schedule)[..n] == [b[0]] + Interleave(a, b[1..], schedule[1..])[..n - 1];
    if |c| == 0 {
      assert Interleave(c, b[1..], schedule[1..]) == b[1..];
      assert b == [b[0]] + b[1..];
    }
  }

  lemma {:induction false} SubsequenceOfSelf<T>(s: seq<T>)
    ensures Array.IsSubsequence(s, s)
    decreases |s|
  {
    if |s| > 0 {
      SubsequenceOfSelf(s[1..]);
    }
  }

  // ---------------------------------------------------------------------
  // The shared buffer without a lock
  // ---------------------------------------------------------------------

  /** bytes.Buffer.WriteString as two goroutines run it on one buffer with
      no lock: an append reads the buffer and, at a later step, stores what
      it read followed by its line. `steps[k]` names the goroutine that
      takes the k-th step (true for the one writing `a`); `readA` and
      `readB` hold what each has read and not yet stored, and a goroutine
      with no lines left does nothing. */
  function UnsyncedAppends(buffer: string, a: seq<string>, readA: Option<string>,
                           b: seq<string>, readB: Option<string>, steps: seq<bool>): string
    decreases |steps|
  {
    if |steps| == 0 then buffer
    else if steps[0] then
      if |a| == 0 then UnsyncedAppends(buffer, a, readA, b, readB, steps[1..])
      else if readA.None? then UnsyncedAppends(buffer, a, Some(buffer), b, readB, steps[1..])
      else UnsyncedAppends(readA.value + a[0] + "\n", a[1..], None, b, readB, steps[1..])
    else
      if |b| == 0 then UnsyncedAppends(buffer, a, readA, b, readB, steps[1..])
      else if readB.None? then UnsyncedAppends(buffer, a, readA, b, Some(buffer), steps[1..])
      else UnsyncedAppends(readB.value + b[0] + "\n", a, readA, b[1..], None, steps[1..])
  }

  /** Two overlapping appends lose a line: when the stdout goroutine's `x`
      and the stderr goroutine's `y` both read the empty buffer before
      either stores, the buffer ends as `y\n`, which no order of whole
      appends produces. */
  lemma UnsyncedAppendLosesLine()
    ensures UnsyncedAppends("", ["x"], None, ["y"], None, [true, false, true, false]) == "y\n"
    ensures forall schedule :: Capture(Interleave(["x"], ["y"], schedule)) != "y\n"
  {
    assert ["x"][1..] == [] && ["y"][1..] == [];
    forall schedule
      ensures Capture(Interleave(["x"], ["y"], schedule)) != "y\n"
    {
      InterleaveMerges(["x"], ["y"], schedule);
    }
  }

  /** When stdout's scanner fails and its result arrives first, the lines
      it had read are all returned: it appended them before sending. */
  lemma StdoutErrorKeepsItsLines(command: string, option: CommandOption, run: ProcessRun)
    requires Fields(command) != [] && ValidArrival(run.arrival)
    requires run.startError.None? && run.stdoutError.Some? && run.arrival[0] == 1 && run.stderr == []
    ensures RunCommand(command, Some(option), run).output == Capture(run.stdout)
    ensures RunCommand(command, Some(option), run).error == Some(TaskFailed(run.stdoutError.value))
  {
    assert Results(option, run)[0] == run.stdoutError;
    assert StreamReported(option, run, 1);
    var i :| 0 <= i <= |run.stderr| && RunCommand(command, Some(option), run).output ==
      Capture(Interleave(run.stdout, run.stderr[..i], run.schedule));
    assert run.stderr[..i] == [];
  }

  // ---------------------------------------------------------------------
  // runCommand
  // ---------------------------------------------------------------------

  /** commandOption, less the caller's writers (see Left out). */
  datatype CommandOption = CommandOption(sudo: bool, sudoPassword: string)

  /** The program and arguments handed to exec.Command. */
  datatype Invocation = Invocation(program: string, args: seq<string>)

  /** The command line split into fields; with sudo the program is `sudo`
      and the arguments `-S` followed by every field, otherwise the program
      is the first field and the arguments the rest. */
  function Argv(parts: seq<string>, sudo: bool): (inv: Invocation)
    requires |parts| > 0
    ensures sudo ==> inv.program == "sudo" && inv.args == ["-S"] + parts
    ensures !sudo ==> [inv.program] + inv.args == parts
  {
    if sudo then Invocation("sudo", ["-S"] + parts) else Invocation(parts[0], parts[1..])
  }

  /** What the stdin goroutine writes: the password and a newline, only when
      sudo is requested with a non-empty password. */
  function StdinFeed(option: CommandOption): (feed: Option<string>)
    ensures feed.Some? <==> option.sudo && option.sudoPassword != ""
    ensures feed.Some? ==> |feed.value| == |option.sudoPassword| + 1
    ensures feed.Some? ==> feed.value[..|option.sudoPassword|] == option.sudoPassword
    ensures feed.Some? ==> feed.value[|option.sudoPassword|] == '\n'
  {
    if option.sudo && option.sudoPassword != "" then Some(option.sudoPassword + "\n") else None
  }

  /** What runCommand returns. */
  datatype ExecError =
    | EmptyCommand           // "command cannot be empty"
    | NilOption              // "option is nil"
    | StartFailed(msg: string)  // a pipe could not be created or the process not started
    | TaskFailed(msg: string)   // a goroutine's result: a stdin write or scanner error
    | WaitFailed(msg: string)   // cmd.Wait: a non-zero exit status or an I/O error

  /** What the process and the goroutines do, as runCommand sees it. */
  datatype ProcessRun = ProcessRun(
    startError: Option<string>,   // StdinPipe, StdoutPipe, StderrPipe or Start failed
    stdinError: Option<string>,   // the error writing the password, if it is written
    stdout: seq<string>,          // lines the stdout scanner returned
    stdoutError: Option<string>,  // the stdout scanner's error
    stderr: seq<string>,          // lines the stderr scanner returned
    stderrError: Option<string>,  // the stderr scanner's error
    arrival: seq<nat>,            // the order the results of goroutines 0 (stdin), 1 (stdout), 2 (stderr) arrive
    schedule: seq<bool>,          // how the stdout and stderr appends interleave
    linesAtReturn: nat,           // how many lines the buffer holds when an early error is returned, at least
    waitError: Option<string>)    // cmd.Wait's result

  /** `arrival` orders the three goroutines. */
  predicate ValidArrival(arrival: seq<nat>) {
    && |arrival| == 3
    && (forall k :: 0 <= k < 3 ==> arrival[k] < 3)
    && (forall t :: 0 <= t < 3 ==> t in arrival)
  }

  /** The command as launched, and what the call returned. */
  datatype Outcome = Outcome(launched: Option<Launch>, output: string, error: Option<ExecError>)
  datatype Launch = Launch(invocation: Invocation, stdin: Option<string>)

  /** The results of the three goroutines, in arrival order. The stdin
      goroutine reports nil when it writes nothing. */
  function Results(option: CommandOption, run: ProcessRun): (results: seq<Option<string>>)
    requires ValidArrival(run.arrival)
    ensures |results| == 3
  {
    var byTask := [
      if StdinFeed(option).Some? then run.stdinError else None,
      run.stdoutError,
      run.stderrError];
    seq(3, k requires 0 <= k < 3 => byTask[run.arrival[k]])
  }

  /** The error returned after the process started: the first non-nil
      goroutine result in arrival order, or else the result of Wait. */
  function SelectError(results: seq<Option<string>>, waitError: Option<string>): (e: Option<ExecError>)
    ensures (forall k :: 0 <= k < |results| ==> results[k].None?) ==>
      e == (if waitError.Some? then Some(WaitFailed(waitError.value)) else None)
    ensures (exists k :: 0 <= k < |results| && results[k].Some?) ==>
      exists k :: 0 <= k < |results| && results[k].Some? && e == Some(TaskFailed(results[k].value)) &&
        forall j :: 0 <= j < k ==> results[j].None?
  {
    match Helper.FirstNotNil(results)
    case Some(msg) => Some(TaskFailed(msg))
    case None => if waitError.Some? then Some(WaitFailed(waitError.value)) else None
  }

  /** `output` is what the buffer holds after the first few lines of `all`. */
  ghost predicate IsCapturedPrefix(output: string, all: seq<string>) {
    exists n :: 0 <= n <= |all| && output == Capture(all[..n])
  }

  /** `output` holds every line of `a`, merged with the first lines of `b`. */
  ghost predicate HoldsAllOfFirst(output: string, a: seq<string>, b: seq<string>, schedule: seq<bool>) {
    exists i :: 0 <= i <= |b| && output == Capture(Interleave(a, b[..i], schedule))
  }

  /** `output` holds every line of `b`, merged with the first lines of `a`. */
  ghost predicate HoldsAllOfSecond(output: string, a: seq<string>, b: seq<string>, schedule: seq<bool>) {
    exists j :: 0 <= j <= |a| && output == Capture(Interleave(a[..j], b, schedule))
  }

  /** The position, in arrival order, of the result the loop over the
      channel stops at: the first non-nil one, or 3 when all are nil. */
  function ReturnPosition(results: seq<Option<string>>): (k: nat)
    ensures k <= |results|
    ensures forall j :: 0 <= j < k ==> results[j].None?
    ensures k < |results| ==> results[k].Some?
  {
    if |results| == 0 then 0
    else if results[0].Some? then 0
    else
      var k := 1 + ReturnPosition(results[1..]);
      assert forall j :: 1 <= j < k ==> results[j] == results[1..][j - 1];
      k
  }

  /** Goroutine `t` (1 for stdout, 2 for stderr) had sent its result, and
      so appended all its lines, by the time runCommand read the buffer. */
  predicate StreamReported(option: CommandOption, run: ProcessRun, t: nat)
    requires ValidArrival(run.arrival)
  {
    exists p :: 0 <= p < 3 && p <= ReturnPosition(Results(option, run)) && run.arrival[p] == t
  }

  /** How many appends the buffer holds when runCommand reads it: all of
      them after a normal return; after an early one, `linesAtReturn`, but
      never fewer than the appends of a stream goroutine that had already
      reported. */
  function BufferedAtReturn(option: CommandOption, run: ProcessRun): (n: nat)
    requires ValidArrival(run.arrival)
    ensures n <= |run.stdout| + |run.stderr|
    ensures ReturnPosition(Results(option, run)) == 3 ==> n == |run.stdout| + |run.stderr|
    ensures StreamReported(option, run, 1) ==> CoverFirst(run.stdout, run.stderr, run.schedule) <= n
    ensures StreamReported(option, run, 2) ==> CoverSecond(run.stdout, run.stderr, run.schedule) <= n
  {
    var total := |run.stdout| + |run.stderr|;
    if ReturnPosition(Results(option, run)) == 3 then total
    else
      var first := if StreamReported(option, run, 1) then CoverFirst(run.stdout, run.stderr, run.schedule) else 0;
      var second := if StreamReported(option, run, 2) then CoverSecond(run.stdout, run.stderr, run.schedule) else 0;
      var need := if first < second then second else first;
      if run.linesAtReturn < need then need
      else if run.linesAtReturn < total then run.linesAtReturn
      else total
  }

  lemma CapturedPrefix(all: seq<string>, n: nat)
    requires n <= |all|
    ensures IsCapturedPrefix(Capture(all[..n]), all)
  {
  }

  lemma CapturedFirst(a: seq<string>, b: seq<string>, schedule: seq<bool>, n: nat)
    requires CoverFirst(a, b, schedule) <= n <= |a| + |b|
    ensures HoldsAllOfFirst(Capture(Interleave(a, b, schedule)[..n]), a, b, schedule)
  {
    PrefixCoveringFirst(a, b, schedule, n);
  }

  lemma CapturedSecond(a: seq<string>, b: seq<string>, schedule: seq<bool>, n: nat)
    requires CoverSecond(a, b, schedule) <= n <= |a| + |b|
    ensures HoldsAllOfSecond(Capture(Interleave(a, b, schedule)[..n]), a, b, schedule)
  {
    PrefixCoveringSecond(a, b, schedule, n);
  }

  /** The buffer holds every line of each stream whose goroutine had reported. */
  lemma CapturedAtReturn(option: CommandOption, run: ProcessRun)
    requires ValidArrival(run.arrival)
    ensures var output := Capture(Interleave(run.stdout, run.stderr, run.schedule)[..BufferedAtReturn(option, run)]);
      && (StreamReported(option, run, 1) ==> HoldsAllOfFirst(output, run.stdout, run.stderr, run.schedule))
      && (StreamReported(option, run, 2) ==> HoldsAllOfSecond(output, run.stdout, run.stderr, run.schedule))
  {
    var n := BufferedAtReturn(option, run);
    if StreamReported(option, run, 1) {
      CapturedFirst(run.stdout, run.stderr, run.schedule, n);
    }
    if StreamReported(option, run, 2) {
      CapturedSecond(run.stdout, run.stderr, run.schedule, n);
    }
  }

  /** runCommand. The command is split on white space; an empty command is
      rejected before a nil option is. Once started, the call returns at
      the first goroutine error with the lines buffered so far, which
      include every line of a stream whose goroutine had already reported;
      if all three succeed it returns every captured line with Wait's result. */
  function RunCommand(command: string, option: Option<CommandOption>, run: ProcessRun): (r: Outcome)
    requires ValidArrival(run.arrival)
    ensures Fields(command) == [] ==> r == Outcome(None, "", Some(EmptyCommand))
    ensures Fields(command) != [] && option.None? ==> r == Outcome(None, "", Some(NilOption))
    ensures r.launched.Some? <==> Fields(command) != [] && option.Some?
    ensures r.launched.Some? ==>
      r.launched.value == Launch(Argv(Fields(command), option.value.sudo), StdinFeed(option.value))
    ensures r.launched.Some? && run.startError.Some? ==> r.output == "" && r.error == Some(StartFailed(run.startError.value))
    ensures r.launched.Some? && run.startError.None? ==>
      var all := Interleave(run.stdout, run.stderr, run.schedule);
      && IsCapturedPrefix(r.output, all)
      && r.error == SelectError(Results(option.value, run), run.waitError)
      && (r.error.None? || r.error.value.WaitFailed? ==> r.output == Capture(all))
      && (StreamReported(option.value, run, 1) ==> HoldsAllOfFirst(r.output, run.stdout, run.stderr, run.schedule))
      && (StreamReported(option.value, run, 2) ==> HoldsAllOfSecond(r.output, run.stdout, run.stderr, run.schedule))
  {
    var parts := Fields(command);
    if |parts| == 0 then Outcome(None, "", Some(EmptyCommand))
    else if option.None? then Outcome(None, "", Some(NilOption))
    else
      var opt := option.value;
      var launch := Launch(Argv(parts, opt.sudo), StdinFeed(opt));
      if run.startError.Some? then Outcome(Some(launch), "", Some(StartFailed(run.startError.value)))
      else
        var all := Interleave(run.stdout, run.stderr, run.schedule);
        var error := SelectError(Results(opt, run), run.waitError);
        var n := BufferedAtReturn(opt, run);
        CapturedPrefix(all, n);
        CapturedAtReturn(opt, run);
        assert all[..|all|] == all;
        Outcome(Some(launch), Capture(all[..n]), error)
  }
}

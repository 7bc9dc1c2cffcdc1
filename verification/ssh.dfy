/** ssh.go: SSH, which runs one command on a remote host over SSH with
    password or private-key authentication and returns what the command
    printed. The network, the SSH protocol and the two goroutines that
    drain the remote output are outside the model: what they produce is
    given as a `RemoteRun`. */
module Ssh {
  import opened Wrappers
  import Exec
  import Helper

  /** time.Duration counts nanoseconds. */
  const Second: int := 1_000_000_000

  /** SSHOption, less the caller's writers, whose presence is a flag. */
  datatype SshOption = SshOption(
    hasStdout: bool,
    hasStderr: bool,
    user: string,
    host: string,
    password: string,
    privateKey: string,
    timeout: int)

  datatype AuthMethod = PublicKey(privateKey: string) | Password(password: string)

  /** What ssh.Dial is given. */
  datatype DialConfig = DialConfig(address: string, user: string, auth: seq<AuthMethod>, timeout: int)

  datatype SshError =
    | NilOption                            // a nil option is dereferenced: the call panics
    | UserEmpty                            // "user is empty"
    | HostEmpty                            // "host is empty"
    | KeyParseFailed(msg: string)          // "failed to parse private key"
    | NoCredentials                        // "password or private key is empty"
    | DialFailed(user: string, host: string, msg: string)  // "failed to dial: user@host:22"
    | SessionFailed(msg: string)           // "failed to create session"
    | PipeFailed(pipe: string, msg: string)   // "error creating <pipe> pipe"
    | RunFailed(msg: string)               // session.Run: the remote command failed
    | StreamFailed(msg: string)            // a goroutine's result: a writer or scanner error

  // ---------------------------------------------------------------------
  // Addresses
  // ---------------------------------------------------------------------

  /** net.JoinHostPort: a host containing a colon (an IPv6 literal) is
      put in brackets. */
  function JoinHostPort(host: string, port: string): (address: string)
  {
    if ':' in host then "[" + host + "]:" + port else host + ":" + port
  }

  /** The host part of `host:port` or `[host]:port`, found at the last
      colon, the reading net.SplitHostPort gives such an address. */
  function HostOf(address: string): (host: Option<string>)
  {
    if ':' !in address then None
    else
      var i := LastIndexOf(address, ':');
      var h := address[..i];
      if |h| >= 2 && h[0] == '[' && h[|h| - 1] == ']' then Some(h[1..|h| - 1]) else Some(h)
  }

  function LastIndexOf(s: string, c: char): (i: nat)
    requires c in s
    ensures i < |s| && s[i] == c && c !in s[i + 1..]
  {
    if s[|s| - 1] == c then |s| - 1
    else
      assert c in s[..|s| - 1] by {
        var k :| 0 <= k < |s| && s[k] == c;
        assert s[..|s| - 1][k] == c;
      }
      var i := LastIndexOf(s[..|s| - 1], c);
      assert s[i + 1..] == s[..|s| - 1][i + 1..] + [s[|s| - 1]];
      i
  }

  /** The host can be read back from the address SSH dials, whatever the
      host, as long as it does not itself look bracketed. */
  lemma HostOfJoinHostPort(host: string, port: string)
    requires ':' !in port
    requires !(|host| >= 2 && host[0] == '[' && host[|host| - 1] == ']')
    ensures HostOf(JoinHostPort(host, port)) == Some(host)
  {
    var address := JoinHostPort(host, port);
    var prefix := if ':' in host then "[" + host + "]" else host;
    assert address == prefix + [':'] + port;
    var i := LastIndexOf(address, ':');
    assert address[|prefix|] == ':';
    assert address[|prefix| + 1..] == port;
    assert i == |prefix|;
    assert address[..i] == prefix;
    if ':' in host {
      assert prefix[1..|prefix| - 1] == host;
    }
  }

  lemma AddressOfHost(host: string)
    requires host != ""
    ensures HostOf(JoinHostPort(host, "22")) == Some(host) || host[0] == '['
  {
    if host[0] != '[' {
      HostOfJoinHostPort(host, "22");
    }
  }

  // ---------------------------------------------------------------------
  // Configuration
  // ---------------------------------------------------------------------

  /** A zero timeout means sixty seconds. */
  function EffectiveTimeout(timeout: int): (t: int)
    ensures timeout != 0 ==> t == timeout
    ensures timeout == 0 ==> t == 60 * Second
    ensures t != 0
  {
    if timeout == 0 then 60 * Second else timeout
  }

  /** The checks and the client configuration before dialing: the user is
      checked before the host; a private key wins over a password, and a
      key that does not parse (`keyParseError`, the outcome of
      ssh.ParsePrivateKey) is an error even when a password is set. */
  function Configure(option: SshOption, keyParseError: Option<string>): (r: Result<DialConfig, SshError>)
    ensures option.user == "" ==> r == Err(UserEmpty)
    ensures option.user != "" && option.host == "" ==> r == Err(HostEmpty)
    ensures option.user != "" && option.host != "" && option.privateKey != "" && keyParseError.Some? ==>
      r == Err(KeyParseFailed(keyParseError.value))
    ensures option.user != "" && option.host != "" && option.privateKey == "" && option.password == "" ==>
      r == Err(NoCredentials)
    ensures r.Ok? <==>
      option.user != "" && option.host != "" &&
      (if option.privateKey != "" then keyParseError.None? else option.password != "")
    ensures r.Ok? ==> r.value.user == option.user && r.value.timeout == EffectiveTimeout(option.timeout)
    ensures r.Ok? ==> r.value.address == JoinHostPort(option.host, "22")
    ensures r.Ok? ==> HostOf(r.value.address) == Some(option.host) || option.host[0] == '['
    ensures r.Ok? ==> |r.value.auth| == 1
    ensures r.Ok? && option.privateKey != "" ==> r.value.auth == [PublicKey(option.privateKey)]
    ensures r.Ok? && option.privateKey == "" ==> r.value.auth == [Password(option.password)]
  {
    if option.user == "" then Err(UserEmpty)
    else if option.host == "" then Err(HostEmpty)
    else
      var auth :-
        if option.privateKey != "" then
          if keyParseError.Some? then Err(KeyParseFailed(keyParseError.value)) else Ok([PublicKey(option.privateKey)])
        else if option.password != "" then Ok([Password(option.password)])
        else Err(NoCredentials);
      AddressOfHost(option.host);
      Ok(DialConfig(JoinHostPort(option.host, "22"), option.user, auth, EffectiveTimeout(option.timeout)))
  }

  // ---------------------------------------------------------------------
  // The two output goroutines
  // ---------------------------------------------------------------------

  /** One remote output stream: the lines the scanner returns, the error
      the caller's writer gives for each line (none past the end of
      `writeErrors`), and the scanner's error. */
  datatype StreamRun = StreamRun(lines: seq<string>, writeErrors: seq<Option<string>>, scanError: Option<string>)

  function WriteError(stream: StreamRun, k: nat): Option<string>
  {
    if k < |stream.writeErrors| then stream.writeErrors[k] else None
  }

  /** A goroutine draining one stream: each line goes to the caller's
      writer, if there is one, and then to the buffer; a writer error ends
      the goroutine with that error, before the line reaches the buffer.
      Returns the lines buffered and the goroutine's result. */
  function Drain(stream: StreamRun, hasWriter: bool): (r: (seq<string>, Option<string>))
    ensures r.0 <= stream.lines
    ensures !hasWriter ==> r == (stream.lines, stream.scanError)
    ensures hasWriter && (forall k :: 0 <= k < |stream.lines| ==> WriteError(stream, k).None?) ==>
      r == (stream.lines, stream.scanError)
    ensures hasWriter && |r.0| < |stream.lines| ==>
      WriteError(stream, |r.0|).Some? && r.1 == WriteError(stream, |r.0|)
    ensures hasWriter ==> forall k :: 0 <= k < |r.0| ==> WriteError(stream, k).None?
  {
    if !hasWriter then (stream.lines, stream.scanError)
    else DrainFrom(stream, 0)
  }

  function DrainFrom(stream: StreamRun, k: nat): (r: (seq<string>, Option<string>))
    requires k <= |stream.lines|
    ensures stream.lines[..k] <= r.0 <= stream.lines
    ensures (forall j :: k <= j < |stream.lines| ==> WriteError(stream, j).None?) ==>
      r == (stream.lines, stream.scanError)
    ensures |r.0| < |stream.lines| ==> WriteError(stream, |r.0|).Some? && r.1 == WriteError(stream, |r.0|)
    ensures forall j :: k <= j < |r.0| ==> WriteError(stream, j).None?
    decreases |stream.lines| - k
  {
    if k == |stream.lines| then
      assert stream.lines[..k] == stream.lines;
      (stream.lines, stream.scanError)
    else if WriteError(stream, k).Some? then (stream.lines[..k], WriteError(stream, k))
    else
      var r := DrainFrom(stream, k + 1);
      assert stream.lines[..k] <= stream.lines[..k + 1];
      r
  }

  // ---------------------------------------------------------------------
  // SSH
  // ---------------------------------------------------------------------

  /** What the remote side does, as SSH sees it. */
  datatype RemoteRun = RemoteRun(
    keyParseError: Option<string>,    // ssh.ParsePrivateKey's error
    dialError: Option<string>,        // ssh.Dial's error
    sessionError: Option<string>,     // client.NewSession's error
    stdinPipeError: Option<string>,
    stdoutPipeError: Option<string>,
    stderrPipeError: Option<string>,
    stdout: StreamRun,
    stderr: StreamRun,
    stderrFirst: bool,                // whether the stderr goroutine's result arrives first
    schedule: seq<bool>,              // how the two goroutines' appends interleave
    runError: Option<string>)         // session.Run's error

  /** What SSH returns, with the option as the call leaves it (a zero
      timeout is replaced in the caller's struct) and the dial configuration
      used, if SSH got as far as dialing. */
  datatype Outcome = Outcome(
    optionAfter: Option<SshOption>,
    dialed: Option<DialConfig>,
    output: string,
    error: Option<SshError>)

  function MapError(e: Option<string>, wrap: string -> SshError): Option<SshError>
  {
    if e.Some? then Some(wrap(e.value)) else None
  }

  /** The error after the command ran: session.Run's error, if any, else
      the first non-nil goroutine result in arrival order. */
  function FinalError(runError: Option<string>, first: Option<string>, second: Option<string>): (e: Option<SshError>)
    ensures runError.Some? ==> e == Some(RunFailed(runError.value))
    ensures runError.None? && first.Some? ==> e == Some(StreamFailed(first.value))
    ensures runError.None? && first.None? ==> e == MapError(second, (m: string) => StreamFailed(m))
  {
    var results := [
      MapError(runError, (m: string) => RunFailed(m)),
      MapError(first, (m: string) => StreamFailed(m)),
      MapError(second, (m: string) => StreamFailed(m))];
    assert results[1] == MapError(first, (m: string) => StreamFailed(m));
    assert results[2] == MapError(second, (m: string) => StreamFailed(m));
    Helper.FirstNotNil(results)
  }

  function SetupError(run: RemoteRun): Option<SshError>
  {
    Helper.FirstNotNil([
      MapError(run.sessionError, (m: string) => SessionFailed(m)),
      MapError(run.stdinPipeError, (m: string) => PipeFailed("stdin", m)),
      MapError(run.stdoutPipeError, (m: string) => PipeFailed("stdout", m)),
      MapError(run.stderrPipeError, (m: string) => PipeFailed("stderr", m))])
  }

  /** SSH. `command` is handed unchanged to session.Run. */
  function Ssh(command: string, option: Option<SshOption>, run: RemoteRun): (r: Outcome)
    ensures option.None? ==> r == Outcome(None, None, "", Some(NilOption))
    ensures option.Some? && Configure(option.value, run.keyParseError).Err? ==>
      r.dialed.None? && r.output == "" && r.error == Some(Configure(option.value, run.keyParseError).error)
    ensures r.dialed.Some? <==> option.Some? && Configure(option.value, run.keyParseError).Ok?
    ensures r.dialed.Some? ==> r.dialed.value == Configure(option.value, run.keyParseError).value
    ensures option.Some? && (option.value.user == "" || option.value.host == "") ==> r.optionAfter == option
    ensures option.Some? && option.value.user != "" && option.value.host != "" ==>
      r.optionAfter == Some(option.value.(timeout := EffectiveTimeout(option.value.timeout)))
    ensures r.dialed.Some? && run.dialError.Some? ==>
      r.output == "" && r.error == Some(DialFailed(option.value.user, option.value.host, run.dialError.value))
    ensures r.dialed.Some? && run.dialError.None? && SetupError(run).Some? ==>
      r.output == "" && r.error == SetupError(run)
    ensures r.dialed.Some? && run.dialError.None? && SetupError(run).None? ==>
      var out := Drain(run.stdout, option.value.hasStdout);
      var err := Drain(run.stderr, option.value.hasStderr);
      && r.output == Exec.Capture(Exec.Interleave(out.0, err.0, run.schedule))
      && r.error == (if run.stderrFirst then FinalError(run.runError, err.1, out.1)
                     else FinalError(run.runError, out.1, err.1))
      && (run.runError.None? && out.1.None? && err.1.None? ==> r.error.None?)
  {
    if option.None? then Outcome(None, None, "", Some(NilOption))
    else
      var opt := option.value;
      if opt.user == "" || opt.host == "" then
        Outcome(option, None, "", Some(Configure(opt, run.keyParseError).error))
      else
        var after := Some(opt.(timeout := EffectiveTimeout(opt.timeout)));
        match Configure(opt, run.keyParseError)
        case Err(e) => Outcome(after, None, "", Some(e))
        case Ok(config) =>
          if run.dialError.Some? then
            Outcome(after, Some(config), "", Some(DialFailed(opt.user, opt.host, run.dialError.value)))
          else if SetupError(run).Some? then
            Outcome(after, Some(config), "", SetupError(run))
          else
            var out := Drain(run.stdout, opt.hasStdout);
            var err := Drain(run.stderr, opt.hasStderr);
            var output := Exec.Capture(Exec.Interleave(out.0, err.0, run.schedule));
            var error :=
              if run.stderrFirst then FinalError(run.runError, err.1, out.1)
              else FinalError(run.runError, out.1, err.1);
            Outcome(after, Some(config), output, error)
  }
}

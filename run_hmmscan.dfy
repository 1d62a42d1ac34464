/** `run_hmmscan.py`: the command result container, the choice of the most telling line of a
    failed run's output, and the construction of the `hmmscan` command with its failure message.
    The child process itself is not modelled: what it leaves behind is given by a function of
    the command. */
module RunHmmscan {
  import opened Wrappers
  import opened Text

  // ---------------------------------------------------------------- RunResult

  /** What a finished command left behind (`RunResult`): a stream that was not piped has no
      text. */
  datatype RunResult = RunResult(command: seq<string>, stdout: Option<string>, stderr: Option<string>, returnCode: int)

  /** Reading a stream that went to a file instead of a pipe. */
  datatype StreamError = StdoutNotPiped | StderrNotPiped

  /** `RunResult.__init__`: a stream's decoded text is kept only when the stream was piped. */
  function NewRunResult(command: seq<string>, stdout: string, stderr: string, returnCode: int,
                        pipedOut: bool, pipedErr: bool): (r: RunResult)
    ensures r.command == command && r.returnCode == returnCode
    ensures r.stdout.Some? <==> pipedOut
    ensures r.stderr.Some? <==> pipedErr
  {
    RunResult(command, if pipedOut then Some(stdout) else None, if pipedErr then Some(stderr) else None, returnCode)
  }

  /** Reading `stdout` (`__getattribute__`): a ValueError when it was not piped. */
  function Stdout(r: RunResult): (s: Result<string, StreamError>)
    ensures s.Failure? <==> r.stdout.None?
    ensures s.Failure? ==> s.error == StdoutNotPiped
  {
    if r.stdout.None? then Failure(StdoutNotPiped) else Success(r.stdout.value)
  }

  /** Reading `stderr`: a ValueError when it was not piped. */
  function Stderr(r: RunResult): (s: Result<string, StreamError>)
    ensures s.Failure? <==> r.stderr.None?
    ensures s.Failure? ==> s.error == StderrNotPiped
  {
    if r.stderr.None? then Failure(StderrNotPiped) else Success(r.stderr.value)
  }

  /** A piped stream reads back as the output it was given; an unpiped one cannot be read. */
  lemma StreamsReadBack(command: seq<string>, stdout: string, stderr: string, returnCode: int,
                        pipedOut: bool, pipedErr: bool)
    ensures Stdout(NewRunResult(command, stdout, stderr, returnCode, pipedOut, pipedErr))
         == if pipedOut then Success(stdout) else Failure(StdoutNotPiped)
    ensures Stderr(NewRunResult(command, stdout, stderr, returnCode, pipedOut, pipedErr))
         == if pipedErr then Success(stderr) else Failure(StderrNotPiped)
  {
  }

  /** `successful()`: `not self.return_code`. */
  function Successful(r: RunResult): (ok: bool)
    ensures ok <==> r.returnCode == 0
  {
    r.returnCode == 0
  }

  /** `get_command_string()`: the command words joined by single spaces. */
  function CommandString(r: RunResult): string {
    Join(r.command, " ")
  }

  /** A command whose words hold no space can be read back from its command string. */
  lemma CommandStringSplits(r: RunResult)
    requires |r.command| >= 1
    requires forall k :: 0 <= k < |r.command| ==> ' ' !in r.command[k]
    ensures Split(CommandString(r), " ") == r.command
  {
    SplitJoinChar(r.command, ' ');
  }

  // ---------------------------------------------------------------- _find_error

  /** Index of the first line starting with "Error:", or |output| when there is none. */
  function FirstErrorLine(output: seq<string>): (i: nat)
    ensures i <= |output|
    ensures i < |output| ==> StartsWith(output[i], "Error:")
    ensures forall j :: 0 <= j < i ==> !StartsWith(output[j], "Error:")
    decreases |output|
  {
    if output == [] then 0
    else if StartsWith(output[0], "Error:") then 0
    else 1 + FirstErrorLine(output[1..])
  }

  /** A line of whitespace only: one that strips to nothing. */
  predicate BlankLine(line: string) {
    forall j :: 0 <= j < |line| ==> IsSpace(line[j])
  }

  /** Stripping leaves nothing exactly of a blank line. */
  lemma StripBlank(line: string)
    ensures Strip(line) == "" <==> BlankLine(line)
  {
  }

  /** Index of the first line that is not blank once stripped, or |output|. */
  function FirstNonBlankLine(output: seq<string>): (i: nat)
    ensures i <= |output|
    ensures i < |output| ==> !BlankLine(output[i])
    ensures forall j :: 0 <= j < i ==> BlankLine(output[j])
    decreases |output|
  {
    if output == [] then 0
    else if !BlankLine(output[0]) then 0
    else 1 + FirstNonBlankLine(output[1..])
  }

  /** The most telling line of an error output: the first "Error:" line, stripped, with the
      next line, stripped, after a space when there is one; failing that the first non-blank
      line, stripped; failing that "unknown error". */
  function ErrorMessage(output: seq<string>): string {
    var i := FirstErrorLine(output);
    if i < |output| then
      if i + 1 < |output| then Strip(output[i]) + " " + Strip(output[i + 1]) else Strip(output[i])
    else
      var k := FirstNonBlankLine(output);
      if k < |output| then Strip(output[k]) else "unknown error"
  }

  /** `_find_error`: two scans with early returns. */
  method FindError(output: seq<string>) returns (message: string)
    ensures message == ErrorMessage(output)
  {
    for i := 0 to |output|
      invariant forall j :: 0 <= j < i ==> !StartsWith(output[j], "Error:")
    {
      var line := output[i];
      if StartsWith(line, "Error:") {
        assert FirstErrorLine(output) == i;
        if i + 1 < |output| {
          return Strip(line) + " " + Strip(output[i + 1]);
        }
        return Strip(line);
      }
    }
    assert FirstErrorLine(output) == |output|;
    for i := 0 to |output|
      invariant forall j :: 0 <= j < i ==> BlankLine(output[j])
    {
      var line := Strip(output[i]);
      StripBlank(output[i]);
      if line != "" {
        assert FirstNonBlankLine(output) == i;
        return line;
      }
    }
    assert FirstNonBlankLine(output) == |output|;
    return "unknown error";
  }

  /** A line starting with "Error:" still starts with it after stripping. */
  lemma StripErrorLine(line: string)
    requires StartsWith(line, "Error:")
    ensures StartsWith(Strip(line), "Error:")
  {
    assert !IsSpace(line[0]);
    assert LStrip(line) == line;
    var r := RStrip(line);
    assert !IsSpace(line[5]);
    assert |r| > 5;
    assert r[..6] == line[..6];
  }

  /** The message is never empty; an "Error:" line, when there is one, leads it; otherwise it is
      one of the lines, stripped, and "unknown error" only when every line is blank. */
  lemma ErrorMessageSpec(output: seq<string>)
    ensures ErrorMessage(output) != ""
    ensures (exists j :: 0 <= j < |output| && StartsWith(output[j], "Error:")) ==> StartsWith(ErrorMessage(output), "Error:")
    ensures (forall j :: 0 <= j < |output| ==> !StartsWith(output[j], "Error:")) && (exists j :: 0 <= j < |output| && !BlankLine(output[j]))
            ==> exists j :: 0 <= j < |output| && ErrorMessage(output) == Strip(output[j])
    ensures (forall j :: 0 <= j < |output| ==> BlankLine(output[j])) ==> ErrorMessage(output) == "unknown error"
  {
    var i := FirstErrorLine(output);
    if i < |output| {
      StripErrorLine(output[i]);
      if i + 1 < |output| {
        var m := Strip(output[i]) + " " + Strip(output[i + 1]);
        assert m[..6] == Strip(output[i])[..6];
      }
    } else {
      var k := FirstNonBlankLine(output);
      if forall j :: 0 <= j < |output| ==> BlankLine(output[j]) {
        assert k == |output|;
      }
    }
  }

  // ---------------------------------------------------------------- run_hmmscan

  /** What the child process left behind for a command: exit code and decoded output streams. */
  datatype Execution = Execution(returnCode: int, stdout: string, stderr: string)

  /** `str(n)` for an exit code, which is negative when a signal ended the process. */
  function IntText(n: int): (s: string)
    ensures |s| > 0 && ':' !in s
  {
    if n < 0 then "-" + NatToString(-n) else NatToString(n)
  }

  /** An exit code's text reads back as the code. */
  lemma IntTextParses(n: int)
    ensures ParseInt(IntText(n)) == Some(n)
  {
    if n < 0 {
      var m: nat := -n;
      var d := NatToString(m);
      var t := "-" + d;
      assert IntText(n) == t;
      assert t[0] == '-' && t[1..] == d;
      assert !IsSpace(t[0]) && !IsSpace(t[|t| - 1]) by {
        assert t[|t| - 1] == d[|d| - 1];
      }
      StripNoSurrounding(t);
      assert WellFormedDigits(d);
      DigitsValueNatToString(m);
    } else {
      ParseIntNatToString(n);
    }
  }

  /** The RuntimeError text of a failed run: the exit code, then the most telling line of the
      output, quoted. */
  function FailureMessage(returnCode: int, output: string): string {
    "hmmscan returned " + IntText(returnCode) + ": " + "'" + ErrorMessage(SplitLines(output)) + "'"
  }

  /** A quoted diagnostic after an exit code: the code reads back from the text before the
      first ':', and the quotes enclose the diagnostic. */
  lemma QuotedAfterCode(returnCode: int, e: string)
    ensures var m := "hmmscan returned " + IntText(returnCode) + ": " + "'" + e + "'";
      StartsWith(m, "hmmscan returned ") && EndsWith(m, "'")
      && ParseInt(Split(m[17..], ":")[0]) == Some(returnCode)
      && m[17 + |IntText(returnCode)| + 3..|m| - 1] == e
  {
    var code := IntText(returnCode);
    var m := "hmmscan returned " + code + ": " + "'" + e + "'";
    assert m[17..] == code + [':'] + (" '" + e + "'");
    SplitCharCons(code, ':', " '" + e + "'");
    IntTextParses(returnCode);
  }

  /** The failure message names the exit code (it reads back from the text before the first
      ':') and quotes the most telling line of the output, which is never empty. */
  lemma FailureMessageParts(returnCode: int, output: string)
    ensures var m := FailureMessage(returnCode, output);
      StartsWith(m, "hmmscan returned ") && EndsWith(m, "'")
      && ParseInt(Split(m[17..], ":")[0]) == Some(returnCode)
      && m[17 + |IntText(returnCode)| + 3..|m| - 1] == ErrorMessage(SplitLines(output)) != ""
  {
    ErrorMessageSpec(SplitLines(output));
    QuotedAfterCode(returnCode, ErrorMessage(SplitLines(output)));
  }

  /** The hmmscan command: the program, the extra options if any, the profile database and the
      FASTA file. */
  function HmmscanCommand(targetHmmfile: string, fastafile: string, opts: Option<seq<string>>): (c: seq<string>)
    ensures |c| == 3 + (if opts.Some? then |opts.value| else 0)
    ensures c[0] == "hmmscan" && c[|c| - 2..] == [targetHmmfile, fastafile]
    ensures opts.Some? ==> c[1..|c| - 2] == opts.value
  {
    ["hmmscan"] + (if opts.Some? then opts.value else []) + [targetHmmfile, fastafile]
  }

  /** `run_hmmscan`: the command is built up in place, run with both streams piped, and a
      non-zero exit raises a RuntimeError carrying the most telling line of standard error (of
      standard output when standard error is empty). On success the report text is returned
      (its parsing into query results is not modelled), and copied to `resultsFile` when one is
      given. */
  method Hmmscan(targetHmmfile: string, fastafile: string, opts: Option<seq<string>>, resultsFile: Option<string>,
                 execute: seq<string> -> Execution)
    returns (command: seq<string>, r: Result<string, string>, saved: Option<(string, string)>)
    ensures command == HmmscanCommand(targetHmmfile, fastafile, opts)
    ensures r.Success? <==> execute(command).returnCode == 0
    ensures r.Success? ==> r.value == execute(command).stdout
    ensures r.Failure? ==> r.error == FailureMessage(execute(command).returnCode,
      if execute(command).stderr == "" then execute(command).stdout else execute(command).stderr)
    ensures saved == if r.Success? && resultsFile.Some? then Some((resultsFile.value, r.value)) else None
  {
    command := ["hmmscan"];
    if opts.Some? {
      command := command + opts.value;
    }
    command := command + [targetHmmfile, fastafile];
    var run := execute(command);
    var result := NewRunResult(command, run.stdout, run.stderr, run.returnCode, true, true);
    saved := None;
    if !Successful(result) {
      var err, out := Stderr(result).value, Stdout(result).value;
      var output := if err != "" then err else out;
      var line := FindError(SplitLines(output));
      r := Failure("hmmscan returned " + IntText(result.returnCode) + ": " + "'" + line + "'");
      return;
    }
    var out := Stdout(result).value;
    if resultsFile.Some? {
      saved := Some((resultsFile.value, out));
    }
    r := Success(out);
  }
}

/** `src/provision/remote_command.rs`: the three remote command shapes, the
    program and arguments each runs, the descriptor logged for it, and the
    translation of the process outcome into a `ProvisionError`. The ssh
    session is an abstract executor: a function from the invocation it is
    asked to run to what came back. */
module RemoteCommand {
  import opened Wrappers
  import opened Text
  import opened Errors

  /** `Command`: `Sudo(args)`, `Bash(script)`, `Executable(program, args)`. */
  datatype Command =
    | Sudo(args: seq<string>)
    | Bash(script: string)
    | Executable(program: string, args: seq<string>)

  /** A process to start on the remote host: program and argument vector,
      each argument passed as is (no shell interpretation). */
  datatype Invocation = Invocation(program: string, argv: seq<string>)

  /** What the session reports for an invocation: the transport failed, or
      the process exited, successfully or not, with its stderr bytes. */
  datatype ExecOutput =
    | TransportFailed(cause: string)
    | Exited(success: bool, stderr: seq<byte>)

  /** The width `{:20}` pads argument lists to in descriptors. */
  const DescriptorWidth: nat := 20

  /** The program and arguments each command runs. The argument list of
      `Sudo` and `Executable` is passed verbatim, whatever it holds:
      `Sudo(["swapoff", "-a"])` runs `sudo` with exactly `swapoff -a`. */
  function InvocationOf(cmd: Command): (inv: Invocation)
    ensures cmd.Bash? ==> inv.program == "bash" && inv.argv == ["-c", cmd.script]
    ensures cmd.Sudo? ==> inv.program == "sudo" && inv.argv == cmd.args
    ensures cmd.Executable? ==> inv.program == cmd.program && inv.argv == cmd.args
  {
    match cmd
    case Bash(script) => Invocation("bash", ["-c", script])
    case Sudo(args) => Invocation("sudo", args)
    case Executable(program, args) => Invocation(program, args)
  }

  /** The log descriptor of a command, as the `format!` calls build it. */
  function Descriptor(cmd: Command): string
  {
    match cmd
    case Bash(script) => "bash -c " + script
    case Sudo(args) => "sudo " + PadRight(Join(args, " "), DescriptorWidth)
    case Executable(program, args) => program + " " + PadRight(Join(args, " "), DescriptorWidth)
  }

  /** The invocation written as one space-separated line. */
  function CommandLine(inv: Invocation): string
  {
    Join([inv.program] + inv.argv, " ")
  }

  /** The descriptor describes what is run: it is the command line of the
      invocation, followed only by padding spaces; argument lists are
      padded to at least 20 characters and never truncated. */
  lemma DescriptorDescribesInvocation(cmd: Command)
    ensures var line, d := CommandLine(InvocationOf(cmd)), Descriptor(cmd);
            && IsPrefix(line, d)
            && (forall i :: |line| <= i < |d| ==> d[i] == ' ')
    ensures cmd.Bash? ==> Descriptor(cmd) == CommandLine(InvocationOf(cmd))
    ensures !cmd.Bash? ==> |Descriptor(cmd)| >= |InvocationOf(cmd).program| + 1 + DescriptorWidth
  {
    match cmd
    case Bash(script) =>
      BashLine(script);
    case Sudo(args) =>
      ArgumentsLine("sudo", args);
    case Executable(program, args) =>
      ArgumentsLine(program, args);
  }

  lemma BashLine(script: string)
    ensures CommandLine(Invocation("bash", ["-c", script])) == "bash -c " + script
  {
    JoinCons("bash", ["-c", script], " ");
    JoinCons("-c", [script], " ");
    assert Join([script], " ") == script;
  }

  lemma ArgumentsLine(program: string, args: seq<string>)
    ensures var line, d := CommandLine(Invocation(program, args)), program + " " + PadRight(Join(args, " "), DescriptorWidth);
            && IsPrefix(line, d)
            && (forall i :: |line| <= i < |d| ==> d[i] == ' ')
  {
    JoinCons(program, args, " ");
    var joined := Join(args, " ");
    var padded := PadRight(joined, DescriptorWidth);
    var d := program + " " + padded;
    if |args| == 0 {
      assert CommandLine(Invocation(program, args)) == program;
      assert joined == "";
      forall i | |program| <= i < |d|
        ensures d[i] == ' '
      {
        if i > |program| { assert d[i] == padded[i - |program| - 1]; }
      }
    } else {
      var line := program + " " + joined;
      assert CommandLine(Invocation(program, args)) == line;
      assert d[..|line|] == line by {
        assert padded[..|joined|] == joined;
      }
      forall i | |line| <= i < |d|
        ensures d[i] == ' '
      {
        assert d[i] == padded[i - |program| - 1];
      }
    }
  }

  /** `Display for RemoteCommandExecuteError`. */
  function Display(e: RemoteCommandExecuteError): string
  {
    e.command + ": " + e.stderr
  }

  /** `RemoteCommandExecutor::execute`: run the command's invocation on
      `session`; a transport failure is an ssh error whatever else happened;
      a successful exit is `Ok(())` with no data; any other exit is a
      `RemoteCommand` error carrying the descriptor and the stderr decoded
      by `decode` (`String::from_utf8_lossy`). */
  function Execute(cmd: Command, session: Invocation -> ExecOutput, decode: seq<byte> -> string)
    : (r: Result<(), ProvisionError>)
    ensures session(InvocationOf(cmd)).TransportFailed? ==>
              r == Failure(Ssh(session(InvocationOf(cmd)).cause))
    ensures r.Success? <==> session(InvocationOf(cmd)).Exited? && session(InvocationOf(cmd)).success
    ensures session(InvocationOf(cmd)).Exited? && !session(InvocationOf(cmd)).success ==>
              r == Failure(RemoteCommand(RemoteCommandExecuteError(Descriptor(cmd), decode(session(InvocationOf(cmd)).stderr))))
  {
    match session(InvocationOf(cmd))
    case TransportFailed(cause) => Failure(Ssh(cause))
    case Exited(success, stderr) =>
      if success then Success(())
      else Failure(RemoteCommand(RemoteCommandExecuteError(Descriptor(cmd), decode(stderr))))
  }

  /** A failed command reports itself: the displayed error is the
      descriptor, that is the command line that was run followed only by
      padding spaces, then ": " and the decoded stderr. */
  lemma FailureDisplaysCommand(cmd: Command, session: Invocation -> ExecOutput, decode: seq<byte> -> string)
    requires session(InvocationOf(cmd)).Exited? && !session(InvocationOf(cmd)).success
    ensures var r := Execute(cmd, session, decode);
            var shown := Display(r.error.failure);
            var tail := ": " + decode(session(InvocationOf(cmd)).stderr);
            && r.Failure? && r.error.RemoteCommand?
            && shown == Descriptor(cmd) + tail
            && IsPrefix(CommandLine(InvocationOf(cmd)), shown)
            && (forall i :: |CommandLine(InvocationOf(cmd))| <= i < |shown| - |tail| ==> shown[i] == ' ')
            && |tail| <= |shown| && shown[|shown| - |tail|..] == tail
  {
    DescriptorDescribesInvocation(cmd);
    var d := Descriptor(cmd);
    var tail := ": " + decode(session(InvocationOf(cmd)).stderr);
    var shown := d + tail;
    assert shown[..|d|] == d;
    assert shown[|shown| - |tail|..] == tail;
  }
}

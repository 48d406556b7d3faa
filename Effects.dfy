/** What the helper does to the world outside it: the svn commands it runs, the filesystem calls it makes,
    the questions it asks, and the errors these can raise. The world's answers (does a path exist, how does a
    command exit, what does `svn status` print) are an oracle, `World`; the process-wide state the helper
    changes (its working directory and what is left on standard input) lives in a `Process`, which also keeps
    the log of everything issued. */
module Effects {
  import opened Wrappers

  /** The svn subcommands the helper runs, with their operands. */
  datatype Command =
    | Co(url: string, rev: string, dst: string)
    | Info(path: string)
    | Switch(url: string, path: string)
    | Up(path: string, rev: string)
    | Status
    | Revert(path: string)

  /** The arguments handed to the svn binary for a command. */
  function Argv(c: Command): seq<string> {
    match c
    case Co(url, rev, dst) => ["co", url, "-r", rev, dst]
    case Info(path) => ["info", path]
    case Switch(url, path) => ["switch", url, path]
    case Up(path, rev) => ["up", path, "-r" + rev]
    case Status => ["status", "--no-ignore"]
    case Revert(path) => ["revert", path]
  }

  /** Reads a command back from the arguments Argv gives svn. */
  function ParseArgv(argv: seq<string>): Option<Command> {
    if |argv| == 5 && argv[0] == "co" && argv[2] == "-r" then Some(Co(argv[1], argv[3], argv[4]))
    else if |argv| == 2 && argv[0] == "info" then Some(Info(argv[1]))
    else if |argv| == 3 && argv[0] == "switch" then Some(Switch(argv[1], argv[2]))
    else if |argv| == 3 && argv[0] == "up" && |argv[2]| >= 2 && argv[2][..2] == "-r" then Some(Up(argv[1], argv[2][2..]))
    else if argv == ["status", "--no-ignore"] then Some(Status)
    else if |argv| == 2 && argv[0] == "revert" then Some(Revert(argv[1]))
    else None
  }

  lemma ParseArgvInverts(c: Command)
    ensures ParseArgv(Argv(c)) == Some(c)
  {
    if c.Up? {
      assert ("-r" + c.rev)[..2] == "-r" && ("-r" + c.rev)[2..] == c.rev;
    }
  }

  /** Distinct commands reach svn as distinct argument lists, so the log of commands determines exactly
      what svn was asked to do. */
  lemma ArgvInjective(a: Command, b: Command)
    ensures Argv(a) == Argv(b) ==> a == b
  {
    ParseArgvInverts(a);
    ParseArgvInverts(b);
  }

  /** One step of the helper's observable behaviour. */
  datatype Op =
    | Svn(cmd: Command)          // one run of the svn binary
    | RemoveTree(path: string)   // shutil.rmtree
    | Unlink(path: string)       // os.unlink
    | ChangeDir(path: string)    // os.chdir
    | Prompt                     // one raw_input call: the lists are shown and one answer is read

  /** The steps that change the working copy or the files in it. */
  predicate Mutates(op: Op) {
    match op
    case Svn(c) => c.Co? || c.Switch? || c.Up? || c.Revert?
    case RemoveTree(_) => true
    case Unlink(_) => true
    case ChangeDir(_) => false
    case Prompt => false
  }

  /** The exceptions the helper raises or lets through. */
  datatype Error =
    | UnsupportedAction(action: string)        // ValueError from act
    | MalformedConfig(row: seq<string>)        // ValueError from compose_cfg
    | KeyError(key: string)                    // a configuration key that is not there
    | NoneValue(key: string)                   // a configuration value that is None where a string is needed
    | CommandFailed(cmd: Command, exitCode: nat) // sh.ErrorReturnCode_N: svn exited with N != 0
    | OsError(op: Op, errno: nat)              // OSError from a filesystem call
    | EndOfInput                               // EOFError from raw_input

  /** The answers the outside world gives. An errno or exit code of 0 means success. */
  datatype World = World(
    pathExists: string -> bool,      // os.path.exists
    exitCode: Command -> nat,        // the exit status of each svn command
    statusLines: seq<string>,        // the lines `svn status --no-ignore` prints inside the working copy
    chdirErrno: string -> nat,       // os.chdir
    rmtreeErrno: string -> nat,      // shutil.rmtree
    unlinkErrno: string -> nat)      // os.unlink

  /** The steps a piece of the helper issues, and how it ends: with a value or with an exception. */
  datatype Trace<+T> = Trace(ops: seq<Op>, result: Result<T, Error>)

  /** The operating-system process the helper runs in. */
  class Process {
    var cwd: string
    var input: seq<string>  // the lines still unread on standard input
    var log: seq<Op>        // every step issued so far

    constructor (cwd: string, input: seq<string>)
      ensures this.cwd == cwd && this.input == input && log == []
    {
      this.cwd, this.input, log := cwd, input, [];
    }

    /** os.chdir(path). */
    method Chdir(path: string, w: World) returns (r: Result<(), Error>)
      modifies this
      ensures log == old(log) + [ChangeDir(path)] && input == old(input)
      ensures w.chdirErrno(path) == 0 ==> r == Success(()) && cwd == path
      ensures w.chdirErrno(path) != 0 ==>
                r == Failure(OsError(ChangeDir(path), w.chdirErrno(path))) && cwd == old(cwd)
    {
      log := log + [ChangeDir(path)];
      if w.chdirErrno(path) == 0 {
        cwd := path;
        r := Success(());
      } else {
        r := Failure(OsError(ChangeDir(path), w.chdirErrno(path)));
      }
    }

    /** The `finally` of preserve_cwd: go back to a directory saved earlier. */
    method Restore(saved: string)
      modifies this
      ensures cwd == saved && log == old(log) + [ChangeDir(saved)] && input == old(input)
    {
      log := log + [ChangeDir(saved)];
      cwd := saved;
    }

    /** raw_input: show the question and read one line; None when standard input is exhausted. */
    method Ask() returns (answer: Option<string>)
      modifies this
      ensures log == old(log) + [Prompt] && cwd == old(cwd)
      ensures old(input) == [] ==> answer == None && input == []
      ensures old(input) != [] ==> answer == Some(old(input)[0]) && input == old(input)[1..]
    {
      log := log + [Prompt];
      if input == [] {
        answer := None;
      } else {
        answer := Some(input[0]);
        input := input[1..];
      }
    }

    /** Issues steps whose outcome the oracle already decided. */
    method Perform(ops: seq<Op>)
      modifies this
      ensures log == old(log) + ops && cwd == old(cwd) && input == old(input)
    {
      log := log + ops;
    }
  }
}

/** VcsWrapper: choosing the action, checking out or syncing a working copy, and cleaning one. */
module VcsWrapper {
  import opened Wrappers
  import opened Text
  import opened Effects
  import opened ConfigFile
  import opened Status

  /** The handlers `supported_actions` names. */
  datatype Handler = CheckoutHandler | CleanHandler

  const SupportedActions: map<string, Handler> := map["co" := CheckoutHandler, "clean" := CleanHandler]

  /** The handler for an action name, or None for a name `act` refuses. */
  function Dispatch(action: string): (h: Option<Handler>)
    ensures h.Some? <==> action == "co" || action == "clean"
    ensures action == "co" ==> h == Some(CheckoutHandler)
    ensures action == "clean" ==> h == Some(CleanHandler)
  {
    if action in SupportedActions then Some(SupportedActions[action]) else None
  }

  /** `cfg['PATH'] or cfg['SVN_URL'].split('/')[-1]`: the working-copy path. */
  function DstPath(cfg: Config): (r: Result<string, Error>)
    ensures "PATH" !in cfg ==> r == Failure(KeyError("PATH"))
    ensures "PATH" in cfg && Truthy(cfg["PATH"]) ==> r == Success(cfg["PATH"].value)
    ensures "PATH" in cfg && !Truthy(cfg["PATH"]) ==>
              (r.Success? <==> Require(cfg, "SVN_URL").Success?) &&
              (r.Success? ==> IsLastField(r.value, cfg["SVN_URL"].value, '/')) &&
              (r.Failure? ==> r.error == Require(cfg, "SVN_URL").error)
  {
    if "PATH" !in cfg then Failure(KeyError("PATH"))
    else if Truthy(cfg["PATH"]) then Success(cfg["PATH"].value)
    else
      match Require(cfg, "SVN_URL")
      case Failure(e) => Failure(e)
      case Success(url) => Success(LastField(url, '/'))
  }

  /** A working copy given with `--path` is used whatever the config file says. */
  lemma PathOptionWins(rows: seq<seq<string>>, path: string)
    requires path != "" && Compose(rows, Some(path)).Success?
    ensures DstPath(Compose(rows, Some(path)).value) == Success(path)
  {
  }

  /** With no `--path` and no non-empty `PATH` in the file, the working copy is named after the last
      segment of the repository URL. */
  lemma UrlNamesWorkingCopy(rows: seq<seq<string>>, pathArg: Option<string>)
    requires !Truthy(pathArg) && Load(rows).Success?
    requires !Truthy(Get(Load(rows).value, "PATH")) && "SVN_URL" in Load(rows).value
    ensures Compose(rows, pathArg).Success?
    ensures DstPath(Compose(rows, pathArg).value) == Success(LastField(Load(rows).value["SVN_URL"].value, '/'))
  {
  }

  /** `svn(...)` through sh: the command runs, and a non-zero exit status N raises ErrorReturnCode_N. */
  function Run(c: Command, w: World): (t: Trace<()>)
    ensures t.ops == [Svn(c)]
    ensures t.result.Success? <==> w.exitCode(c) == 0
    ensures t.result.Failure? ==> t.result.error == CommandFailed(c, w.exitCode(c))
  {
    Trace([Svn(c)], if w.exitCode(c) == 0 then Success(()) else Failure(CommandFailed(c, w.exitCode(c))))
  }

  /** _get_vcs_info: whether `path` is a working copy. Only exit status 1 of `svn info` is caught. */
  function GetVcsInfo(path: string, w: World): (t: Trace<bool>)
    ensures t.ops == [Svn(Info(path))]
    ensures t.result.Success? <==> w.exitCode(Info(path)) <= 1
    ensures t.result.Success? ==> (t.result.value <==> w.exitCode(Info(path)) == 0)
    ensures t.result.Failure? ==> t.result.error == CommandFailed(Info(path), w.exitCode(Info(path)))
  {
    var info := Run(Info(path), w);
    match info.result
    case Success(_) => Trace(info.ops, Success(true))
    case Failure(e) =>
      if e == CommandFailed(Info(path), 1) then Trace(info.ops, Success(false))
      else Trace(info.ops, Failure(e))
  }

  /** How checkout returns. */
  datatype CoOutcome =
    | CheckedOut    // a fresh working copy was checked out
    | NotVersioned  // the path exists but is not a working copy: warned, nothing done
    | Synced        // the working copy was switched and updated

  /** checkout: the commands issued to bring `dst` to SVN_URL at SVN_REV, and how it ends. */
  function Checkout(cfg: Config, dst: string, w: World): (t: Trace<CoOutcome>)
    ensures forall op :: op in t.ops ==> op.Svn?
    // a missing destination gets a fresh checkout and nothing else
    ensures !w.pathExists(dst) ==> |t.ops| <= 1 && forall op :: op in t.ops ==> op.cmd.Co?
    ensures !w.pathExists(dst) && Require(cfg, "SVN_URL").Failure? ==> t == Trace([], Failure(Require(cfg, "SVN_URL").error))
    ensures !w.pathExists(dst) && Require(cfg, "SVN_URL").Success? && Require(cfg, "SVN_REV").Failure? ==>
              t == Trace([], Failure(Require(cfg, "SVN_REV").error))
    ensures !w.pathExists(dst) && Require(cfg, "SVN_URL").Success? && Require(cfg, "SVN_REV").Success? ==>
              var c := Co(cfg["SVN_URL"].value, cfg["SVN_REV"].value, dst);
              t == Trace([Svn(c)], if w.exitCode(c) == 0 then Success(CheckedOut) else Failure(CommandFailed(c, w.exitCode(c))))
    // an existing one is probed first
    ensures w.pathExists(dst) ==> |t.ops| >= 1 && t.ops[0] == Svn(Info(dst))
    ensures w.pathExists(dst) && w.exitCode(Info(dst)) == 1 ==> t == Trace([Svn(Info(dst))], Success(NotVersioned))
    ensures w.pathExists(dst) && w.exitCode(Info(dst)) > 1 ==>
              t == Trace([Svn(Info(dst))], Failure(CommandFailed(Info(dst), w.exitCode(Info(dst)))))
    // a working copy is switched to SVN_URL, then updated to SVN_REV, stopping at the first failure
    ensures w.pathExists(dst) && w.exitCode(Info(dst)) == 0 && Require(cfg, "SVN_URL").Failure? ==>
              t == Trace([Svn(Info(dst))], Failure(Require(cfg, "SVN_URL").error))
    ensures w.pathExists(dst) && w.exitCode(Info(dst)) == 0 && Require(cfg, "SVN_URL").Success? ==>
              var sw := Switch(cfg["SVN_URL"].value, dst);
              w.exitCode(sw) != 0 ==> t == Trace([Svn(Info(dst)), Svn(sw)], Failure(CommandFailed(sw, w.exitCode(sw))))
    ensures w.pathExists(dst) && w.exitCode(Info(dst)) == 0 && Require(cfg, "SVN_URL").Success? ==>
              var sw := Switch(cfg["SVN_URL"].value, dst);
              w.exitCode(sw) == 0 && Require(cfg, "SVN_REV").Failure? ==>
                t == Trace([Svn(Info(dst)), Svn(sw)], Failure(Require(cfg, "SVN_REV").error))
    ensures w.pathExists(dst) && w.exitCode(Info(dst)) == 0 && Require(cfg, "SVN_URL").Success? ==>
              var sw := Switch(cfg["SVN_URL"].value, dst);
              w.exitCode(sw) == 0 && Require(cfg, "SVN_REV").Success? ==>
                var u := Up(dst, cfg["SVN_REV"].value);
                t == Trace([Svn(Info(dst)), Svn(sw), Svn(u)],
                           if w.exitCode(u) == 0 then Success(Synced) else Failure(CommandFailed(u, w.exitCode(u))))
    // what each way of returning implies
    ensures t.result == Success(CheckedOut) ==>
              !w.pathExists(dst) && Require(cfg, "SVN_URL").Success? && Require(cfg, "SVN_REV").Success? &&
              t.ops == [Svn(Co(cfg["SVN_URL"].value, cfg["SVN_REV"].value, dst))]
    ensures t.result == Success(NotVersioned) ==>
              w.pathExists(dst) && forall op :: op in t.ops ==> !Mutates(op)
    ensures t.result == Success(Synced) ==>
              w.pathExists(dst) && Require(cfg, "SVN_URL").Success? && Require(cfg, "SVN_REV").Success? &&
              t.ops == [Svn(Info(dst)), Svn(Switch(cfg["SVN_URL"].value, dst)), Svn(Up(dst, cfg["SVN_REV"].value))]
  {
    if !w.pathExists(dst) then
      match Require(cfg, "SVN_URL")
      case Failure(e) => Trace([], Failure(e))
      case Success(url) =>
        match Require(cfg, "SVN_REV")
        case Failure(e) => Trace([], Failure(e))
        case Success(rev) =>
          var co := Run(Co(url, rev, dst), w);
          Trace(co.ops, if co.result.Failure? then Failure(co.result.error) else Success(CheckedOut))
    else
      var probe := GetVcsInfo(dst, w);
      if probe.result.Failure? then Trace(probe.ops, Failure(probe.result.error))
      else if !probe.result.value then Trace(probe.ops, Success(NotVersioned))
      else
        match Require(cfg, "SVN_URL")
        case Failure(e) => Trace(probe.ops, Failure(e))
        case Success(url) =>
          var switched := Run(Switch(url, dst), w);
          if switched.result.Failure? then Trace(probe.ops + switched.ops, Failure(switched.result.error))
          else
            match Require(cfg, "SVN_REV")
            case Failure(e) => Trace(probe.ops + switched.ops, Failure(e))
            case Success(rev) =>
              var updated := Run(Up(dst, rev), w);
              Trace(probe.ops + switched.ops + updated.ops,
                    if updated.result.Failure? then Failure(updated.result.error) else Success(Synced))
  }

  /** _rm: rmtree, and unlink instead when rmtree fails with errno 20 (not a directory). */
  function Rm(name: string, w: World): (t: Trace<()>)
    ensures |t.ops| >= 1 && t.ops[0] == RemoveTree(name)
    ensures forall op :: op in t.ops ==> op == RemoveTree(name) || op == Unlink(name)
    ensures Unlink(name) in t.ops <==> w.rmtreeErrno(name) == 20
    ensures t.result.Success? <==>
              w.rmtreeErrno(name) == 0 || (w.rmtreeErrno(name) == 20 && w.unlinkErrno(name) == 0)
    ensures t.ops == if w.rmtreeErrno(name) == 20 then [RemoveTree(name), Unlink(name)] else [RemoveTree(name)]
    // rmtree's own OSError propagates unless its errno is 20; then unlink's does, if unlink fails
    ensures w.rmtreeErrno(name) != 0 && w.rmtreeErrno(name) != 20 ==>
              t.result == Failure(OsError(RemoveTree(name), w.rmtreeErrno(name)))
    ensures w.rmtreeErrno(name) == 20 && w.unlinkErrno(name) != 0 ==>
              t.result == Failure(OsError(Unlink(name), w.unlinkErrno(name)))
  {
    var tried := RemoveTree(name);
    if w.rmtreeErrno(name) == 0 then Trace([tried], Success(()))
    else if w.rmtreeErrno(name) == 20 then
      var unlinked := Unlink(name);
      Trace([tried, unlinked],
            if w.unlinkErrno(name) == 0 then Success(()) else Failure(OsError(unlinked, w.unlinkErrno(name))))
    else Trace([tried], Failure(OsError(tried, w.rmtreeErrno(name))))
  }

  /** One step per name, in order, stopping at the first that raises (a list comprehension over calls). */
  function Each(names: seq<string>, step: string -> Trace<()>): Trace<()>
    decreases |names|
  {
    if names == [] then Trace([], Success(()))
    else
      var earlier := Each(names[..|names| - 1], step);
      if earlier.result.Failure? then earlier
      else
        var last := step(names[|names| - 1]);
        Trace(earlier.ops + last.ops, last.result)
  }

  /** The steps of every name, one after the other. */
  function Joined(names: seq<string>, step: string -> Trace<()>): seq<Op>
    decreases |names|
  {
    if names == [] then [] else Joined(names[..|names| - 1], step) + step(names[|names| - 1]).ops
  }

  function RmStep(w: World): string -> Trace<()> {
    name => Rm(name, w)
  }

  function RevertStep(w: World): string -> Trace<()> {
    name => Run(Revert(name), w)
  }

  /** `[cls._rm(f) for f in to_remove]`. */
  function RemoveAll(names: seq<string>, w: World): Trace<()> {
    Each(names, RmStep(w))
  }

  /** `[svn('revert', f) for f in to_rollback]`. */
  function RevertAll(names: seq<string>, w: World): Trace<()> {
    Each(names, RevertStep(w))
  }

  /** One `svn revert` per name, in order. */
  function Reverts(names: seq<string>): seq<Op> {
    seq(|names|, i requires 0 <= i < |names| => Svn(Revert(names[i])))
  }

  /** One more name, after names that all got through: its step runs next. */
  lemma EachExtends(names: seq<string>, step: string -> Trace<()>, i: nat)
    requires i < |names| && Each(names[..i], step).result.Success?
    ensures Each(names[..i + 1], step) == Trace(Each(names[..i], step).ops + step(names[i]).ops, step(names[i]).result)
  {
    assert names[..i + 1][..i] == names[..i];
  }

  /** The whole sequence gets through exactly when every step does, and then issues every step's operations. */
  lemma {:induction false} EachSucceeds(names: seq<string>, step: string -> Trace<()>)
    ensures Each(names, step).result.Success? <==> forall i :: 0 <= i < |names| ==> step(names[i]).result.Success?
    ensures Each(names, step).result.Success? ==> Each(names, step).ops == Joined(names, step)
    decreases |names|
  {
    if names != [] {
      var init := names[..|names| - 1];
      EachSucceeds(init, step);
      assert forall i :: 0 <= i < |init| ==> names[i] == init[i];
    }
  }

  /** Once a step has raised, the names after it are never reached. */
  lemma {:induction false} EachFailurePersists(names: seq<string>, step: string -> Trace<()>, k: nat)
    requires k <= |names| && Each(names[..k], step).result.Failure?
    ensures Each(names, step) == Each(names[..k], step)
    decreases |names|
  {
    if k < |names| {
      var init := names[..|names| - 1];
      assert init[..k] == names[..k];
      EachFailurePersists(init, step, k);
    } else {
      assert names[..k] == names;
    }
  }

  /** Every operation of a step is among the operations of the whole sequence. */
  lemma {:induction false} JoinedHas(names: seq<string>, step: string -> Trace<()>, i: nat, op: Op)
    requires i < |names| && op in step(names[i]).ops
    ensures op in Joined(names, step)
    decreases |names|
  {
    if i < |names| - 1 {
      var init := names[..|names| - 1];
      assert init[i] == names[i];
      JoinedHas(init, step, i, op);
    }
  }

  /** Every operation of the sequence comes from the step of one of the names. */
  lemma {:induction false} EachOpsFromSteps(names: seq<string>, step: string -> Trace<()>, op: Op)
    requires op in Each(names, step).ops
    ensures exists i :: 0 <= i < |names| && op in step(names[i]).ops
    decreases |names|
  {
    var init := names[..|names| - 1];
    var earlier := Each(init, step);
    if earlier.result.Failure? || op in earlier.ops {
      EachOpsFromSteps(init, step, op);
      var i :| 0 <= i < |init| && op in step(init[i]).ops;
      assert names[i] == init[i];
    }
  }

  /** Removing every entry: when no removal raises, rmtree was tried on every name, and nothing but the
      listed names was touched. */
  lemma RemoveAllCovers(names: seq<string>, w: World)
    ensures RemoveAll(names, w).result.Success? <==> forall i :: 0 <= i < |names| ==> Rm(names[i], w).result.Success?
    ensures forall op :: op in RemoveAll(names, w).ops ==> (op.RemoveTree? || op.Unlink?) && op.path in names
    ensures RemoveAll(names, w).result.Success? ==> forall n :: n in names ==> RemoveTree(n) in RemoveAll(names, w).ops
  {
    forall op | op in RemoveAll(names, w).ops
      ensures (op.RemoveTree? || op.Unlink?) && op.path in names
    {
      EachOpsFromSteps(names, RmStep(w), op);
    }
    EachSucceeds(names, RmStep(w));
    if RemoveAll(names, w).result.Success? {
      forall n | n in names
        ensures RemoveTree(n) in RemoveAll(names, w).ops
      {
        var i :| 0 <= i < |names| && names[i] == n;
        JoinedHas(names, RmStep(w), i, RemoveTree(n));
      }
    }
  }

  /** Reverting every entry: when no revert raises, exactly one `svn revert` per name was run, in order. */
  lemma RevertAllExact(names: seq<string>, w: World)
    ensures RevertAll(names, w).result.Success? <==> forall i :: 0 <= i < |names| ==> w.exitCode(Revert(names[i])) == 0
    ensures RevertAll(names, w).result.Success? ==> RevertAll(names, w).ops == Reverts(names)
    ensures forall op :: op in RevertAll(names, w).ops ==> op.Svn? && op.cmd.Revert? && op.cmd.path in names
  {
    forall op | op in RevertAll(names, w).ops
      ensures op.Svn? && op.cmd.Revert? && op.cmd.path in names
    {
      EachOpsFromSteps(names, RevertStep(w), op);
    }
    EachSucceeds(names, RevertStep(w));
    JoinedReverts(names, w);
  }

  lemma {:induction false} JoinedReverts(names: seq<string>, w: World)
    ensures Joined(names, RevertStep(w)) == Reverts(names)
    decreases |names|
  {
    if names != [] {
      var init := names[..|names| - 1];
      JoinedReverts(init, w);
      assert Reverts(names) == Reverts(init) + [Svn(Revert(names[|names| - 1]))];
    }
  }

  /** `is_agreed.lower() == 'y'`: the answer is y or Y. */
  predicate IsYes(answer: string): (yes: bool)
    ensures yes <==> answer == "y" || answer == "Y"
  {
    LowerIsLetter(answer, 'y');
    Lower(answer) == "y"
  }

  /** `is_agreed.lower() == 'n'`: the answer is n or N. */
  predicate IsNo(answer: string): (no: bool)
    ensures no <==> answer == "n" || answer == "N"
  {
    LowerIsLetter(answer, 'n');
    Lower(answer) == "n"
  }

  datatype Reply = Yes | No | NoAnswer

  /** How the answer loop ends, how many times it asked, and what is left unread. */
  datatype Confirmation = Confirmation(reply: Reply, asked: nat, rest: seq<string>)

  /** The answer loop of clean over the lines of standard input. An answer that is neither yes nor no makes
      the loop read one more line (line 201) which the next pass overwrites with a third read (line 191): that
      second line is read and never looked at. Running out of input raises EOFError. */
  function Confirm(input: seq<string>): (c: Confirmation)
    ensures c.asked >= 1
    ensures c.reply == NoAnswer ==> c.asked == |input| + 1 && c.rest == []
    ensures c.reply != NoAnswer ==> c.asked <= |input| && c.asked % 2 == 1 && c.rest == input[c.asked..]
    ensures c.reply == Yes ==> IsYes(input[c.asked - 1])
    ensures c.reply == No ==> IsNo(input[c.asked - 1])
    decreases |input|
  {
    if input == [] then Confirmation(NoAnswer, 1, [])
    else if IsNo(input[0]) then Confirmation(No, 1, input[1..])
    else if IsYes(input[0]) then Confirmation(Yes, 1, input[1..])
    else if |input| == 1 then Confirmation(NoAnswer, 2, [])
    else
      var c := Confirm(input[2..]);
      Confirmation(c.reply, c.asked + 2, c.rest)
  }

  /** Every answer the loop looked at before the deciding one was neither yes nor no. */
  lemma {:induction false} AnswersBeforeInvalid(input: seq<string>)
    ensures forall j :: 0 <= j < Confirm(input).asked - 1 && j % 2 == 0 ==>
              j < |input| && !IsYes(input[j]) && !IsNo(input[j])
    decreases |input|
  {
    if |input| >= 2 && !IsYes(input[0]) && !IsNo(input[0]) {
      var rest := input[2..];
      AnswersBeforeInvalid(rest);
      forall j | 2 <= j < Confirm(input).asked - 1 && j % 2 == 0
        ensures j < |input| && !IsYes(input[j]) && !IsNo(input[j])
      {
        assert (j - 2) % 2 == 0 && input[j] == rest[j - 2];
      }
    }
  }

  /** The line read after an invalid answer never counts: changing it changes neither the decision nor how
      often the user is asked. */
  lemma {:induction false} DiscardedAnswersIgnored(a: seq<string>, b: seq<string>)
    requires |a| == |b| && forall j :: 0 <= j < |a| && j % 2 == 0 ==> a[j] == b[j]
    ensures Confirm(a).reply == Confirm(b).reply && Confirm(a).asked == Confirm(b).asked
    decreases |a|
  {
    if |a| >= 2 && !IsYes(a[0]) && !IsNo(a[0]) {
      assert a[0] == b[0];
      forall j | 0 <= j < |a| - 2 && j % 2 == 0
        ensures a[2..][j] == b[2..][j]
      {
        assert a[j + 2] == b[j + 2];
      }
      DiscardedAnswersIgnored(a[2..], b[2..]);
    }
  }

  /** An invalid answer followed by `y` and then `n` declines: the `y` is read but discarded. */
  lemma YesAfterInvalidAnswerIsLost()
    ensures Confirm(["maybe", "y", "n"]) == Confirmation(No, 3, [])
  {
    var input := ["maybe", "y", "n"];
    assert Lower("maybe") != "y" && Lower("maybe") != "n" by {
      assert |Lower("maybe")| == 5;
    }
    assert Lower("n") == "n";
    assert input[2..] == ["n"];
  }

  /** `k` questions in a row. */
  function Prompts(k: nat): seq<Op> {
    seq(k, _ => Prompt)
  }

  /** The same ending, reached after `k` more questions. */
  function Shifted(c: Confirmation, k: nat): Confirmation {
    c.(asked := c.asked + k)
  }

  /** One more question at the end of the log. */
  lemma OnePrompt(k: nat)
    ensures Prompts(k) + [Prompt] == Prompts(k + 1)
  {
  }

  /** An answer that is neither yes nor no costs two lines of input and two questions. */
  lemma ConfirmSkips(input: seq<string>)
    requires |input| >= 2 && !IsYes(input[0]) && !IsNo(input[0])
    ensures Confirm(input) == Shifted(Confirm(input[2..]), 2)
  {
  }

  /** What clean does after a yes: every removal, then every revert, up to the first that raises. */
  function Tidy(toRemove: seq<string>, toRollback: seq<string>, w: World): Trace<()> {
    var removed := RemoveAll(toRemove, w);
    if removed.result.Failure? then removed
    else
      var reverted := RevertAll(toRollback, w);
      Trace(removed.ops + reverted.ops, reverted.result)
  }

  /** Tidying touches only the listed entries and asks nothing; when it gets through, rmtree was tried on
      every untracked entry and each modified one was reverted once, in order, after all removals. */
  lemma TidyCovers(toRemove: seq<string>, toRollback: seq<string>, w: World)
    ensures forall op :: op in Tidy(toRemove, toRollback, w).ops ==>
              ((op.RemoveTree? || op.Unlink?) && op.path in toRemove) || (op.Svn? && op.cmd.Revert? && op.cmd.path in toRollback)
    ensures Tidy(toRemove, toRollback, w).result.Success? ==>
              RemoveAll(toRemove, w).result.Success? &&
              Tidy(toRemove, toRollback, w).ops == RemoveAll(toRemove, w).ops + Reverts(toRollback) &&
              forall n :: n in toRemove ==> RemoveTree(n) in RemoveAll(toRemove, w).ops
  {
    RemoveAllCovers(toRemove, w);
    RevertAllExact(toRollback, w);
  }

  /** Where the body of the `with preserve_cwd()` block of clean stops. */
  datatype Stage = NothingFound | Refused | Cleared

  /** The steps a part of clean issues, the input it leaves unread, and how it ends. */
  datatype Session<+T> = Session(ops: seq<Op>, rest: seq<string>, result: Result<T, Error>)

  /** The part of the block of clean after `svn status`: with something to clean, ask, and on a yes tidy up. */
  function Decide(toRemove: seq<string>, toRollback: seq<string>, input: seq<string>, w: World): Session<Stage> {
    if toRemove == [] && toRollback == [] then Session([], input, Success(NothingFound))
    else
      var c := Confirm(input);
      match c.reply
      case NoAnswer => Session(Prompts(c.asked), c.rest, Failure(EndOfInput))
      case No => Session(Prompts(c.asked), c.rest, Success(Refused))
      case Yes =>
        var tidied := Tidy(toRemove, toRollback, w);
        Session(Prompts(c.asked) + tidied.ops, c.rest,
                if tidied.result.Failure? then Failure(tidied.result.error) else Success(Cleared))
  }

  /** After a yes, the questions are followed by the tidying. */
  lemma DecideYes(toRemove: seq<string>, toRollback: seq<string>, input: seq<string>, w: World)
    requires toRemove != [] || toRollback != []
    requires Confirm(input).reply == Yes
    ensures Decide(toRemove, toRollback, input, w).ops == Prompts(Confirm(input).asked) + Tidy(toRemove, toRollback, w).ops
    ensures Decide(toRemove, toRollback, input, w).result.Success? <==> Tidy(toRemove, toRollback, w).result.Success?
  {
  }

  /** The body of the `with preserve_cwd()` block of clean, run on the lines of standard input. */
  function CleanWithin(path: string, input: seq<string>, w: World): Session<Stage> {
    var entered := [ChangeDir(path)];
    if w.chdirErrno(path) != 0 then Session(entered, input, Failure(OsError(ChangeDir(path), w.chdirErrno(path))))
    else
      var listed := entered + [Svn(Status)];
      if w.exitCode(Status) != 0 then Session(listed, input, Failure(CommandFailed(Status, w.exitCode(Status))))
      else
        var d := Decide(Picked(w.statusLines, '?'), Picked(w.statusLines, 'M'), input, w);
        Session(listed + d.ops, d.rest, d.result)
  }

  /** How clean returns. */
  datatype CleanOutcome = NothingToClean | Declined | Cleaned(checkout: CoOutcome)

  /** clean, started in directory `cwd`: the block under preserve_cwd, the return to `cwd` however the block
      ends, and then, when the block cleared the working copy, checkout on the same path. */
  function CleanTrace(cfg: Config, path: string, cwd: string, input: seq<string>, w: World): (r: Session<CleanOutcome>)
    ensures |r.ops| >= 2 && r.ops[0] == ChangeDir(path)
    ensures var n := |CleanWithin(path, input, w).ops|; n < |r.ops| && r.ops[n] == ChangeDir(cwd)
    ensures r.result.Success? ==> w.chdirErrno(path) == 0 && w.exitCode(Status) == 0
  {
    var s := CleanWithin(path, input, w);
    var restored := s.ops + [ChangeDir(cwd)];
    match s.result
    case Failure(e) => Session(restored, s.rest, Failure(e))
    case Success(NothingFound) => Session(restored, s.rest, Success(NothingToClean))
    case Success(Refused) => Session(restored, s.rest, Success(Declined))
    case Success(Cleared) =>
      var co := Checkout(cfg, path, w);
      Session(restored + co.ops, s.rest,
              if co.result.Failure? then Failure(co.result.error) else Success(Cleaned(co.result.value)))
  }

  /** clean always goes back to `cwd` after the block, and checks out again only after a clear. */
  lemma TraceAfterBlock(cfg: Config, path: string, cwd: string, input: seq<string>, w: World)
    ensures var s := CleanWithin(path, input, w);
            CleanTrace(cfg, path, cwd, input, w).ops ==
              s.ops + [ChangeDir(cwd)] + (if s.result == Success(Cleared) then Checkout(cfg, path, w).ops else [])
  {
  }

  /** Once the status listing succeeds, what follows it is the decision on the picked entries. */
  lemma BlockAfterListing(path: string, input: seq<string>, w: World)
    requires w.chdirErrno(path) == 0 && w.exitCode(Status) == 0
    ensures var d := Decide(Picked(w.statusLines, '?'), Picked(w.statusLines, 'M'), input, w);
            CleanWithin(path, input, w) == Session([ChangeDir(path), Svn(Status)] + d.ops, d.rest, d.result)
  {
    assert [ChangeDir(path)] + [Svn(Status)] == [ChangeDir(path), Svn(Status)];
  }

  /** With nothing to remove or revert, clean asks nothing, reads no input and changes nothing. */
  lemma NothingToCleanAsksNothing(cfg: Config, path: string, cwd: string, input: seq<string>, w: World)
    requires w.chdirErrno(path) == 0 && w.exitCode(Status) == 0
    requires Picked(w.statusLines, '?') == [] && Picked(w.statusLines, 'M') == []
    ensures CleanTrace(cfg, path, cwd, input, w) ==
              Session([ChangeDir(path), Svn(Status), ChangeDir(cwd)], input, Success(NothingToClean))
  {
  }

  /** Clean gets past its question with a yes. */
  predicate Accepted(path: string, input: seq<string>, w: World) {
    && w.chdirErrno(path) == 0 && w.exitCode(Status) == 0
    && (Picked(w.statusLines, '?') != [] || Picked(w.statusLines, 'M') != [])
    && Confirm(input).reply == Yes
  }

  /** Without a yes (nothing to clean, a no, or no answer at all) clean issues nothing that changes the
      working copy. */
  lemma QuietUnlessAccepted(cfg: Config, path: string, cwd: string, input: seq<string>, w: World)
    ensures !Accepted(path, input, w) ==> forall op :: op in CleanTrace(cfg, path, cwd, input, w).ops ==> !Mutates(op)
  {
    var k := Confirm(input).asked;
    assert forall j :: 0 <= j < k ==> Prompts(k)[j] == Prompt;
  }

  /** After a yes, clean lists, asks, tidies, returns and checks out. */
  lemma AcceptedTrace(cfg: Config, path: string, cwd: string, input: seq<string>, w: World)
    requires Accepted(path, input, w)
    ensures var tidied := Tidy(Picked(w.statusLines, '?'), Picked(w.statusLines, 'M'), w);
            CleanTrace(cfg, path, cwd, input, w).ops ==
              [ChangeDir(path), Svn(Status)] + Prompts(Confirm(input).asked) +
              (tidied.ops + [ChangeDir(cwd)] + (if tidied.result.Failure? then [] else Checkout(cfg, path, w).ops))
    ensures CleanTrace(cfg, path, cwd, input, w).rest == input[Confirm(input).asked..]
    ensures CleanTrace(cfg, path, cwd, input, w).result.Success? <==>
              Tidy(Picked(w.statusLines, '?'), Picked(w.statusLines, 'M'), w).result.Success? &&
              Checkout(cfg, path, w).result.Success?
  {
    var toRemove, toRollback := Picked(w.statusLines, '?'), Picked(w.statusLines, 'M');
    var tidied := Tidy(toRemove, toRollback, w);
    var s := CleanWithin(path, input, w);
    var after := if tidied.result.Failure? then [] else Checkout(cfg, path, w).ops;
    DecideYes(toRemove, toRollback, input, w);
    BlockAfterListing(path, input, w);
    assert s.ops == [ChangeDir(path), Svn(Status)] + (Prompts(Confirm(input).asked) + tidied.ops);
    assert s.result == Success(Cleared) <==> tidied.result.Success?;
    TraceAfterBlock(cfg, path, cwd, input, w);
    assert CleanTrace(cfg, path, cwd, input, w).ops == s.ops + [ChangeDir(cwd)] + after;
    Regroup([ChangeDir(path), Svn(Status)], Prompts(Confirm(input).asked), tidied.ops, [ChangeDir(cwd)], after);
  }

  /** Joining five pieces, grouped as the block and what follows it, or as the opening and what follows it. */
  lemma Regroup<T>(a: seq<T>, b: seq<T>, c: seq<T>, d: seq<T>, e: seq<T>)
    ensures a + (b + c) + d + e == a + b + (c + d + e)
  {
  }

  /** No step of `ops` is a question. */
  predicate AsksNothing(ops: seq<Op>) {
    forall j :: 0 <= j < |ops| ==> !ops[j].Prompt?
  }

  /** Removing and reverting never stops to ask. */
  lemma TidyAsksNothing(toRemove: seq<string>, toRollback: seq<string>, w: World)
    ensures AsksNothing(Tidy(toRemove, toRollback, w).ops)
  {
    var ops := Tidy(toRemove, toRollback, w).ops;
    TidyCovers(toRemove, toRollback, w);
    assert forall j :: 0 <= j < |ops| ==> ops[j] in ops;
  }

  /** checkout never stops to ask. */
  lemma CheckoutAsksNothing(cfg: Config, path: string, w: World)
    ensures AsksNothing(Checkout(cfg, path, w).ops)
  {
    var ops := Checkout(cfg, path, w).ops;
    assert forall j :: 0 <= j < |ops| ==> ops[j] in ops;
  }

  /** After a yes, clean's first steps are the listing and the questions, and they change nothing. */
  lemma AcceptedOpening(cfg: Config, path: string, cwd: string, input: seq<string>, w: World)
    requires Accepted(path, input, w)
    ensures 2 + Confirm(input).asked <= |CleanTrace(cfg, path, cwd, input, w).ops|
    ensures forall j :: 0 <= j < 2 + Confirm(input).asked ==> !Mutates(CleanTrace(cfg, path, cwd, input, w).ops[j])
  {
    var ops := CleanTrace(cfg, path, cwd, input, w).ops;
    var tidied := Tidy(Picked(w.statusLines, '?'), Picked(w.statusLines, 'M'), w);
    var prefix := [ChangeDir(path), Svn(Status)] + Prompts(Confirm(input).asked);
    var tail := tidied.ops + [ChangeDir(cwd)] + (if tidied.result.Failure? then [] else Checkout(cfg, path, w).ops);
    AcceptedTrace(cfg, path, cwd, input, w);
    assert ops == prefix + tail;
    OpeningChangesNothing(path, Confirm(input).asked, tail);
  }

  /** Entering the working copy, listing it and asking questions change nothing, whatever follows. */
  lemma OpeningChangesNothing(path: string, k: nat, tail: seq<Op>)
    ensures forall j :: 0 <= j < 2 + k ==> !Mutates(([ChangeDir(path), Svn(Status)] + Prompts(k) + tail)[j])
  {
    var prefix := [ChangeDir(path), Svn(Status)] + Prompts(k);
    forall j | 0 <= j < 2 + k
      ensures !Mutates((prefix + tail)[j])
    {
      assert (prefix + tail)[j] == prefix[j];
    }
  }

  /** After a yes, nothing clean does after the questions asks anything more. */
  lemma AcceptedAsksNoMore(cfg: Config, path: string, cwd: string, input: seq<string>, w: World)
    requires Accepted(path, input, w)
    ensures forall j :: 2 + Confirm(input).asked <= j < |CleanTrace(cfg, path, cwd, input, w).ops| ==>
              !CleanTrace(cfg, path, cwd, input, w).ops[j].Prompt?
  {
    var ops := CleanTrace(cfg, path, cwd, input, w).ops;
    var tidied := Tidy(Picked(w.statusLines, '?'), Picked(w.statusLines, 'M'), w);
    var prefix := [ChangeDir(path), Svn(Status)] + Prompts(Confirm(input).asked);
    var tail := tidied.ops + [ChangeDir(cwd)] + (if tidied.result.Failure? then [] else Checkout(cfg, path, w).ops);
    assert AsksNothing(tail) by {
      TidyAsksNothing(Picked(w.statusLines, '?'), Picked(w.statusLines, 'M'), w);
      CheckoutAsksNothing(cfg, path, w);
    }
    AcceptedTrace(cfg, path, cwd, input, w);
    assert ops == prefix + tail;
    NoPromptsAfter(prefix, tail);
  }

  /** Steps that ask nothing, appended after others: nothing from there on is a question. */
  lemma NoPromptsAfter(prefix: seq<Op>, tail: seq<Op>)
    requires AsksNothing(tail)
    ensures forall j :: |prefix| <= j < |prefix + tail| ==> !(prefix + tail)[j].Prompt?
  {
    forall j | |prefix| <= j < |prefix + tail|
      ensures !(prefix + tail)[j].Prompt?
    {
      assert (prefix + tail)[j] == tail[j - |prefix|];
    }
  }

  /** Nothing is removed, reverted, switched, updated or checked out unless the user said yes: every
      question comes before the first change, and the last answer read was `y` or `Y`. */
  lemma MutationsFollowYes(cfg: Config, path: string, cwd: string, input: seq<string>, w: World, i: nat)
    requires i < |CleanTrace(cfg, path, cwd, input, w).ops| && Mutates(CleanTrace(cfg, path, cwd, input, w).ops[i])
    ensures w.chdirErrno(path) == 0 && w.exitCode(Status) == 0
    ensures Picked(w.statusLines, '?') != [] || Picked(w.statusLines, 'M') != []
    ensures Confirm(input).reply == Yes
    ensures input[Confirm(input).asked - 1] == "y" || input[Confirm(input).asked - 1] == "Y"
    ensures forall j :: (0 <= j < |CleanTrace(cfg, path, cwd, input, w).ops| &&
                         CleanTrace(cfg, path, cwd, input, w).ops[j].Prompt?) ==> j < i
  {
    var ops := CleanTrace(cfg, path, cwd, input, w).ops;
    QuietUnlessAccepted(cfg, path, cwd, input, w);
    assert ops[i] in ops;
    AcceptedOpening(cfg, path, cwd, input, w);
    AcceptedAsksNoMore(cfg, path, cwd, input, w);
  }

  /** After a yes, clean removes every untracked entry, then reverts every modified one in order, goes back to
      the directory it started in, and then runs checkout on the same path. */
  lemma AcceptedCleanOrder(cfg: Config, path: string, cwd: string, input: seq<string>, w: World)
    requires w.chdirErrno(path) == 0 && w.exitCode(Status) == 0
    requires Picked(w.statusLines, '?') != [] || Picked(w.statusLines, 'M') != []
    requires Confirm(input).reply == Yes
    requires RemoveAll(Picked(w.statusLines, '?'), w).result.Success?
    requires RevertAll(Picked(w.statusLines, 'M'), w).result.Success?
    ensures CleanTrace(cfg, path, cwd, input, w).ops ==
              [ChangeDir(path), Svn(Status)] + Prompts(Confirm(input).asked) +
              (RemoveAll(Picked(w.statusLines, '?'), w).ops + Reverts(Picked(w.statusLines, 'M')) +
               [ChangeDir(cwd)] + Checkout(cfg, path, w).ops)
    ensures CleanTrace(cfg, path, cwd, input, w).rest == input[Confirm(input).asked..]
    ensures CleanTrace(cfg, path, cwd, input, w).result.Success? <==> Checkout(cfg, path, w).result.Success?
  {
    var toRemove, toRollback := Picked(w.statusLines, '?'), Picked(w.statusLines, 'M');
    var removals, reverts := RemoveAll(toRemove, w).ops, Reverts(toRollback);
    assert Tidy(toRemove, toRollback, w) == Trace(removals + reverts, Success(())) by {
      RevertAllExact(toRollback, w);
    }
    AcceptedTrace(cfg, path, cwd, input, w);
  }

  /** The `while True` loop of clean: ask until an answer is yes or no. */
  method AskForConsent(p: Process) returns (reply: Reply)
    modifies p
    ensures var c := Confirm(old(p.input));
              reply == c.reply && p.input == c.rest && p.log == old(p.log) + Prompts(c.asked) && p.cwd == old(p.cwd)
  {
    ghost var input0, asking := p.input, p.log;
    ghost var n := 0;
    while true
      invariant n <= |input0| && p.input == input0[n..]
      invariant p.log == asking + Prompts(n) && p.cwd == old(p.cwd)
      invariant Confirm(input0) == Shifted(Confirm(p.input), n)
      decreases |p.input|
    {
      ghost var before := p.input;
      var answer := p.Ask();
      OnePrompt(n);
      assert p.log == asking + Prompts(n + 1);
      if answer.None? {
        assert Confirm(before) == Confirmation(NoAnswer, 1, []);
        return NoAnswer;
      }
      if IsNo(answer.value) {
        assert Confirm(before) == Confirmation(No, 1, p.input);
        return No;
      } else if IsYes(answer.value) {
        assert Confirm(before) == Confirmation(Yes, 1, p.input);
        return Yes;
      }
      answer := p.Ask();
      OnePrompt(n + 1);
      assert p.log == asking + Prompts(n + 2);
      if answer.None? {
        assert Confirm(before) == Confirmation(NoAnswer, 2, []);
        return NoAnswer;
      }
      ConfirmSkips(before);
      assert before[2..] == p.input;
      n := n + 2;
    }
  }

  /** `[cls._rm(f) for f in to_remove]`, run against the process. */
  method RemoveEntries(p: Process, names: seq<string>, w: World) returns (r: Result<(), Error>)
    modifies p
    ensures p.log == old(p.log) + RemoveAll(names, w).ops && r == RemoveAll(names, w).result
    ensures p.input == old(p.input) && p.cwd == old(p.cwd)
  {
    for i := 0 to |names|
      invariant Each(names[..i], RmStep(w)).result.Success?
      invariant p.log == old(p.log) + Each(names[..i], RmStep(w)).ops
      invariant p.input == old(p.input) && p.cwd == old(p.cwd)
    {
      var removed := Rm(names[i], w);
      assert removed == RmStep(w)(names[i]);
      EachExtends(names, RmStep(w), i);
      p.Perform(removed.ops);
      assert p.log == old(p.log) + (Each(names[..i], RmStep(w)).ops + removed.ops);
      if removed.result.Failure? {
        EachFailurePersists(names, RmStep(w), i + 1);
        return removed.result;
      }
    }
    assert names[..|names|] == names;
    return Success(());
  }

  /** `[svn('revert', f) for f in to_rollback]`, run against the process. */
  method RevertEntries(p: Process, names: seq<string>, w: World) returns (r: Result<(), Error>)
    modifies p
    ensures p.log == old(p.log) + RevertAll(names, w).ops && r == RevertAll(names, w).result
    ensures p.input == old(p.input) && p.cwd == old(p.cwd)
  {
    for i := 0 to |names|
      invariant Each(names[..i], RevertStep(w)).result.Success?
      invariant p.log == old(p.log) + Each(names[..i], RevertStep(w)).ops
      invariant p.input == old(p.input) && p.cwd == old(p.cwd)
    {
      var reverted := Run(Revert(names[i]), w);
      assert reverted == RevertStep(w)(names[i]);
      EachExtends(names, RevertStep(w), i);
      p.Perform(reverted.ops);
      assert p.log == old(p.log) + (Each(names[..i], RevertStep(w)).ops + reverted.ops);
      if reverted.result.Failure? {
        EachFailurePersists(names, RevertStep(w), i + 1);
        return reverted.result;
      }
    }
    assert names[..|names|] == names;
    return Success(());
  }

  /** The removals and then the reverts after a yes, run against the process. */
  method TidyUp(p: Process, toRemove: seq<string>, toRollback: seq<string>, w: World) returns (r: Result<(), Error>)
    modifies p
    ensures var t := Tidy(toRemove, toRollback, w);
              p.log == old(p.log) + t.ops && r == t.result && p.input == old(p.input) && p.cwd == old(p.cwd)
  {
    r := RemoveEntries(p, toRemove, w);
    if r.Success? {
      r := RevertEntries(p, toRollback, w);
    }
  }

  /** The part of the block of clean after `svn status`, run against the process. */
  method Conclude(p: Process, toRemove: seq<string>, toRollback: seq<string>, w: World) returns (r: Result<Stage, Error>)
    modifies p
    ensures var d := Decide(toRemove, toRollback, old(p.input), w);
              p.log == old(p.log) + d.ops && p.input == d.rest && r == d.result && p.cwd == old(p.cwd)
  {
    // the lists do not change, so the loop's test of them is made once, before it
    if toRemove == [] && toRollback == [] {
      return Success(NothingFound);
    }
    ghost var c := Confirm(p.input);
    var reply := AskForConsent(p);
    match reply
    case NoAnswer =>
      assert Decide(toRemove, toRollback, old(p.input), w) == Session(Prompts(c.asked), c.rest, Failure(EndOfInput));
      return Failure(EndOfInput);
    case No =>
      assert Decide(toRemove, toRollback, old(p.input), w) == Session(Prompts(c.asked), c.rest, Success(Refused));
      return Success(Refused);
    case Yes =>
      DecideYes(toRemove, toRollback, old(p.input), w);
      var tidied := TidyUp(p, toRemove, toRollback, w);
      assert p.log == old(p.log) + (Prompts(c.asked) + Tidy(toRemove, toRollback, w).ops);
      return if tidied.Failure? then Failure(tidied.error) else Success(Cleared);
  }

  /** The body of the `with preserve_cwd()` block of clean. */
  method CleanInWorkingCopy(p: Process, path: string, w: World) returns (r: Result<Stage, Error>)
    modifies p
    ensures var s := CleanWithin(path, old(p.input), w);
              p.log == old(p.log) + s.ops && p.input == s.rest && r == s.result
    ensures p.cwd == if w.chdirErrno(path) == 0 then path else old(p.cwd)
  {
    var entered := p.Chdir(path, w);
    if entered.Failure? {
      return Failure(entered.error);
    }
    p.Perform([Svn(Status)]);
    if w.exitCode(Status) != 0 {
      return Failure(CommandFailed(Status, w.exitCode(Status)));
    }
    assert p.cwd == path && p.input == old(p.input);
    assert p.log == old(p.log) + [ChangeDir(path), Svn(Status)];
    BlockAfterListing(path, p.input, w);
    ghost var listed := p.log;
    var toRemove, toRollback := CollectDirty(w.statusLines);
    r := Conclude(p, toRemove, toRollback, w);
    assert p.log == listed + Decide(toRemove, toRollback, old(p.input), w).ops;
  }

  /** clean: the working directory is saved, the block runs, the directory is restored however the block
      ended, and a cleared working copy is checked out again. */
  method Clean(p: Process, cfg: Config, path: string, w: World) returns (r: Result<CleanOutcome, Error>)
    modifies p
    ensures p.cwd == old(p.cwd)
    ensures var s := CleanTrace(cfg, path, old(p.cwd), old(p.input), w);
              p.log == old(p.log) + s.ops && p.input == s.rest && r == s.result
  {
    var saved := p.cwd;
    ghost var block := CleanWithin(path, p.input, w);
    var stage := CleanInWorkingCopy(p, path, w);
    p.Restore(saved);
    assert p.log == old(p.log) + (block.ops + [ChangeDir(saved)]);
    match stage
    case Failure(e) =>
      r := Failure(e);
    case Success(NothingFound) =>
      r := Success(NothingToClean);
    case Success(Refused) =>
      r := Success(Declined);
    case Success(Cleared) =>
      var co := Checkout(cfg, path, w);
      p.Perform(co.ops);
      assert p.log == old(p.log) + (block.ops + [ChangeDir(saved)] + co.ops);
      r := if co.result.Failure? then Failure(co.result.error) else Success(Cleaned(co.result.value));
  }

  /** Drops the value a handler returns; `act` itself returns None. */
  function Done<T>(r: Result<T, Error>): Result<(), Error> {
    match r
    case Success(_) => Success(())
    case Failure(e) => Failure(e)
  }

  /** act: refuse an unknown action before anything else happens, work out the working-copy path, and run
      the handler. */
  method Act(p: Process, action: string, cfg: Config, w: World) returns (r: Result<(), Error>)
    modifies p
    ensures p.cwd == old(p.cwd)
    ensures Dispatch(action).None? ==>
              r == Failure(UnsupportedAction(action)) && p.log == old(p.log) && p.input == old(p.input)
    ensures Dispatch(action).Some? && DstPath(cfg).Failure? ==>
              r == Failure(DstPath(cfg).error) && p.log == old(p.log) && p.input == old(p.input)
    ensures action == "co" && DstPath(cfg).Success? ==>
              var t := Checkout(cfg, DstPath(cfg).value, w);
              p.log == old(p.log) + t.ops && p.input == old(p.input) && r == Done(t.result)
    ensures action == "clean" && DstPath(cfg).Success? ==>
              var s := CleanTrace(cfg, DstPath(cfg).value, old(p.cwd), old(p.input), w);
              p.log == old(p.log) + s.ops && p.input == s.rest && r == Done(s.result)
  {
    var handler := Dispatch(action);
    if handler.None? {
      return Failure(UnsupportedAction(action));
    }
    var dst := DstPath(cfg);
    if dst.Failure? {
      return Failure(dst.error);
    }
    match handler.value
    case CheckoutHandler =>
      var t := Checkout(cfg, dst.value, w);
      p.Perform(t.ops);
      r := Done(t.result);
    case CleanHandler =>
      var cleaned := Clean(p, cfg, dst.value, w);
      r := Done(cleaned);
  }
}

/** compose_cfg: the configuration built from the rows of the config file (already split on `=` by the csv
    reader) and the `--path` option. */
module ConfigFile {
  import opened Wrappers
  import opened Text
  import opened Effects

  /** The helper's configuration. A value is a string, or None (only `PATH` is ever set to None). */
  type Config = map<string, Option<string>>

  /** Python truthiness of a string-or-None: neither None nor empty. */
  predicate Truthy(v: Option<string>) {
    v.Some? && v.value != ""
  }

  /** Python's `a or b` on strings-or-None. */
  function Or(a: Option<string>, b: Option<string>): Option<string> {
    if Truthy(a) then a else b
  }

  /** `cfg.get(key)`. */
  function Get(cfg: Config, key: string): Option<string> {
    if key in cfg then cfg[key] else None
  }

  /** `cfg[key]` where the value is used as a string. */
  function Require(cfg: Config, key: string): (r: Result<string, Error>)
    ensures r.Success? <==> key in cfg && cfg[key].Some?
    ensures r.Success? ==> r.value == cfg[key].value
    ensures key !in cfg ==> r == Failure(KeyError(key))
  {
    if key !in cfg then Failure(KeyError(key))
    else if cfg[key].None? then Failure(NoneValue(key))
    else Success(cfg[key].value)
  }

  /** `DEFAULTS['cfg_path']`. */
  const DefaultCfgPath: string := "./helper.cfg"

  /** `args.get('--cfg') or defaults['cfg_path']`: the config file compose_cfg opens. */
  function CfgPath(cfgArg: Option<string>): (r: string)
    ensures Truthy(cfgArg) ==> r == cfgArg.value
    ensures !Truthy(cfgArg) ==> r == DefaultCfgPath
    ensures r != ""
  {
    Or(cfgArg, Some(DefaultCfgPath)).value
  }

  /** A row the loop passes over: an empty line or a comment. */
  predicate Skipped(row: seq<string>) {
    row == [] || StartsWith(row[0], '#')
  }

  /** A row that sets a key. */
  predicate Entry(row: seq<string>) {
    !Skipped(row) && |row| == 2
  }

  /** A row that makes compose_cfg raise. */
  predicate Malformed(row: seq<string>) {
    !Skipped(row) && |row| != 2
  }

  /** `i` is the first malformed row. */
  predicate FirstMalformedAt(rows: seq<seq<string>>, i: int) {
    0 <= i < |rows| && Malformed(rows[i]) && forall j :: 0 <= j < i ==> !Malformed(rows[j])
  }

  /** The map the reading loop builds from `rows`, or the error it stops with. */
  function Load(rows: seq<seq<string>>): (r: Result<Config, Error>)
    ensures r.Success? ==> forall k :: k in r.value ==> r.value[k].Some?
    decreases |rows|
  {
    if rows == [] then Success(map[])
    else
      var row := rows[|rows| - 1];
      match Load(rows[..|rows| - 1])
      case Failure(e) => Failure(e)
      case Success(cfg) =>
        if Skipped(row) then Success(cfg)
        else if |row| != 2 then Failure(MalformedConfig(row))
        else Success(cfg[row[0] := Some(row[1])])
  }

  /** `args.get('--path') or cfg.get('PATH') or None`. */
  function ResolvePath(pathArg: Option<string>, fromFile: Option<string>): (r: Option<string>)
    ensures Truthy(pathArg) ==> r == pathArg
    ensures !Truthy(pathArg) && Truthy(fromFile) ==> r == fromFile
    ensures !Truthy(pathArg) && !Truthy(fromFile) ==> r == None
  {
    Or(Or(pathArg, fromFile), None)
  }

  /** What compose_cfg returns, or the error it raises. */
  function Compose(rows: seq<seq<string>>, pathArg: Option<string>): (r: Result<Config, Error>)
    ensures r.Success? <==> Load(rows).Success?
    ensures r.Failure? ==> r.error == Load(rows).error
    ensures r.Success? ==> "PATH" in r.value && r.value["PATH"] == ResolvePath(pathArg, Get(Load(rows).value, "PATH"))
    ensures r.Success? ==> forall k :: k != "PATH" ==>
              (k in r.value <==> k in Load(rows).value) && (k in r.value ==> r.value[k] == Load(rows).value[k])
  {
    match Load(rows)
    case Failure(e) => Failure(e)
    case Success(cfg) => Success(cfg["PATH" := ResolvePath(pathArg, Get(cfg, "PATH"))])
  }

  /** compose_cfg, after the file has been opened and split into rows. */
  method ComposeCfg(rows: seq<seq<string>>, pathArg: Option<string>) returns (r: Result<Config, Error>)
    ensures r == Compose(rows, pathArg)
  {
    var cfg: Config := map[];
    for i := 0 to |rows|
      invariant Load(rows[..i]) == Success(cfg)
    {
      assert rows[..i + 1][..i] == rows[..i];
      var row := rows[i];
      if row == [] || StartsWith(row[0], '#') {
        continue;
      }
      if |row| != 2 {
        LoadFailurePersists(rows, i + 1);
        return Failure(MalformedConfig(row));
      }
      cfg := cfg[row[0] := Some(row[1])];
    }
    assert rows[..|rows|] == rows;
    cfg := cfg["PATH" := Or(Or(pathArg, Get(cfg, "PATH")), None)];
    return Success(cfg);
  }

  /** Once the loop has raised on a prefix of the rows, the rest of the file makes no difference. */
  lemma {:induction false} LoadFailurePersists(rows: seq<seq<string>>, k: nat)
    requires k <= |rows| && Load(rows[..k]).Failure?
    ensures Load(rows) == Load(rows[..k])
    decreases |rows|
  {
    if k < |rows| {
      var init := rows[..|rows| - 1];
      assert init[..k] == rows[..k];
      LoadFailurePersists(init, k);
    } else {
      assert rows[..k] == rows;
    }
  }

  /** Reading fails exactly when some row is malformed, and then with the first malformed row. */
  lemma {:induction false} LoadFailure(rows: seq<seq<string>>)
    ensures Load(rows).Failure? <==> exists i :: 0 <= i < |rows| && Malformed(rows[i])
    ensures Load(rows).Failure? ==> exists i :: FirstMalformedAt(rows, i) && Load(rows).error == MalformedConfig(rows[i])
    decreases |rows|
  {
    if rows != [] {
      var init := rows[..|rows| - 1];
      LoadFailure(init);
      assert forall i :: 0 <= i < |init| ==> rows[i] == init[i];
      if Load(init).Failure? {
        var i :| FirstMalformedAt(init, i) && Load(init).error == MalformedConfig(init[i]);
        assert FirstMalformedAt(rows, i);
      } else if Malformed(rows[|rows| - 1]) {
        assert FirstMalformedAt(rows, |rows| - 1);
      }
    }
  }

  /** The keys of the configuration are the first fields of the rows that set a key. */
  lemma {:induction false} LoadKeys(rows: seq<seq<string>>, k: string)
    requires Load(rows).Success?
    ensures k in Load(rows).value <==> exists i :: 0 <= i < |rows| && Entry(rows[i]) && rows[i][0] == k
    decreases |rows|
  {
    if rows != [] {
      var init := rows[..|rows| - 1];
      LoadKeys(init, k);
      assert forall i :: 0 <= i < |init| ==> rows[i] == init[i];
      if exists i :: 0 <= i < |rows| && Entry(rows[i]) && rows[i][0] == k {
        var i :| 0 <= i < |rows| && Entry(rows[i]) && rows[i][0] == k;
        if i < |init| {
          assert Entry(init[i]) && init[i][0] == k;
        }
      }
    }
  }

  /** A key takes the value of the last row that sets it. */
  lemma {:induction false} LoadLastWins(rows: seq<seq<string>>, i: nat)
    requires Load(rows).Success? && i < |rows| && Entry(rows[i])
    requires forall j :: i < j < |rows| && Entry(rows[j]) ==> rows[j][0] != rows[i][0]
    ensures rows[i][0] in Load(rows).value && Load(rows).value[rows[i][0]] == Some(rows[i][1])
    decreases |rows|
  {
    if i < |rows| - 1 {
      var init := rows[..|rows| - 1];
      assert init[i] == rows[i];
      LoadLastWins(init, i);
    }
  }
}

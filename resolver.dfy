/** The precedence merge of `load`: defaults, then config files in the order they
    were added, then the environment, then the command line. */
module Resolver {
  import opened Values
  import opened Declarations
  import opened Table
  import opened Tokenizer

  /** What a merge pass leaves behind, and the error that stopped it. */
  datatype Step = Step(values: map<string, Value>, error: Option<Error>)

  // ------------------------------------------------------------ environment

  function EnvChar(c: char): char {
    if c == '-' then '_' else if 'a' <= c <= 'z' then (c as int - 32) as char else c
  }

  /** The environment variable of a dial: its name upper-cased, `-` replaced by `_`. */
  function EnvKey(name: string): (key: string)
    ensures |key| == |name|
    ensures forall j :: 0 <= j < |name| ==> key[j] == EnvChar(name[j])
  {
    seq(|name|, j requires 0 <= j < |name| => EnvChar(name[j]))
  }

  /** Two different dials never read the same environment variable. */
  lemma EnvKeyInjective(a: string, b: string)
    requires ValidName(a) && ValidName(b) && EnvKey(a) == EnvKey(b)
    ensures a == b
  {
    forall j | 0 <= j < |a| ensures a[j] == b[j] {
      assert EnvChar(a[j]) == EnvChar(b[j]);
    }
  }

  lemma EnvKeyExample()
    ensures EnvKey("my-str") == "MY_STR"
  {
  }

  /** The value the environment supplies to dial `name`, if it supplies a usable one. */
  function EnvValue(ds: seq<Dial>, env: map<string, string>, name: string): Option<Value> {
    match KindAt(ds, name)
    case None => None
    case Some(k) =>
      if EnvKey(name) !in env then None
      else match ParseAs(name, k, env[EnvKey(name)])
        case Err(_) => None
        case Ok(v) => Some(v)
  }

  /** Reads the environment variable of each dial from `ds[j]` on. A variable that
      does not convert stops the pass. */
  function ApplyEnv(ds: seq<Dial>, env: map<string, string>, vals: map<string, Value>, j: nat): (r: Step)
    requires j <= |ds|
    ensures r.values.Keys >= vals.Keys
    decreases |ds| - j
  {
    if j == |ds| then Step(vals, None)
    else
      var name := ds[j].name;
      match KindOf(ds[j].valueType)
      case None => ApplyEnv(ds, env, vals, j + 1)
      case Some(k) =>
        if EnvKey(name) !in env then ApplyEnv(ds, env, vals, j + 1)
        else match ParseAs(name, k, env[EnvKey(name)])
          case Err(e) => Step(vals, Some(e))
          case Ok(v) => ApplyEnv(ds, env, vals[name := v], j + 1)
  }

  // ----------------------------------------------------------- config files

  /** Accepts a config value for a dial of kind `k`: a value of that kind, or a
      single element for a list kind, which becomes a one-element list. */
  function FromConfig(path: string, name: string, k: Kind, v: Value): (r: Result<Value>)
    ensures r.Ok? ==> HasKind(r.value, k)
    ensures HasKind(v, k) ==> r == Ok(v)
    ensures r.Err? ==> r.error == BadConfigValue(path, name)
  {
    if HasKind(v, k) then Ok(v)
    else if k == StringsKind && v.Str? then Ok(Strs([v.s]))
    else if k == IntsKind && HasKind(v, IntKind) then Ok(Ints([v.i]))
    else if k == FloatsKind && v.Float? then Ok(Floats([v.f]))
    else Err(BadConfigValue(path, name))
  }

  /** The value config file `file` supplies to dial `name`, if it supplies a usable one. */
  function FileValue(ds: seq<Dial>, path: string, file: map<string, Value>, name: string): Option<Value> {
    match KindAt(ds, name)
    case None => None
    case Some(k) =>
      if name !in file then None
      else match FromConfig(path, name, k, file[name])
        case Err(_) => None
        case Ok(v) => Some(v)
  }

  /** The value the latest file in `paths` that sets dial `name` supplies. */
  function LastFileValue(ds: seq<Dial>, paths: seq<string>, config: map<string, map<string, Value>>, name: string): Option<Value>
    decreases |paths|
  {
    if paths == [] then None
    else
      var later := LastFileValue(ds, paths[1..], config, name);
      if later.Some? then later
      else if paths[0] in config then FileValue(ds, paths[0], config[paths[0]], name)
      else None
  }

  /** Applies one parsed file to the dials from `ds[j]` on. */
  function ApplyFile(ds: seq<Dial>, path: string, file: map<string, Value>, vals: map<string, Value>, j: nat): (r: Step)
    requires j <= |ds|
    ensures r.values.Keys >= vals.Keys
    decreases |ds| - j
  {
    if j == |ds| then Step(vals, None)
    else
      var name := ds[j].name;
      match KindOf(ds[j].valueType)
      case None => ApplyFile(ds, path, file, vals, j + 1)
      case Some(k) =>
        if name !in file then ApplyFile(ds, path, file, vals, j + 1)
        else match FromConfig(path, name, k, file[name])
          case Err(e) => Step(vals, Some(e))
          case Ok(v) => ApplyFile(ds, path, file, vals[name := v], j + 1)
  }

  /** Applies the files in the order they were added. `config` holds what reading
      and parsing each path produced; a path missing from it could not be read. */
  function ApplyFiles(ds: seq<Dial>, paths: seq<string>, config: map<string, map<string, Value>>, vals: map<string, Value>): (r: Step)
    ensures r.values.Keys >= vals.Keys
    decreases |paths|
  {
    if paths == [] then Step(vals, None)
    else if paths[0] !in config then Step(vals, Some(ConfigUnreadable(paths[0])))
    else
      var s := ApplyFile(ds, paths[0], config[paths[0]], vals, 0);
      if s.error.Some? then s else ApplyFiles(ds, paths[1..], config, s.values)
  }

  // ----------------------------------------------------------------- defaults

  /** The values registration seeded: each dial's default, `false` for bools. */
  function Defaults(ds: seq<Dial>): (r: map<string, Value>)
    requires AllValid(ds)
    ensures Seeded(ds, r)
  {
    if ds == [] then map[]
    else
      assert AllValid(ds[1..]) by {
        forall j | 0 <= j < |ds[1..]| ensures AssertValid(ds[1..][j]).None? { assert ds[1..][j] == ds[j + 1]; }
      }
      var rest := Defaults(ds[1..]);
      assert forall j :: 1 <= j < |ds| ==> ds[j] == ds[1..][j - 1];
      rest[ds[0].name := DefaultOf(ds[0])]
  }

  /** Every registered dial, and nothing else, holds its default. */
  lemma {:induction false} DefaultsAt(ds: seq<Dial>, name: string)
    requires AllValid(ds)
    ensures name in Defaults(ds) <==> Lookup(ds, name).Some?
    ensures name in Defaults(ds) ==> Defaults(ds)[name] == DefaultOf(Lookup(ds, name).value)
  {
    if ds != [] {
      assert AllValid(ds[1..]) by {
        forall j | 0 <= j < |ds[1..]| ensures AssertValid(ds[1..][j]).None? { assert ds[1..][j] == ds[j + 1]; }
      }
      DefaultsAt(ds[1..], name);
    }
  }

  // -------------------------------------------------------------------- load

  /** `load`: reseed the defaults, apply the files, then the environment, then
      tokenize the command line (program name first) with fresh positionals. */
  function LoadSpec(ds: seq<Dial>, sh: map<string, string>, paths: seq<string>,
                    config: map<string, map<string, Value>>, env: map<string, string>, args: seq<string>): (r: Scan)
    requires AllValid(ds)
    ensures Seeded(ds, r.values)
  {
    var f := ApplyFiles(ds, paths, config, Defaults(ds));
    if f.error.Some? then Scan(f.values, [], f.error)
    else
      var e := ApplyEnv(ds, env, f.values, 0);
      if e.error.Some? then Scan(e.values, [], e.error)
      else
        var t := ParseTokens(ds, sh, e.values, [], ArgTokens(args));
        assert t.values.Keys >= e.values.Keys >= f.values.Keys >= Defaults(ds).Keys;
        t
  }

  // ------------------------------------------------------------------ lemmas

  /** Looking up in `ds[j..]` either finds `ds[j]` or looks further on. */
  lemma LookupFrom(ds: seq<Dial>, j: nat, name: string)
    requires DistinctNames(ds) && j < |ds|
    ensures Lookup(ds[j..], name) == if ds[j].name == name then Some(ds[j]) else Lookup(ds[j + 1..], name)
    ensures Lookup(ds[j + 1..], ds[j].name).None?
  {
    assert ds[j..][0] == ds[j] && ds[j..][1..] == ds[j + 1..];
    var t := ds[j + 1..];
    forall i | 0 <= i < |t| ensures t[i].name != ds[j].name {
      assert t[i] == ds[j + 1 + i];
    }
  }

  /** A file's value for a dial, seen from `ds[j..]`: `ds[j]` answers for its own
      name, and every other name is answered further on. */
  lemma FileValueFrom(ds: seq<Dial>, path: string, file: map<string, Value>, j: nat, name: string)
    requires DistinctNames(ds) && j < |ds|
    ensures ds[j].name != name ==> FileValue(ds[j..], path, file, name) == FileValue(ds[j + 1..], path, file, name)
    ensures FileValue(ds[j + 1..], path, file, ds[j].name).None?
    ensures var n := ds[j].name;
            FileValue(ds[j..], path, file, n) ==
              if KindOf(ds[j].valueType).None? || n !in file then None
              else if FromConfig(path, n, KindOf(ds[j].valueType).value, file[n]).Err? then None
              else Some(FromConfig(path, n, KindOf(ds[j].valueType).value, file[n]).value)
  {
    LookupFrom(ds, j, name);
    LookupFrom(ds, j, ds[j].name);
  }

  lemma {:induction false} ApplyFileFrom(ds: seq<Dial>, path: string, file: map<string, Value>, vals: map<string, Value>, j: nat, name: string)
    requires DistinctNames(ds) && j <= |ds|
    requires ApplyFile(ds, path, file, vals, j).error.None?
    ensures var r := ApplyFile(ds, path, file, vals, j).values;
            if FileValue(ds[j..], path, file, name).Some? then name in r && r[name] == FileValue(ds[j..], path, file, name).value
            else (name in r <==> name in vals) && (name in vals ==> r[name] == vals[name])
    decreases |ds| - j
  {
    if j < |ds| {
      FileValueFrom(ds, path, file, j, name);
      var n := ds[j].name;
      var next := if KindOf(ds[j].valueType).None? || n !in file then vals
                  else vals[n := FromConfig(path, n, KindOf(ds[j].valueType).value, file[n]).value];
      assert ApplyFile(ds, path, file, vals, j) == ApplyFile(ds, path, file, next, j + 1);
      ApplyFileFrom(ds, path, file, next, j + 1, name);
    }
  }

  /** After one file, a dial it sets holds the file's value; every other stored value is unchanged. */
  lemma ApplyFileAt(ds: seq<Dial>, path: string, file: map<string, Value>, vals: map<string, Value>, name: string)
    requires DistinctNames(ds) && ApplyFile(ds, path, file, vals, 0).error.None?
    ensures var r := ApplyFile(ds, path, file, vals, 0).values;
            if FileValue(ds, path, file, name).Some? then name in r && r[name] == FileValue(ds, path, file, name).value
            else (name in r <==> name in vals) && (name in vals ==> r[name] == vals[name])
  {
    ApplyFileFrom(ds, path, file, vals, 0, name);
    assert ds[0..] == ds;
  }

  /** After all files, a dial holds the value of the latest file that sets it. */
  lemma {:induction false} ApplyFilesAt(ds: seq<Dial>, paths: seq<string>, config: map<string, map<string, Value>>, vals: map<string, Value>, name: string)
    requires DistinctNames(ds) && ApplyFiles(ds, paths, config, vals).error.None?
    ensures var r := ApplyFiles(ds, paths, config, vals).values;
            if LastFileValue(ds, paths, config, name).Some? then name in r && r[name] == LastFileValue(ds, paths, config, name).value
            else (name in r <==> name in vals) && (name in vals ==> r[name] == vals[name])
    decreases |paths|
  {
    if paths != [] {
      var s := ApplyFile(ds, paths[0], config[paths[0]], vals, 0);
      ApplyFileAt(ds, paths[0], config[paths[0]], vals, name);
      ApplyFilesAt(ds, paths[1..], config, s.values, name);
    }
  }

  /** Of two files that set a dial, the one added later wins. */
  lemma {:induction false} LaterFileWins(ds: seq<Dial>, paths: seq<string>, config: map<string, map<string, Value>>, p: string, name: string)
    requires p in config && FileValue(ds, p, config[p], name).Some?
    ensures LastFileValue(ds, paths + [p], config, name) == FileValue(ds, p, config[p], name)
    decreases |paths|
  {
    if paths == [] {
      assert LastFileValue(ds, [p][1..], config, name) == None;
    } else {
      assert (paths + [p])[1..] == paths[1..] + [p];
      LaterFileWins(ds, paths[1..], config, p, name);
    }
  }

  /** The environment's value for a dial, seen from `ds[j..]`: `ds[j]` answers for
      its own name, and every other name is answered further on. */
  lemma EnvValueFrom(ds: seq<Dial>, env: map<string, string>, j: nat, name: string)
    requires DistinctNames(ds) && j < |ds|
    ensures ds[j].name != name ==> EnvValue(ds[j..], env, name) == EnvValue(ds[j + 1..], env, name)
    ensures EnvValue(ds[j + 1..], env, ds[j].name).None?
    ensures var n := ds[j].name;
            EnvValue(ds[j..], env, n) ==
              if KindOf(ds[j].valueType).None? || EnvKey(n) !in env then None
              else if ParseAs(n, KindOf(ds[j].valueType).value, env[EnvKey(n)]).Err? then None
              else Some(ParseAs(n, KindOf(ds[j].valueType).value, env[EnvKey(n)]).value)
  {
    LookupFrom(ds, j, name);
    LookupFrom(ds, j, ds[j].name);
  }

  lemma {:induction false} ApplyEnvFrom(ds: seq<Dial>, env: map<string, string>, vals: map<string, Value>, j: nat, name: string)
    requires DistinctNames(ds) && j <= |ds|
    requires ApplyEnv(ds, env, vals, j).error.None?
    ensures var r := ApplyEnv(ds, env, vals, j).values;
            if EnvValue(ds[j..], env, name).Some? then name in r && r[name] == EnvValue(ds[j..], env, name).value
            else (name in r <==> name in vals) && (name in vals ==> r[name] == vals[name])
    decreases |ds| - j
  {
    if j < |ds| {
      EnvValueFrom(ds, env, j, name);
      var n := ds[j].name;
      var next := if KindOf(ds[j].valueType).None? || EnvKey(n) !in env then vals
                  else vals[n := ParseAs(n, KindOf(ds[j].valueType).value, env[EnvKey(n)]).value];
      assert ApplyEnv(ds, env, vals, j) == ApplyEnv(ds, env, next, j + 1);
      ApplyEnvFrom(ds, env, next, j + 1, name);
    }
  }

  /** After the environment pass, a dial whose variable is set holds the converted
      variable; every other stored value is unchanged. */
  lemma ApplyEnvAt(ds: seq<Dial>, env: map<string, string>, vals: map<string, Value>, name: string)
    requires DistinctNames(ds) && ApplyEnv(ds, env, vals, 0).error.None?
    ensures var r := ApplyEnv(ds, env, vals, 0).values;
            if EnvValue(ds, env, name).Some? then name in r && r[name] == EnvValue(ds, env, name).value
            else (name in r <==> name in vals) && (name in vals ==> r[name] == vals[name])
  {
    ApplyEnvFrom(ds, env, vals, 0, name);
    assert ds[0..] == ds;
  }

  lemma {:induction false} ApplyFileKeepsTyped(ds: seq<Dial>, path: string, file: map<string, Value>, vals: map<string, Value>, j: nat)
    requires DistinctNames(ds) && j <= |ds| && WellTyped(ds, vals)
    ensures WellTyped(ds, ApplyFile(ds, path, file, vals, j).values)
    decreases |ds| - j
  {
    if j < |ds| {
      var n := ds[j].name;
      var ok := KindOf(ds[j].valueType).Some? && n in file;
      if ok && FromConfig(path, n, KindOf(ds[j].valueType).value, file[n]).Ok? {
        var v := FromConfig(path, n, KindOf(ds[j].valueType).value, file[n]).value;
        LookupIndex(ds, j);
        StoreKeepsTyped(ds, vals, n, v);
        assert ApplyFile(ds, path, file, vals, j) == ApplyFile(ds, path, file, vals[n := v], j + 1);
        ApplyFileKeepsTyped(ds, path, file, vals[n := v], j + 1);
      } else if !ok {
        assert ApplyFile(ds, path, file, vals, j) == ApplyFile(ds, path, file, vals, j + 1);
        ApplyFileKeepsTyped(ds, path, file, vals, j + 1);
      }
    }
  }

  lemma {:induction false} ApplyFilesKeepsTyped(ds: seq<Dial>, paths: seq<string>, config: map<string, map<string, Value>>, vals: map<string, Value>)
    requires DistinctNames(ds) && WellTyped(ds, vals)
    ensures WellTyped(ds, ApplyFiles(ds, paths, config, vals).values)
    decreases |paths|
  {
    if paths != [] && paths[0] in config {
      ApplyFileKeepsTyped(ds, paths[0], config[paths[0]], vals, 0);
      ApplyFilesKeepsTyped(ds, paths[1..], config, ApplyFile(ds, paths[0], config[paths[0]], vals, 0).values);
    }
  }

  lemma {:induction false} ApplyEnvKeepsTyped(ds: seq<Dial>, env: map<string, string>, vals: map<string, Value>, j: nat)
    requires DistinctNames(ds) && j <= |ds| && WellTyped(ds, vals)
    ensures WellTyped(ds, ApplyEnv(ds, env, vals, j).values)
    decreases |ds| - j
  {
    if j < |ds| {
      var n := ds[j].name;
      var ok := KindOf(ds[j].valueType).Some? && EnvKey(n) in env;
      if ok && ParseAs(n, KindOf(ds[j].valueType).value, env[EnvKey(n)]).Ok? {
        var v := ParseAs(n, KindOf(ds[j].valueType).value, env[EnvKey(n)]).value;
        LookupIndex(ds, j);
        StoreKeepsTyped(ds, vals, n, v);
        assert ApplyEnv(ds, env, vals, j) == ApplyEnv(ds, env, vals[n := v], j + 1);
        ApplyEnvKeepsTyped(ds, env, vals[n := v], j + 1);
      } else if !ok {
        assert ApplyEnv(ds, env, vals, j) == ApplyEnv(ds, env, vals, j + 1);
        ApplyEnvKeepsTyped(ds, env, vals, j + 1);
      }
    }
  }

  /** The reseeded defaults satisfy the invariant over any valid registration. */
  lemma DefaultsKeepInv(ds: seq<Dial>, sh: map<string, string>)
    requires AllValid(ds) && DistinctNames(ds) && ShorthandsOk(ds, sh)
    ensures Inv(ds, sh, Defaults(ds))
  {
    DefaultsTyped(ds);
  }

  /** Every reseeded default belongs to a registered dial and has its kind. */
  lemma DefaultsTyped(ds: seq<Dial>)
    requires AllValid(ds)
    ensures WellTyped(ds, Defaults(ds))
  {
    var m := Defaults(ds);
    forall name | name in m ensures KindAt(ds, name).Some? && HasKind(m[name], KindAt(ds, name).value) {
      DefaultsAt(ds, name);
    }
  }

  /** What the files and the environment leave is well typed. */
  lemma EnvStageTyped(ds: seq<Dial>, paths: seq<string>, config: map<string, map<string, Value>>, env: map<string, string>)
    requires AllValid(ds) && DistinctNames(ds)
    ensures WellTyped(ds, ApplyEnv(ds, env, ApplyFiles(ds, paths, config, Defaults(ds)).values, 0).values)
  {
    DefaultsTyped(ds);
    ApplyFilesKeepsTyped(ds, paths, config, Defaults(ds));
    ApplyEnvKeepsTyped(ds, env, ApplyFiles(ds, paths, config, Defaults(ds)).values, 0);
  }

  /** Loading establishes the registry invariant, whatever the values held before,
      even when it stops on an error. */
  lemma LoadKeepsInv(ds: seq<Dial>, sh: map<string, string>, paths: seq<string>,
                     config: map<string, map<string, Value>>, env: map<string, string>, args: seq<string>)
    requires AllValid(ds) && DistinctNames(ds) && ShorthandsOk(ds, sh)
    ensures Inv(ds, sh, LoadSpec(ds, sh, paths, config, env, args).values)
  {
    DefaultsKeepInv(ds, sh);
    var f := ApplyFiles(ds, paths, config, Defaults(ds));
    ApplyFilesKeepsTyped(ds, paths, config, Defaults(ds));
    assert Inv(ds, sh, f.values);
    if f.error.None? {
      var e := ApplyEnv(ds, env, f.values, 0);
      ApplyEnvKeepsTyped(ds, env, f.values, 0);
      assert Inv(ds, sh, e.values);
      if e.error.None? {
        ParseKeepsInv(ds, sh, e.values, [], ArgTokens(args));
      }
    }
  }

  /** The first source that supplies a value wins: command line, environment, files, default. */
  function Precedent(cli: Option<Value>, env: Option<Value>, file: Option<Value>, default: Value): Value {
    if cli.Some? then cli.value else if env.Some? then env.value else if file.Some? then file.value else default
  }

  /** The command line `--name value`, or nothing. */
  function CliTokens(name: string, cli: Option<string>): seq<string> {
    if cli.Some? then ["--" + name, cli.value] else []
  }

  function CliValue(ds: seq<Dial>, name: string, cli: Option<string>): Option<Value> {
    if cli.Some? && KindAt(ds, name).Some? && ParseAs(name, KindAt(ds, name).value, cli.value).Ok?
    then Some(ParseAs(name, KindAt(ds, name).value, cli.value).value) else None
  }

  /** For a scalar dial, a successful load yields the command-line value if one was
      given, else the environment's, else the latest file's, else the default. */
  lemma LoadPrecedence(ds: seq<Dial>, sh: map<string, string>, paths: seq<string>,
                       config: map<string, map<string, Value>>, env: map<string, string>,
                       prog: string, cli: Option<string>, j: nat)
    requires AllValid(ds) && DistinctNames(ds) && j < |ds|
    requires DialKind(ds[j]) in {StringKind, IntKind, FloatKind}
    requires LoadSpec(ds, sh, paths, config, env, [prog] + CliTokens(ds[j].name, cli)).error.None?
    ensures var s := LoadSpec(ds, sh, paths, config, env, [prog] + CliTokens(ds[j].name, cli));
            var name := ds[j].name;
            name in s.values && s.positionals == [] &&
            s.values[name] == Precedent(CliValue(ds, name, cli), EnvValue(ds, env, name),
                                        LastFileValue(ds, paths, config, name), DefaultOf(ds[j]))
  {
    var name := ds[j].name;
    var args := [prog] + CliTokens(name, cli);
    ArgTokensAfter(prog, CliTokens(name, cli));
    var f := ApplyFiles(ds, paths, config, Defaults(ds));
    var e := ApplyEnv(ds, env, f.values, 0);
    assert f.error.None? && e.error.None?;
    EnvStage(ds, paths, config, env, j);
    LookupIndex(ds, j);
    CliStage(ds, sh, e.values, name, cli);
  }

  /** The command line `--name` for a bool dial, or nothing. */
  function BoolTokens(name: string, flag: bool): seq<string> {
    if flag then ["--" + name] else []
  }

  /** For a bool dial, a successful load yields true if the command line names it,
      else the environment's value, else the latest file's, else false. */
  lemma LoadPrecedenceBool(ds: seq<Dial>, sh: map<string, string>, paths: seq<string>,
                           config: map<string, map<string, Value>>, env: map<string, string>,
                           prog: string, flag: bool, j: nat)
    requires AllValid(ds) && DistinctNames(ds) && j < |ds| && DialKind(ds[j]) == BoolKind
    requires LoadSpec(ds, sh, paths, config, env, [prog] + BoolTokens(ds[j].name, flag)).error.None?
    ensures var s := LoadSpec(ds, sh, paths, config, env, [prog] + BoolTokens(ds[j].name, flag));
            var name := ds[j].name;
            name in s.values && s.positionals == [] &&
            s.values[name] == Precedent(if flag then Some(Bool(true)) else None, EnvValue(ds, env, name),
                                        LastFileValue(ds, paths, config, name), Bool(false))
  {
    var name := ds[j].name;
    ArgTokensAfter(prog, BoolTokens(name, flag));
    var f := ApplyFiles(ds, paths, config, Defaults(ds));
    var e := ApplyEnv(ds, env, f.values, 0);
    assert f.error.None? && e.error.None?;
    EnvStage(ds, paths, config, env, j);
    LookupIndex(ds, j);
    if flag {
      BoolFlagSetsTrue(ds, sh, e.values, [], name, []);
      assert ["--" + name] + [] == BoolTokens(name, flag);
    }
  }

  /** For a list dial, the command line does not replace the value the other
      sources chose: a successful load appends the elements of every `--name x`,
      in order, to the environment's list, else the latest file's, else the default. */
  lemma LoadPrecedenceList(ds: seq<Dial>, sh: map<string, string>, paths: seq<string>,
                           config: map<string, map<string, Value>>, env: map<string, string>,
                           prog: string, xs: seq<string>, j: nat)
    requires AllValid(ds) && DistinctNames(ds) && j < |ds| && IsList(DialKind(ds[j]))
    requires LoadSpec(ds, sh, paths, config, env, [prog] + Repeated("--" + ds[j].name, xs)).error.None?
    ensures var s := LoadSpec(ds, sh, paths, config, env, [prog] + Repeated("--" + ds[j].name, xs));
            var name := ds[j].name;
            name in s.values && s.positionals == [] && ParseList(name, DialKind(ds[j]), xs).Some? &&
            s.values[name] == Extend(Precedent(None, EnvValue(ds, env, name), LastFileValue(ds, paths, config, name), DefaultOf(ds[j])),
                                     ParseList(name, DialKind(ds[j]), xs).value)
  {
    var name := ds[j].name;
    var toks := Repeated("--" + name, xs);
    ArgTokensAfter(prog, toks);
    var f := ApplyFiles(ds, paths, config, Defaults(ds));
    var e := ApplyEnv(ds, env, f.values, 0);
    assert f.error.None? && e.error.None?;
    EnvStage(ds, paths, config, env, j);
    EnvStageTyped(ds, paths, config, env);
    LookupIndex(ds, j);
    assert toks + [] == toks;
    RepeatedFlagSucceeds(ds, sh, e.values, [], name, xs, []);
    RepeatedFlagAccumulates(ds, sh, e.values, [], name, xs, []);
    AccumulatedList(ds, e.values, name, xs);
  }

  /** The program name comes first and is not a token. */
  lemma ArgTokensAfter(prog: string, toks: seq<string>)
    ensures ArgTokens([prog] + toks) == toks
  {
    assert ([prog] + toks)[1..] == toks;
  }

  lemma EnvStage(ds: seq<Dial>, paths: seq<string>,
                 config: map<string, map<string, Value>>, env: map<string, string>, j: nat)
    requires AllValid(ds) && DistinctNames(ds) && j < |ds|
    requires ApplyFiles(ds, paths, config, Defaults(ds)).error.None?
    requires ApplyEnv(ds, env, ApplyFiles(ds, paths, config, Defaults(ds)).values, 0).error.None?
    ensures var e := ApplyEnv(ds, env, ApplyFiles(ds, paths, config, Defaults(ds)).values, 0).values;
            ds[j].name in e && e[ds[j].name] == Precedent(None, EnvValue(ds, env, ds[j].name),
                                                          LastFileValue(ds, paths, config, ds[j].name), DefaultOf(ds[j]))
  {
    FilesStage(ds, paths, config, j);
    ApplyEnvAt(ds, env, ApplyFiles(ds, paths, config, Defaults(ds)).values, ds[j].name);
  }

  lemma FilesStage(ds: seq<Dial>, paths: seq<string>,
                   config: map<string, map<string, Value>>, j: nat)
    requires AllValid(ds) && DistinctNames(ds) && j < |ds|
    requires ApplyFiles(ds, paths, config, Defaults(ds)).error.None?
    ensures var r := ApplyFiles(ds, paths, config, Defaults(ds)).values;
            ds[j].name in r && r[ds[j].name] == Precedent(None, None, LastFileValue(ds, paths, config, ds[j].name), DefaultOf(ds[j]))
  {
    LookupIndex(ds, j);
    DefaultsAt(ds, ds[j].name);
    ApplyFilesAt(ds, paths, config, Defaults(ds), ds[j].name);
  }

  lemma CliStage(ds: seq<Dial>, sh: map<string, string>, vals: map<string, Value>, name: string, cli: Option<string>)
    requires KindAt(ds, name).Some? && KindAt(ds, name).value in {StringKind, IntKind, FloatKind}
    requires name in vals
    requires ParseTokens(ds, sh, vals, [], CliTokens(name, cli)).error.None?
    ensures var s := ParseTokens(ds, sh, vals, [], CliTokens(name, cli));
            name in s.values && s.positionals == [] &&
            s.values[name] == Precedent(CliValue(ds, name, cli), Some(vals[name]), None, vals[name])
  {
    if cli.Some? {
      ValueFlagConsumesNext(ds, sh, vals, [], name, cli.value, []);
      assert CliTokens(name, cli) == ["--" + name, cli.value] + [];
    }
  }

  /** Tokenizing after the environment pass, so the command line overrides it. */
  lemma LoadArgsOverride(ds: seq<Dial>, sh: map<string, string>, paths: seq<string>,
                         config: map<string, map<string, Value>>, env: map<string, string>, args: seq<string>)
    requires AllValid(ds)
    requires ApplyFiles(ds, paths, config, Defaults(ds)).error.None?
    requires ApplyEnv(ds, env, ApplyFiles(ds, paths, config, Defaults(ds)).values, 0).error.None?
    ensures LoadSpec(ds, sh, paths, config, env, args) ==
              ParseTokens(ds, sh, ApplyEnv(ds, env, ApplyFiles(ds, paths, config, Defaults(ds)).values, 0).values, [], ArgTokens(args))
  {
  }

  // ------------------------------------------------------------ load failures

  /** The environment has no variable for value dial `d`, or one that converts. */
  predicate EnvConverts(d: Dial, env: map<string, string>) {
    KindOf(d.valueType).Some? && EnvKey(d.name) in env ==>
      ParseAs(d.name, KindOf(d.valueType).value, env[EnvKey(d.name)]).Ok?
  }

  predicate EnvOk(ds: seq<Dial>, env: map<string, string>) {
    forall i :: 0 <= i < |ds| ==> EnvConverts(ds[i], env)
  }

  /** The environment pass from `ds[j]` on fails exactly when some dial's variable
      does not convert, and the error then names that dial and that text. */
  lemma {:induction false} ApplyEnvFails(ds: seq<Dial>, env: map<string, string>, vals: map<string, Value>, j: nat)
    requires j <= |ds|
    ensures ApplyEnv(ds, env, vals, j).error.None? <==> forall i :: j <= i < |ds| ==> EnvConverts(ds[i], env)
    ensures ApplyEnv(ds, env, vals, j).error.Some? ==>
              exists i :: j <= i < |ds| && !EnvConverts(ds[i], env) &&
                ApplyEnv(ds, env, vals, j).error.value == BadSyntax(ds[i].name, env[EnvKey(ds[i].name)])
    decreases |ds| - j
  {
    if j < |ds| {
      var name := ds[j].name;
      match KindOf(ds[j].valueType)
      case None =>
        assert EnvConverts(ds[j], env);
        ApplyEnvFails(ds, env, vals, j + 1);
      case Some(k) =>
        if EnvKey(name) !in env {
          assert EnvConverts(ds[j], env);
          ApplyEnvFails(ds, env, vals, j + 1);
        } else {
          match ParseAs(name, k, env[EnvKey(name)])
          case Err(e) =>
            assert !EnvConverts(ds[j], env);
          case Ok(v) =>
            assert EnvConverts(ds[j], env);
            ApplyEnvFails(ds, env, vals[name := v], j + 1);
        }
    }
  }

  /** Config file `file` has no entry for value dial `d`, or one its kind accepts. */
  predicate FileAccepts(d: Dial, path: string, file: map<string, Value>) {
    KindOf(d.valueType).Some? && d.name in file ==>
      FromConfig(path, d.name, KindOf(d.valueType).value, file[d.name]).Ok?
  }

  predicate FileOk(ds: seq<Dial>, path: string, file: map<string, Value>) {
    forall i :: 0 <= i < |ds| ==> FileAccepts(ds[i], path, file)
  }

  /** Every added path was read and every registered key in it is accepted. */
  predicate FilesOk(ds: seq<Dial>, paths: seq<string>, config: map<string, map<string, Value>>) {
    forall p :: 0 <= p < |paths| ==> paths[p] in config && FileOk(ds, paths[p], config[paths[p]])
  }

  /** Applying one file from `ds[j]` on fails exactly when it holds a value some
      dial's kind refuses, and the error then names that file and that dial. */
  lemma {:induction false} ApplyFileFails(ds: seq<Dial>, path: string, file: map<string, Value>, vals: map<string, Value>, j: nat)
    requires j <= |ds|
    ensures ApplyFile(ds, path, file, vals, j).error.None? <==> forall i :: j <= i < |ds| ==> FileAccepts(ds[i], path, file)
    ensures ApplyFile(ds, path, file, vals, j).error.Some? ==>
              exists i :: j <= i < |ds| && !FileAccepts(ds[i], path, file) &&
                ApplyFile(ds, path, file, vals, j).error.value == BadConfigValue(path, ds[i].name)
    decreases |ds| - j
  {
    if j < |ds| {
      var name := ds[j].name;
      match KindOf(ds[j].valueType)
      case None =>
        assert FileAccepts(ds[j], path, file);
        ApplyFileFails(ds, path, file, vals, j + 1);
      case Some(k) =>
        if name !in file {
          assert FileAccepts(ds[j], path, file);
          ApplyFileFails(ds, path, file, vals, j + 1);
        } else {
          match FromConfig(path, name, k, file[name])
          case Err(e) =>
            assert !FileAccepts(ds[j], path, file);
          case Ok(v) =>
            assert FileAccepts(ds[j], path, file);
            ApplyFileFails(ds, path, file, vals[name := v], j + 1);
        }
    }
  }

  /** The file pass fails exactly when some path could not be read or holds a value
      its dial refuses, and the error then names that path. */
  lemma {:induction false} ApplyFilesFails(ds: seq<Dial>, paths: seq<string>, config: map<string, map<string, Value>>, vals: map<string, Value>)
    ensures ApplyFiles(ds, paths, config, vals).error.None? <==> FilesOk(ds, paths, config)
    ensures ApplyFiles(ds, paths, config, vals).error.Some? ==>
              exists p :: 0 <= p < |paths| && !(paths[p] in config && FileOk(ds, paths[p], config[paths[p]])) &&
                (ApplyFiles(ds, paths, config, vals).error.value == ConfigUnreadable(paths[p]) ||
                 (ApplyFiles(ds, paths, config, vals).error.value.BadConfigValue? &&
                  ApplyFiles(ds, paths, config, vals).error.value.path == paths[p]))
    decreases |paths|
  {
    if paths != [] && paths[0] in config {
      var s := ApplyFile(ds, paths[0], config[paths[0]], vals, 0);
      ApplyFileFails(ds, paths[0], config[paths[0]], vals, 0);
      if s.error.None? {
        var rest := paths[1..];
        ApplyFilesFails(ds, rest, config, s.values);
        assert FilesOk(ds, paths, config) <==> FilesOk(ds, rest, config) by {
          if FilesOk(ds, rest, config) {
            forall p | 0 <= p < |paths| ensures paths[p] in config && FileOk(ds, paths[p], config[paths[p]]) {
              if p > 0 { assert paths[p] == rest[p - 1]; }
            }
          }
          if FilesOk(ds, paths, config) {
            forall p | 0 <= p < |rest| ensures rest[p] in config && FileOk(ds, rest[p], config[rest[p]]) {
              assert rest[p] == paths[p + 1];
            }
          }
        }
        if ApplyFiles(ds, rest, config, s.values).error.Some? {
          var p :| 0 <= p < |rest| && !(rest[p] in config && FileOk(ds, rest[p], config[rest[p]])) &&
                   (ApplyFiles(ds, rest, config, s.values).error.value == ConfigUnreadable(rest[p]) ||
                    (ApplyFiles(ds, rest, config, s.values).error.value.BadConfigValue? &&
                     ApplyFiles(ds, rest, config, s.values).error.value.path == rest[p]));
          assert paths[p + 1] == rest[p];
        }
      } else {
        assert !FileOk(ds, paths[0], config[paths[0]]);
      }
    }
  }

  /** `load` fails before the command line exactly when a config file or the
      environment is bad: a bad file reports a file error, a bad variable (after
      good files) a syntax error, and with both good the command line decides. */
  lemma LoadRejectsBadSources(ds: seq<Dial>, sh: map<string, string>, paths: seq<string>,
                              config: map<string, map<string, Value>>, env: map<string, string>, args: seq<string>)
    requires AllValid(ds)
    ensures !FilesOk(ds, paths, config) ==>
              LoadSpec(ds, sh, paths, config, env, args).error.Some? &&
              (LoadSpec(ds, sh, paths, config, env, args).error.value.ConfigUnreadable? ||
               LoadSpec(ds, sh, paths, config, env, args).error.value.BadConfigValue?)
    ensures FilesOk(ds, paths, config) && !EnvOk(ds, env) ==>
              LoadSpec(ds, sh, paths, config, env, args).error.Some? &&
              LoadSpec(ds, sh, paths, config, env, args).error.value.BadSyntax?
    ensures FilesOk(ds, paths, config) && EnvOk(ds, env) ==>
              LoadSpec(ds, sh, paths, config, env, args) ==
                ParseTokens(ds, sh, ApplyEnv(ds, env, ApplyFiles(ds, paths, config, Defaults(ds)).values, 0).values, [], ArgTokens(args))
  {
    var f := ApplyFiles(ds, paths, config, Defaults(ds));
    ApplyFilesFails(ds, paths, config, Defaults(ds));
    ApplyEnvFails(ds, env, f.values, 0);
  }

  // The configuration of the load test: dial `my-str` (shorthand `s`), two files.

  function LoadTestDials(): seq<Dial> {
    [Dial("my-str", "s", "string", Some(Str("")))]
  }

  function LoadTestConfig(): map<string, map<string, Value>> {
    map["test.json" := map["my-str" := Str("json")], "test2.json" := map["my-str" := Str("json2")]]
  }

  function LoadTestShorthands(): map<string, string> {
    map["s" := "my-str"]
  }

  lemma LoadTestInv()
    ensures Inv(LoadTestDials(), LoadTestShorthands(), Defaults(LoadTestDials()))
  {
    var ds := LoadTestDials();
    assert AssertValid(ds[0]).None?;
    DefaultsAt(ds, "my-str");
    forall name | name in Defaults(ds) ensures name == "my-str" { DefaultsAt(ds, name); }
  }

  /** Files alone: the first file, then the second one added after it. */
  lemma LoadScenarioFiles()
    ensures var s := LoadSpec(LoadTestDials(), LoadTestShorthands(), ["test.json"], LoadTestConfig(), map[], []);
            "my-str" in s.values && s.values["my-str"] == Str("json")
    ensures var s := LoadSpec(LoadTestDials(), LoadTestShorthands(), ["test.json", "test2.json"], LoadTestConfig(), map[], []);
            "my-str" in s.values && s.values["my-str"] == Str("json2")
  {
    var ds, sh, config := LoadTestDials(), LoadTestShorthands(), LoadTestConfig();
    LoadTestInv();
    assert FileValue(ds, "test.json", config["test.json"], "my-str") == Some(Str("json"));
    assert FileValue(ds, "test2.json", config["test2.json"], "my-str") == Some(Str("json2"));
    LaterFileWins(ds, [], config, "test.json", "my-str");
    LaterFileWins(ds, ["test.json"], config, "test2.json", "my-str");
    assert [] + ["test.json"] == ["test.json"];
    assert ["test.json"] + ["test2.json"] == ["test.json", "test2.json"];
    LoadPrecedence(ds, sh, ["test.json"], config, map[], "cmd", None, 0);
    LoadPrecedence(ds, sh, ["test.json", "test2.json"], config, map[], "cmd", None, 0);
  }

  /** `MY_STR` overrides both files. */
  lemma LoadScenarioEnv()
    ensures var s := LoadSpec(LoadTestDials(), LoadTestShorthands(), ["test.json", "test2.json"], LoadTestConfig(), map["MY_STR" := "env"], []);
            "my-str" in s.values && s.values["my-str"] == Str("env")
  {
    var ds, sh, config := LoadTestDials(), LoadTestShorthands(), LoadTestConfig();
    var env := map["MY_STR" := "env"];
    LoadTestStages();
    LoadTestInv();
    EnvKeyExample();
    assert EnvValue(ds, env, "my-str") == Some(Str("env"));
    LoadPrecedence(ds, sh, ["test.json", "test2.json"], config, env, "cmd", None, 0);
  }

  /** `-s arg` overrides the environment. */
  lemma LoadScenarioArgs()
    ensures var s := LoadSpec(LoadTestDials(), LoadTestShorthands(), ["test.json", "test2.json"], LoadTestConfig(), map["MY_STR" := "env"], ["cmd", "-s", "arg"]);
            "my-str" in s.values && s.values["my-str"] == Str("arg")
  {
    var ds, sh, config := LoadTestDials(), LoadTestShorthands(), LoadTestConfig();
    var env := map["MY_STR" := "env"];
    var paths := ["test.json", "test2.json"];
    LoadTestStages();
    var e := ApplyEnv(ds, env, ApplyFiles(ds, paths, config, Defaults(ds)).values, 0);
    LoadArgsOverride(ds, sh, paths, config, env, ["cmd", "-s", "arg"]);
    ShortStringFlag(ds, sh, e.values, 's', "arg");
    DashSToken();
  }

  lemma DashSToken()
    ensures ArgTokens(["cmd", "-s", "arg"]) == ["-" + ['s'], "arg"]
  {
    assert "-" + ['s'] == "-s";
  }

  /** Both passes before the command line succeed in the load test. */
  lemma LoadTestStages()
    ensures var ds, config := LoadTestDials(), LoadTestConfig();
            var f := ApplyFiles(ds, ["test.json", "test2.json"], config, Defaults(ds));
            f.error.None? && ApplyEnv(ds, map["MY_STR" := "env"], f.values, 0).error.None?
            && ['s'] in LoadTestShorthands() && KindAt(ds, LoadTestShorthands()[['s']]) == Some(StringKind)
  {
    var ds, config := LoadTestDials(), LoadTestConfig();
    LoadTestInv();
    LookupIndex(ds, 0);
    assert ['s'] == "s";
    var f := ApplyFiles(ds, ["test.json", "test2.json"], config, Defaults(ds));
    assert f.error.None?;
  }

  /** `-c x` for the shorthand of a string dial stores `x` and nothing else. */
  lemma ShortStringFlag(ds: seq<Dial>, sh: map<string, string>, vals: map<string, Value>, c: char, x: string)
    requires IsAlphanumeric(c) && [c] in sh && KindAt(ds, sh[[c]]) == Some(StringKind)
    ensures ParseTokens(ds, sh, vals, [], ["-" + [c], x]) == Scan(vals[sh[[c]] := Str(x)], [], None)
  {
    var name := sh[[c]];
    LongAndShortAgree(ds, sh, vals, [], c, [x]);
    assert ["-" + [c]] + [x] == ["-" + [c], x];
    ValueFlagConsumesNext(ds, sh, vals, [], name, x, []);
    assert ["--" + name, x] + [] == ["--" + name] + [x];
  }
}

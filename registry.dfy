/** The package state of the dials registry: the declared dials, the shorthand
    table, the current values, the positional arguments and the config files,
    and the operations that update them in place. */
module Registries {
  import opened Values
  import opened Declarations
  import opened Table
  import opened Tokenizer
  import opened Resolver

  /** Under the invariant a registered dial always has a stored value of its kind. */
  lemma RegisteredIsStored(ds: seq<Dial>, sh: map<string, string>, vals: map<string, Value>, name: string)
    requires Inv(ds, sh, vals) && KindAt(ds, name).Some?
    ensures name in vals && HasKind(vals[name], KindAt(ds, name).value)
  {
    var d := Lookup(ds, name).value;
    var j :| 0 <= j < |ds| && ds[j] == d;
    assert ds[j].name in vals;
  }

  class Registry {
    var dials: seq<Dial>
    var shorthandNames: map<string, string>
    var values: map<string, Value>
    var positionals: seq<string>
    var configFiles: seq<string>

    ghost predicate Valid()
      reads this
    {
      Inv(dials, shorthandNames, values)
    }

    /** `reset`: every table empty. */
    constructor ()
      ensures Valid()
      ensures dials == [] && shorthandNames == map[] && values == map[]
      ensures positionals == [] && configFiles == []
    {
      dials, shorthandNames, values := [], map[], map[];
      positionals, configFiles := [], [];
    }

    /** `Add`: validate the dial, refuse a taken name or shorthand, then register it,
        claim its shorthand and seed its value. A refused dial changes nothing. */
    method Add(d: Dial) returns (err: Option<Error>)
      requires Valid()
      modifies this
      ensures Valid()
      ensures err == AddCheck(old(dials), old(shorthandNames), d)
      ensures err.None? ==> dials == old(dials) + [d] && shorthandNames == Claim(old(shorthandNames), d)
                            && values == old(values)[d.name := DefaultOf(d)]
      ensures err.Some? ==> dials == old(dials) && shorthandNames == old(shorthandNames) && values == old(values)
      ensures positionals == old(positionals) && configFiles == old(configFiles)
    {
      err := AddCheck(dials, shorthandNames, d);
      if err.None? {
        AddKeepsInv(dials, shorthandNames, values, d);
        dials := dials + [d];
        if d.shorthand != "" {
          shorthandNames := shorthandNames[d.shorthand := d.name];
        }
        values := values[d.name := DefaultOf(d)];
      }
    }

    /** `AddConfigFile`: files are read later, in the order they were added. */
    method AddConfigFile(path: string)
      modifies this
      ensures configFiles == old(configFiles) + [path]
      ensures dials == old(dials) && shorthandNames == old(shorthandNames)
      ensures values == old(values) && positionals == old(positionals)
    {
      configFiles := configFiles + [path];
    }

    /** `setStringValue`: convert `s` for the dial's kind and store it; a list
        dial gets it appended. A failed conversion leaves the values alone. */
    method SetStringValue(name: string, s: string) returns (err: Option<Error>)
      requires Valid()
      modifies this
      ensures Valid()
      ensures var r := SetString(old(dials), old(values), name, s);
              if r.Ok? then err.None? && values == r.value else err == Some(r.error) && values == old(values)
      ensures dials == old(dials) && shorthandNames == old(shorthandNames)
      ensures positionals == old(positionals) && configFiles == old(configFiles)
    {
      var r := SetString(dials, values, name, s);
      if r.Ok? {
        SetStringKeepsTyped(dials, values, name, s);
        values := r.value;
        err := None;
      } else {
        err := Some(r.error);
      }
    }

    /** The characters of a shorthand cluster, left to right: bool dials are set as
        they are met; a value dial's character must come last and is reported as
        pending. */
    method ApplyCluster(cs: string) returns (pending: Option<string>, err: Option<Error>)
      modifies this
      ensures var f := ScanCluster(dials, shorthandNames, old(values), cs);
              values == f.values
              && pending == (if f.Pending? then Some(f.name) else None)
              && err == (if f.Failed? then Some(f.error) else None)
      ensures dials == old(dials) && shorthandNames == old(shorthandNames)
      ensures positionals == old(positionals) && configFiles == old(configFiles)
    {
      ghost var target := ScanCluster(dials, shorthandNames, values, cs);
      pending, err := None, None;
      var i := 0;
      while i < |cs| && pending.None? && err.None?
        invariant 0 <= i <= |cs|
        invariant dials == old(dials) && shorthandNames == old(shorthandNames)
        invariant positionals == old(positionals) && configFiles == old(configFiles)
        invariant pending.None? || err.None?
        invariant pending.None? && err.None? ==> ScanCluster(dials, shorthandNames, values, cs[i..]) == target
        invariant pending.Some? ==> target == Pending(values, pending.value)
        invariant err.Some? ==> target == Failed(values, err.value)
        decreases |cs| - i, if pending.None? && err.None? then 1 else 0
      {
        var c := cs[i];
        assert cs[i..][0] == c && cs[i..][1..] == cs[i + 1..];
        if [c] !in shorthandNames {
          err := Some(UnknownShorthand(c));
        } else {
          var name := shorthandNames[[c]];
          var k := KindAt(dials, name);
          if k.None? {
            err := Some(UnknownShorthand(c));
          } else if k.value == BoolKind {
            values := values[name := Bool(true)];
            i := i + 1;
          } else if i == |cs| - 1 {
            pending := Some(name);
          } else {
            err := Some(ValueFlagNotLast(c));
          }
        }
      }
    }

    /** One token that starts with `-`. */
    method ApplyFlag(tok: string) returns (pending: Option<string>, err: Option<Error>)
      requires IsFlag(tok)
      modifies this
      ensures var f := FlagStep(dials, shorthandNames, old(values), tok);
              values == f.values
              && pending == (if f.Pending? then Some(f.name) else None)
              && err == (if f.Failed? then Some(f.error) else None)
      ensures dials == old(dials) && shorthandNames == old(shorthandNames)
      ensures positionals == old(positionals) && configFiles == old(configFiles)
    {
      pending, err := None, None;
      if IsLong(tok) {
        var name := tok[2..];
        var k := KindAt(dials, name);
        if k.None? {
          err := Some(UnknownFlag(tok));
        } else if k.value == BoolKind {
          values := values[name := Bool(true)];
        } else {
          pending := Some(name);
        }
      } else if |tok| == 1 {
        err := Some(EmptyCluster);
      } else {
        pending, err := ApplyCluster(tok[1..]);
      }
    }

    /** One step of `parseArgs` at `toks[i]`: a positional, a complete flag, or a
        value flag together with the token after it. On success the walk resumes
        at `next`; an error is what the whole walk returns. */
    method ParseToken(toks: seq<string>, i: nat) returns (next: nat, err: Option<Error>)
      requires i < |toks|
      modifies this
      ensures i < next <= |toks|
      ensures var s := ParseTokens(old(dials), old(shorthandNames), old(values), old(positionals), toks[i..]);
              if err.None? then ParseTokens(dials, shorthandNames, values, positionals, toks[next..]) == s
              else s == Scan(values, positionals, err)
      ensures dials == old(dials) && shorthandNames == old(shorthandNames) && configFiles == old(configFiles)
    {
      var tok := toks[i];
      assert toks[i..][0] == tok && toks[i..][1..] == toks[i + 1..];
      next, err := i + 1, None;
      if !IsFlag(tok) {
        positionals := positionals + [tok];
      } else {
        var pending, e := ApplyFlag(tok);
        if e.Some? {
          err := e;
        } else if pending.Some? {
          if i + 1 == |toks| {
            err := Some(MissingValue(pending.value));
          } else {
            assert toks[i..][1] == toks[i + 1] && toks[i..][2..] == toks[i + 2..];
            var r := SetString(dials, values, pending.value, toks[i + 1]);
            if r.Err? {
              err := Some(r.error);
            } else {
              values := r.value;
              next := i + 2;
            }
          }
        }
      }
    }

    /** `parseArgs`: skip the program name, then walk the tokens. Flags update the
        values in place, a value flag takes the next token, any other token is a
        positional. The first error stops the walk and is returned; what was set
        before it stays set. */
    method ParseArgs(args: seq<string>) returns (err: Option<Error>)
      modifies this
      ensures var s := ParseTokens(old(dials), old(shorthandNames), old(values), old(positionals), ArgTokens(args));
              values == s.values && positionals == s.positionals && err == s.error
      ensures old(Valid()) ==> Valid()
      ensures dials == old(dials) && shorthandNames == old(shorthandNames) && configFiles == old(configFiles)
    {
      ghost var target := ParseTokens(dials, shorthandNames, values, positionals, ArgTokens(args));
      if old(Valid()) {
        ParseKeepsInv(dials, shorthandNames, values, positionals, ArgTokens(args));
      }
      var toks := ArgTokens(args);
      err := None;
      var i := 0;
      while i < |toks| && err.None?
        invariant 0 <= i <= |toks|
        invariant dials == old(dials) && shorthandNames == old(shorthandNames) && configFiles == old(configFiles)
        invariant err.None? ==> ParseTokens(dials, shorthandNames, values, positionals, toks[i..]) == target
        invariant err.Some? ==> target == Scan(values, positionals, err)
        decreases |toks| - i, if err.None? then 1 else 0
      {
        i, err := ParseToken(toks, i);
      }
    }

    /** Reads one parsed config file into the values, dial by dial. */
    method ApplyConfig(path: string, file: map<string, Value>) returns (err: Option<Error>)
      modifies this
      ensures var r := ApplyFile(old(dials), path, file, old(values), 0);
              values == r.values && err == r.error
      ensures dials == old(dials) && shorthandNames == old(shorthandNames)
      ensures positionals == old(positionals) && configFiles == old(configFiles)
    {
      ghost var target := ApplyFile(dials, path, file, values, 0);
      err := None;
      var j := 0;
      while j < |dials| && err.None?
        invariant 0 <= j <= |dials|
        invariant dials == old(dials) && shorthandNames == old(shorthandNames)
        invariant positionals == old(positionals) && configFiles == old(configFiles)
        invariant err.None? ==> ApplyFile(dials, path, file, values, j) == target
        invariant err.Some? ==> target == Step(values, err)
        decreases |dials| - j, if err.None? then 1 else 0
      {
        var name := dials[j].name;
        var k := KindOf(dials[j].valueType);
        if k.Some? && name in file {
          var r := FromConfig(path, name, k.value, file[name]);
          if r.Err? {
            err := Some(r.error);
          } else {
            assert ApplyFile(dials, path, file, values, j) == ApplyFile(dials, path, file, values[name := r.value], j + 1);
            values := values[name := r.value];
            j := j + 1;
          }
        } else {
          assert ApplyFile(dials, path, file, values, j) == ApplyFile(dials, path, file, values, j + 1);
          j := j + 1;
        }
      }
    }

    /** Reads the environment variable of each dial into the values. */
    method ApplyEnvironment(env: map<string, string>) returns (err: Option<Error>)
      modifies this
      ensures var r := ApplyEnv(old(dials), env, old(values), 0);
              values == r.values && err == r.error
      ensures dials == old(dials) && shorthandNames == old(shorthandNames)
      ensures positionals == old(positionals) && configFiles == old(configFiles)
    {
      ghost var target := ApplyEnv(dials, env, values, 0);
      err := None;
      var j := 0;
      while j < |dials| && err.None?
        invariant 0 <= j <= |dials|
        invariant dials == old(dials) && shorthandNames == old(shorthandNames)
        invariant positionals == old(positionals) && configFiles == old(configFiles)
        invariant err.None? ==> ApplyEnv(dials, env, values, j) == target
        invariant err.Some? ==> target == Step(values, err)
        decreases |dials| - j, if err.None? then 1 else 0
      {
        var name := dials[j].name;
        var k := KindOf(dials[j].valueType);
        if k.Some? && EnvKey(name) in env {
          var r := ParseAs(name, k.value, env[EnvKey(name)]);
          if r.Err? {
            err := Some(r.error);
          } else {
            assert ApplyEnv(dials, env, values, j) == ApplyEnv(dials, env, values[name := r.value], j + 1);
            values := values[name := r.value];
            j := j + 1;
          }
        } else {
          assert ApplyEnv(dials, env, values, j) == ApplyEnv(dials, env, values, j + 1);
          j := j + 1;
        }
      }
    }

    /** The config files in the order they were added; the first that cannot be
        read or does not fit its dials stops the pass. */
    method ApplyConfigFiles(config: map<string, map<string, Value>>) returns (err: Option<Error>)
      modifies this
      ensures var f := ApplyFiles(old(dials), old(configFiles), config, old(values));
              values == f.values && err == f.error
      ensures dials == old(dials) && shorthandNames == old(shorthandNames)
      ensures positionals == old(positionals) && configFiles == old(configFiles)
    {
      ghost var f := ApplyFiles(dials, configFiles, config, values);
      err := None;
      var i := 0;
      while i < |configFiles| && err.None?
        invariant 0 <= i <= |configFiles|
        invariant dials == old(dials) && shorthandNames == old(shorthandNames)
        invariant positionals == old(positionals) && configFiles == old(configFiles)
        invariant err.None? ==> ApplyFiles(dials, configFiles[i..], config, values) == f
        invariant err.Some? ==> f == Step(values, err)
        decreases |configFiles| - i, if err.None? then 1 else 0
      {
        var path := configFiles[i];
        assert configFiles[i..][0] == path && configFiles[i..][1..] == configFiles[i + 1..];
        if path !in config {
          err := Some(ConfigUnreadable(path));
        } else {
          err := ApplyConfig(path, config[path]);
          i := i + 1;
        }
      }
    }

    /** `load`: reseed every dial's default, apply the config files in the order
        they were added, then the environment, then the command line. `config`
        holds the parsed contents of every file that could be read; `env` is the
        process environment. */
    method Load(args: seq<string>, config: map<string, map<string, Value>>, env: map<string, string>) returns (err: Option<Error>)
      requires AllValid(dials) && DistinctNames(dials) && ShorthandsOk(dials, shorthandNames)
      modifies this
      ensures Valid()
      ensures var s := LoadSpec(old(dials), old(shorthandNames), old(configFiles), config, env, args);
              values == s.values && positionals == s.positionals && err == s.error
      ensures dials == old(dials) && shorthandNames == old(shorthandNames) && configFiles == old(configFiles)
    {
      ghost var spec := LoadSpec(dials, shorthandNames, configFiles, config, env, args);
      ghost var f := ApplyFiles(dials, configFiles, config, Defaults(dials));
      values := Defaults(dials);
      positionals := [];
      err := ApplyConfigFiles(config);
      if err.None? {
        ghost var e := ApplyEnv(dials, env, f.values, 0);
        err := ApplyEnvironment(env);
        if err.None? {
          assert spec == ParseTokens(dials, shorthandNames, e.values, [], ArgTokens(args));
          err := ParseArgs(args);
        } else {
          assert spec == Scan(e.values, [], e.error);
        }
      } else {
        assert spec == Scan(f.values, [], f.error);
      }
      LoadKeepsInv(dials, shorthandNames, configFiles, config, env, args);
    }

    // Typed accessors. Each requires the dial to be registered with that kind.

    function BoolValue(name: string): (r: bool)
      reads this
      requires Valid() && KindAt(dials, name) == Some(BoolKind)
      ensures name in values && values[name] == Bool(r)
    {
      RegisteredIsStored(dials, shorthandNames, values, name);
      values[name].b
    }

    function StringValue(name: string): (r: string)
      reads this
      requires Valid() && KindAt(dials, name) == Some(StringKind)
      ensures name in values && values[name] == Str(r)
    {
      RegisteredIsStored(dials, shorthandNames, values, name);
      values[name].s
    }

    function IntValue(name: string): (r: int)
      reads this
      requires Valid() && KindAt(dials, name) == Some(IntKind)
      ensures name in values && values[name] == Int(r) && MinInt <= r <= MaxInt
    {
      RegisteredIsStored(dials, shorthandNames, values, name);
      values[name].i
    }

    function FloatValue(name: string): (r: real)
      reads this
      requires Valid() && KindAt(dials, name) == Some(FloatKind)
      ensures name in values && values[name] == Float(r)
    {
      RegisteredIsStored(dials, shorthandNames, values, name);
      values[name].f
    }

    function StringValues(name: string): (r: seq<string>)
      reads this
      requires Valid() && KindAt(dials, name) == Some(StringsKind)
      ensures name in values && values[name] == Strs(r)
    {
      RegisteredIsStored(dials, shorthandNames, values, name);
      values[name].ss
    }

    function IntValues(name: string): (r: seq<int>)
      reads this
      requires Valid() && KindAt(dials, name) == Some(IntsKind)
      ensures name in values && values[name] == Ints(r)
      ensures forall j :: 0 <= j < |r| ==> MinInt <= r[j] <= MaxInt
    {
      RegisteredIsStored(dials, shorthandNames, values, name);
      values[name].ns
    }

    function FloatValues(name: string): (r: seq<real>)
      reads this
      requires Valid() && KindAt(dials, name) == Some(FloatsKind)
      ensures name in values && values[name] == Floats(r)
    {
      RegisteredIsStored(dials, shorthandNames, values, name);
      values[name].fs
    }
  }
}

/** The command-line tokenizer of `parseArgs`, as a function of the registry
    tables and the remaining tokens. The `Registry` class runs it as a loop. */
module Tokenizer {
  import opened Values
  import opened Declarations
  import opened Table

  /** What a scan leaves behind: the values and positionals as they stand when it
      finished or stopped, and the error that stopped it. */
  datatype Scan = Scan(values: map<string, Value>, positionals: seq<string>, error: Option<Error>)

  /** The outcome of one flag token: it is complete, it still needs the next token
      as the value of dial `name`, or it failed. */
  datatype Flag =
    | Done(values: map<string, Value>)
    | Pending(values: map<string, Value>, name: string)
    | Failed(values: map<string, Value>, error: Error)

  predicate IsFlag(tok: string) { |tok| >= 1 && tok[0] == '-' }

  predicate IsLong(tok: string) { |tok| >= 2 && tok[0] == '-' && tok[1] == '-' }

  /** The tokens after the program name. */
  function ArgTokens(args: seq<string>): (toks: seq<string>)
    ensures |args| > 0 ==> toks == args[1..]
  {
    if args == [] then [] else args[1..]
  }

  /** Scans the characters of a shorthand cluster left to right. Bool shorthands
      are set to true; a value shorthand must be the last character. */
  function ScanCluster(ds: seq<Dial>, sh: map<string, string>, vals: map<string, Value>, cs: string): (r: Flag)
    ensures r.values.Keys >= vals.Keys
    ensures WellTyped(ds, vals) ==> WellTyped(ds, r.values)
    ensures r.Pending? ==> KindAt(ds, r.name).Some? && KindAt(ds, r.name).value != BoolKind
    decreases |cs|
  {
    if cs == [] then Done(vals)
    else if [cs[0]] !in sh then Failed(vals, UnknownShorthand(cs[0]))
    else
      var name := sh[[cs[0]]];
      match KindAt(ds, name)
      case None => Failed(vals, UnknownShorthand(cs[0]))
      case Some(k) =>
        if k == BoolKind then ScanCluster(ds, sh, vals[name := Bool(true)], cs[1..])
        else if |cs| == 1 then Pending(vals, name)
        else Failed(vals, ValueFlagNotLast(cs[0]))
  }

  /** One token that starts with `-`: a long flag `--name`, or a shorthand cluster. */
  function FlagStep(ds: seq<Dial>, sh: map<string, string>, vals: map<string, Value>, tok: string): (r: Flag)
    requires IsFlag(tok)
    ensures r.values.Keys >= vals.Keys
    ensures WellTyped(ds, vals) ==> WellTyped(ds, r.values)
    ensures r.Pending? ==> KindAt(ds, r.name).Some? && KindAt(ds, r.name).value != BoolKind
    ensures IsLong(tok) && KindAt(ds, tok[2..]).None? ==> r == Failed(vals, UnknownFlag(tok))
    ensures tok == "-" ==> r == Failed(vals, EmptyCluster)
  {
    if IsLong(tok) then
      var name := tok[2..];
      match KindAt(ds, name)
      case None => Failed(vals, UnknownFlag(tok))
      case Some(k) => if k == BoolKind then Done(vals[name := Bool(true)]) else Pending(vals, name)
    else if |tok| == 1 then Failed(vals, EmptyCluster)
    else ScanCluster(ds, sh, vals, tok[1..])
  }

  /** `parseArgs` over the tokens after the program name: flags update `vals`,
      a value flag takes the next token, anything else is appended to `pos`. */
  function ParseTokens(ds: seq<Dial>, sh: map<string, string>, vals: map<string, Value>, pos: seq<string>, toks: seq<string>): (r: Scan)
    ensures r.values.Keys >= vals.Keys
    ensures pos <= r.positionals
    ensures forall k :: |pos| <= k < |r.positionals| ==> r.positionals[k] in toks && !IsFlag(r.positionals[k])
    decreases |toks|
  {
    if toks == [] then Scan(vals, pos, None)
    else if !IsFlag(toks[0]) then
      var r := ParseTokens(ds, sh, vals, pos + [toks[0]], toks[1..]);
      assert forall k :: |pos| <= k < |r.positionals| ==> r.positionals[k] in toks by {
        forall k | |pos| <= k < |r.positionals| ensures r.positionals[k] in toks {
          if k == |pos| { assert r.positionals[k] == (pos + [toks[0]])[k]; }
        }
      }
      r
    else match FlagStep(ds, sh, vals, toks[0])
      case Failed(v, e) => Scan(v, pos, Some(e))
      case Done(v) => ParseTokens(ds, sh, v, pos, toks[1..])
      case Pending(v, name) =>
        if |toks| < 2 then Scan(v, pos, Some(MissingValue(name)))
        else match SetString(ds, v, name, toks[1])
          case Err(e) => Scan(v, pos, Some(e))
          case Ok(v2) => ParseTokens(ds, sh, v2, pos, toks[2..])
  }

  /** Tokenizing never stores a value of the wrong kind, even when it stops early. */
  lemma {:induction false} ParseKeepsTyped(ds: seq<Dial>, sh: map<string, string>, vals: map<string, Value>, pos: seq<string>, toks: seq<string>)
    requires WellTyped(ds, vals)
    ensures WellTyped(ds, ParseTokens(ds, sh, vals, pos, toks).values)
    decreases |toks|
  {
    if toks == [] {
    } else if !IsFlag(toks[0]) {
      ParseKeepsTyped(ds, sh, vals, pos + [toks[0]], toks[1..]);
    } else {
      var f := FlagStep(ds, sh, vals, toks[0]);
      if f.Done? {
        ParseKeepsTyped(ds, sh, f.values, pos, toks[1..]);
      } else if f.Pending? && |toks| >= 2 && SetString(ds, f.values, f.name, toks[1]).Ok? {
        SetStringKeepsTyped(ds, f.values, f.name, toks[1]);
        ParseKeepsTyped(ds, sh, SetString(ds, f.values, f.name, toks[1]).value, pos, toks[2..]);
      }
    }
  }

  /** Tokenizing keeps the registry invariant. */
  lemma ParseKeepsInv(ds: seq<Dial>, sh: map<string, string>, vals: map<string, Value>, pos: seq<string>, toks: seq<string>)
    requires Inv(ds, sh, vals)
    ensures Inv(ds, sh, ParseTokens(ds, sh, vals, pos, toks).values)
  {
    ParseKeepsTyped(ds, sh, vals, pos, toks);
  }

  /** Tokens that are not flags are all positionals, in order, and change no value. */
  lemma {:induction false} PlainTokensArePositionals(ds: seq<Dial>, sh: map<string, string>, vals: map<string, Value>, pos: seq<string>, toks: seq<string>)
    requires forall j :: 0 <= j < |toks| ==> !IsFlag(toks[j])
    ensures ParseTokens(ds, sh, vals, pos, toks) == Scan(vals, pos + toks, None)
    decreases |toks|
  {
    if toks != [] {
      PlainTokensArePositionals(ds, sh, vals, pos + [toks[0]], toks[1..]);
      assert pos + [toks[0]] + toks[1..] == pos + toks;
    }
  }

  /** A token that is not a flag is appended to the positionals, and the walk goes on. */
  lemma PositionalStep(ds: seq<Dial>, sh: map<string, string>, vals: map<string, Value>, pos: seq<string>, tok: string, rest: seq<string>)
    requires !IsFlag(tok)
    ensures ParseTokens(ds, sh, vals, pos, [tok] + rest) == ParseTokens(ds, sh, vals, pos + [tok], rest)
  {
    assert ([tok] + rest)[0] == tok && ([tok] + rest)[1..] == rest;
  }

  /** A flag token that completes on its own is followed by the rest of the tokens. */
  lemma DoneFlagStep(ds: seq<Dial>, sh: map<string, string>, vals: map<string, Value>, pos: seq<string>, tok: string, rest: seq<string>)
    requires IsFlag(tok) && FlagStep(ds, sh, vals, tok).Done?
    ensures ParseTokens(ds, sh, vals, pos, [tok] + rest) == ParseTokens(ds, sh, FlagStep(ds, sh, vals, tok).values, pos, rest)
  {
    assert ([tok] + rest)[0] == tok && ([tok] + rest)[1..] == rest;
  }

  /** A flag token that still needs a value converts the next token for its dial. */
  lemma PendingFlagStep(ds: seq<Dial>, sh: map<string, string>, vals: map<string, Value>, pos: seq<string>, tok: string, x: string, rest: seq<string>)
    requires IsFlag(tok) && FlagStep(ds, sh, vals, tok).Pending?
    ensures var f := FlagStep(ds, sh, vals, tok);
            ParseTokens(ds, sh, vals, pos, [tok, x] + rest) ==
              if SetString(ds, f.values, f.name, x).Ok? then ParseTokens(ds, sh, SetString(ds, f.values, f.name, x).value, pos, rest)
              else Scan(f.values, pos, Some(SetString(ds, f.values, f.name, x).error))
  {
    var toks := [tok, x] + rest;
    assert toks[0] == tok && toks[1] == x && toks[2..] == rest;
  }

  /** A bool flag takes no argument and sets its dial to true. */
  lemma BoolFlagSetsTrue(ds: seq<Dial>, sh: map<string, string>, vals: map<string, Value>, pos: seq<string>, name: string, rest: seq<string>)
    requires KindAt(ds, name) == Some(BoolKind)
    ensures ParseTokens(ds, sh, vals, pos, ["--" + name] + rest) == ParseTokens(ds, sh, vals[name := Bool(true)], pos, rest)
  {
    var toks := ["--" + name] + rest;
    assert toks[0][2..] == name;
    assert toks[1..] == rest;
  }

  /** A value flag consumes the next token, converted as `setStringValue` does. */
  lemma ValueFlagConsumesNext(ds: seq<Dial>, sh: map<string, string>, vals: map<string, Value>, pos: seq<string>, name: string, x: string, rest: seq<string>)
    requires KindAt(ds, name).Some? && KindAt(ds, name).value != BoolKind
    ensures ParseTokens(ds, sh, vals, pos, ["--" + name, x] + rest) ==
              if SetString(ds, vals, name, x).Ok? then ParseTokens(ds, sh, SetString(ds, vals, name, x).value, pos, rest)
              else Scan(vals, pos, Some(SetString(ds, vals, name, x).error))
  {
    var toks := ["--" + name, x] + rest;
    assert toks[0][2..] == name;
    assert toks[2..] == rest;
  }

  /** A value flag with nothing after it is an error. */
  lemma ValueFlagNeedsValue(ds: seq<Dial>, sh: map<string, string>, vals: map<string, Value>, pos: seq<string>, name: string)
    requires KindAt(ds, name).Some? && KindAt(ds, name).value != BoolKind
    ensures ParseTokens(ds, sh, vals, pos, ["--" + name]) == Scan(vals, pos, Some(MissingValue(name)))
  {
    assert ["--" + name][0][2..] == name;
  }

  /** An unregistered long flag is an error. */
  lemma UnknownLongFlagFails(ds: seq<Dial>, sh: map<string, string>, vals: map<string, Value>, pos: seq<string>, name: string, rest: seq<string>)
    requires KindAt(ds, name).None?
    ensures ParseTokens(ds, sh, vals, pos, ["--" + name] + rest) == Scan(vals, pos, Some(UnknownFlag("--" + name)))
  {
    var toks := ["--" + name] + rest;
    assert toks[0][2..] == name;
  }

  /** A bare `--` names no dial, since no valid dial has the empty name. */
  lemma DoubleDashFails(ds: seq<Dial>, sh: map<string, string>, vals: map<string, Value>, pos: seq<string>, rest: seq<string>)
    requires AllValid(ds)
    ensures ParseTokens(ds, sh, vals, pos, ["--"] + rest) == Scan(vals, pos, Some(UnknownFlag("--")))
  {
    forall j | 0 <= j < |ds| ensures ds[j].name != "" {
      ValidDialKeys(ds[j]);
    }
    UnknownLongFlagFails(ds, sh, vals, pos, "", rest);
    assert "--" + "" == "--";
  }

  /** The shorthand of a dial and its long name are interchangeable. */
  lemma LongAndShortAgree(ds: seq<Dial>, sh: map<string, string>, vals: map<string, Value>, pos: seq<string>, c: char, rest: seq<string>)
    requires IsAlphanumeric(c) && [c] in sh && KindAt(ds, sh[[c]]).Some?
    ensures ParseTokens(ds, sh, vals, pos, ["-" + [c]] + rest) == ParseTokens(ds, sh, vals, pos, ["--" + sh[[c]]] + rest)
  {
    var name := sh[[c]];
    var short, long := ["-" + [c]] + rest, ["--" + name] + rest;
    assert short[0][1..] == [c] && [c][1..] == [];
    assert long[0][2..] == name;
    assert !IsLong(short[0]) && |short[0]| == 2;
    if KindAt(ds, name) == Some(BoolKind) {
      assert ScanCluster(ds, sh, vals, [c]) == ScanCluster(ds, sh, vals[name := Bool(true)], []);
    }
    assert FlagStep(ds, sh, vals, short[0]) == FlagStep(ds, sh, vals, long[0]);
    assert short[1..] == rest == long[1..];
    if |rest| > 0 {
      assert short[1] == long[1] && short[2..] == long[2..];
    }
  }

  // ------------------------------------------------------ shorthand clusters

  /** Every character of `cs` is the shorthand of a bool dial. */
  predicate AllBoolShorthands(ds: seq<Dial>, sh: map<string, string>, cs: string) {
    forall j :: 0 <= j < |cs| ==> [cs[j]] in sh && KindAt(ds, sh[[cs[j]]]) == Some(BoolKind)
  }

  /** A cluster of bool shorthands sets every one of them to true and nothing else. */
  lemma {:induction false} BoolClusterSetsAll(ds: seq<Dial>, sh: map<string, string>, vals: map<string, Value>, cs: string)
    requires AllBoolShorthands(ds, sh, cs)
    ensures ScanCluster(ds, sh, vals, cs).Done?
    ensures forall j :: 0 <= j < |cs| ==> sh[[cs[j]]] in ScanCluster(ds, sh, vals, cs).values && ScanCluster(ds, sh, vals, cs).values[sh[[cs[j]]]] == Bool(true)
    ensures forall n :: n in vals && (forall j :: 0 <= j < |cs| ==> sh[[cs[j]]] != n) ==> ScanCluster(ds, sh, vals, cs).values[n] == vals[n]
    decreases |cs|
  {
    if cs != [] {
      var name := sh[[cs[0]]];
      var vals' := vals[name := Bool(true)];
      assert AllBoolShorthands(ds, sh, cs[1..]) by {
        forall j | 0 <= j < |cs[1..]| ensures [cs[1..][j]] in sh && KindAt(ds, sh[[cs[1..][j]]]) == Some(BoolKind) {
          assert cs[1..][j] == cs[j + 1];
        }
      }
      BoolClusterSetsAll(ds, sh, vals', cs[1..]);
      var r := ScanCluster(ds, sh, vals', cs[1..]);
      assert ScanCluster(ds, sh, vals, cs) == r;
      forall j | 0 <= j < |cs| ensures sh[[cs[j]]] in r.values && r.values[sh[[cs[j]]]] == Bool(true) {
        if j > 0 {
          assert cs[j] == cs[1..][j - 1];
        } else if exists i :: 0 <= i < |cs[1..]| && sh[[cs[1..][i]]] == name {
        } else {
          assert name in vals';
        }
      }
      forall n | n in vals && (forall j :: 0 <= j < |cs| ==> sh[[cs[j]]] != n) ensures r.values[n] == vals[n] {
        assert sh[[cs[0]]] != n;
        assert forall j :: 0 <= j < |cs[1..]| ==> sh[[cs[1..][j]]] == sh[[cs[j + 1]]];
      }
    }
  }

  /** After a run of bool shorthands the rest of the cluster is read as if it
      stood alone, on the values the run left. */
  lemma {:induction false} ClusterSuffix(ds: seq<Dial>, sh: map<string, string>, vals: map<string, Value>, a: string, b: string)
    requires AllBoolShorthands(ds, sh, a)
    ensures ScanCluster(ds, sh, vals, a).Done?
    ensures ScanCluster(ds, sh, vals, a + b) == ScanCluster(ds, sh, ScanCluster(ds, sh, vals, a).values, b)
    decreases |a|
  {
    if a == [] {
      assert a + b == b;
    } else {
      var name := sh[[a[0]]];
      assert (a + b)[0] == a[0] && (a + b)[1..] == a[1..] + b;
      assert AllBoolShorthands(ds, sh, a[1..]) by {
        forall j | 0 <= j < |a[1..]| ensures [a[1..][j]] in sh && KindAt(ds, sh[[a[1..][j]]]) == Some(BoolKind) {
          assert a[1..][j] == a[j + 1];
        }
      }
      ClusterSuffix(ds, sh, vals[name := Bool(true)], a[1..], b);
    }
  }

  /** A value shorthand anywhere but last in a cluster is an error. */
  lemma {:induction false} ValueShorthandNotLastFails(ds: seq<Dial>, sh: map<string, string>, vals: map<string, Value>, cs: string, j: nat)
    requires j + 1 < |cs| && AllBoolShorthands(ds, sh, cs[..j])
    requires [cs[j]] in sh && KindAt(ds, sh[[cs[j]]]).Some? && KindAt(ds, sh[[cs[j]]]).value != BoolKind
    ensures ScanCluster(ds, sh, vals, cs).Failed? && ScanCluster(ds, sh, vals, cs).error == ValueFlagNotLast(cs[j])
    decreases j
  {
    if j > 0 {
      assert cs[..j][0] == cs[0];
      var t := cs[1..][..j - 1];
      assert AllBoolShorthands(ds, sh, t) by {
        forall i | 0 <= i < |t| ensures [t[i]] in sh && KindAt(ds, sh[[t[i]]]) == Some(BoolKind) {
          assert t[i] == cs[..j][i + 1];
        }
      }
      assert cs[1..][j - 1] == cs[j];
      ValueShorthandNotLastFails(ds, sh, vals[sh[[cs[0]]] := Bool(true)], cs[1..], j - 1);
    }
  }

  /** A shorthand character that names no dial fails the cluster where it stands,
      with the values the bool shorthands before it left; it is never skipped. */
  lemma {:induction false} UnknownShorthandFails(ds: seq<Dial>, sh: map<string, string>, vals: map<string, Value>, cs: string, j: nat)
    requires j < |cs| && AllBoolShorthands(ds, sh, cs[..j])
    requires [cs[j]] !in sh || KindAt(ds, sh[[cs[j]]]).None?
    ensures ScanCluster(ds, sh, vals, cs) == Failed(ScanCluster(ds, sh, vals, cs[..j]).values, UnknownShorthand(cs[j]))
    decreases j
  {
    if j > 0 {
      assert cs[..j][0] == cs[0];
      var t := cs[1..][..j - 1];
      assert cs[..j][1..] == t;
      assert AllBoolShorthands(ds, sh, t) by {
        forall i | 0 <= i < |t| ensures [t[i]] in sh && KindAt(ds, sh[[t[i]]]) == Some(BoolKind) {
          assert t[i] == cs[..j][i + 1];
        }
      }
      assert cs[1..][j - 1] == cs[j];
      UnknownShorthandFails(ds, sh, vals[sh[[cs[0]]] := Bool(true)], cs[1..], j - 1);
    }
  }

  // --------------------------------------------------- repeated list flags

  /** `--name x` once for each `x` of `xs`. */
  function Repeated(flag: string, xs: seq<string>): (toks: seq<string>)
    ensures |toks| == 2 * |xs|
  {
    if xs == [] then [] else [flag, xs[0]] + Repeated(flag, xs[1..])
  }

  /** The first occurrence comes before the others. */
  lemma RepeatedCons(flag: string, xs: seq<string>, rest: seq<string>)
    requires xs != []
    ensures Repeated(flag, xs) + rest == [flag, xs[0]] + (Repeated(flag, xs[1..]) + rest)
  {
  }

  /** What `setStringValue` leaves after converting each of `xs` in turn, if all convert. */
  function Accumulated(ds: seq<Dial>, vals: map<string, Value>, name: string, xs: seq<string>): Option<map<string, Value>>
    decreases |xs|
  {
    if xs == [] then Some(vals)
    else match SetString(ds, vals, name, xs[0])
      case Err(_) => None
      case Ok(v) => Accumulated(ds, v, name, xs[1..])
  }

  /** Repeating a value flag converts its arguments one after another, in order. */
  lemma {:induction false} RepeatedFlagAccumulates(ds: seq<Dial>, sh: map<string, string>, vals: map<string, Value>, pos: seq<string>, name: string, xs: seq<string>, rest: seq<string>)
    requires KindAt(ds, name).Some? && KindAt(ds, name).value != BoolKind
    requires Accumulated(ds, vals, name, xs).Some?
    ensures ParseTokens(ds, sh, vals, pos, Repeated("--" + name, xs) + rest) ==
              ParseTokens(ds, sh, Accumulated(ds, vals, name, xs).value, pos, rest)
    decreases |xs|
  {
    if xs == [] {
      assert Repeated("--" + name, xs) + rest == rest;
    } else {
      var v := SetString(ds, vals, name, xs[0]).value;
      RepeatedStep(ds, sh, vals, pos, name, xs, rest);
      assert Accumulated(ds, vals, name, xs) == Accumulated(ds, v, name, xs[1..]);
      RepeatedFlagAccumulates(ds, sh, v, pos, name, xs[1..], rest);
    }
  }

  /** The first occurrence of a repeated value flag converts its argument. */
  lemma RepeatedStep(ds: seq<Dial>, sh: map<string, string>, vals: map<string, Value>, pos: seq<string>, name: string, xs: seq<string>, rest: seq<string>)
    requires KindAt(ds, name).Some? && KindAt(ds, name).value != BoolKind
    requires xs != [] && SetString(ds, vals, name, xs[0]).Ok?
    ensures ParseTokens(ds, sh, vals, pos, Repeated("--" + name, xs) + rest) ==
              ParseTokens(ds, sh, SetString(ds, vals, name, xs[0]).value, pos, Repeated("--" + name, xs[1..]) + rest)
  {
    var tail := Repeated("--" + name, xs[1..]) + rest;
    RepeatedCons("--" + name, xs, rest);
    ValueFlagConsumesNext(ds, sh, vals, pos, name, xs[0], tail);
  }

  /** One occurrence of a strings flag appends its argument. */
  lemma SetStringsStep(ds: seq<Dial>, vals: map<string, Value>, name: string, prefix: seq<string>, x: string)
    requires KindAt(ds, name) == Some(StringsKind) && name in vals && vals[name] == Strs(prefix)
    ensures SetString(ds, vals, name, x) == Ok(vals[name := Strs(prefix + [x])])
  {
  }

  /** For a strings dial, N occurrences append all N arguments in encounter order. */
  lemma {:induction false} AccumulatedStrings(ds: seq<Dial>, vals: map<string, Value>, name: string, prefix: seq<string>, xs: seq<string>)
    requires KindAt(ds, name) == Some(StringsKind) && name in vals && vals[name] == Strs(prefix)
    ensures Accumulated(ds, vals, name, xs).Some?
    ensures Accumulated(ds, vals, name, xs).value == vals[name := Strs(prefix + xs)]
    decreases |xs|
  {
    if xs == [] {
      assert prefix + xs == prefix;
      assert vals[name := Strs(prefix + xs)] == vals;
    } else {
      SetStringsStep(ds, vals, name, prefix, xs[0]);
      var v := vals[name := Strs(prefix + [xs[0]])];
      assert Accumulated(ds, vals, name, xs) == Accumulated(ds, v, name, xs[1..]);
      AccumulatedStrings(ds, v, name, prefix + [xs[0]], xs[1..]);
      HeadTail(xs);
      assert prefix + [xs[0]] + xs[1..] == prefix + xs;
      UpdateTwice(vals, name, Strs(prefix + [xs[0]]), Strs(prefix + xs));
    }
  }

  /** Overwriting a key twice keeps only the second value. */
  lemma UpdateTwice<K, V>(m: map<K, V>, k: K, a: V, b: V)
    ensures m[k := a][k := b] == m[k := b]
  {
  }

  /** The first argument is converted before the others. */
  lemma AccumulatedCons(ds: seq<Dial>, vals: map<string, Value>, name: string, xs: seq<string>)
    requires xs != []
    ensures Accumulated(ds, vals, name, xs) ==
              if SetString(ds, vals, name, xs[0]).Ok? then Accumulated(ds, SetString(ds, vals, name, xs[0]).value, name, xs[1..])
              else None
  {
  }

  /** One argument for a list dial appends its converted element. */
  lemma SetListStep(ds: seq<Dial>, vals: map<string, Value>, name: string, x: string)
    requires KindAt(ds, name).Some? && IsList(KindAt(ds, name).value) && name in vals
    ensures var e := ParseAs(name, KindAt(ds, name).value, x);
            SetString(ds, vals, name, x) == if e.Ok? then Ok(vals[name := Extend(vals[name], e.value)]) else Err(e.error)
  {
  }

  /** For a list dial, repeated arguments append their converted elements, in order,
      after the list already stored; the repetition fails exactly when one of the
      arguments does not convert. */
  lemma {:induction false} AccumulatedList(ds: seq<Dial>, vals: map<string, Value>, name: string, xs: seq<string>)
    requires KindAt(ds, name).Some? && IsList(KindAt(ds, name).value)
    requires name in vals && ListOf(vals[name], KindAt(ds, name).value)
    ensures Accumulated(ds, vals, name, xs).Some? <==> ParseList(name, KindAt(ds, name).value, xs).Some?
    ensures var k := KindAt(ds, name).value;
            ParseList(name, k, xs).Some? ==>
              Accumulated(ds, vals, name, xs).value == vals[name := Extend(vals[name], ParseList(name, k, xs).value)]
    decreases |xs|
  {
    var k := KindAt(ds, name).value;
    var p := vals[name];
    if xs == [] {
      ExtendEmpty(p, k);
      assert vals[name := p] == vals;
    } else {
      AccumulatedCons(ds, vals, name, xs);
      SetListStep(ds, vals, name, xs[0]);
      var e := ParseAs(name, k, xs[0]);
      if e.Ok? {
        var v := vals[name := Extend(p, e.value)];
        AccumulatedList(ds, v, name, xs[1..]);
        var rest := ParseList(name, k, xs[1..]);
        if rest.Some? {
          ParseListStep(name, k, xs, e.value, rest.value);
          ExtendTwice(p, e.value, rest.value, k);
          UpdateTwice(vals, name, Extend(p, e.value), Extend(p, Extend(e.value, rest.value)));
        }
      }
    }
  }

  /** For an ints dial, N occurrences append the N numbers read, in encounter order. */
  lemma AccumulatedInts(ds: seq<Dial>, vals: map<string, Value>, name: string, prefix: seq<int>, xs: seq<string>, ns: seq<int>)
    requires KindAt(ds, name) == Some(IntsKind) && name in vals && vals[name] == Ints(prefix)
    requires |ns| == |xs| && forall j :: 0 <= j < |xs| ==> ParseInt(xs[j]) == Some(ns[j])
    ensures Accumulated(ds, vals, name, xs) == Some(vals[name := Ints(prefix + ns)])
  {
    ParseListInts(name, xs, ns);
    AccumulatedList(ds, vals, name, xs);
  }

  /** For a floats dial, N occurrences append the N numbers read, in encounter order. */
  lemma AccumulatedFloats(ds: seq<Dial>, vals: map<string, Value>, name: string, prefix: seq<real>, xs: seq<string>, fs: seq<real>)
    requires KindAt(ds, name) == Some(FloatsKind) && name in vals && vals[name] == Floats(prefix)
    requires |fs| == |xs| && forall j :: 0 <= j < |xs| ==> ParseFloat(xs[j]) == Some(fs[j])
    ensures Accumulated(ds, vals, name, xs) == Some(vals[name := Floats(prefix + fs)])
  {
    ParseListFloats(name, xs, fs);
    AccumulatedList(ds, vals, name, xs);
  }

  /** A repetition of a value flag that the walk gets through converted every argument. */
  lemma {:induction false} RepeatedFlagSucceeds(ds: seq<Dial>, sh: map<string, string>, vals: map<string, Value>, pos: seq<string>, name: string, xs: seq<string>, rest: seq<string>)
    requires KindAt(ds, name).Some? && KindAt(ds, name).value != BoolKind
    requires ParseTokens(ds, sh, vals, pos, Repeated("--" + name, xs) + rest).error.None?
    ensures Accumulated(ds, vals, name, xs).Some?
    decreases |xs|
  {
    if xs != [] {
      var tail := Repeated("--" + name, xs[1..]) + rest;
      RepeatedCons("--" + name, xs, rest);
      ValueFlagConsumesNext(ds, sh, vals, pos, name, xs[0], tail);
      AccumulatedCons(ds, vals, name, xs);
      RepeatedFlagSucceeds(ds, sh, SetString(ds, vals, name, xs[0]).value, pos, name, xs[1..], rest);
    }
  }

  /** For an int or float list dial, N occurrences that all parse yield N more elements. */
  lemma {:induction false} AccumulatedLength(ds: seq<Dial>, vals: map<string, Value>, name: string, xs: seq<string>)
    requires KindAt(ds, name).Some? && IsList(KindAt(ds, name).value)
    requires name in vals && HasKind(vals[name], KindAt(ds, name).value)
    requires Accumulated(ds, vals, name, xs).Some?
    ensures name in Accumulated(ds, vals, name, xs).value
    ensures ListLength(Accumulated(ds, vals, name, xs).value[name]) == ListLength(vals[name]) + |xs|
    decreases |xs|
  {
    if xs != [] {
      var k := KindAt(ds, name).value;
      var v := SetString(ds, vals, name, xs[0]).value;
      var e := ParseAs(name, k, xs[0]).value;
      ExtendKeepsKind(vals[name], e, k);
      assert ListLength(v[name]) == ListLength(vals[name]) + 1;
      AccumulatedLength(ds, v, name, xs[1..]);
    }
  }
}

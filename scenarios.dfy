/** The registry test sequences, stated on the functions the `Registry`
    methods are proved against. */
module Scenarios {
  import opened Values
  import opened Declarations
  import opened Table
  import opened Tokenizer

  /** Registration: two dials without shorthand coexist, a duplicate name or
      shorthand is refused, a bool dial starts false whatever its default, and a
      string dial starts at its default. */
  lemma AddExamples()
    ensures AddCheck([Dial("alsdjkf", "", "bool", None)], map[], Dial("sljkdf", "", "bool", None)) == None
    ensures AddCheck([Dial("alsdjkf", "", "bool", None), Dial("sljkdf", "", "bool", None), Dial("test", "", "bool", None)],
                     map[], Dial("test", "", "string", Some(Str("")))) == Some(DuplicateName("test"))
    ensures AddCheck([Dial("abc", "a", "bool", None)], map["a" := "abc"], Dial("def", "a", "string", Some(Str(""))))
              == Some(DuplicateShorthand("a"))
    ensures DefaultOf(Dial("mybool", "", "bool", Some(Bool(true)))) == Bool(false)
    ensures DefaultOf(Dial("mystring", "", "string", Some(Str("my value")))) == Str("my value")
  {
    var ds := [Dial("alsdjkf", "", "bool", None), Dial("sljkdf", "", "bool", None), Dial("test", "", "bool", None)];
    assert ds[2].name == "test";
    assert "alsdjkf" != "sljkdf" by { assert "alsdjkf"[0] != "sljkdf"[0]; }
  }

  // The eight dials of the command-line test, one of each kind plus a second
  // bool, with their shorthands. The tables are parameters pinned by `IsParseTest`.

  predicate IsParseTest(ds: seq<Dial>, sh: map<string, string>) {
    |ds| == 8
    && ds[0] == Dial("mybool-a", "a", "bool", None) && ds[1] == Dial("mybool-b", "b", "bool", None)
    && ds[2] == Dial("mystring", "s", "string", Some(Str(""))) && ds[3] == Dial("myint", "i", "int", Some(Int(0)))
    && ds[4] == Dial("myfloat", "f", "float", Some(Float(0.0))) && ds[5] == Dial("mystrings", "S", "strings", Some(Strs([])))
    && ds[6] == Dial("myints", "I", "ints", Some(Ints([]))) && ds[7] == Dial("myfloats", "F", "floats", Some(Floats([])))
    && sh == map["a" := "mybool-a", "b" := "mybool-b", "s" := "mystring", "i" := "myint",
                 "f" := "myfloat", "S" := "mystrings", "I" := "myints", "F" := "myfloats"]
  }

  lemma ParseTestDistinct(ds: seq<Dial>, sh: map<string, string>)
    requires IsParseTest(ds, sh)
    ensures DistinctNames(ds)
  {
    forall i, j | 0 <= i < j < |ds| ensures ds[i].name != ds[j].name {
      if |ds[i].name| == |ds[j].name| { assert ds[i].name[7] != ds[j].name[7]; }
    }
  }

  /** The kinds of the dials the cluster tests set. */
  lemma ParseTestKinds(ds: seq<Dial>, sh: map<string, string>)
    requires IsParseTest(ds, sh)
    ensures KindAt(ds, "mybool-a") == Some(BoolKind) && KindAt(ds, "mybool-b") == Some(BoolKind)
    ensures KindAt(ds, "mystring") == Some(StringKind)
  {
    ParseTestDistinct(ds, sh);
    LookupIndex(ds, 0); LookupIndex(ds, 1); LookupIndex(ds, 2);
  }

  /** No test dial is called `unknown`. */
  lemma ParseTestUnknown(ds: seq<Dial>, sh: map<string, string>)
    requires IsParseTest(ds, sh)
    ensures KindAt(ds, "unknown").None?
  {
    forall j | 0 <= j < |ds| ensures ds[j].name != "unknown" {
      if |ds[j].name| == 7 { assert ds[j].name[1] != "unknown"[1]; }
    }
  }

  /** The shorthand entries the cluster tests use. */
  lemma ParseTestShorthandsAt(ds: seq<Dial>, sh: map<string, string>)
    requires IsParseTest(ds, sh)
    ensures "a" in sh && "b" in sh && "s" in sh && "u" !in sh
    ensures sh["a"] == "mybool-a" && sh["b"] == "mybool-b" && sh["s"] == "mystring"
  {
  }

  /** `a` and `b` name bool dials; `s` names the string dial. */
  lemma ParseTestShorthands(ds: seq<Dial>, sh: map<string, string>)
    requires IsParseTest(ds, sh)
    ensures AllBoolShorthands(ds, sh, "ba") && AllBoolShorthands(ds, sh, "a")
    ensures "s" in sh && sh["s"] == "mystring" && KindAt(ds, "mystring") == Some(StringKind)
  {
    ParseTestShorthandsAt(ds, sh);
    ParseTestKinds(ds, sh);
    var x, y := "ba", "a";
    assert [x[0]] == "b" && [x[1]] == "a" && [y[0]] == "a";
    assert KindAt(ds, sh["b"]) == Some(BoolKind) && KindAt(ds, sh["a"]) == Some(BoolKind);
  }

  /** A cluster token is read as its characters after the dash. */
  lemma ClusterToken(ds: seq<Dial>, sh: map<string, string>, vals: map<string, Value>, tok: string)
    requires |tok| >= 2 && tok[0] == '-' && tok[1] != '-'
    ensures FlagStep(ds, sh, vals, tok) == ScanCluster(ds, sh, vals, tok[1..])
  {
  }

  /** `-ba` sets both bools. */
  lemma BoolClusterExample(ds: seq<Dial>, sh: map<string, string>, vals: map<string, Value>)
    requires IsParseTest(ds, sh)
    ensures var r := ParseTokens(ds, sh, vals, [], ["-ba"]);
            r.error.None? && r.positionals == [] && "mybool-a" in r.values && "mybool-b" in r.values
            && r.values["mybool-a"] == Bool(true) && r.values["mybool-b"] == Bool(true)
  {
    ParseTestShorthands(ds, sh);
    ParseTestShorthandsAt(ds, sh);
    var cs := "ba";
    BoolClusterSetsAll(ds, sh, vals, cs);
    assert "-ba"[1..] == cs;
    ClusterToken(ds, sh, vals, "-ba");
    var v := ScanCluster(ds, sh, vals, cs).values;
    assert sh[[cs[0]]] == "mybool-b" && sh[[cs[1]]] == "mybool-a";
    assert v["mybool-a"] == Bool(true) && v["mybool-b"] == Bool(true);
    DoneFlagStep(ds, sh, vals, [], "-ba", []);
    assert ["-ba"] + [] == ["-ba"];
  }

  /** The bool shorthands `ba` scan to completion and set both bools. */
  lemma BaCluster(ds: seq<Dial>, sh: map<string, string>, vals: map<string, Value>)
    requires IsParseTest(ds, sh)
    ensures var f := ScanCluster(ds, sh, vals, "ba");
            f.Done? && "mybool-a" in f.values && "mybool-b" in f.values
            && f.values["mybool-a"] == Bool(true) && f.values["mybool-b"] == Bool(true)
  {
    ParseTestShorthands(ds, sh);
    ParseTestShorthandsAt(ds, sh);
    var cs := "ba";
    BoolClusterSetsAll(ds, sh, vals, cs);
    assert sh[[cs[0]]] == "mybool-b" && sh[[cs[1]]] == "mybool-a";
  }

  /** A cluster of bool shorthands followed by a value shorthand leaves the
      value dial waiting, on the values the bool run left. */
  lemma MixedClusterFlag(ds: seq<Dial>, sh: map<string, string>, vals: map<string, Value>, cs: string, c: char)
    requires cs != [] && cs[0] != '-'
    requires AllBoolShorthands(ds, sh, cs) && [c] in sh && KindAt(ds, sh[[c]]) == Some(StringKind)
    ensures var f := FlagStep(ds, sh, vals, "-" + cs + [c]);
            f == Pending(ScanCluster(ds, sh, vals, cs).values, sh[[c]])
  {
    var tok := "-" + cs + [c];
    assert tok[0] == '-' && tok[1..] == cs + [c];
    ClusterSuffix(ds, sh, vals, cs, [c]);
    var v := ScanCluster(ds, sh, vals, cs).values;
    assert [c][0] == c && [c][1..] == [];
    assert ScanCluster(ds, sh, v, [c]) == Pending(v, sh[[c]]);
    assert tok[1] == cs[0];
  }

  /** The command line of such a cluster followed by a value: the bools are set,
      then the value dial gets the value. */
  lemma MixedClusterRun(ds: seq<Dial>, sh: map<string, string>, vals: map<string, Value>, cs: string, c: char, x: string)
    requires cs != [] && cs[0] != '-'
    requires AllBoolShorthands(ds, sh, cs) && [c] in sh && KindAt(ds, sh[[c]]) == Some(StringKind)
    ensures ParseTokens(ds, sh, vals, [], ["-" + cs + [c], x]) ==
              Scan(ScanCluster(ds, sh, vals, cs).values[sh[[c]] := Str(x)], [], None)
  {
    var tok := "-" + cs + [c];
    var v := ScanCluster(ds, sh, vals, cs).values;
    MixedClusterFlag(ds, sh, vals, cs, c);
    PendingFlagStep(ds, sh, vals, [], tok, x, []);
    assert [tok, x] + [] == [tok, x];
    assert SetString(ds, v, sh[[c]], x) == Ok(v[sh[[c]] := Str(x)]);
  }

  /** `-bas a` sets both bools and gives the string shorthand, which comes last, its value. */
  lemma MixedClusterExample(ds: seq<Dial>, sh: map<string, string>, vals: map<string, Value>)
    requires IsParseTest(ds, sh)
    ensures var r := ParseTokens(ds, sh, vals, [], ["-bas", "a"]);
            r.error.None? && r.positionals == [] && "mybool-a" in r.values && "mybool-b" in r.values && "mystring" in r.values
            && r.values["mybool-a"] == Bool(true) && r.values["mybool-b"] == Bool(true) && r.values["mystring"] == Str("a")
  {
    ParseTestShorthands(ds, sh);
    BaCluster(ds, sh, vals);
    MixedClusterRun(ds, sh, vals, "ba", 's', "a");
    BasToken();
  }

  lemma BasToken()
    ensures ['s'] == "s" && "-" + "ba" + ['s'] == "-bas"
  {
  }

  /** `-asb a` fails: the string shorthand is not last in its cluster. */
  lemma ValueNotLastExample(ds: seq<Dial>, sh: map<string, string>, vals: map<string, Value>)
    requires IsParseTest(ds, sh)
    ensures ParseTokens(ds, sh, vals, [], ["-asb", "a"]).error == Some(ValueFlagNotLast('s'))
  {
    ParseTestShorthands(ds, sh);
    assert "asb"[..1] == "a" && ["asb"[1]] == "s";
    ValueShorthandNotLastFails(ds, sh, vals, "asb", 1);
    assert "-asb"[1..] == "asb";
    ClusterToken(ds, sh, vals, "-asb");
  }

  /** A lone token that is not a flag is a positional. */
  lemma PositionalExample(ds: seq<Dial>, sh: map<string, string>, vals: map<string, Value>)
    ensures ParseTokens(ds, sh, vals, [], ["test"]) == Scan(vals, ["test"], None)
  {
    assert ["test"][1..] == [];
    assert [] + ["test"] == ["test"];
  }

  /** `--unknown` names no dial. */
  lemma UnknownFlagExample(ds: seq<Dial>, sh: map<string, string>, vals: map<string, Value>)
    requires IsParseTest(ds, sh)
    ensures ParseTokens(ds, sh, vals, [], ["--unknown"]).error == Some(UnknownFlag("--unknown"))
  {
    ParseTestUnknown(ds, sh);
    UnknownLongFlagFails(ds, sh, vals, [], "unknown", []);
    assert "--" + "unknown" == "--unknown";
    assert ["--" + "unknown"] + [] == ["--unknown"];
  }

  /** `-u` is no dial's shorthand. */
  lemma UnknownShorthandExample(ds: seq<Dial>, sh: map<string, string>, vals: map<string, Value>)
    requires IsParseTest(ds, sh)
    ensures ParseTokens(ds, sh, vals, [], ["-u"]).error == Some(UnknownShorthand('u'))
  {
    ParseTestShorthandsAt(ds, sh);
    assert "-u"[1..] == "u" && ["u"[0]] == "u";
    ClusterToken(ds, sh, vals, "-u");
  }
}

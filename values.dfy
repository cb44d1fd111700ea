/** Stored values, their kinds, and the string-to-value conversions shared by
    the command line, the environment and `setStringValue`. */
module Values {

  datatype Option<T> = None | Some(value: T)

  datatype Result<T> = Ok(value: T) | Err(error: Error)

  /** Every failure the registry reports, declaration, parse and source errors alike. */
  datatype Error =
    | BadName(name: string)
    | BadValueType(name: string, valueType: string)
    | BadDefault(name: string)
    | BadShorthand(name: string, shorthand: string)
    | DuplicateShorthand(shorthand: string)
    | DuplicateName(name: string)
    | UnknownFlag(token: string)
    | UnknownShorthand(c: char)
    | ValueFlagNotLast(c: char)
    | EmptyCluster
    | MissingValue(name: string)
    | UnknownDial(name: string)
    | BadSyntax(name: string, text: string)
    | ConfigUnreadable(path: string)
    | BadConfigValue(path: string, name: string)

  /** The seven value kinds a dial may declare. */
  datatype Kind = BoolKind | StringKind | IntKind | FloatKind | StringsKind | IntsKind | FloatsKind

  /** A stored value. Floats are modelled by `real`; ints are Go's 64-bit `int`. */
  datatype Value =
    | Bool(b: bool)
    | Str(s: string)
    | Int(i: int)
    | Float(f: real)
    | Strs(ss: seq<string>)
    | Ints(ns: seq<int>)
    | Floats(fs: seq<real>)

  const MinInt: int := -0x8000_0000_0000_0000
  const MaxInt: int := 0x7FFF_FFFF_FFFF_FFFF

  /** The `ValueType` strings the registry recognises. */
  function KindOf(t: string): (k: Option<Kind>)
    ensures k.Some? <==> t in {"bool", "string", "int", "float", "strings", "ints", "floats"}
    ensures k == Some(BoolKind) <==> t == "bool"
  {
    match t
    case "bool" => Some(BoolKind)
    case "string" => Some(StringKind)
    case "int" => Some(IntKind)
    case "float" => Some(FloatKind)
    case "strings" => Some(StringsKind)
    case "ints" => Some(IntsKind)
    case "floats" => Some(FloatsKind)
    case _ => None
  }

  predicate IsList(k: Kind) {
    k == StringsKind || k == IntsKind || k == FloatsKind
  }

  /** The Go type test: a stored value has exactly the representation of its kind. */
  predicate HasKind(v: Value, k: Kind) {
    match k
    case BoolKind => v.Bool?
    case StringKind => v.Str?
    case IntKind => v.Int? && MinInt <= v.i <= MaxInt
    case FloatKind => v.Float?
    case StringsKind => v.Strs?
    case IntsKind => v.Ints? && forall j :: 0 <= j < |v.ns| ==> MinInt <= v.ns[j] <= MaxInt
    case FloatsKind => v.Floats?
  }

  /** Appends the elements of `extra` to the list `prev`; a scalar `extra` replaces `prev`. */
  function Extend(prev: Value, extra: Value): (r: Value)
    ensures extra.Strs? && prev.Strs? ==> r == Strs(prev.ss + extra.ss)
    ensures extra.Ints? && prev.Ints? ==> r == Ints(prev.ns + extra.ns)
    ensures extra.Floats? && prev.Floats? ==> r == Floats(prev.fs + extra.fs)
    ensures !(extra.Strs? || extra.Ints? || extra.Floats?) ==> r == extra
  {
    match extra
    case Strs(xs) => Strs((if prev.Strs? then prev.ss else []) + xs)
    case Ints(xs) => Ints((if prev.Ints? then prev.ns else []) + xs)
    case Floats(xs) => Floats((if prev.Floats? then prev.fs else []) + xs)
    case _ => extra
  }

  lemma ExtendKeepsKind(prev: Value, extra: Value, k: Kind)
    requires HasKind(prev, k) && HasKind(extra, k)
    ensures HasKind(Extend(prev, extra), k)
  {
    if k == IntsKind {
      var r := prev.ns + extra.ns;
      assert forall j :: 0 <= j < |r| ==> r[j] == (if j < |prev.ns| then prev.ns[j] else extra.ns[j - |prev.ns|]);
    }
  }

  // ---------------------------------------------------------------- integers

  predicate IsDigit(c: char) { '0' <= c <= '9' }

  predicate AllDigits(s: string) { forall j :: 0 <= j < |s| ==> IsDigit(s[j]) }

  /** The value of a run of decimal digits, read most significant first. */
  function DigitsValue(s: string): nat
    requires AllDigits(s)
  {
    if s == [] then 0 else DigitsValue(s[..|s| - 1]) * 10 + (s[|s| - 1] as int - '0' as int)
  }

  /** Decimal digits of a natural number, without leading zeros. */
  function NatDigits(n: nat): (s: string)
    ensures |s| > 0 && AllDigits(s)
  {
    var d := [('0' as int + n % 10) as char];
    if n < 10 then d else NatDigits(n / 10) + d
  }

  /** Base-10 integer parsing as Go's `strconv.Atoi`: an optional sign, then at
      least one digit, and the number must fit in 64 bits. */
  function ParseInt(s: string): (r: Option<int>)
    ensures r.Some? ==> MinInt <= r.value <= MaxInt
    ensures s == [] ==> r.None?
  {
    var neg := |s| > 0 && s[0] == '-';
    var body := if |s| > 0 && (s[0] == '-' || s[0] == '+') then s[1..] else s;
    if body == [] || !AllDigits(body) then None
    else
      var v: int := DigitsValue(body);
      var n: int := if neg then -v else v;
      if MinInt <= n <= MaxInt then Some(n) else None
  }

  /** Go's `strconv.Itoa`. */
  function FormatInt(n: int): string {
    if n < 0 then "-" + NatDigits(-n) else NatDigits(n)
  }

  lemma {:induction false} NatDigitsValue(n: nat)
    ensures DigitsValue(NatDigits(n)) == n
  {
    var d := [('0' as int + n % 10) as char];
    if n >= 10 {
      NatDigitsValue(n / 10);
      var s := NatDigits(n / 10) + d;
      assert s[..|s| - 1] == NatDigits(n / 10);
    }
  }

  /** Parsing what Itoa prints gives back the number. */
  lemma ParseFormatInt(n: int)
    requires MinInt <= n <= MaxInt
    ensures ParseInt(FormatInt(n)) == Some(n)
  {
    if n < 0 {
      NatDigitsValue(-n);
      assert ("-" + NatDigits(-n))[1..] == NatDigits(-n);
    } else {
      NatDigitsValue(n);
    }
  }

  // ------------------------------------------------------------------ floats

  function Pow10(n: nat): (r: nat)
    ensures r >= 1
  {
    if n == 0 then 1 else 10 * Pow10(n - 1)
  }

  function IndexOfDot(s: string): (r: nat)
    ensures r <= |s|
    ensures r < |s| ==> s[r] == '.'
    ensures forall j :: 0 <= j < r ==> s[j] != '.'
  {
    if s == [] then 0 else if s[0] == '.' then 0 else 1 + IndexOfDot(s[1..])
  }

  /** Decimal floating point in plain notation: an optional sign, integer digits,
      optionally a point and fraction digits, at least one digit in all. */
  function ParseFloat(s: string): (r: Option<real>)
    ensures s == [] ==> r.None?
  {
    var neg := |s| > 0 && s[0] == '-';
    var body := if |s| > 0 && (s[0] == '-' || s[0] == '+') then s[1..] else s;
    var p := IndexOfDot(body);
    var whole := body[..p];
    var frac := if p < |body| then body[p + 1..] else [];
    if |whole| + |frac| == 0 || !AllDigits(whole) || !AllDigits(frac) then None
    else
      var m := DigitsValue(whole) as real + DigitsValue(frac) as real / Pow10(|frac|) as real;
      Some(if neg then -m else m)
  }

  // -------------------------------------------------------------- conversion

  /** Converts one command-line or environment string to a value of kind `k`.
      A list kind yields the one-element list holding the parsed element.
      Bool accepts exactly "true" and "false". */
  function ParseAs(name: string, k: Kind, s: string): (r: Result<Value>)
    ensures r.Ok? ==> HasKind(r.value, k)
    ensures r.Ok? && IsList(k) ==> ListLength(r.value) == 1
    ensures k == StringKind ==> r == Ok(Str(s))
    ensures k == StringsKind ==> r == Ok(Strs([s]))
    ensures r.Err? ==> r.error == BadSyntax(name, s)
  {
    match k
    case BoolKind =>
      if s == "true" then Ok(Bool(true)) else if s == "false" then Ok(Bool(false)) else Err(BadSyntax(name, s))
    case StringKind => Ok(Str(s))
    case IntKind =>
      (match ParseInt(s) case Some(n) => Ok(Int(n)) case None => Err(BadSyntax(name, s)))
    case FloatKind =>
      (match ParseFloat(s) case Some(x) => Ok(Float(x)) case None => Err(BadSyntax(name, s)))
    case StringsKind => Ok(Strs([s]))
    case IntsKind =>
      (match ParseInt(s) case Some(n) => Ok(Ints([n])) case None => Err(BadSyntax(name, s)))
    case FloatsKind =>
      (match ParseFloat(s) case Some(x) => Ok(Floats([x])) case None => Err(BadSyntax(name, s)))
  }

  function ListLength(v: Value): nat {
    match v
    case Strs(xs) => |xs|
    case Ints(xs) => |xs|
    case Floats(xs) => |xs|
    case _ => 0
  }

  /** `v` is a list value of list kind `k`, whatever its elements. */
  predicate ListOf(v: Value, k: Kind) {
    (k == StringsKind && v.Strs?) || (k == IntsKind && v.Ints?) || (k == FloatsKind && v.Floats?)
  }

  /** The empty list of list kind `k`. */
  function EmptyList(k: Kind): (v: Value)
    requires IsList(k)
    ensures ListOf(v, k) && ListLength(v) == 0
  {
    match k
    case StringsKind => Strs([])
    case IntsKind => Ints([])
    case _ => Floats([])
  }

  /** The list of kind `k` holding each of `xs` converted in turn, or nothing when
      one of them does not convert. */
  function ParseList(name: string, k: Kind, xs: seq<string>): (r: Option<Value>)
    requires IsList(k)
    ensures r.Some? ==> HasKind(r.value, k) && ListOf(r.value, k) && ListLength(r.value) == |xs|
    decreases |xs|
  {
    if xs == [] then Some(EmptyList(k))
    else
      var rest := ParseList(name, k, xs[1..]);
      match ParseAs(name, k, xs[0])
      case Err(_) => None
      case Ok(v) =>
        if rest.None? then None
        else
          ExtendKeepsKind(v, rest.value, k);
          Some(Extend(v, rest.value))
  }

  /** A non-empty sequence is its head followed by its tail. */
  lemma HeadTail<T>(s: seq<T>)
    requires s != []
    ensures [s[0]] + s[1..] == s
  {
  }

  /** The list exists exactly when every argument converts. */
  lemma {:induction false} ParseListConverts(name: string, k: Kind, xs: seq<string>)
    requires IsList(k)
    ensures ParseList(name, k, xs).Some? <==> forall j :: 0 <= j < |xs| ==> ParseAs(name, k, xs[j]).Ok?
    decreases |xs|
  {
    if xs != [] {
      ParseListConverts(name, k, xs[1..]);
      assert forall j :: 1 <= j < |xs| ==> xs[j] == xs[1..][j - 1];
    }
  }

  /** The first argument's element comes before the rest. */
  lemma ParseListStep(name: string, k: Kind, xs: seq<string>, v: Value, w: Value)
    requires IsList(k) && xs != []
    requires ParseAs(name, k, xs[0]) == Ok(v) && ParseList(name, k, xs[1..]) == Some(w)
    ensures ParseList(name, k, xs) == Some(Extend(v, w))
  {
  }

  /** Appending two lists of the same kind in turn is appending their concatenation. */
  lemma ExtendTwice(p: Value, v: Value, w: Value, k: Kind)
    requires ListOf(v, k) && ListOf(w, k)
    ensures Extend(Extend(p, v), w) == Extend(p, Extend(v, w))
  {
    match k {
      case StringsKind =>
        var a := if p.Strs? then p.ss else [];
        assert a + v.ss + w.ss == a + (v.ss + w.ss);
      case IntsKind =>
        var a := if p.Ints? then p.ns else [];
        assert a + v.ns + w.ns == a + (v.ns + w.ns);
      case FloatsKind =>
        var a := if p.Floats? then p.fs else [];
        assert a + v.fs + w.fs == a + (v.fs + w.fs);
    }
  }

  /** Appending the empty list leaves a list unchanged. */
  lemma ExtendEmpty(p: Value, k: Kind)
    requires ListOf(p, k)
    ensures Extend(p, EmptyList(k)) == p
  {
    if p.Strs? { assert p.ss + [] == p.ss; }
    if p.Ints? { assert p.ns + [] == p.ns; }
    if p.Floats? { assert p.fs + [] == p.fs; }
  }

  /** A strings list holds its arguments unchanged. */
  lemma {:induction false} ParseListStrings(name: string, xs: seq<string>)
    ensures ParseList(name, StringsKind, xs) == Some(Strs(xs))
    decreases |xs|
  {
    if xs != [] {
      ParseListStrings(name, xs[1..]);
      ParseListStep(name, StringsKind, xs, Strs([xs[0]]), Strs(xs[1..]));
      HeadTail(xs);
    }
  }

  /** An ints list holds the numbers its arguments read as, in order. */
  lemma {:induction false} ParseListInts(name: string, xs: seq<string>, ns: seq<int>)
    requires |ns| == |xs| && forall j :: 0 <= j < |xs| ==> ParseInt(xs[j]) == Some(ns[j])
    ensures ParseList(name, IntsKind, xs) == Some(Ints(ns))
    decreases |xs|
  {
    if xs != [] {
      assert forall j :: 0 <= j < |xs[1..]| ==> xs[1..][j] == xs[j + 1] && ns[1..][j] == ns[j + 1];
      ParseListInts(name, xs[1..], ns[1..]);
      ParseListStep(name, IntsKind, xs, Ints([ns[0]]), Ints(ns[1..]));
      HeadTail(ns);
    }
  }

  /** A floats list holds the numbers its arguments read as, in order. */
  lemma {:induction false} ParseListFloats(name: string, xs: seq<string>, fs: seq<real>)
    requires |fs| == |xs| && forall j :: 0 <= j < |xs| ==> ParseFloat(xs[j]) == Some(fs[j])
    ensures ParseList(name, FloatsKind, xs) == Some(Floats(fs))
    decreases |xs|
  {
    if xs != [] {
      assert ParseList(name, FloatsKind, xs[1..]) == Some(Floats(fs[1..])) by {
        assert forall j :: 0 <= j < |xs[1..]| ==> xs[1..][j] == xs[j + 1] && fs[1..][j] == fs[j + 1];
        ParseListFloats(name, xs[1..], fs[1..]);
      }
      ParseAsFloat(name, xs[0], fs[0]);
      ParseListStep(name, FloatsKind, xs, Floats([fs[0]]), Floats(fs[1..]));
      HeadTail(fs);
    }
  }

  /** Two float arguments make the two-element floats list. */
  lemma ParseListFloatsPair(name: string, a: string, b: string, x: real, y: real)
    requires ParseFloat(a) == Some(x) && ParseFloat(b) == Some(y)
    ensures ParseList(name, FloatsKind, [a, b]) == Some(Floats([x, y]))
  {
    ParseListFloats(name, [a, b], [x, y]);
  }

  /** An integer dial reads back what Itoa prints. */
  lemma ParseAsFormatInt(name: string, n: int)
    requires MinInt <= n <= MaxInt
    ensures ParseAs(name, IntKind, FormatInt(n)) == Ok(Int(n))
    ensures ParseAs(name, IntsKind, FormatInt(n)) == Ok(Ints([n]))
  {
    ParseFormatInt(n);
  }

  /** The integer conversions the tests pin: "1" is int 1 and ints [1]; "1.0" and "" are not ints. */
  lemma ParseIntExamples()
    ensures ParseAs("n", IntKind, "1") == Ok(Int(1))
    ensures ParseAs("n", IntsKind, "1") == Ok(Ints([1])) && ParseAs("n", IntsKind, "2") == Ok(Ints([2]))
    ensures ParseAs("n", IntKind, "1.0").Err?
    ensures ParseAs("n", IntKind, "").Err?
  {
    assert DigitsValue("1") == 1;
    assert DigitsValue("2") == 2;
    assert !AllDigits("1.0") by { assert !IsDigit("1.0"[1]); }
  }

  /** The float conversions the tests pin: "1.0" is float 1.0 and floats [1.0]; "2.0" is floats [2.0]. */
  lemma ParseFloatExamples()
    ensures ParseFloat("1.0") == Some(1.0) && ParseFloat("2.0") == Some(2.0)
    ensures ParseAs("n", FloatKind, "1.0") == Ok(Float(1.0))
    ensures ParseAs("n", FloatsKind, "1.0") == Ok(Floats([1.0])) && ParseAs("n", FloatsKind, "2.0") == Ok(Floats([2.0]))
  {
    OnePointZero('1', 1);
    OnePointZero('2', 2);
    ParseAsFloat("n", "1.0", 1.0);
    ParseAsFloat("n", "2.0", 2.0);
  }

  /** The arguments of the repeated ints flag the tests pass: "1" then "2". */
  lemma ParseListIntsExample(name: string)
    ensures ParseList(name, IntsKind, ["1", "2"]) == Some(Ints([1, 2]))
  {
    var xs, ns := ["1", "2"], [1, 2];
    assert ParseInt(xs[0]) == Some(ns[0]) by { assert DigitsValue("1") == 1; }
    assert ParseInt(xs[1]) == Some(ns[1]) by { assert DigitsValue("2") == 2; }
    ParseListInts(name, xs, ns);
  }

  /** The arguments of the repeated floats flag the tests pass: "1.0" then "2.0". */
  lemma ParseListFloatsExample(name: string)
    ensures ParseList(name, FloatsKind, ["1.0", "2.0"]) == Some(Floats([1.0, 2.0]))
  {
    ParseFloatExamples();
    ParseListFloatsPair(name, "1.0", "2.0", 1.0, 2.0);
  }

  /** Float and float-list dials take what `ParseFloat` reads. */
  lemma ParseAsFloat(name: string, s: string, x: real)
    requires ParseFloat(s) == Some(x)
    ensures ParseAs(name, FloatKind, s) == Ok(Float(x)) && ParseAs(name, FloatsKind, s) == Ok(Floats([x]))
  {
  }

  /** A digit, a point and a zero read as that digit. */
  lemma OnePointZero(c: char, n: nat)
    requires '0' <= c <= '9' && n == c as int - '0' as int
    ensures ParseFloat([c, '.', '0']) == Some(n as real)
  {
    var s := [c, '.', '0'];
    assert IndexOfDot(s) == 1 by { assert s[1..] == ['.', '0']; }
    assert s[..1] == [c] && s[2..] == ['0'];
    assert DigitsValue([c]) == n by { assert [c][..0] == []; }
    assert DigitsValue(['0']) == 0 by { assert ['0'][..0] == []; }
  }

  /** Strings convert to themselves. */
  lemma ParseStringExample()
    ensures ParseAs("n", StringKind, "a") == Ok(Str("a"))
  {
  }
}

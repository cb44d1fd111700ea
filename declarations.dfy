/** Dial declarations and the validation `assertValid` applies to them. */
module Declarations {
  import opened Values

  /** A declaration. `shorthand == ""` means no shorthand; `defaultValue == None`
      is Go's nil default. The advisory description is not modelled. */
  datatype Dial = Dial(name: string, shorthand: string, valueType: string, defaultValue: Option<Value>)

  predicate IsLowerOrDigit(c: char) { 'a' <= c <= 'z' || '0' <= c <= '9' }

  predicate IsAlphanumeric(c: char) { 'a' <= c <= 'z' || 'A' <= c <= 'Z' || '0' <= c <= '9' }

  /** The name pattern `^[a-z0-9][a-z0-9-]*$`. */
  predicate ValidName(s: string) {
    |s| > 0 && IsLowerOrDigit(s[0]) && forall j :: 0 <= j < |s| ==> IsLowerOrDigit(s[j]) || s[j] == '-'
  }

  /** No shorthand, or exactly one alphanumeric character. */
  predicate ValidShorthand(s: string) {
    s == "" || (|s| == 1 && IsAlphanumeric(s[0]))
  }

  /** The default's Go type must be exactly the kind's; a bool dial takes any default. */
  predicate DefaultMatches(k: Kind, dv: Option<Value>) {
    k == BoolKind || (dv.Some? && HasKind(dv.value, k))
  }

  /** `assertValid`: name, then value type, then default, then shorthand. */
  function AssertValid(d: Dial): (r: Option<Error>)
    ensures r.None? <==> ValidName(d.name) && KindOf(d.valueType).Some?
                         && DefaultMatches(KindOf(d.valueType).value, d.defaultValue)
                         && ValidShorthand(d.shorthand)
    ensures r.Some? && !ValidName(d.name) ==> r == Some(BadName(d.name))
    ensures r.Some? && ValidName(d.name) && KindOf(d.valueType).None? ==> r == Some(BadValueType(d.name, d.valueType))
  {
    if !ValidName(d.name) then Some(BadName(d.name))
    else match KindOf(d.valueType)
      case None => Some(BadValueType(d.name, d.valueType))
      case Some(k) =>
        if !DefaultMatches(k, d.defaultValue) then Some(BadDefault(d.name))
        else if !ValidShorthand(d.shorthand) then Some(BadShorthand(d.name, d.shorthand))
        else None
  }

  /** The kind of a dial that passed validation. */
  function DialKind(d: Dial): (k: Kind)
    requires AssertValid(d).None?
    ensures KindOf(d.valueType) == Some(k)
  {
    KindOf(d.valueType).value
  }

  /** The value registration seeds: `false` for a bool dial, whatever it declared. */
  function DefaultOf(d: Dial): (v: Value)
    requires AssertValid(d).None?
    ensures HasKind(v, DialKind(d))
    ensures DialKind(d) == BoolKind ==> v == Bool(false)
    ensures DialKind(d) != BoolKind ==> d.defaultValue == Some(v)
  {
    if DialKind(d) == BoolKind then Bool(false) else d.defaultValue.value
  }

  /** A validated dial has a non-empty name and a shorthand that is either absent
      or a single character, so neither is ever the empty key. */
  lemma ValidDialKeys(d: Dial)
    requires AssertValid(d).None?
    ensures d.name != "" && (d.shorthand == "" || |d.shorthand| == 1)
  {
  }

  /** A name holding a space or an upper-case letter is refused. */
  lemma NameCharactersRefused(d: Dial, j: nat)
    requires j < |d.name| && (d.name[j] == ' ' || 'A' <= d.name[j] <= 'Z')
    ensures AssertValid(d) == Some(BadName(d.name))
  {
  }

  /** A shorthand longer than one character, or a non-alphanumeric one, is refused. */
  lemma ShorthandRefused(d: Dial)
    requires ValidName(d.name) && KindOf(d.valueType).Some? && DefaultMatches(KindOf(d.valueType).value, d.defaultValue)
    requires |d.shorthand| > 1 || (|d.shorthand| == 1 && !IsAlphanumeric(d.shorthand[0]))
    ensures AssertValid(d) == Some(BadShorthand(d.name, d.shorthand))
  {
  }

  /** A non-bool dial refuses a missing default and a default of another kind. */
  lemma DefaultRefused(d: Dial)
    requires ValidName(d.name) && KindOf(d.valueType).Some? && d.valueType != "bool"
    requires d.defaultValue.None? || !HasKind(d.defaultValue.value, KindOf(d.valueType).value)
    ensures AssertValid(d) == Some(BadDefault(d.name))
  {
  }

  // The declarations the tests validate.

  lemma AssertValidExamples()
    ensures AssertValid(Dial("", "", "", None)).Some?
    ensures AssertValid(Dial("test", "", "", None)) == Some(BadValueType("test", ""))
    ensures AssertValid(Dial("test", "", "string", None)) == Some(BadDefault("test"))
    ensures AssertValid(Dial("invalid name 1", "", "bool", None)) == Some(BadName("invalid name 1"))
    ensures AssertValid(Dial("Invalid-name-1", "", "bool", None)) == Some(BadName("Invalid-name-1"))
    ensures AssertValid(Dial("valid-name-1", "", "bool", None)) == None
    ensures AssertValid(Dial("valid", "", "bool", None)) == None
    ensures AssertValid(Dial("v", "", "bool", None)) == None
    ensures AssertValid(Dial("1", "", "bool", None)) == None
    ensures AssertValid(Dial("valid-name-1", "vv", "bool", None)).Some?
    ensures AssertValid(Dial("valid-name-1", " ", "bool", None)).Some?
    ensures AssertValid(Dial("valid-name-1", "v", "bool", None)) == None
    ensures AssertValid(Dial("valid-name-1", "V", "bool", None)) == None
    ensures AssertValid(Dial("valid-name-1", "1", "bool", None)) == None
  {
    NameCharactersRefused(Dial("invalid name 1", "", "bool", None), 7);
    NameCharactersRefused(Dial("Invalid-name-1", "", "bool", None), 0);
  }

  lemma DefaultMismatchExamples()
    ensures AssertValid(Dial("test", "", "string", Some(Int(1)))) == Some(BadDefault("test"))
    ensures AssertValid(Dial("test", "", "int", Some(Float(1.0)))) == Some(BadDefault("test"))
    ensures AssertValid(Dial("test", "", "float", Some(Int(1)))) == Some(BadDefault("test"))
    ensures AssertValid(Dial("test", "", "strings", Some(Str("value")))) == Some(BadDefault("test"))
    ensures AssertValid(Dial("test", "", "ints", Some(Int(1)))) == Some(BadDefault("test"))
    ensures AssertValid(Dial("test", "", "floats", Some(Float(1.0)))) == Some(BadDefault("test"))
  {
  }

  lemma DefaultMatchExamples()
    ensures AssertValid(Dial("test", "", "bool", None)) == None
    ensures AssertValid(Dial("test", "", "string", Some(Str("")))) == None
    ensures AssertValid(Dial("test", "", "string", Some(Str("test value")))) == None
    ensures AssertValid(Dial("test", "", "int", Some(Int(1)))) == None
    ensures AssertValid(Dial("test", "", "float", Some(Float(1.0)))) == None
  {
  }

  lemma DefaultListMatchExamples()
    ensures AssertValid(Dial("test", "", "strings", Some(Strs([])))) == None
    ensures AssertValid(Dial("test", "", "ints", Some(Ints([])))) == None
    ensures AssertValid(Dial("test", "", "floats", Some(Floats([])))) == None
    ensures AssertValid(Dial("test", "", "strings", Some(Strs(["test"])))) == None
    ensures AssertValid(Dial("test", "", "ints", Some(Ints([1])))) == None
    ensures AssertValid(Dial("test", "", "floats", Some(Floats([1.0])))) == None
  {
  }
}

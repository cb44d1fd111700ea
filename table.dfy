/** The registry's tables as values: lookups, the registry invariant, the
    checks `Add` performs and the conversion `setStringValue` applies. */
module Table {
  import opened Values
  import opened Declarations

  /** The registered dial with the given name, if any (first match). */
  function Lookup(ds: seq<Dial>, name: string): (r: Option<Dial>)
    ensures r.Some? ==> r.value in ds && r.value.name == name
    ensures r.None? <==> forall j :: 0 <= j < |ds| ==> ds[j].name != name
  {
    if ds == [] then None else if ds[0].name == name then Some(ds[0]) else Lookup(ds[1..], name)
  }

  /** The declared kind of the dial named `name`, if it is registered with a known kind. */
  function KindAt(ds: seq<Dial>, name: string): (k: Option<Kind>)
    ensures k.Some? ==> Lookup(ds, name).Some? && KindOf(Lookup(ds, name).value.valueType) == k
  {
    match Lookup(ds, name)
    case None => None
    case Some(d) => KindOf(d.valueType)
  }

  predicate AllValid(ds: seq<Dial>) {
    forall j :: 0 <= j < |ds| ==> AssertValid(ds[j]).None?
  }

  predicate DistinctNames(ds: seq<Dial>) {
    forall i, j :: 0 <= i < j < |ds| ==> ds[i].name != ds[j].name
  }

  /** Every stored value belongs to a registered dial and has that dial's kind. */
  predicate WellTyped(ds: seq<Dial>, vals: map<string, Value>) {
    forall name :: name in vals ==> KindAt(ds, name).Some? && HasKind(vals[name], KindAt(ds, name).value)
  }

  /** Every registered dial has a stored value. */
  predicate Seeded(ds: seq<Dial>, vals: map<string, Value>) {
    forall j :: 0 <= j < |ds| ==> ds[j].name in vals
  }

  /** `shorthandNames` maps each claimed shorthand to the one dial that declared it. */
  predicate ShorthandsOk(ds: seq<Dial>, sh: map<string, string>) {
    (forall k :: k in sh ==> k != "" && Lookup(ds, sh[k]).Some? && Lookup(ds, sh[k]).value.shorthand == k)
    && (forall j :: 0 <= j < |ds| && ds[j].shorthand != "" ==> ds[j].shorthand in sh && sh[ds[j].shorthand] == ds[j].name)
  }

  /** The registry invariant over `dials`, `shorthandNames` and `values`. */
  predicate Inv(ds: seq<Dial>, sh: map<string, string>, vals: map<string, Value>) {
    AllValid(ds) && DistinctNames(ds) && WellTyped(ds, vals) && Seeded(ds, vals) && ShorthandsOk(ds, sh)
  }

  lemma {:induction false} LookupIndex(ds: seq<Dial>, j: nat)
    requires DistinctNames(ds) && j < |ds|
    ensures Lookup(ds, ds[j].name) == Some(ds[j])
  {
    if j > 0 {
      assert ds[0].name != ds[j].name;
      assert ds[1..][j - 1] == ds[j];
      LookupIndex(ds[1..], j - 1);
    }
  }

  lemma {:induction false} LookupAppend(ds: seq<Dial>, d: Dial, name: string)
    ensures Lookup(ds + [d], name) == if Lookup(ds, name).Some? then Lookup(ds, name)
                                     else if d.name == name then Some(d) else None
  {
    if ds != [] {
      assert (ds + [d])[1..] == ds[1..] + [d];
      LookupAppend(ds[1..], d, name);
    }
  }

  /** No value and no shorthand is ever stored under the empty key. */
  lemma InvExcludesEmptyKey(ds: seq<Dial>, sh: map<string, string>, vals: map<string, Value>)
    requires Inv(ds, sh, vals)
    ensures "" !in vals && "" !in sh
  {
    if "" in vals {
      var d := Lookup(ds, "").value;
      ValidDialKeys(d);
    }
  }

  // ------------------------------------------------------------ registration

  /** The uniqueness checks `Add` makes after `assertValid` passes. */
  function AddCheck(ds: seq<Dial>, sh: map<string, string>, d: Dial): (r: Option<Error>)
    ensures r.None? ==> AssertValid(d).None? && Lookup(ds, d.name).None?
    ensures AssertValid(d).Some? ==> r == AssertValid(d)
  {
    match AssertValid(d)
    case Some(e) => Some(e)
    case None =>
      if d.shorthand != "" && d.shorthand in sh && sh[d.shorthand] != d.name then Some(DuplicateShorthand(d.shorthand))
      else if Lookup(ds, d.name).Some? then Some(DuplicateName(d.name))
      else None
  }

  /** `shorthandNames` after registering `d`. */
  function Claim(sh: map<string, string>, d: Dial): map<string, string> {
    if d.shorthand == "" then sh else sh[d.shorthand := d.name]
  }

  /** Under the invariant, `Add` accepts exactly the valid dials whose name and
      shorthand are both unclaimed; dials without a shorthand never collide. */
  lemma AddAccepts(ds: seq<Dial>, sh: map<string, string>, vals: map<string, Value>, d: Dial)
    requires Inv(ds, sh, vals)
    ensures AddCheck(ds, sh, d).None? <==>
              AssertValid(d).None? && Lookup(ds, d.name).None? && (d.shorthand == "" || d.shorthand !in sh)
  {
    if AssertValid(d).None? && Lookup(ds, d.name).None? && d.shorthand != "" && d.shorthand in sh {
      assert sh[d.shorthand] != d.name;
    }
  }

  /** A second dial named like a registered one is refused. */
  lemma AddRefusesDuplicateName(ds: seq<Dial>, sh: map<string, string>, vals: map<string, Value>, d: Dial)
    requires Inv(ds, sh, vals) && AssertValid(d).None? && Lookup(ds, d.name).Some?
    ensures AddCheck(ds, sh, d).Some?
  {
  }

  /** A shorthand claimed by a different dial is refused. */
  lemma AddRefusesClaimedShorthand(ds: seq<Dial>, sh: map<string, string>, vals: map<string, Value>, d: Dial, j: nat)
    requires Inv(ds, sh, vals) && AssertValid(d).None?
    requires j < |ds| && ds[j].shorthand == d.shorthand && d.shorthand != "" && ds[j].name != d.name
    ensures AddCheck(ds, sh, d) == Some(DuplicateShorthand(d.shorthand))
  {
  }

  /** Registration keeps the invariant and seeds the new dial's default. */
  lemma AddKeepsInv(ds: seq<Dial>, sh: map<string, string>, vals: map<string, Value>, d: Dial)
    requires Inv(ds, sh, vals) && AddCheck(ds, sh, d).None?
    ensures Inv(ds + [d], Claim(sh, d), vals[d.name := DefaultOf(d)])
  {
    AddAccepts(ds, sh, vals, d);
    AddKeepsValid(ds, d);
    AddKeepsDistinct(ds, d);
    AddKeepsTyped(ds, vals, d);
    AddKeepsShorthands(ds, sh, d);
  }

  lemma AddKeepsValid(ds: seq<Dial>, d: Dial)
    requires AllValid(ds) && AssertValid(d).None?
    ensures AllValid(ds + [d])
  {
    var ds' := ds + [d];
    forall j | 0 <= j < |ds'| ensures AssertValid(ds'[j]).None? {
      if j < |ds| { assert ds'[j] == ds[j]; }
    }
  }

  lemma AddKeepsDistinct(ds: seq<Dial>, d: Dial)
    requires DistinctNames(ds) && Lookup(ds, d.name).None?
    ensures DistinctNames(ds + [d])
  {
    var ds' := ds + [d];
    forall i, j | 0 <= i < j < |ds'| ensures ds'[i].name != ds'[j].name {
      if j < |ds| { assert ds'[i] == ds[i] && ds'[j] == ds[j]; }
      else { assert ds'[i] == ds[i] && ds'[j] == d; }
    }
  }

  lemma AddKeepsTyped(ds: seq<Dial>, vals: map<string, Value>, d: Dial)
    requires WellTyped(ds, vals) && Seeded(ds, vals) && AssertValid(d).None? && Lookup(ds, d.name).None?
    ensures WellTyped(ds + [d], vals[d.name := DefaultOf(d)]) && Seeded(ds + [d], vals[d.name := DefaultOf(d)])
  {
    var ds', vals' := ds + [d], vals[d.name := DefaultOf(d)];
    forall name | name in vals'
      ensures KindAt(ds', name).Some? && HasKind(vals'[name], KindAt(ds', name).value)
    {
      LookupAppend(ds, d, name);
    }
    forall j | 0 <= j < |ds'| ensures ds'[j].name in vals' {
      if j < |ds| { assert ds'[j] == ds[j]; }
    }
  }

  lemma AddKeepsShorthands(ds: seq<Dial>, sh: map<string, string>, d: Dial)
    requires ShorthandsOk(ds, sh) && AssertValid(d).None? && Lookup(ds, d.name).None?
    requires d.shorthand == "" || d.shorthand !in sh
    ensures ShorthandsOk(ds + [d], Claim(sh, d))
  {
    var ds', sh' := ds + [d], Claim(sh, d);
    forall k | k in sh'
      ensures k != "" && Lookup(ds', sh'[k]).Some? && Lookup(ds', sh'[k]).value.shorthand == k
    {
      LookupAppend(ds, d, sh'[k]);
      if !(d.shorthand != "" && k == d.shorthand) {
        assert sh'[k] == sh[k];
      }
    }
    forall j | 0 <= j < |ds'| && ds'[j].shorthand != ""
      ensures ds'[j].shorthand in sh' && sh'[ds'[j].shorthand] == ds'[j].name
    {
      if j < |ds| {
        assert ds'[j] == ds[j];
        assert ds[j].shorthand in sh;
      }
    }
  }

  /** Storing a value of the dial's kind keeps every stored value well typed. */
  lemma StoreKeepsTyped(ds: seq<Dial>, vals: map<string, Value>, name: string, v: Value)
    requires WellTyped(ds, vals) && KindAt(ds, name).Some? && HasKind(v, KindAt(ds, name).value)
    ensures WellTyped(ds, vals[name := v])
  {
  }

  // ------------------------------------------------------------- conversion

  /** The value stored under `name`, or the neutral `Bool(false)` when there is none. */
  function Stored(vals: map<string, Value>, name: string): Value {
    if name in vals then vals[name] else Bool(false)
  }

  /** `setStringValue`: parse `s` for the dial's kind; a scalar replaces the stored
      value, a list element is appended to the stored list. */
  function SetString(ds: seq<Dial>, vals: map<string, Value>, name: string, s: string): (r: Result<map<string, Value>>)
    ensures r.Err? <==> KindAt(ds, name).None? || ParseAs(name, KindAt(ds, name).value, s).Err?
    ensures KindAt(ds, name).None? ==> r == Err(UnknownDial(name))
    ensures r.Ok? ==> r.value.Keys == vals.Keys + {name}
    ensures r.Ok? ==> forall other :: other in vals && other != name ==> r.value[other] == vals[other]
    ensures r.Ok? && !IsList(KindAt(ds, name).value) ==> r.value[name] == ParseAs(name, KindAt(ds, name).value, s).value
    ensures r.Ok? && IsList(KindAt(ds, name).value) ==>
              r.value[name] == Extend(Stored(vals, name), ParseAs(name, KindAt(ds, name).value, s).value)
  {
    match KindAt(ds, name)
    case None => Err(UnknownDial(name))
    case Some(k) =>
      match ParseAs(name, k, s)
      case Err(e) => Err(e)
      case Ok(v) =>
        Ok(vals[name := if IsList(k) then Extend(Stored(vals, name), v) else v])
  }

  /** A successful conversion stores a value of the dial's kind. */
  lemma SetStringKeepsTyped(ds: seq<Dial>, vals: map<string, Value>, name: string, s: string)
    requires WellTyped(ds, vals) && SetString(ds, vals, name, s).Ok?
    ensures WellTyped(ds, SetString(ds, vals, name, s).value)
  {
    var k := KindAt(ds, name).value;
    var v := ParseAs(name, k, s).value;
    var w := if IsList(k) then Extend(Stored(vals, name), v) else v;
    if IsList(k) && name in vals { ExtendKeepsKind(vals[name], v, k); }
    if IsList(k) && name !in vals {
      assert Extend(Bool(false), v) == v;
    }
    assert HasKind(w, k);
    StoreKeepsTyped(ds, vals, name, w);
    assert SetString(ds, vals, name, s).value == vals[name := w];
  }
}

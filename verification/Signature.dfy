/**
 The signature checks of packages/core/canyonos_core/validate.py, against Python's own
 rule for binding a call's arguments to parameters (section 6.3.4, "Calls", of the Python
 Language Reference). The controller calls a method with keyword arguments only, and
 constructs the agent with no argument at all.
 */
module Signature {

  /** A `def`: parameters before `/`, ordinary ones, keyword-only ones, and the two stars. */
  datatype Def = Def(
    posOnly: seq<string>,
    ordinary: seq<string>,
    defaults: nat,
    varArgs: bool,
    kwOnly: seq<KeywordOnly>,
    kwArgs: bool,
    isAsync: bool)

  datatype KeywordOnly = KeywordOnly(name: string, hasDefault: bool)

  function Names(ks: seq<KeywordOnly>): seq<string> {
    seq(|ks|, i requires 0 <= i < |ks| => ks[i].name)
  }

  function Positional(d: Def): seq<string> {
    d.posOnly + d.ordinary
  }

  /** What the Python grammar guarantees of a `def`. */
  ghost predicate IsDef(d: Def) {
    && d.defaults <= |Positional(d)|
    && Distinct(Positional(d) + Names(d.kwOnly))
  }

  ghost predicate Distinct(s: seq<string>) {
    forall i, j :: 0 <= i < j < |s| ==> s[i] != s[j]
  }

  predicate IsReceiver(name: string) {
    name == "self" || name == "cls"
  }

  // ------------------------------------------------------- the source

  function DropReceiver(names: seq<string>): seq<string> {
    if names != [] && IsReceiver(names[0]) then names[1..] else names
  }

  /** `_parameter_names`: every parameter a keyword can reach. */
  function ParameterNames(d: Def): seq<string> {
    (if d.posOnly == [] then DropReceiver(d.ordinary) else d.ordinary) + Names(d.kwOnly)
  }

  function WithoutDefault(ks: seq<KeywordOnly>): seq<string> {
    if ks == [] then []
    else (if ks[0].hasDefault then [] else [ks[0].name]) + WithoutDefault(ks[1..])
  }

  /** Python's s[:k], which counts a negative k from the end. */
  function UpTo(s: seq<string>, k: int): seq<string> {
    if k < 0 then (if |s| + k <= 0 then [] else s[..|s| + k])
    else if k >= |s| then s
    else s[..k]
  }

  /** `_required_parameters`: the parameters without a default. */
  function RequiredParameters(d: Def): seq<string> {
    var positional := DropReceiver(Positional(d));
    (if d.defaults != 0 then UpTo(positional, |positional| - d.defaults) else positional)
    + WithoutDefault(d.kwOnly)
  }

  function Keep(names: seq<string>, wanted: set<string>): seq<string> {
    if names == [] then []
    else (if names[0] in wanted then [names[0]] else []) + Keep(names[1..], wanted)
  }

  function Drop(names: seq<string>, unwanted: set<string>): seq<string> {
    if names == [] then []
    else (if names[0] in unwanted then [] else [names[0]]) + Drop(names[1..], unwanted)
  }

  function Set(names: seq<string>): set<string> {
    set n | n in names
  }

  /** `_positional_only`: parameters before `/` that a call by keyword breaks. */
  function PositionalOnly(d: Def, sent: seq<string>): seq<string> {
    Keep(DropReceiver(d.posOnly), Set(RequiredParameters(d)) + Set(sent))
  }

  function Missing(d: Def, declared: seq<string>): seq<string> {
    if d.kwArgs then []
    else Drop(declared, Set(ParameterNames(d)) + Set(PositionalOnly(d, declared)))
  }

  function Unfilled(d: Def, declared: seq<string>): seq<string> {
    Drop(RequiredParameters(d), Set(declared) + Set(PositionalOnly(d, declared)))
  }

  datatype Finding =
    | IsCoroutine
    | BehindSlash(names: seq<string>)
    | NoParameter(names: seq<string>)
    | NotDeclared(names: seq<string>)
    | ConstructorRequires(names: seq<string>)
    | NoSuchMethod

  /** What `methods[name]` holds: a `def`, or a name bound some other way. */
  datatype Member = Method(def: Def) | Opaque

  /** The findings so far; the checks only ever add to them. */
  class Report {
    var findings: seq<Finding>

    constructor ()
      ensures findings == []
    {
      findings := [];
    }

    method Add(f: Finding)
      modifies this
      ensures findings == old(findings) + [f]
    {
      findings := findings + [f];
    }

    /**
     Nothing is added for a readable method exactly when it is no coroutine and can be called
     with the declared names; nor for a name bound otherwise, or missing from an incomplete class.
     */
    method CheckMethod(name: string, declared: seq<string>, methods: map<string, Member>, complete: bool)
      modifies this
      ensures findings == old(findings) + MethodFindings(name, declared, methods, complete)
      ensures name !in methods || methods[name].Opaque? ==>
                (findings == old(findings) <==> name in methods || !complete)
      ensures name in methods && methods[name].Method? && Usual(methods[name].def, declared) ==>
                (findings == old(findings) <==>
                 !methods[name].def.isAsync && Callable(methods[name].def, declared))
    {
      hide SignatureFindings, Usual, Callable, Explain;
      ghost var before := findings;
      if name !in methods {
        if complete {
          Add(NoSuchMethod);
        }
        return;
      }
      if methods[name].Opaque? {
        return;
      }
      var d := methods[name].def;
      if d.isAsync {
        Add(IsCoroutine);
      }
      CheckSignature(d, declared);
      Regroup(before, Unless(!d.isAsync, IsCoroutine), SignatureFindings(d, declared));
    }

    /** One finding for each kind of fault there is, with exactly the names at fault; none if the call works. */
    method CheckSignature(d: Def, declared: seq<string>)
      modifies this
      ensures findings == old(findings) + SignatureFindings(d, declared)
      ensures Usual(d, declared) ==> (findings == old(findings) <==> Callable(d, declared))
      ensures Usual(d, declared) ==> Explain(d, declared, findings[|old(findings)|..])
    {
      hide PositionalOnly, Missing, Unfilled, Callable, Explain, Usual;
      ghost var before := findings;
      var positionalOnly := PositionalOnly(d, declared);
      if positionalOnly != [] {
        Add(BehindSlash(positionalOnly));
      }
      ghost var first := Unless(positionalOnly == [], BehindSlash(positionalOnly));
      assert findings == before + first;
      var missing := Missing(d, declared);
      if missing != [] {
        Add(NoParameter(missing));
      }
      ghost var second := Unless(missing == [], NoParameter(missing));
      assert findings == before + first + second;
      var unfilled := Unfilled(d, declared);
      if unfilled != [] {
        Add(NotDeclared(unfilled));
      }
      ghost var third := Unless(unfilled == [], NotDeclared(unfilled));
      Regroup(before, first, second);
      Regroup(before, first + second, third);
      FindingsAgree(d, declared);
    }

    /** A finding exactly when Python could not construct the object without arguments. */
    method CheckConstructor(methods: map<string, Member>)
      modifies this
      ensures findings == old(findings) + ConstructorFindings(methods)
      ensures "__init__" !in methods || methods["__init__"].Opaque? ==> findings == old(findings)
      ensures "__init__" in methods && methods["__init__"].Method? && Usual(methods["__init__"].def, []) ==>
                (findings == old(findings) <==> Binds(methods["__init__"].def, []))
    {
      if "__init__" !in methods || methods["__init__"].Opaque? {
        return;
      }
      var d := methods["__init__"].def;
      var required := RequiredParameters(d);
      if Usual(d, []) {
        ConstructorAgreesWithPython(d);
      }
      if required == [] {
        return;
      }
      Add(ConstructorRequires(required));
    }
  }

  /** A call the check is right about: see `AgreementIsExact`. */
  ghost predicate Usual(d: Def, declared: seq<string>) {
    IsInstanceMethod(d) && DefaultsAreRead(d) && IsCall(d, declared)
  }

  /** The findings name exactly the parameters and sent names at fault, kind by kind. */
  ghost predicate Explain(d: Def, declared: seq<string>, fs: seq<Finding>) {
    && (forall f :: f in fs ==> f.BehindSlash? || f.NoParameter? || f.NotDeclared?)
    && (forall n :: CutOff(d, declared, n) <==> exists f :: f in fs && f.BehindSlash? && n in f.names)
    && (forall n :: Stray(d, declared, n) <==> exists f :: f in fs && f.NoParameter? && n in f.names)
    && (forall n :: LacksValue(d, n) && n !in declared <==> exists f :: f in fs && f.NotDeclared? && n in f.names)
  }

  lemma FindingsExplain(d: Def, declared: seq<string>)
    requires Usual(d, declared)
    ensures Explain(d, declared, SignatureFindings(d, declared))
  {
    FindingsNameTheirCauses(d, declared);
    hide PositionalOnly, Missing, Unfilled, CutOff, Stray, LacksValue;
    FindingsListed(PositionalOnly(d, declared), Missing(d, declared), Unfilled(d, declared));
  }

  lemma FindingsAgree(d: Def, declared: seq<string>)
    ensures Usual(d, declared) ==>
              (SignatureFindings(d, declared) == [] <==> Callable(d, declared))
              && Explain(d, declared, SignatureFindings(d, declared))
  {
    if Usual(d, declared) {
      CheckAgreesWithPython(d, declared);
      FindingsExplain(d, declared);
    }
  }

  lemma FindingsListed(a: seq<string>, b: seq<string>, c: seq<string>)
    ensures var fs := Unless(a == [], BehindSlash(a)) + Unless(b == [], NoParameter(b))
                      + Unless(c == [], NotDeclared(c));
            && (forall f :: f in fs ==> f.BehindSlash? || f.NoParameter? || f.NotDeclared?)
            && (forall n :: n in a <==> exists f :: f in fs && f.BehindSlash? && n in f.names)
            && (forall n :: n in b <==> exists f :: f in fs && f.NoParameter? && n in f.names)
            && (forall n :: n in c <==> exists f :: f in fs && f.NotDeclared? && n in f.names)
  {
    var fs := Unless(a == [], BehindSlash(a)) + Unless(b == [], NoParameter(b)) + Unless(c == [], NotDeclared(c));
    assert forall f :: f in fs <==>
      (a != [] && f == BehindSlash(a)) || (b != [] && f == NoParameter(b)) || (c != [] && f == NotDeclared(c));
    assert a != [] ==> BehindSlash(a) in fs;
    assert b != [] ==> NoParameter(b) in fs;
    assert c != [] ==> NotDeclared(c) in fs;
  }

  lemma Regroup(a: seq<Finding>, b: seq<Finding>, c: seq<Finding>)
    ensures (a + b) + c == a + (b + c)
    ensures a + (b + c) == a <==> b == [] && c == []
    ensures b == [] ==> a + b == a
    ensures (a + b)[|a|..] == b
  {}

  function Unless(fine: bool, f: Finding): seq<Finding> {
    if fine then [] else [f]
  }

  function SignatureFindings(d: Def, declared: seq<string>): seq<Finding> {
    var positionalOnly, missing, unfilled :=
      PositionalOnly(d, declared), Missing(d, declared), Unfilled(d, declared);
    Unless(positionalOnly == [], BehindSlash(positionalOnly))
    + Unless(missing == [], NoParameter(missing))
    + Unless(unfilled == [], NotDeclared(unfilled))
  }

  function MethodFindings(name: string, declared: seq<string>, methods: map<string, Member>, complete: bool)
    : seq<Finding>
  {
    if name !in methods then (if complete then [NoSuchMethod] else [])
    else if methods[name].Opaque? then []
    else
      Unless(!methods[name].def.isAsync, IsCoroutine) + SignatureFindings(methods[name].def, declared)
  }

  function ConstructorFindings(methods: map<string, Member>): seq<Finding> {
    if "__init__" !in methods || methods["__init__"].Opaque? then []
    else if RequiredParameters(methods["__init__"].def) == [] then []
    else [ConstructorRequires(RequiredParameters(methods["__init__"].def))]
  }

  // ----------------------------------------------- Python's call binding

  /** The outcome of binding: TypeError, or which slots got a value and what **kwargs holds. */
  datatype Bound = TypeError | Bound(filled: set<string>, extra: set<string>)

  function Slots(d: Def): seq<string> {
    Positional(d) + Names(d.kwOnly)
  }

  predicate HasDefault(d: Def, i: nat)
    requires i < |Slots(d)|
  {
    if i < |Positional(d)| then i >= |Positional(d)| - d.defaults
    else d.kwOnly[i - |Positional(d)|].hasDefault
  }

  /** First the one positional argument, the receiver, takes the first positional slot. */
  function BindReceiver(d: Def): Bound {
    if Positional(d) != [] then Bound({Positional(d)[0]}, {})
    else if d.varArgs then Bound({}, {})
    else TypeError
  }

  /** Then each keyword looks for the slot of its name; names before `/` cannot be reached. */
  function BindKeyword(d: Def, sofar: Bound, keyword: string): Bound {
    if sofar.TypeError? then TypeError
    else if keyword in d.ordinary + Names(d.kwOnly) then
      if keyword in sofar.filled then TypeError else sofar.(filled := sofar.filled + {keyword})
    else if d.kwArgs then sofar.(extra := sofar.extra + {keyword})
    else TypeError
  }

  function BindKeywords(d: Def, sofar: Bound, keywords: seq<string>): Bound
    decreases |keywords|
  {
    if keywords == [] then sofar
    else BindKeywords(d, BindKeyword(d, sofar, keywords[0]), keywords[1..])
  }

  /** Last, a slot still empty must have a default. */
  ghost predicate EverySlotFilled(d: Def, filled: set<string>) {
    forall i :: 0 <= i < |Slots(d)| ==> Slots(d)[i] in filled || HasDefault(d, i)
  }

  /** `bound_method(**keywords)` binds. */
  ghost predicate Binds(d: Def, keywords: seq<string>) {
    var b := BindKeywords(d, BindReceiver(d), keywords);
    b.Bound? && EverySlotFilled(d, b.filled)
  }

  /** A sent name lands in **kwargs although a parameter before `/`, not the receiver's, carries it. */
  ghost predicate Diverted(d: Def, keywords: seq<string>) {
    var b := BindKeywords(d, BindReceiver(d), keywords);
    b.Bound? && exists i :: 1 <= i < |d.posOnly| && d.posOnly[i] in b.extra
  }

  // ------------------------------------------------------- agreement

  /** A `def` with a parameter that takes the object. */
  ghost predicate HasReceiver(d: Def) {
    IsDef(d) && Positional(d) != []
  }

  /** A `def` whose first parameter is `self` or `cls`. */
  ghost predicate IsInstanceMethod(d: Def) {
    HasReceiver(d) && (Positional(d)[0] == "self" || Positional(d)[0] == "cls")
  }

  /** The receiver has no default, or at most one parameter comes after it: see `AgreementIsExact`. */
  predicate DefaultsAreRead(d: Def) {
    d.defaults < |Positional(d)| || |Positional(d)| <= 2
  }

  /** Names a call may send: distinct, as the keys of a dictionary are, and not the receiver's. */
  ghost predicate IsCall(d: Def, declared: seq<string>) {
    Distinct(declared) && (Positional(d) != [] ==> Positional(d)[0] !in declared)
  }

  lemma {:induction false} KeepIs(names: seq<string>, wanted: set<string>)
    ensures forall n :: n in Keep(names, wanted) <==> n in names && n in wanted
  {
    if names != [] {
      KeepIs(names[1..], wanted);
    }
  }

  lemma {:induction false} DropIs(names: seq<string>, unwanted: set<string>)
    ensures forall n :: n in Drop(names, unwanted) <==> n in names && n !in unwanted
  {
    if names != [] {
      DropIs(names[1..], unwanted);
    }
  }

  lemma {:induction false} WithoutDefaultIs(ks: seq<KeywordOnly>)
    ensures forall n :: n in WithoutDefault(ks) <==> exists i :: 0 <= i < |ks| && ks[i].name == n && !ks[i].hasDefault
  {
    if ks != [] {
      WithoutDefaultIs(ks[1..]);
      forall n ensures n in WithoutDefault(ks) <==> exists i :: 0 <= i < |ks| && ks[i].name == n && !ks[i].hasDefault {
        if n in WithoutDefault(ks) {
          if !(n == ks[0].name && !ks[0].hasDefault) {
            var i :| 0 <= i < |ks[1..]| && ks[1..][i].name == n && !ks[1..][i].hasDefault;
            assert ks[i + 1].name == n;
          }
        }
        if i :| 0 <= i < |ks| && ks[i].name == n && !ks[i].hasDefault {
          if i > 0 {
            assert ks[1..][i - 1] == ks[i];
          }
        }
      }
    }
  }

  /** A slot after the receiver's that only the call can fill. */
  ghost predicate MustGet(d: Def, n: string) {
    exists i :: 1 <= i < |Slots(d)| && Slots(d)[i] == n && !HasDefault(d, i)
  }

  /** The required parameters are the slots, the receiver's aside, that have no default. */
  lemma RequiredAre(d: Def)
    requires IsInstanceMethod(d) && DefaultsAreRead(d)
    ensures forall n :: n in RequiredParameters(d) <==> MustGet(d, n)
  {
    forall n ensures n in RequiredParameters(d) <==> MustGet(d, n) {
      if n in RequiredParameters(d) {
        var _ := RequiredHasSlot(d, n);
      }
      if MustGet(d, n) {
        var i :| 1 <= i < |Slots(d)| && Slots(d)[i] == n && !HasDefault(d, i);
        SlotIsRequired(d, i);
      }
    }
  }

  /** The positional slots after the receiver that have no default. */
  function Front(d: Def): seq<string>
    requires IsInstanceMethod(d)
  {
    if d.defaults < |Positional(d)| then Positional(d)[1..|Positional(d)| - d.defaults] else []
  }

  lemma RequiredSplit(d: Def)
    requires IsInstanceMethod(d) && DefaultsAreRead(d)
    ensures RequiredParameters(d) == Front(d) + WithoutDefault(d.kwOnly)
  {}

  lemma RequiredHasSlot(d: Def, n: string) returns (i: nat)
    requires IsInstanceMethod(d) && DefaultsAreRead(d) && n in RequiredParameters(d)
    ensures 1 <= i < |Slots(d)| && Slots(d)[i] == n && !HasDefault(d, i)
  {
    RequiredSplit(d);
    WithoutDefaultIs(d.kwOnly);
    if n in Front(d) {
      var j :| 0 <= j < |Front(d)| && Front(d)[j] == n;
      i := j + 1;
    } else {
      var j :| 0 <= j < |d.kwOnly| && d.kwOnly[j].name == n && !d.kwOnly[j].hasDefault;
      i := |Positional(d)| + j;
    }
  }

  lemma SlotIsRequired(d: Def, i: nat)
    requires IsInstanceMethod(d) && DefaultsAreRead(d) && 1 <= i < |Slots(d)| && !HasDefault(d, i)
    ensures Slots(d)[i] in RequiredParameters(d)
  {
    var pos := Positional(d);
    RequiredSplit(d);
    WithoutDefaultIs(d.kwOnly);
    if i < |pos| {
      assert Front(d)[i - 1] == Slots(d)[i];
    } else {
      assert d.kwOnly[i - |pos|].name == Slots(d)[i];
    }
  }

  /** Folding the keywords one by one gives what they give together. */
  lemma {:induction false} KeywordsTogether(d: Def, sofar: Bound, keywords: seq<string>)
    requires Distinct(keywords) && sofar.Bound?
    ensures var b := BindKeywords(d, sofar, keywords);
            var reachable := Set(d.ordinary + Names(d.kwOnly));
            && (b.Bound? <==> && Set(keywords) * reachable !! sofar.filled
                              && (d.kwArgs || Set(keywords) <= reachable))
            && (b.Bound? ==> b.filled == sofar.filled + Set(keywords) * reachable
                             && b.extra == sofar.extra + (Set(keywords) - reachable))
    decreases |keywords|
  {
    if keywords != [] {
      var next := BindKeyword(d, sofar, keywords[0]);
      var rest := keywords[1..];
      assert Set(keywords) == {keywords[0]} + Set(rest);
      assert keywords[0] !in rest;
      if next.Bound? {
        KeywordsTogether(d, next, rest);
      } else {
        TypeErrorStays(d, rest);
      }
    }
  }

  lemma {:induction false} TypeErrorStays(d: Def, keywords: seq<string>)
    ensures BindKeywords(d, TypeError, keywords).TypeError?
  {
    if keywords != [] {
      TypeErrorStays(d, keywords[1..]);
    }
  }

  /** Apart from the receiver, a keyword reaches what `_parameter_names` lists. */
  lemma ReachableNames(d: Def)
    requires IsInstanceMethod(d)
    ensures forall n :: n in ParameterNames(d) <==> n != Positional(d)[0] && n in d.ordinary + Names(d.kwOnly)
    ensures forall n :: n in d.posOnly ==> n == Positional(d)[0] || n in DropReceiver(d.posOnly)
    ensures forall n :: n in DropReceiver(d.posOnly) ==> n in d.posOnly && n != Positional(d)[0]
    ensures forall n :: n in d.posOnly ==> n !in d.ordinary + Names(d.kwOnly)
  {
    var slots := Slots(d);
    var reach := d.ordinary + Names(d.kwOnly);
    assert slots == d.posOnly + reach;
    forall n | n in d.posOnly ensures n !in reach {
      var i :| 0 <= i < |d.posOnly| && d.posOnly[i] == n;
      assert slots[i] == n;
      forall j | 0 <= j < |reach| ensures reach[j] != n {
        assert slots[|d.posOnly| + j] == reach[j];
      }
    }
    PlacesOfNames(d);
    if d.posOnly == [] {
      assert d.ordinary == [d.ordinary[0]] + d.ordinary[1..];
      assert d.ordinary[0] == Positional(d)[0];
      forall n | n in d.ordinary[1..] ensures n != d.ordinary[0] {
        var i :| 0 <= i < |d.ordinary[1..]| && d.ordinary[1..][i] == n;
        assert Positional(d)[i + 1] == n;
      }
    } else {
      assert Positional(d)[0] == d.posOnly[0];
      assert d.posOnly == [d.posOnly[0]] + d.posOnly[1..];
      forall n | n in d.posOnly[1..] ensures n != d.posOnly[0] {
        var i :| 0 <= i < |d.posOnly[1..]| && d.posOnly[1..][i] == n;
        assert slots[0] == d.posOnly[0] && slots[i + 1] == n;
      }
    }
  }

  predicate Reachable(d: Def, n: string) {
    n in d.ordinary + Names(d.kwOnly)
  }

  /** A parameter name stands in one place, and keywords reach it there unless that is before the slash. */
  lemma PlacesOfNames(d: Def)
    requires IsDef(d)
    ensures forall i, j :: 0 <= i < j < |Positional(d)| ==> Positional(d)[i] != Positional(d)[j]
    ensures forall i :: 0 <= i < |Positional(d)| ==> Positional(d)[i] !in Names(d.kwOnly)
    ensures forall i :: 0 <= i < |Positional(d)| ==> (Reachable(d, Positional(d)[i]) <==> i >= |d.posOnly|)
    ensures forall n :: n in WithoutDefault(d.kwOnly) ==> n in Names(d.kwOnly) && Reachable(d, n)
  {
    var pos, names, slots := Positional(d), Names(d.kwOnly), Slots(d);
    assert forall i :: 0 <= i < |pos| ==> slots[i] == pos[i];
    assert forall j :: 0 <= j < |names| ==> slots[|pos| + j] == names[j];
    forall i | |d.posOnly| <= i < |pos| ensures Reachable(d, pos[i]) {
      assert d.ordinary[i - |d.posOnly|] == pos[i];
    }
    forall i | 0 <= i < |d.posOnly| ensures !Reachable(d, pos[i]) {
      forall j | 0 <= j < |d.ordinary| ensures d.ordinary[j] != pos[i] {
        assert pos[|d.posOnly| + j] == d.ordinary[j];
      }
    }
    WithoutDefaultIs(d.kwOnly);
    forall n | n in WithoutDefault(d.kwOnly) ensures n in names {
      var j :| 0 <= j < |d.kwOnly| && d.kwOnly[j].name == n;
      assert names[j] == n;
    }
  }

  /**
   Binding succeeds when the receiver's slot is not sent as well, no keyword is left over and
   every slot without a default is sent.
   */
  lemma BindsMeans(d: Def, declared: seq<string>)
    requires HasReceiver(d) && Distinct(declared)
    ensures Binds(d, declared) <==>
            && (d.posOnly == [] ==> Positional(d)[0] !in declared)
            && (d.kwArgs || forall n :: n in declared ==> Reachable(d, n))
            && (forall n :: MustGet(d, n) ==> n in declared && Reachable(d, n))
  {
    var b := BindKeywords(d, BindReceiver(d), declared);
    KeywordsTogether(d, BindReceiver(d), declared);
    PlacesOfNames(d);
    var reachable := Set(d.ordinary + Names(d.kwOnly));
    assert forall n :: n in reachable <==> Reachable(d, n);
    assert Set(declared) <= reachable <==> forall n :: n in declared ==> n in reachable;
    assert b.Bound? <==> && (d.posOnly == [] ==> Positional(d)[0] !in declared)
                         && (d.kwArgs || forall n :: n in declared ==> Reachable(d, n));
    if b.Bound? {
      assert forall n :: n in b.filled <==> n == Positional(d)[0] || (n in declared && Reachable(d, n));
      SlotsFilled(d, b.filled);
      assert !MustGet(d, Positional(d)[0]) by {
        assert Slots(d)[0] == Positional(d)[0];
      }
    }
  }

  lemma SlotsFilled(d: Def, filled: set<string>)
    requires HasReceiver(d) && Positional(d)[0] in filled
    ensures EverySlotFilled(d, filled) <==> forall n :: MustGet(d, n) ==> n in filled
  {
    assert Slots(d)[0] == Positional(d)[0];
    if forall n :: MustGet(d, n) ==> n in filled {
      forall i | 0 <= i < |Slots(d)| ensures Slots(d)[i] in filled || HasDefault(d, i) {
        if i > 0 && !HasDefault(d, i) {
          assert MustGet(d, Slots(d)[i]);
        }
      }
    }
  }

  lemma DivertedMeans(d: Def, declared: seq<string>)
    requires HasReceiver(d) && Distinct(declared)
    ensures Binds(d, declared) ==>
              (Diverted(d, declared) <==> exists i :: 1 <= i < |d.posOnly| && d.posOnly[i] in declared)
  {
    KeywordsTogether(d, BindReceiver(d), declared);
    PlacesOfNames(d);
    if Binds(d, declared) {
      var b := BindKeywords(d, BindReceiver(d), declared);
      assert forall n :: n in b.extra <==> n in declared && !Reachable(d, n);
      forall i | 0 <= i < |d.posOnly| ensures !Reachable(d, d.posOnly[i]) {
        assert Positional(d)[i] == d.posOnly[i];
      }
    }
  }

  /** A slot without a default is reachable by keyword or sits before the slash. */
  lemma SlotsSitSomewhere(d: Def)
    requires IsInstanceMethod(d)
    ensures forall n :: MustGet(d, n) ==> Reachable(d, n) || n in DropReceiver(d.posOnly)
  {
    forall n | MustGet(d, n) ensures Reachable(d, n) || n in DropReceiver(d.posOnly) {
      var i :| 1 <= i < |Slots(d)| && Slots(d)[i] == n && !HasDefault(d, i);
      if i < |d.posOnly| {
        assert DropReceiver(d.posOnly)[i - 1] == n;
      } else {
        assert (d.ordinary + Names(d.kwOnly))[i - |d.posOnly|] == n;
      }
    }
  }

  lemma EmptyIff(names: seq<string>)
    ensures names == [] <==> forall n :: n !in names
  {
    if names != [] {
      assert names[0] in names;
    }
  }

  ghost predicate NothingBehindSlash(d: Def, declared: seq<string>) {
    forall n :: n in DropReceiver(d.posOnly) ==> n !in RequiredParameters(d) && n !in declared
  }

  lemma BehindSlashMeans(d: Def, declared: seq<string>)
    ensures PositionalOnly(d, declared) == [] <==> NothingBehindSlash(d, declared)
  {
    KeepIs(DropReceiver(d.posOnly), Set(RequiredParameters(d)) + Set(declared));
    EmptyIff(PositionalOnly(d, declared));
  }

  lemma MissingMeans(d: Def, declared: seq<string>)
    requires PositionalOnly(d, declared) == []
    ensures Missing(d, declared) == [] <==> d.kwArgs || forall n :: n in declared ==> n in ParameterNames(d)
  {
    DropIs(declared, Set(ParameterNames(d)) + Set(PositionalOnly(d, declared)));
    EmptyIff(Missing(d, declared));
  }

  lemma UnfilledMeans(d: Def, declared: seq<string>)
    requires PositionalOnly(d, declared) == []
    ensures Unfilled(d, declared) == [] <==> forall n :: n in RequiredParameters(d) ==> n in declared
  {
    DropIs(RequiredParameters(d), Set(declared) + Set(PositionalOnly(d, declared)));
    EmptyIff(Unfilled(d, declared));
  }

  lemma NoFindingMeans(d: Def, declared: seq<string>)
    ensures SignatureFindings(d, declared) == [] <==>
            && NothingBehindSlash(d, declared)
            && (d.kwArgs || forall n :: n in declared ==> n in ParameterNames(d))
            && (forall n :: n in RequiredParameters(d) ==> n in declared)
  {
    BehindSlashMeans(d, declared);
    if PositionalOnly(d, declared) == [] {
      MissingMeans(d, declared);
      UnfilledMeans(d, declared);
    }
  }

  /** A slot that keywords reach and that has no default. */
  ghost predicate LacksValue(d: Def, n: string) {
    exists i :: |d.posOnly| <= i < |Slots(d)| && i >= 1 && Slots(d)[i] == n && !HasDefault(d, i)
  }

  /** A parameter before the slash that is sent by keyword, or has no default. */
  ghost predicate CutOff(d: Def, declared: seq<string>, n: string) {
    exists i :: 1 <= i < |d.posOnly| && d.posOnly[i] == n && (n in declared || !HasDefault(d, i))
  }

  /** A sent name that reaches no parameter, not even one before the slash. */
  predicate Stray(d: Def, declared: seq<string>, n: string) {
    !d.kwArgs && n in declared && !Reachable(d, n) && n !in d.posOnly
  }

  /** A required parameter sits before the slash, or is a slot that keywords reach. */
  lemma RequiredAt(d: Def, n: string)
    requires IsInstanceMethod(d) && DefaultsAreRead(d)
    ensures n in RequiredParameters(d) <==> CutOff(d, [], n) || LacksValue(d, n)
  {
    RequiredAre(d);
    forall i | 1 <= i < |d.posOnly| ensures Slots(d)[i] == d.posOnly[i] {}
  }

  /** What each finding lists: the parameters or sent names that really are at fault, and no other. */
  lemma FindingsNameTheirCauses(d: Def, declared: seq<string>)
    requires IsInstanceMethod(d) && DefaultsAreRead(d) && Positional(d)[0] !in declared
    ensures forall n :: n in PositionalOnly(d, declared) <==> CutOff(d, declared, n)
    ensures forall n :: n in Missing(d, declared) <==> Stray(d, declared, n)
    ensures forall n :: n in Unfilled(d, declared) <==> LacksValue(d, n) && n !in declared
  {
    var behind := PositionalOnly(d, declared);
    KeepIs(DropReceiver(d.posOnly), Set(RequiredParameters(d)) + Set(declared));
    DropIs(declared, Set(ParameterNames(d)) + Set(behind));
    DropIs(RequiredParameters(d), Set(declared) + Set(behind));
    ReachableNames(d);
    forall n ensures n in behind <==> CutOff(d, declared, n) {
      BehindSlashAt(d, declared, n);
    }
    forall n ensures n in Unfilled(d, declared) <==> LacksValue(d, n) && n !in declared {
      RequiredAt(d, n);
      if LacksValue(d, n) {
        LacksValueIsReachable(d, n);
      }
    }
  }

  /** The parameters before the slash, the receiver aside, are those from the second on; no keyword reaches them. */
  lemma AfterReceiverAt(d: Def, n: string)
    requires IsInstanceMethod(d)
    ensures n in DropReceiver(d.posOnly) <==> exists i :: 1 <= i < |d.posOnly| && d.posOnly[i] == n
    ensures n in DropReceiver(d.posOnly) ==> !LacksValue(d, n)
  {
    PlacesOfNames(d);
    assert forall i :: 0 <= i < |d.posOnly| ==> Positional(d)[i] == d.posOnly[i];
    var rest := DropReceiver(d.posOnly);
    assert |rest| == if d.posOnly == [] then 0 else |d.posOnly| - 1;
    assert forall i :: 0 <= i < |rest| ==> rest[i] == d.posOnly[i + 1];
    if n in rest {
      var j :| 0 <= j < |rest| && rest[j] == n;
      assert d.posOnly[j + 1] == n;
      assert !Reachable(d, n);
      if LacksValue(d, n) {
        LacksValueIsReachable(d, n);
      }
    }
    if i :| 1 <= i < |d.posOnly| && d.posOnly[i] == n {
      assert rest[i - 1] == n;
    }
  }

  lemma BehindSlashAt(d: Def, declared: seq<string>, n: string)
    requires IsInstanceMethod(d) && DefaultsAreRead(d) && Positional(d)[0] !in declared
    ensures n in PositionalOnly(d, declared) <==> CutOff(d, declared, n)
  {
    KeepIs(DropReceiver(d.posOnly), Set(RequiredParameters(d)) + Set(declared));
    RequiredAt(d, n);
    AfterReceiverAt(d, n);
    hide DropReceiver, RequiredParameters, Keep, HasDefault, LacksValue, IsInstanceMethod;
  }

  lemma LacksValueIsReachable(d: Def, n: string)
    requires IsInstanceMethod(d) && LacksValue(d, n)
    ensures Reachable(d, n)
  {
    var i :| |d.posOnly| <= i < |Slots(d)| && i >= 1 && Slots(d)[i] == n && !HasDefault(d, i);
    assert Slots(d) == d.posOnly + (d.ordinary + Names(d.kwOnly));
    assert (d.ordinary + Names(d.kwOnly))[i - |d.posOnly|] == n;
  }

  /** The call binds, and no sent name misses the parameter it is meant for. */
  ghost predicate Callable(d: Def, declared: seq<string>) {
    Binds(d, declared) && !Diverted(d, declared)
  }

  /** The receiver is not sent, or a check that knows it cannot be reached finds it. */
  ghost predicate SparesReceiver(d: Def, declared: seq<string>)
    requires HasReceiver(d)
  {
    Positional(d)[0] in declared ==> d.posOnly != [] || !d.kwArgs
  }

  /** No signature finding, exactly when the call binds and nothing sent is diverted. */
  lemma CheckAgreesWithPython(d: Def, declared: seq<string>)
    requires IsInstanceMethod(d) && DefaultsAreRead(d) && Distinct(declared) && SparesReceiver(d, declared)
    ensures SignatureFindings(d, declared) == [] <==> Callable(d, declared)
  {
    hide SignatureFindings, Binds, Diverted, RequiredParameters, MustGet;
    NoFindingMeans(d, declared);
    BindsMeans(d, declared);
    DivertedMeans(d, declared);
    ReachableNames(d);
    SlotsSitSomewhere(d);
    RequiredAre(d);
  }

  /** The constructor check is the same question with nothing sent. */
  lemma ConstructorAgreesWithPython(d: Def)
    requires IsInstanceMethod(d) && DefaultsAreRead(d)
    ensures RequiredParameters(d) == [] <==> Binds(d, [])
  {
    BindsMeans(d, []);
    RequiredAre(d);
    EmptyIff(RequiredParameters(d));
  }

  // ------------------------------------------- when the defaults are misread

  /**
   With a default on the receiver and two parameters or more after it, the slice that drops
   the defaulted ones counts from the end, and all but the last are taken to be required.
   */
  lemma MisreadRequired(d: Def)
    requires IsInstanceMethod(d) && !DefaultsAreRead(d)
    ensures RequiredParameters(d) == Positional(d)[1..|Positional(d)| - 1] + WithoutDefault(d.kwOnly)
    ensures forall n :: MustGet(d, n) <==> n in WithoutDefault(d.kwOnly)
  {
    var pos := Positional(d);
    WithoutDefaultIs(d.kwOnly);
    forall i | |pos| <= i < |Slots(d)| ensures Slots(d)[i] == d.kwOnly[i - |pos|].name {}
    forall n | n in WithoutDefault(d.kwOnly) ensures MustGet(d, n) {
      var j :| 0 <= j < |d.kwOnly| && d.kwOnly[j].name == n && !d.kwOnly[j].hasDefault;
      assert Slots(d)[|pos| + j] == n && !HasDefault(d, |pos| + j);
    }
  }

  lemma {:induction false} WithoutDefaultIsDistinct(ks: seq<KeywordOnly>)
    requires Distinct(Names(ks))
    ensures Distinct(WithoutDefault(ks))
  {
    if ks != [] {
      var rest := WithoutDefault(ks[1..]);
      assert Names(ks)[1..] == Names(ks[1..]);
      WithoutDefaultIsDistinct(ks[1..]);
      WithoutDefaultIs(ks[1..]);
      forall j | 0 <= j < |rest| ensures rest[j] != ks[0].name {
        assert rest[j] in rest;
        var i :| 0 <= i < |ks[1..]| && ks[1..][i].name == rest[j];
        assert Names(ks)[0] == ks[0].name && Names(ks)[i + 1] == rest[j];
      }
    }
  }

  /** The call that sends just the keyword-only parameters without a default. */
  lemma LeastCallBinds(d: Def)
    requires IsInstanceMethod(d) && !DefaultsAreRead(d)
    ensures IsCall(d, WithoutDefault(d.kwOnly)) && Callable(d, WithoutDefault(d.kwOnly))
    ensures Positional(d)[1] !in WithoutDefault(d.kwOnly)
  {
    var pos, sent := Positional(d), WithoutDefault(d.kwOnly);
    var slots := pos + Names(d.kwOnly);
    forall i, j | 0 <= i < j < |d.kwOnly| ensures Names(d.kwOnly)[i] != Names(d.kwOnly)[j] {
      assert slots[|pos| + i] == Names(d.kwOnly)[i] && slots[|pos| + j] == Names(d.kwOnly)[j];
    }
    WithoutDefaultIsDistinct(d.kwOnly);
    WithoutDefaultIs(d.kwOnly);
    MisreadRequired(d);
    forall n | n in sent ensures n in Names(d.kwOnly) && n !in pos {
      var j :| 0 <= j < |d.kwOnly| && d.kwOnly[j].name == n;
      assert Names(d.kwOnly)[j] == n && slots[|pos| + j] == n;
      forall i | 0 <= i < |pos| ensures pos[i] != n {
        assert slots[i] == pos[i];
      }
    }
    assert forall n :: n in d.posOnly ==> n in pos;
    BindsMeans(d, sent);
    DivertedMeans(d, sent);
  }

  /** The check agrees with Python on every call of this method. */
  ghost predicate AgreesAlways(d: Def) {
    forall declared :: IsCall(d, declared) ==>
      (SignatureFindings(d, declared) == [] <==> Callable(d, declared))
  }

  /** On a `self` or `cls` method the check is right about every call exactly when it reads the defaults right. */
  lemma AgreementIsExact(d: Def)
    requires IsInstanceMethod(d)
    ensures AgreesAlways(d) <==> d.defaults < |Positional(d)| || |Positional(d)| <= 2
  {
    if DefaultsAreRead(d) {
      forall declared | IsCall(d, declared)
        ensures SignatureFindings(d, declared) == [] <==> Callable(d, declared)
      {
        CheckAgreesWithPython(d, declared);
      }
    } else {
      var sent := WithoutDefault(d.kwOnly);
      LeastCallBinds(d);
      MisreadRequired(d);
      NoFindingMeans(d, sent);
      assert Positional(d)[1] == Positional(d)[1..|Positional(d)| - 1][0];
      assert Positional(d)[1] in RequiredParameters(d);
      assert IsCall(d, sent) && SignatureFindings(d, sent) != [];
    }
  }

  /** The constructor check is right exactly then, or when a keyword-only parameter is required anyway. */
  lemma ConstructorAgreementIsExact(d: Def)
    requires IsInstanceMethod(d)
    ensures (RequiredParameters(d) == [] <==> Binds(d, [])) <==>
            d.defaults < |Positional(d)| || |Positional(d)| <= 2 || WithoutDefault(d.kwOnly) != []
  {
    if DefaultsAreRead(d) {
      ConstructorAgreesWithPython(d);
    } else {
      MisreadRequired(d);
      BindsMeans(d, []);
      EmptyIff(WithoutDefault(d.kwOnly));
      assert |Positional(d)[1..|Positional(d)| - 1]| > 0;
    }
  }

  // ---------------------------------------- every `def`, whatever its receiver

  /** The check agrees with Python on every call by distinct names, the receiver's own among them. */
  ghost predicate AgreesOnEvery(d: Def) {
    forall declared :: Distinct(declared) ==> (SignatureFindings(d, declared) == [] <==> Callable(d, declared))
  }

  /** The parameter after the receiver has no default and sits before the slash, so no call can bind. */
  predicate SecondIsCutOff(d: Def) {
    |d.posOnly| >= 2 && d.defaults + 2 <= |Positional(d)|
  }

  /** Sending some of the positional names in a row, and the keyword-only ones without a default. */
  function Sending(d: Def, from: nat, to: nat): seq<string>
    requires from <= to <= |Positional(d)|
  {
    Positional(d)[from..to] + WithoutDefault(d.kwOnly)
  }

  lemma SendingIs(d: Def, from: nat, to: nat)
    requires IsDef(d) && from <= to <= |Positional(d)|
    ensures Distinct(Sending(d, from, to))
    ensures forall n :: n in Sending(d, from, to) ==>
              n in WithoutDefault(d.kwOnly) || exists i :: from <= i < to && Positional(d)[i] == n
    ensures forall i :: 0 <= i < |Positional(d)| ==> (Positional(d)[i] in Sending(d, from, to) <==> from <= i < to)
    ensures forall n :: n in WithoutDefault(d.kwOnly) ==> n in Sending(d, from, to)
  {
    var pos, rest, sent := Positional(d), WithoutDefault(d.kwOnly), Sending(d, from, to);
    PlacesOfNames(d);
    var slots := Slots(d);
    forall i, j | 0 <= i < j < |d.kwOnly| ensures Names(d.kwOnly)[i] != Names(d.kwOnly)[j] {
      assert slots[|pos| + i] == Names(d.kwOnly)[i] && slots[|pos| + j] == Names(d.kwOnly)[j];
    }
    WithoutDefaultIsDistinct(d.kwOnly);
    forall i | 0 <= i < |pos| ensures pos[i] in sent <==> from <= i < to {
      if from <= i < to {
        assert sent[i - from] == pos[i];
      }
    }
    forall i, j | 0 <= i < j < |sent| ensures sent[i] != sent[j] {
      if j >= to - from {
        assert sent[j] == rest[j - (to - from)] && sent[j] in rest;
      }
    }
  }

  /** How many positional parameters have no default. */
  function Bare(d: Def): nat
    requires IsDef(d)
  {
    |Positional(d)| - d.defaults
  }

  lemma SlotAt(d: Def, i: nat)
    requires IsDef(d) && i < |Slots(d)|
    ensures |Slots(d)| == |Positional(d)| + |d.kwOnly|
    ensures i < |Positional(d)| ==> Slots(d)[i] == Positional(d)[i] && (HasDefault(d, i) <==> i >= Bare(d))
    ensures i >= |Positional(d)| ==>
              var k := d.kwOnly[i - |Positional(d)|]; Slots(d)[i] == k.name && (HasDefault(d, i) <==> k.hasDefault)
  {}

  lemma NeededSlot(d: Def, n: string)
    requires IsDef(d) && MustGet(d, n)
    ensures n in WithoutDefault(d.kwOnly) || exists i :: 1 <= i < Bare(d) && Positional(d)[i] == n
  {
    WithoutDefaultIs(d.kwOnly);
    hide WithoutDefault, Slots, HasDefault, Positional, IsDef;
    var i :| 1 <= i < |Slots(d)| && Slots(d)[i] == n && !HasDefault(d, i);
    SlotAt(d, i);
    if i >= |Positional(d)| {
      var k := d.kwOnly[i - |Positional(d)|];
      assert k.name == n && !k.hasDefault;
    }
  }

  lemma BareIsNeeded(d: Def, i: nat)
    requires IsDef(d) && 1 <= i < Bare(d)
    ensures MustGet(d, Positional(d)[i])
  {
    SlotAt(d, i);
  }

  lemma WithoutDefaultIsNeeded(d: Def, n: string)
    requires HasReceiver(d) && n in WithoutDefault(d.kwOnly)
    ensures MustGet(d, n)
  {
    WithoutDefaultIs(d.kwOnly);
    hide WithoutDefault;
    var j :| 0 <= j < |d.kwOnly| && d.kwOnly[j].name == n && !d.kwOnly[j].hasDefault;
    assert |Slots(d)| == |Positional(d)| + |d.kwOnly|;
    SlotAt(d, |Positional(d)| + j);
    hide Slots, HasDefault, Positional, IsDef;
    assert Slots(d)[|Positional(d)| + j] == n;
  }

  lemma MustGetIs(d: Def)
    requires HasReceiver(d)
    ensures forall n :: MustGet(d, n) <==>
              n in WithoutDefault(d.kwOnly) || exists i :: 1 <= i < Bare(d) && Positional(d)[i] == n
  {
    hide MustGet, WithoutDefault, Positional;
    forall n ensures MustGet(d, n) <==>
      n in WithoutDefault(d.kwOnly) || exists i :: 1 <= i < Bare(d) && Positional(d)[i] == n
    {
      if MustGet(d, n) {
        NeededSlot(d, n);
      }
      if n in WithoutDefault(d.kwOnly) {
        WithoutDefaultIsNeeded(d, n);
      }
      if i :| 1 <= i < Bare(d) && Positional(d)[i] == n {
        BareIsNeeded(d, i);
      }
    }
  }

  /** With another name for the receiver the check takes it for a parameter like any other. */
  lemma OtherReceiver(d: Def)
    requires HasReceiver(d) && !IsInstanceMethod(d)
    ensures RequiredParameters(d) == Sending(d, 0, Bare(d))
    ensures DropReceiver(d.posOnly) == d.posOnly
    ensures forall n :: n in ParameterNames(d) <==> Reachable(d, n)
  {
    var pos := Positional(d);
    assert d.posOnly != [] ==> d.posOnly[0] == pos[0];
    assert d.posOnly == [] ==> d.ordinary[0] == pos[0];
    assert pos[..Bare(d)] == pos[0..Bare(d)];
  }

  /** The positional names behind the slash: none is required by the check, or sent. */
  lemma OtherNothingBehindSlash(d: Def, declared: seq<string>)
    requires HasReceiver(d) && !IsInstanceMethod(d)
    ensures NothingBehindSlash(d, declared) <==>
            (d.posOnly != [] ==> Bare(d) == 0) && forall i :: 0 <= i < |d.posOnly| ==> Positional(d)[i] !in declared
  {
    var pos := Positional(d);
    OtherReceiver(d);
    SendingIs(d, 0, Bare(d));
    assert forall i :: 0 <= i < |d.posOnly| ==> pos[i] == d.posOnly[i];
    if NothingBehindSlash(d, declared) && d.posOnly != [] {
      assert pos[0] in d.posOnly;
    }
  }

  lemma OtherOrdinary(d: Def)
    requires HasReceiver(d) && !IsInstanceMethod(d) && d.posOnly == []
    ensures !AgreesOnEvery(d)
  {
    hide SignatureFindings, Callable;
    if Bare(d) == 0 {
      FirstIsSent(d);
      assert Distinct(Sending(d, 0, 1));
    } else {
      OthersAreSent(d);
      assert Distinct(Sending(d, 1, Bare(d)));
    }
  }

  /** A first parameter with a default, sent by keyword: silence, and Python raises. */
  lemma FirstIsSent(d: Def)
    requires HasReceiver(d) && !IsInstanceMethod(d) && d.posOnly == [] && Bare(d) == 0
    ensures Distinct(Sending(d, 0, 1))
    ensures SignatureFindings(d, Sending(d, 0, 1)) == [] && !Callable(d, Sending(d, 0, 1))
  {
    var declared := Sending(d, 0, 1);
    SendingIs(d, 0, 1);
    SendingIs(d, 0, 0);
    PlacesOfNames(d);
    OtherReceiver(d);
    OtherNothingBehindSlash(d, declared);
    NoFindingMeans(d, declared);
    BindsMeans(d, declared);
    hide SignatureFindings, Binds, RequiredParameters, MustGet, WithoutDefault, NothingBehindSlash, ParameterNames;
  }

  /** A first parameter without a default, not sent: Python takes the call for bound, and the check asks for it. */
  lemma OthersAreSent(d: Def)
    requires HasReceiver(d) && !IsInstanceMethod(d) && Bare(d) > 0 && !SecondIsCutOff(d)
    ensures Distinct(Sending(d, 1, Bare(d)))
    ensures SignatureFindings(d, Sending(d, 1, Bare(d))) != [] && Callable(d, Sending(d, 1, Bare(d)))
  {
    var declared := Sending(d, 1, Bare(d));
    SendingIs(d, 1, Bare(d));
    SendingIs(d, 0, Bare(d));
    PlacesOfNames(d);
    OtherReceiver(d);
    NoFindingMeans(d, declared);
    SentWithoutFirstIsCallable(d);
    hide SignatureFindings, Callable, WithoutDefault, NothingBehindSlash, ParameterNames;
    assert Positional(d)[0] in RequiredParameters(d);
  }

  lemma SentWithoutFirstIsCallable(d: Def)
    requires HasReceiver(d) && Bare(d) > 0 && !SecondIsCutOff(d)
    ensures Callable(d, Sending(d, 1, Bare(d)))
  {
    var declared := Sending(d, 1, Bare(d));
    SendingIs(d, 1, Bare(d));
    PlacesOfNames(d);
    BindsMeans(d, declared);
    DivertedMeans(d, declared);
    MustGetIs(d);
    assert forall i :: 0 <= i < |d.posOnly| ==> Positional(d)[i] == d.posOnly[i];
    hide Binds, Diverted, WithoutDefault, MustGet;
  }

  lemma OtherBehindSlash(d: Def)
    requires HasReceiver(d) && !IsInstanceMethod(d) && d.posOnly != []
    ensures AgreesOnEvery(d) <==> (Bare(d) == 0 && !d.kwArgs) || SecondIsCutOff(d)
  {
    hide SignatureFindings, Callable;
    if (Bare(d) == 0 && !d.kwArgs) || SecondIsCutOff(d) {
      forall declared | Distinct(declared) ensures SignatureFindings(d, declared) == [] <==> Callable(d, declared) {
        OtherAgrees(d, declared);
      }
    } else if Bare(d) > 0 {
      OthersAreSent(d);
      assert Distinct(Sending(d, 1, Bare(d)));
    } else {
      FirstIsExtra(d);
      assert Distinct(Sending(d, 0, 1));
    }
  }

  /** A first parameter before the slash, sent by keyword to `**kwargs`: a finding, and Python does not mind. */
  lemma FirstIsExtra(d: Def)
    requires HasReceiver(d) && !IsInstanceMethod(d) && d.posOnly != [] && Bare(d) == 0 && d.kwArgs
    ensures Distinct(Sending(d, 0, 1))
    ensures SignatureFindings(d, Sending(d, 0, 1)) != [] && Callable(d, Sending(d, 0, 1))
  {
    var declared := Sending(d, 0, 1);
    SendingIs(d, 0, 1);
    PlacesOfNames(d);
    OtherNothingBehindSlash(d, declared);
    NoFindingMeans(d, declared);
    BindsMeans(d, declared);
    MustGetIs(d);
    DivertedMeans(d, declared);
    assert forall i :: 0 <= i < |d.posOnly| ==> Positional(d)[i] == d.posOnly[i];
    hide SignatureFindings, Binds, Diverted, RequiredParameters, MustGet, WithoutDefault, NothingBehindSlash, ParameterNames;
  }

  lemma OtherAgrees(d: Def, declared: seq<string>)
    requires HasReceiver(d) && !IsInstanceMethod(d) && d.posOnly != [] && Distinct(declared)
    requires (Bare(d) == 0 && !d.kwArgs) || SecondIsCutOff(d)
    ensures SignatureFindings(d, declared) == [] <==> Callable(d, declared)
  {
    var pos := Positional(d);
    PlacesOfNames(d);
    OtherReceiver(d);
    OtherNothingBehindSlash(d, declared);
    NoFindingMeans(d, declared);
    BindsMeans(d, declared);
    MustGetIs(d);
    DivertedMeans(d, declared);
    SendingIs(d, 0, Bare(d));
    assert forall i :: 0 <= i < |d.posOnly| ==> pos[i] == d.posOnly[i];
    if SecondIsCutOff(d) {
      assert MustGet(d, pos[1]) && !Reachable(d, pos[1]);
    }
  }

  /** Without a positional parameter only `*args` can take the object. */
  lemma NoReceiver(d: Def)
    requires IsDef(d) && Positional(d) == []
    ensures AgreesOnEvery(d) <==> d.varArgs
  {
    if d.varArgs {
      forall declared | Distinct(declared) ensures SignatureFindings(d, declared) == [] <==> Callable(d, declared) {
        VarArgsAgrees(d, declared);
      }
    } else {
      var declared := Sending(d, 0, 0);
      SendingIs(d, 0, 0);
      PlacesOfNames(d);
      NoFindingMeans(d, declared);
      TypeErrorStays(d, declared);
      assert SignatureFindings(d, declared) == [] && !Callable(d, declared);
    }
  }

  lemma KeywordSlotsFilled(d: Def, filled: set<string>)
    requires IsDef(d) && Positional(d) == []
    ensures EverySlotFilled(d, filled) <==> forall n :: n in WithoutDefault(d.kwOnly) ==> n in filled
    ensures RequiredParameters(d) == WithoutDefault(d.kwOnly)
  {
    WithoutDefaultIs(d.kwOnly);
    assert forall i :: 0 <= i < |d.kwOnly| ==> Slots(d)[i] == d.kwOnly[i].name;
    if forall n :: n in WithoutDefault(d.kwOnly) ==> n in filled {
      forall i | 0 <= i < |d.kwOnly| && !d.kwOnly[i].hasDefault ensures Slots(d)[i] in filled {
        assert d.kwOnly[i].name in WithoutDefault(d.kwOnly);
      }
    }
  }

  lemma VarArgsBinds(d: Def, declared: seq<string>)
    requires IsDef(d) && Positional(d) == [] && d.varArgs && Distinct(declared)
    ensures Callable(d, declared) <==>
            && (d.kwArgs || forall n :: n in declared ==> Reachable(d, n))
            && forall n :: n in WithoutDefault(d.kwOnly) ==> n in declared
  {
    KeywordsTogether(d, BindReceiver(d), declared);
    PlacesOfNames(d);
    var reachable := Set(d.ordinary + Names(d.kwOnly));
    assert forall n :: n in reachable <==> Reachable(d, n);
    assert Set(declared) <= reachable <==> forall n :: n in declared ==> n in reachable;
    var b := BindKeywords(d, BindReceiver(d), declared);
    KeywordSlotsFilled(d, if b.Bound? then b.filled else {});
    hide BindKeywords, EverySlotFilled, WithoutDefault, RequiredParameters;
  }

  lemma VarArgsAgrees(d: Def, declared: seq<string>)
    requires IsDef(d) && Positional(d) == [] && d.varArgs && Distinct(declared)
    ensures SignatureFindings(d, declared) == [] <==> Callable(d, declared)
  {
    NoFindingMeans(d, declared);
    VarArgsBinds(d, declared);
    KeywordSlotsFilled(d, {});
    hide SignatureFindings, Callable, RequiredParameters, WithoutDefault;
    assert NothingBehindSlash(d, declared);
    assert forall n :: n in ParameterNames(d) <==> Reachable(d, n);
  }

  /** Sending the receiver by its own name: with `**kwargs` and no slash the check is silent, and Python raises. */
  lemma SentReceiver(d: Def)
    requires IsInstanceMethod(d) && DefaultsAreRead(d) && d.posOnly == [] && d.kwArgs
    ensures !AgreesOnEvery(d)
  {
    var to := if Bare(d) == 0 then 1 else Bare(d);
    var declared := Sending(d, 0, to);
    SendingIs(d, 0, to);
    RequiredAre(d);
    MustGetIs(d);
    NoFindingMeans(d, declared);
    BindsMeans(d, declared);
    assert SignatureFindings(d, declared) == [] && !Callable(d, declared);
  }

  /**
   Over all `def`s and all calls by distinct names the check agrees with Python exactly when: a
   `self` or `cls` method reads its defaults right and, with `**kwargs`, has its receiver before a
   slash; a method with another first name has it before a slash too, and then all parameters have
   defaults and there is no `**kwargs`, or no call can bind; a `def` with no positional has `*args`.
   */
  lemma AgreementEverywhere(d: Def)
    requires IsDef(d)
    ensures AgreesOnEvery(d) <==>
            if Positional(d) == [] then d.varArgs
            else if Positional(d)[0] == "self" || Positional(d)[0] == "cls" then
              && (d.defaults < |Positional(d)| || |Positional(d)| <= 2)
              && (d.posOnly != [] || !d.kwArgs)
            else
              && d.posOnly != []
              && ((d.defaults == |Positional(d)| && !d.kwArgs)
                  || (|d.posOnly| >= 2 && d.defaults + 2 <= |Positional(d)|))
  {
    hide SignatureFindings, Callable, RequiredParameters;
    if Positional(d) == [] {
      NoReceiver(d);
    } else if !IsInstanceMethod(d) {
      if d.posOnly == [] {
        OtherOrdinary(d);
      } else {
        OtherBehindSlash(d);
      }
    } else if !DefaultsAreRead(d) {
      AgreementIsExact(d);
      assert AgreesOnEvery(d) ==> AgreesAlways(d);
    } else if d.posOnly == [] && d.kwArgs {
      SentReceiver(d);
    } else {
      forall declared | Distinct(declared) ensures SignatureFindings(d, declared) == [] <==> Callable(d, declared) {
        CheckAgreesWithPython(d, declared);
      }
    }
  }

  /** The constructor check is right about a `def` exactly so, whatever its receiver is called. */
  lemma ConstructorAgreementEverywhere(d: Def)
    requires IsDef(d)
    ensures (RequiredParameters(d) == [] <==> Binds(d, [])) <==>
            || WithoutDefault(d.kwOnly) != []
            || if Positional(d) == [] then d.varArgs
               else if Positional(d)[0] == "self" || Positional(d)[0] == "cls" then
                 d.defaults < |Positional(d)| || |Positional(d)| <= 2
               else d.defaults != |Positional(d)| - 1
  {
    EmptyIff(WithoutDefault(d.kwOnly));
    if Positional(d) == [] {
      KeywordSlotsFilled(d, {});
    } else if IsInstanceMethod(d) {
      ConstructorAgreementIsExact(d);
    } else {
      OtherReceiver(d);
      BindsMeans(d, []);
      MustGetIs(d);
      if Bare(d) > 1 {
        assert MustGet(d, Positional(d)[1]);
      }
    }
  }
}

/**
 What binds a name in Python source: the syntax tree as far as it matters to the name
 walks of packages/core/canyonos_core/validate.py, and, separately, what a block binds in
 its own scope (section 4.2.1, "Binding of names", of the Python Language Reference).

 `_methods` collects the names its walk sees in a class body. That is neither all the body
 binds nor only what it binds; `MissedExactly` and `PhantomExactly` say where they differ.
 */
module PythonSyntax {
  import Signature

  /**
   A statement or expression. `outer` is evaluated in the enclosing scope: decorators,
   defaults and bases, or the first iterable of a comprehension. `body` and `inner` have a
   scope of their own, but for the body of an `except ... as name` clause. An import has the
   name as written, which is `*` or may have dots, and the one it binds. `Attribute` is an
   assignment to `on.name`.
   */
  datatype Node =
    | Def(name: string, sig: Signature.Def, outer: seq<Node>, body: seq<Node>)
    | Nested(name: string, outer: seq<Node>, body: seq<Node>)
    | Store(name: string)
    | Annotated(name: string)
    | Import(written: string, bound: string)
    | Capture(name: string)
    | Handler(name: string, body: seq<Node>)
    | Attribute(on: string, name: string)
    | Foreign(name: string)
    | Scope(outer: seq<Node>, inner: seq<Node>)
    | Group(parts: seq<Node>)

  // ------------------------------------------------- the source's walks

  /** Every `ast.Name` in store position at any depth; a bare annotation is one too. */
  function Stores(ns: seq<Node>): set<string> {
    if ns == [] then {} else StoresOf(ns[0]) + Stores(ns[1..])
  }

  function StoresOf(n: Node): set<string> {
    match n
    case Def(_, _, outer, body) => Stores(outer) + Stores(body)
    case Nested(_, outer, body) => Stores(outer) + Stores(body)
    case Store(name) => {name}
    case Annotated(name) => {name}
    case Import(_, _) | Capture(_) | Attribute(_, _) | Foreign(_) => {}
    case Handler(_, body) => Stores(body)
    case Scope(outer, inner) => Stores(outer) + Stores(inner)
    case Group(parts) => Stores(parts)
  }

  /** `_binds`: a class, a function, a stored name or an import of that name at any depth. */
  predicate Binds(ns: seq<Node>, name: string) {
    ns != [] && (BindsOf(ns[0], name) || Binds(ns[1..], name))
  }

  predicate BindsOf(n: Node, name: string) {
    match n
    case Def(own, _, outer, body) => own == name || Binds(outer, name) || Binds(body, name)
    case Nested(own, outer, body) => own == name || Binds(outer, name) || Binds(body, name)
    case Store(own) => own == name
    case Annotated(own) => own == name
    case Import(written, _) => written == "*" || written == name
    case Capture(_) | Attribute(_, _) | Foreign(_) => false
    case Handler(_, body) => Binds(body, name)
    case Scope(outer, inner) => Binds(outer, name) || Binds(inner, name)
    case Group(parts) => Binds(parts, name)
  }

  /** `ast.walk`: the nodes and everything within them. */
  function Walk(ns: seq<Node>): seq<Node> {
    if ns == [] then [] else WalkOf(ns[0]) + Walk(ns[1..])
  }

  function WalkOf(n: Node): seq<Node> {
    [n] +
    match n
    case Def(_, _, outer, body) => Walk(outer) + Walk(body)
    case Nested(_, outer, body) => Walk(outer) + Walk(body)
    case Handler(_, body) => Walk(body)
    case Scope(outer, inner) => Walk(outer) + Walk(inner)
    case Group(parts) => Walk(parts)
    case _ => []
  }

  /** This very node binds the name in the source's sense. */
  predicate BindsHere(n: Node, name: string) {
    || (n.Def? && n.name == name)
    || (n.Nested? && n.name == name)
    || n == Store(name) || n == Annotated(name)
    || (n.Import? && (n.written == "*" || n.written == name))
  }

  /** Some node of the walk binds the name. */
  ghost predicate WalkBinds(walk: seq<Node>, name: string) {
    exists n :: n in walk && BindsHere(n, name)
  }

  lemma WalksTogether(a: seq<Node>, b: seq<Node>, name: string)
    ensures WalkBinds(a + b, name) <==> WalkBinds(a, name) || WalkBinds(b, name)
    ensures forall n :: n in a + b <==> n in a || n in b
  {
    assert forall n :: n in a + b <==> n in a || n in b;
  }

  /** The recursions are the source's loops over a walk of the tree. */
  lemma {:induction false} WalksFind(ns: seq<Node>, name: string)
    ensures Binds(ns, name) <==> WalkBinds(Walk(ns), name)
    ensures name in Stores(ns) <==> Store(name) in Walk(ns) || Annotated(name) in Walk(ns)
  {
    if ns != [] {
      WalkOfFinds(ns[0], name);
      WalksFind(ns[1..], name);
      WalksTogether(WalkOf(ns[0]), Walk(ns[1..]), name);
      hide WalkBinds;
    }
  }

  /** A node and the walks of its two parts. */
  lemma NodeTogether(n: Node, a: seq<Node>, b: seq<Node>, name: string)
    ensures WalkBinds([n] + (a + b), name) <==> BindsHere(n, name) || WalkBinds(a, name) || WalkBinds(b, name)
    ensures WalkBinds([n] + a, name) <==> BindsHere(n, name) || WalkBinds(a, name)
    ensures forall m :: m in [n] + (a + b) <==> m == n || m in a || m in b
    ensures forall m :: m in [n] + a <==> m == n || m in a
  {
    assert WalkBinds([n], name) <==> BindsHere(n, name) by {
      assert n in [n];
    }
    WalksTogether(a, b, name);
    WalksTogether([n], a + b, name);
    WalksTogether([n], a, name);
    hide WalkBinds;
  }

  lemma {:induction false} WalkOfFinds(n: Node, name: string)
    ensures BindsOf(n, name) <==> WalkBinds(WalkOf(n), name)
    ensures name in StoresOf(n) <==> Store(name) in WalkOf(n) || Annotated(name) in WalkOf(n)
  {
    hide WalkBinds;
    match n
    case Def(_, _, outer, body) =>
      WalksFind(outer, name);
      WalksFind(body, name);
      NodeTogether(n, Walk(outer), Walk(body), name);
    case Nested(_, outer, body) =>
      WalksFind(outer, name);
      WalksFind(body, name);
      NodeTogether(n, Walk(outer), Walk(body), name);
    case Handler(_, body) =>
      WalksFind(body, name);
      NodeTogether(n, Walk(body), [], name);
    case Scope(outer, inner) =>
      WalksFind(outer, name);
      WalksFind(inner, name);
      NodeTogether(n, Walk(outer), Walk(inner), name);
    case Group(parts) =>
      WalksFind(parts, name);
      NodeTogether(n, Walk(parts), [], name);
    case _ =>
      LeafFinds(n, name);
      assert [n] + [] == [n];
  }

  lemma LeafFinds(n: Node, name: string)
    ensures WalkBinds([n], name) <==> BindsHere(n, name)
  {
    assert n in [n];
  }

  /** The names `_methods` records for one class body: its own `def`s, else the stored names. */
  function Listed(body: seq<Node>): set<string> {
    if body == [] then {} else ListedOf(body[0]) + Listed(body[1..])
  }

  function ListedOf(n: Node): set<string> {
    if n.Def? then {n.name} else StoresOf(n)
  }

  // -------------------------------------------- Python's scope of a block

  /**
   The names that statements of the block bind in its own scope, if none is `global`. An
   `except` clause takes its name away again when it ends.
   */
  function Own(ns: seq<Node>): set<string> {
    if ns == [] then {} else OwnOf(ns[0]) + Own(ns[1..])
  }

  function OwnOf(n: Node): set<string> {
    match n
    case Def(name, _, outer, _) => {name} + Own(outer)
    case Nested(name, outer, _) => {name} + Own(outer)
    case Store(name) => {name}
    case Annotated(_) => {}
    case Import(_, bound) => {bound}
    case Capture(name) => {name}
    case Handler(name, body) => Own(body) - {name}
    case Attribute(_, _) => {}
    case Foreign(_) => {}
    case Scope(outer, _) => Own(outer)
    case Group(parts) => Own(parts)
  }

  /** The names the block declares `global` or `nonlocal`. */
  function Foreigns(ns: seq<Node>): set<string> {
    if ns == [] then {} else ForeignsOf(ns[0]) + Foreigns(ns[1..])
  }

  function ForeignsOf(n: Node): set<string> {
    match n
    case Foreign(name) => {name}
    case Handler(_, body) => Foreigns(body)
    case Group(parts) => Foreigns(parts)
    case _ => {}
  }

  /** The names a class body binds, on whatever path runs through it. */
  function Bound(body: seq<Node>): set<string> {
    Own(body) - Foreigns(body)
  }

  // ------------------------------------------------- where they differ

  /** Bound in this scope through a stored name: what the walk is after. */
  function Loud(ns: seq<Node>): set<string> {
    if ns == [] then {} else LoudOf(ns[0]) + Loud(ns[1..])
  }

  function LoudOf(n: Node): set<string> {
    match n
    case Store(name) => {name}
    case Def(_, _, outer, _) => Loud(outer)
    case Nested(_, outer, _) => Loud(outer)
    case Handler(name, body) => Loud(body) - {name}
    case Scope(outer, _) => Loud(outer)
    case Group(parts) => Loud(parts)
    case _ => {}
  }

  /** Bound in this scope by a `def`, a class, an import or a `match` pattern. */
  function Quiet(ns: seq<Node>): set<string> {
    if ns == [] then {} else QuietOf(ns[0]) + Quiet(ns[1..])
  }

  function QuietOf(n: Node): set<string> {
    match n
    case Def(name, _, outer, _) => {name} + Quiet(outer)
    case Nested(name, outer, _) => {name} + Quiet(outer)
    case Import(_, bound) => {bound}
    case Capture(name) => {name}
    case Handler(name, body) => Quiet(body) - {name}
    case Scope(outer, _) => Quiet(outer)
    case Group(parts) => Quiet(parts)
    case _ => {}
  }

  /** Stored in some inner scope, annotated without a value, or taken away by an `except` clause. */
  function Elsewhere(ns: seq<Node>): set<string> {
    if ns == [] then {} else ElsewhereOf(ns[0]) + Elsewhere(ns[1..])
  }

  function ElsewhereOf(n: Node): set<string> {
    match n
    case Annotated(name) => {name}
    case Def(_, _, outer, body) => Elsewhere(outer) + Stores(body)
    case Nested(_, outer, body) => Elsewhere(outer) + Stores(body)
    case Handler(name, body) => Elsewhere(body) + (Loud(body) * {name})
    case Scope(outer, inner) => Elsewhere(outer) + Stores(inner)
    case Group(parts) => Elsewhere(parts)
    case _ => {}
  }

  lemma {:induction false} ScopeSplits(ns: seq<Node>)
    ensures Own(ns) == Loud(ns) + Quiet(ns)
    ensures Stores(ns) == Loud(ns) + Elsewhere(ns)
  {
    if ns != [] {
      NodeSplits(ns[0]);
      ScopeSplits(ns[1..]);
    }
  }

  lemma {:induction false} NodeSplits(n: Node)
    ensures OwnOf(n) == LoudOf(n) + QuietOf(n)
    ensures StoresOf(n) == LoudOf(n) + ElsewhereOf(n)
  {
    match n
    case Def(_, _, outer, _) => ScopeSplits(outer);
    case Nested(_, outer, _) => ScopeSplits(outer);
    case Handler(_, body) => ScopeSplits(body);
    case Scope(outer, _) => ScopeSplits(outer);
    case Group(parts) => ScopeSplits(parts);
    case _ =>
  }

  /** The body itself holds a `def` of the name, or stores it in the class scope. */
  predicate Seen(body: seq<Node>, name: string) {
    exists n | n in body :: if n.Def? then n.name == name else name in LoudOf(n)
  }

  /**
   The body binds the name where the walk does not look: a `def` under `if`, `try` or `with`, a
   class, an import, a `match` name, or an assignment within a `def` line.
   */
  predicate Unseen(body: seq<Node>, name: string) {
    exists n | n in body :: if n.Def? then name in Own(n.outer) else name in QuietOf(n)
  }

  /** The walk meets the name in an inner scope, a bare annotation or its own `except` clause. */
  predicate Mistaken(body: seq<Node>, name: string) {
    exists n | n in body :: !n.Def? && name in ElsewhereOf(n)
  }

  lemma {:induction false} BodySplits(body: seq<Node>, name: string)
    ensures name in Own(body) <==> Seen(body, name) || Unseen(body, name)
    ensures name in Listed(body) <==> Seen(body, name) || Mistaken(body, name)
  {
    if body != [] {
      var n, rest := body[0], body[1..];
      BodySplits(rest, name);
      NodeSplits(n);
      assert forall m :: m in body <==> m == n || m in rest;
    }
  }

  /** An unlisted name is bound exactly when the body binds it where the walk does not look. */
  lemma MissedExactly(body: seq<Node>, name: string)
    requires name !in Listed(body)
    ensures name in Bound(body) <==> Unseen(body, name) && name !in Foreigns(body)
  {
    BodySplits(body, name);
  }

  /** A listed name is not bound exactly when every binding of it belongs elsewhere. */
  lemma PhantomExactly(body: seq<Node>, name: string)
    requires name in Listed(body)
    ensures name !in Bound(body) <==>
            name in Foreigns(body) || (Mistaken(body, name) && !Seen(body, name) && !Unseen(body, name))
  {
    BodySplits(body, name);
  }

  /** A body without such places is listed exactly. */
  lemma PlainBodyIsExact(body: seq<Node>, name: string)
    requires !Unseen(body, name) && !Mistaken(body, name) && name !in Foreigns(body)
    ensures name in Listed(body) <==> name in Bound(body)
  {
    BodySplits(body, name);
  }

  // ------------------------------------------------ names put on the object

  /** The attributes a method body assigns on `self`, inner functions included unless they reuse its name. */
  function PutOn(ns: seq<Node>, self: string): set<string> {
    if ns == [] then {} else PutOnOf(ns[0], self) + PutOn(ns[1..], self)
  }

  function PutOnOf(n: Node, self: string): set<string> {
    match n
    case Attribute(on, name) => if on == self then {name} else {}
    case Def(_, sig, outer, body) =>
      PutOn(outer, self) + if self in Signature.Slots(sig) then {} else PutOn(body, self)
    case Nested(_, outer, body) => PutOn(outer, self) + PutOn(body, self)
    case Handler(_, body) => PutOn(body, self)
    case Scope(outer, inner) => PutOn(outer, self) + PutOn(inner, self)
    case Group(parts) => PutOn(parts, self)
    case _ => {}
  }

  /** The attributes that the methods of a class body assign on their first parameter, the object. */
  function Assigned(body: seq<Node>): set<string> {
    if body == [] then {} else AssignedOf(body[0]) + Assigned(body[1..])
  }

  function AssignedOf(n: Node): set<string> {
    match n
    case Def(_, sig, _, body) =>
      if Signature.Positional(sig) == [] then {} else PutOn(body, Signature.Positional(sig)[0])
    case Handler(_, body) => Assigned(body)
    case Group(parts) => Assigned(parts)
    case _ => {}
  }

  // ------------------------------------------- the same, over the statements

  /** The statements of a block, at any depth of `if`, `for`, `with`, `try` and `except`. */
  function Statements(ns: seq<Node>): seq<Node> {
    if ns == [] then [] else StatementsOf(ns[0]) + Statements(ns[1..])
  }

  function StatementsOf(n: Node): seq<Node> {
    match n
    case Handler(_, body) => Statements(body)
    case Group(parts) => Statements(parts)
    case _ => [n]
  }

  /** The statement is a method whose body, by the name of its first parameter, assigns the attribute. */
  predicate PutsOnObject(n: Node, name: string) {
    n.Def? && Signature.Positional(n.sig) != [] && name in PutOn(n.body, Signature.Positional(n.sig)[0])
  }

  lemma {:induction false} StatementsDeclare(ns: seq<Node>, name: string)
    ensures name in Foreigns(ns) <==> Foreign(name) in Statements(ns)
    ensures name in Assigned(ns) <==> exists n :: n in Statements(ns) && PutsOnObject(n, name)
  {
    if ns != [] {
      StatementsOfDeclare(ns[0], name);
      StatementsDeclare(ns[1..], name);
    }
  }

  lemma {:induction false} StatementsOfDeclare(n: Node, name: string)
    ensures name in ForeignsOf(n) <==> Foreign(name) in StatementsOf(n)
    ensures name in AssignedOf(n) <==> exists m :: m in StatementsOf(n) && PutsOnObject(m, name)
  {
    match n
    case Handler(_, body) => StatementsDeclare(body, name);
    case Group(parts) => StatementsDeclare(parts, name);
    case _ => assert n in StatementsOf(n);
  }

  /** No inner function takes a parameter of this name. */
  predicate NeverReused(walk: seq<Node>, self: string) {
    forall n | n in walk :: n.Def? ==> self !in Signature.Slots(n.sig)
  }

  /** Attributes are put on the object only where some node assigns them; all such count unless its name is reused. */
  lemma {:induction false} PutOnIsAssigned(ns: seq<Node>, self: string, name: string)
    ensures name in PutOn(ns, self) ==> Attribute(self, name) in Walk(ns)
    ensures NeverReused(Walk(ns), self) && Attribute(self, name) in Walk(ns) ==> name in PutOn(ns, self)
  {
    if ns != [] {
      PutOnOfIsAssigned(ns[0], self, name);
      PutOnIsAssigned(ns[1..], self, name);
      assert Walk(ns) == WalkOf(ns[0]) + Walk(ns[1..]);
    }
  }

  lemma {:induction false} PutOnOfIsAssigned(n: Node, self: string, name: string)
    ensures name in PutOnOf(n, self) ==> Attribute(self, name) in WalkOf(n)
    ensures NeverReused(WalkOf(n), self) && Attribute(self, name) in WalkOf(n) ==> name in PutOnOf(n, self)
    ensures n.Def? && self in Signature.Slots(n.sig) ==> PutOnOf(n, self) == PutOn(n.outer, self)
  {
    match n
    case Def(_, sig, outer, body) =>
      assert n in WalkOf(n);
      PutOnIsAssigned(outer, self, name);
      PutOnIsAssigned(body, self, name);
    case Nested(_, outer, body) =>
      PutOnIsAssigned(outer, self, name);
      PutOnIsAssigned(body, self, name);
    case Handler(_, body) => PutOnIsAssigned(body, self, name);
    case Scope(outer, inner) =>
      PutOnIsAssigned(outer, self, name);
      PutOnIsAssigned(inner, self, name);
    case Group(parts) => PutOnIsAssigned(parts, self, name);
    case _ =>
  }

  // ------------------------------------------------------------- examples

  lemma OneStatement(n: Node)
    ensures Listed([n]) == ListedOf(n) && Own([n]) == OwnOf(n) && Foreigns([n]) == ForeignsOf(n)
    ensures Stores([n]) == StoresOf(n) && Assigned([n]) == AssignedOf(n)
    ensures forall self :: PutOn([n], self) == PutOnOf(n, self)
  {
    assert [n][1..] == [];
  }

  const NO_ARGUMENTS := Signature.Def([], ["self"], 0, false, [], false, false)

  /** `if ...: def run(self)`, and `from helpers import run`. */
  predicate HidesRun(n: Node) {
    n == Group([Def("run", NO_ARGUMENTS, [], [])]) || n == Import("run", "run")
  }

  lemma RunIsHidden(n: Node)
    requires HidesRun(n)
    ensures Listed([n]) == {} && Bound([n]) == {"run"}
  {
    var run := Def("run", NO_ARGUMENTS, [], []);
    OneStatement(n);
    OneStatement(run);
  }

  /** `def __init__(self): self.run = ...`. */
  const PUTS_RUN := Def("__init__", NO_ARGUMENTS, [], [Attribute("self", "run")])

  lemma RunIsAssigned()
    ensures Listed([PUTS_RUN]) == {"__init__"} && Assigned([PUTS_RUN]) == {"run"}
  {
    OneStatement(PUTS_RUN);
    OneStatement(Attribute("self", "run"));
  }

  /** `xs = [x for x in ...]`. */
  const COMPREHENSION := Group([Store("xs"), Scope([], [Store("x")])])

  lemma VariableIsMistaken()
    ensures Listed([COMPREHENSION]) == {"xs", "x"} && Bound([COMPREHENSION]) == {"xs"}
    ensures Assigned([COMPREHENSION]) == {}
  {
    var x, xs, inner := Store("x"), Store("xs"), Scope([], [Store("x")]);
    OneStatement(COMPREHENSION);
    OneStatement(inner);
    OneStatement(x);
    assert [xs, inner][1..] == [inner];
  }
}

/**
 `_methods` of packages/core/canyonos_core/validate.py: the attributes of a class and its
 bases, and whether every base could be read. The reference is the closure of the class
 under "is a base of", for any inheritance graph.
 */
module ClassMembers {
  import opened ClassResolution
  import opened Wrappers
  import opened PythonSyntax
  import Signature

  datatype Found = Defined(def: Signature.Def, path: FileName) | BoundOtherwise

  datatype Members = Members(of: map<string, Found>, complete: bool)

  function Id(cls: ClassRef): Pair {
    (cls.path, cls.node.name)
  }

  // ------------------------------------------------------ one class body

  function AfterNode(m: map<string, Found>, n: Node, path: FileName): map<string, Found> {
    if n.Def? then m[n.name := Defined(n.sig, path)]
    else m + map name | name in StoresOf(n) :: BoundOtherwise
  }

  function OfBody(body: seq<Node>, path: FileName): map<string, Found> {
    if body == [] then map[]
    else AfterNode(OfBody(body[..|body| - 1], path), body[|body| - 1], path)
  }

  lemma {:induction false} ListedSplits(a: seq<Node>, n: Node)
    ensures Listed(a + [n]) == Listed(a) + ListedOf(n)
  {
    if a != [] {
      assert (a + [n])[1..] == a[1..] + [n];
      ListedSplits(a[1..], n);
    }
  }

  lemma {:induction false} OfBodyAre(body: seq<Node>, path: FileName)
    ensures OfBody(body, path).Keys == Listed(body)
  {
    if body != [] {
      var front, last := body[..|body| - 1], body[|body| - 1];
      OfBodyAre(front, path);
      ListedSplits(front, last);
      assert body == front + [last];
    }
  }

  // --------------------------------------------------- with the bases

  function ClassIds(project: Project): set<Pair> {
    set p, s | p in project && project[p].Some? && s in project[p].value && s.Class? :: (p, s.def.name)
  }

  /** What one base adds: nothing for `object`, incompleteness when it cannot be read. */
  function AfterBase(project: Project, cls: ClassRef, base: Base, seen: set<Pair>, sofar: Members): Members
    requires InProject(project, cls)
    decreases ClassIds(project) - seen, 1
  {
    if base == Named("object") then sofar
    else
      var r := if base.Named? then Resolve(project, cls.path, base.id, {}) else Unreadable;
      if !r.Resolved? || Id(r.cls) in seen then sofar.(complete := false)
      else
        var inherited := Methods(project, r.cls, seen);
        Members(inherited.of + sofar.of, sofar.complete && inherited.complete)
  }

  function AfterBases(project: Project, cls: ClassRef, bases: seq<Base>, seen: set<Pair>): Members
    requires InProject(project, cls)
    decreases ClassIds(project) - seen, 2, |bases|
  {
    if bases == [] then
      var own := OfBody(cls.node.body, cls.path);
      Members(own, "__getattr__" !in own)
    else
      AfterBase(project, cls, bases[|bases| - 1], seen, AfterBases(project, cls, bases[..|bases| - 1], seen))
  }

  lemma IdsShrink(project: Project, cls: ClassRef, seen: set<Pair>)
    requires InProject(project, cls) && Id(cls) !in seen
    ensures ClassIds(project) - (seen + {Id(cls)}) < ClassIds(project) - seen
  {
    assert Id(cls) in ClassIds(project) by {
      var p, s := cls.path, Class(cls.node);
      assert p in project && s in project[p].value && s.Class? && (p, s.def.name) == Id(cls);
    }
    var rest := ClassIds(project) - (seen + {Id(cls)});
    assert rest <= ClassIds(project) - seen;
    assert Id(cls) in (ClassIds(project) - seen) - rest;
  }

  function Methods(project: Project, cls: ClassRef, seen: set<Pair>): Members
    requires InProject(project, cls) && Id(cls) !in seen
    decreases ClassIds(project) - seen, 0
  {
    IdsShrink(project, cls, seen);
    AfterBases(project, cls, cls.node.bases, seen + {Id(cls)})
  }

  /** `_methods`: the dictionary is filled from the body, then from each base in turn. */
  method CollectMethods(project: Project, cls: ClassRef, seen: set<Pair>)
    returns (methods: map<string, Found>, complete: bool)
    requires InProject(project, cls) && Id(cls) !in seen
    ensures Members(methods, complete) == Methods(project, cls, seen)
    decreases ClassIds(project) - seen
  {
    IdsShrink(project, cls, seen);
    methods := map[];
    var body := cls.node.body;
    for i := 0 to |body|
      invariant methods == OfBody(body[..i], cls.path)
    {
      assert body[..i + 1][..i] == body[..i];
      methods := AfterNode(methods, body[i], cls.path);
    }
    assert body[..|body|] == body;
    complete := "__getattr__" !in methods;
    var visited := seen + {Id(cls)};
    var bases := cls.node.bases;
    for i := 0 to |bases|
      invariant Members(methods, complete) == AfterBases(project, cls, bases[..i], visited)
    {
      assert bases[..i + 1][..i] == bases[..i];
      var base := bases[i];
      if base != Named("object") {
        var resolved := Unreadable;
        if base.Named? {
          resolved := ResolveClass(project, cls.path, base.id, {});
        }
        if !resolved.Resolved? || Id(resolved.cls) in visited {
          complete := false;
        } else {
          var inherited, baseComplete := CollectMethods(project, resolved.cls, visited);
          complete := complete && baseComplete;
          methods := inherited + methods;
        }
      }
    }
    assert bases[..|bases|] == bases;
  }

  // ------------------------------------------------- the base closure

  predicate IsBase(project: Project, cls: ClassRef, base: ClassRef)
    requires InProject(project, cls)
  {
    exists b | b in cls.node.bases ::
      b.Named? && b.id != "object" && Resolve(project, cls.path, b.id, {}) == Resolved(base)
  }

  /** Every base of the class is `object` or a class of the project. */
  predicate BasesReadable(project: Project, cls: ClassRef)
    requires InProject(project, cls)
  {
    forall b | b in cls.node.bases ::
      b.Named? && (b.id == "object" || Resolve(project, cls.path, b.id, {}).Resolved?)
  }

  /** A walk from a class up through its bases. */
  ghost predicate IsChain(project: Project, chain: seq<ClassRef>) {
    && chain != []
    && (forall i :: 0 <= i < |chain| ==> InProject(project, chain[i]))
    && (forall i :: 0 < i < |chain| ==> IsBase(project, chain[i - 1], chain[i]))
  }

  ghost predicate InClosure(project: Project, cls: ClassRef, c: ClassRef) {
    exists chain :: IsChain(project, chain) && chain[0] == cls && chain[|chain| - 1] == c
  }

  lemma {:induction false} BasesAdded(project: Project, cls: ClassRef, bases: seq<Base>, seen: set<Pair>, b: Base)
    requires InProject(project, cls) && b in bases
    requires AfterBases(project, cls, bases, seen).complete
    ensures b == Named("object") ||
            (&& b.Named?
             && Resolve(project, cls.path, b.id, {}).Resolved?
             && var base := Resolve(project, cls.path, b.id, {}).cls;
             && Id(base) !in seen
             && Methods(project, base, seen).complete
             && Methods(project, base, seen).of.Keys <= AfterBases(project, cls, bases, seen).of.Keys)
    decreases |bases|
  {
    var last := bases[|bases| - 1];
    if b != last {
      BasesAdded(project, cls, bases[..|bases| - 1], seen, b);
    }
  }

  lemma {:induction false} OwnKept(project: Project, cls: ClassRef, bases: seq<Base>, seen: set<Pair>)
    requires InProject(project, cls)
    ensures var own, all := OfBody(cls.node.body, cls.path), AfterBases(project, cls, bases, seen);
            && (forall n :: n in own ==> n in all.of && all.of[n] == own[n])
            && (all.complete ==> "__getattr__" !in own)
    decreases |bases|
  {
    if bases != [] {
      OwnKept(project, cls, bases[..|bases| - 1], seen);
    }
  }

  /** What "complete" promises of one class in the closure. */
  ghost predicate Covered(project: Project, m: Members, c: ClassRef)
    requires InProject(project, c)
  {
    && BasesReadable(project, c)
    && Listed(c.node.body) <= m.of.Keys
    && "__getattr__" !in Listed(c.node.body)
  }

  /** A complete answer covers every class above, and the walk never meets a class twice. */
  lemma {:induction false} CompleteCoversChain(project: Project, chain: seq<ClassRef>, seen: set<Pair>)
    requires IsChain(project, chain) && Id(chain[0]) !in seen
    requires Methods(project, chain[0], seen).complete
    ensures Covered(project, Methods(project, chain[0], seen), chain[|chain| - 1])
    ensures forall i :: 0 <= i < |chain| ==> Id(chain[i]) !in seen
    ensures forall i, j :: 0 <= i < j < |chain| ==> Id(chain[i]) != Id(chain[j])
    decreases |chain|
  {
    var cls, visited := chain[0], seen + {Id(chain[0])};
    OfBodyAre(cls.node.body, cls.path);
    OwnKept(project, cls, cls.node.bases, visited);
    forall b | b in cls.node.bases
      ensures b.Named? && (b.id == "object" || Resolve(project, cls.path, b.id, {}).Resolved?)
    {
      BasesAdded(project, cls, cls.node.bases, visited, b);
    }
    if |chain| > 1 {
      var rest := chain[1..];
      assert forall i :: 0 <= i < |rest| ==> rest[i] == chain[i + 1];
      assert IsBase(project, chain[0], chain[1]);
      var b :| b in cls.node.bases && b.Named? && b.id != "object" &&
               Resolve(project, cls.path, b.id, {}) == Resolved(chain[1]);
      BasesAdded(project, cls, cls.node.bases, visited, b);
      assert IsChain(project, rest);
      CompleteCoversChain(project, rest, visited);
      forall i, j | 0 <= i < j < |chain| ensures Id(chain[i]) != Id(chain[j]) {
        assert rest[j - 1] == chain[j];
        if i > 0 {
          assert rest[i - 1] == chain[i];
        }
      }
    }
  }

  /** Every reported name is one the walk sees in some class of the closure, complete or not. */
  lemma {:induction false} ReportedComesFromClosure(project: Project, cls: ClassRef, seen: set<Pair>, n: string)
    returns (chain: seq<ClassRef>)
    requires InProject(project, cls) && Id(cls) !in seen
    requires n in Methods(project, cls, seen).of
    ensures IsChain(project, chain) && chain[0] == cls && n in Listed(chain[|chain| - 1].node.body)
    decreases ClassIds(project) - seen, 1, 0
  {
    IdsShrink(project, cls, seen);
    OfBodyAre(cls.node.body, cls.path);
    if n in OfBody(cls.node.body, cls.path) {
      chain := [cls];
    } else {
      var visited := seen + {Id(cls)};
      var base := FromSomeBase(project, cls, cls.node.bases, visited, n);
      var rest := ReportedComesFromClosure(project, base, visited, n);
      chain := [cls] + rest;
      assert forall i :: 0 < i < |chain| ==> chain[i] == rest[i - 1];
    }
  }

  lemma {:induction false} FromSomeBase(project: Project, cls: ClassRef, bases: seq<Base>, seen: set<Pair>, n: string)
    returns (base: ClassRef)
    requires InProject(project, cls) && n !in OfBody(cls.node.body, cls.path)
    requires forall b :: b in bases ==> b in cls.node.bases
    requires n in AfterBases(project, cls, bases, seen).of
    ensures InProject(project, base) && IsBase(project, cls, base)
    ensures Id(base) !in seen && n in Methods(project, base, seen).of
    decreases |bases|
  {
    var last := bases[|bases| - 1];
    var before := AfterBases(project, cls, bases[..|bases| - 1], seen);
    if n in before.of {
      base := FromSomeBase(project, cls, bases[..|bases| - 1], seen, n);
    } else {
      base := Resolve(project, cls.path, last.id, {}).cls;
    }
  }

  /** Up this chain all bases can be read, no class answers to any name, and none is met twice. */
  ghost predicate ReadsThrough(project: Project, chain: seq<ClassRef>, seen: set<Pair>)
    requires IsChain(project, chain)
  {
    && BasesReadable(project, chain[|chain| - 1])
    && "__getattr__" !in Listed(chain[|chain| - 1].node.body)
    && (forall i :: 0 <= i < |chain| ==> Id(chain[i]) !in seen)
    && forall i, j :: 0 <= i < j < |chain| ==> Id(chain[i]) != Id(chain[j])
  }

  ghost predicate AllReadThrough(project: Project, cls: ClassRef, seen: set<Pair>) {
    forall chain :: IsChain(project, chain) && chain[0] == cls ==> ReadsThrough(project, chain, seen)
  }

  lemma ReadsThroughBase(project: Project, cls: ClassRef, base: ClassRef, seen: set<Pair>)
    requires InProject(project, cls) && InProject(project, base) && IsBase(project, cls, base)
    requires AllReadThrough(project, cls, seen)
    ensures Id(base) !in seen + {Id(cls)} && AllReadThrough(project, base, seen + {Id(cls)})
  {
    forall chain | IsChain(project, chain) && chain[0] == base
      ensures ReadsThrough(project, chain, seen + {Id(cls)})
    {
      var longer := [cls] + chain;
      assert forall i :: 0 < i < |longer| ==> longer[i] == chain[i - 1];
      assert IsChain(project, longer) by {
        forall i | 0 < i < |longer| ensures IsBase(project, longer[i - 1], longer[i]) {
          assert i > 1 ==> IsBase(project, chain[i - 2], chain[i - 1]);
        }
      }
      assert ReadsThrough(project, longer, seen);
      forall i | 0 <= i < |chain| ensures Id(chain[i]) !in seen + {Id(cls)} {
        assert Id(longer[i + 1]) != Id(longer[0]);
      }
      forall i, j | 0 <= i < j < |chain| ensures Id(chain[i]) != Id(chain[j]) {
        assert Id(longer[i + 1]) != Id(longer[j + 1]);
      }
    }
    assert IsChain(project, [base]) && [base][0] == base;
  }

  lemma {:induction false} ReadThroughIsComplete(project: Project, cls: ClassRef, seen: set<Pair>)
    requires InProject(project, cls) && Id(cls) !in seen && AllReadThrough(project, cls, seen)
    ensures Methods(project, cls, seen).complete
    decreases ClassIds(project) - seen, 1, 0
  {
    assert IsChain(project, [cls]) && [cls][0] == cls;
    assert ReadsThrough(project, [cls], seen);
    OfBodyAre(cls.node.body, cls.path);
    IdsShrink(project, cls, seen);
    BasesReadThrough(project, cls, cls.node.bases, seen);
  }

  lemma {:induction false} BasesReadThrough(project: Project, cls: ClassRef, bases: seq<Base>, seen: set<Pair>)
    requires InProject(project, cls) && Id(cls) !in seen && AllReadThrough(project, cls, seen)
    requires BasesReadable(project, cls) && "__getattr__" !in OfBody(cls.node.body, cls.path)
    requires forall b :: b in bases ==> b in cls.node.bases
    ensures AfterBases(project, cls, bases, seen + {Id(cls)}).complete
    decreases ClassIds(project) - seen, 0, |bases|
  {
    if bases != [] {
      var last := bases[|bases| - 1];
      BasesReadThrough(project, cls, bases[..|bases| - 1], seen);
      if last != Named("object") {
        var base := Resolve(project, cls.path, last.id, {}).cls;
        assert IsBase(project, cls, base);
        ReadsThroughBase(project, cls, base, seen);
        IdsShrink(project, cls, seen);
        ReadThroughIsComplete(project, base, seen + {Id(cls)});
      }
    }
  }

  /**
   The answer is complete exactly when, up every chain of bases, all bases can be read, no body
   lists `__getattr__`, and no class comes twice.
   */
  lemma CompleteExactly(project: Project, cls: ClassRef)
    requires InProject(project, cls)
    ensures Methods(project, cls, {}).complete <==> AllReadThrough(project, cls, {})
  {
    if Methods(project, cls, {}).complete {
      forall chain | IsChain(project, chain) && chain[0] == cls ensures ReadsThrough(project, chain, {}) {
        CompleteCoversChain(project, chain, {});
      }
    } else if AllReadThrough(project, cls, {}) {
      ReadThroughIsComplete(project, cls, {});
    }
  }

  // -------------------------------------------- which definition a name has

  /** The last statement of the body that lists the name. */
  predicate IsLastListing(body: seq<Node>, i: nat, n: string) {
    i < |body| && n in ListedOf(body[i]) && forall j :: i < j < |body| ==> n !in ListedOf(body[j])
  }

  lemma {:induction false} LastListingExists(body: seq<Node>, n: string)
    ensures n in Listed(body) <==> exists i: nat :: IsLastListing(body, i, n)
  {
    if body != [] {
      var front, last := body[..|body| - 1], |body| - 1;
      LastListingExists(front, n);
      ListedSplits(front, body[last]);
      assert body == front + [body[last]];
      if n in ListedOf(body[last]) {
        assert IsLastListing(body, last, n);
      } else {
        assert forall i: nat :: IsLastListing(front, i, n) <==> IsLastListing(body, i, n);
      }
    }
  }

  /** What that statement makes of the name: its own `def`, or bound some other way. */
  function Gives(node: Node, path: FileName): Found {
    if node.Def? then Defined(node.sig, path) else BoundOtherwise
  }

  lemma {:induction false} LastListingDecides(body: seq<Node>, path: FileName, n: string, i: nat)
    requires IsLastListing(body, i, n)
    ensures n in OfBody(body, path) && OfBody(body, path)[n] == Gives(body[i], path)
  {
    if i < |body| - 1 {
      LastListingDecides(body[..|body| - 1], path, n, i);
    }
  }

  /** The base is a class of the project, not met before, and has the name. */
  predicate BaseHas(project: Project, cls: ClassRef, base: Base, seen: set<Pair>, n: string)
    requires InProject(project, cls)
  {
    && base.Named? && base.id != "object"
    && Resolve(project, cls.path, base.id, {}).Resolved?
    && Id(Resolve(project, cls.path, base.id, {}).cls) !in seen
    && n in Methods(project, Resolve(project, cls.path, base.id, {}).cls, seen).of
  }

  predicate IsFirstBase(project: Project, cls: ClassRef, bases: seq<Base>, seen: set<Pair>, n: string, k: nat)
    requires InProject(project, cls)
  {
    && k < |bases| && BaseHas(project, cls, bases[k], seen, n)
    && forall j :: 0 <= j < k ==> !BaseHas(project, cls, bases[j], seen, n)
  }

  lemma {:induction false} FirstBaseExists(
      project: Project, cls: ClassRef, bases: seq<Base>, seen: set<Pair>, n: string, k: nat)
    requires InProject(project, cls) && k < |bases| && BaseHas(project, cls, bases[k], seen, n)
    ensures exists i: nat :: i <= k && IsFirstBase(project, cls, bases, seen, n, i)
    decreases k
  {
    if j :| 0 <= j < k && BaseHas(project, cls, bases[j], seen, n) {
      FirstBaseExists(project, cls, bases, seen, n, j);
    } else {
      assert IsFirstBase(project, cls, bases, seen, n, k);
    }
  }

  /** What the class and these bases give for a name that its own body does not list. */
  ghost predicate FromFirstBase(project: Project, cls: ClassRef, bases: seq<Base>, seen: set<Pair>, n: string,
                                of: map<string, Found>)
    requires InProject(project, cls)
  {
    && (n in of <==> exists k: nat :: IsFirstBase(project, cls, bases, seen, n, k))
    && forall k: nat :: IsFirstBase(project, cls, bases, seen, n, k) ==>
         n in of && of[n] == Methods(project, Resolve(project, cls.path, bases[k].id, {}).cls, seen).of[n]
  }

  lemma {:induction false} BasesGive(project: Project, cls: ClassRef, bases: seq<Base>, seen: set<Pair>, n: string)
    requires InProject(project, cls)
    ensures var own, of := OfBody(cls.node.body, cls.path), AfterBases(project, cls, bases, seen).of;
            if n in own then n in of && of[n] == own[n] else FromFirstBase(project, cls, bases, seen, n, of)
    decreases |bases|
  {
    if bases != [] {
      var front, last := bases[..|bases| - 1], |bases| - 1;
      BasesGive(project, cls, front, seen, n);
      forall k: nat | k < last
        ensures IsFirstBase(project, cls, front, seen, n, k) <==> IsFirstBase(project, cls, bases, seen, n, k)
      {
        assert forall j :: 0 <= j < last ==> front[j] == bases[j];
      }
      if n !in OfBody(cls.node.body, cls.path) && n in AfterBases(project, cls, front, seen).of {
        var k: nat :| IsFirstBase(project, cls, front, seen, n, k);
        assert IsFirstBase(project, cls, bases, seen, n, k);
      } else if BaseHas(project, cls, bases[last], seen, n) {
        FirstBaseExists(project, cls, bases, seen, n, last);
      }
    }
  }

  /**
   A name is what the last statement of the class body says that lists it. One the body does not
   list is there exactly when some base has it, and is what it is in the first such base.
   */
  lemma NearestDefinitionWins(project: Project, cls: ClassRef, seen: set<Pair>, n: string)
    requires InProject(project, cls) && Id(cls) !in seen
    ensures var body, of, visited := cls.node.body, Methods(project, cls, seen).of, seen + {Id(cls)};
            && (n in Listed(body) <==> exists i: nat :: IsLastListing(body, i, n))
            && (forall i: nat :: IsLastListing(body, i, n) ==> n in of && of[n] == Gives(body[i], cls.path))
            && (n !in Listed(body) ==> FromFirstBase(project, cls, cls.node.bases, visited, n, of))
  {
    var body := cls.node.body;
    OfBodyAre(body, cls.path);
    BasesGive(project, cls, cls.node.bases, seen + {Id(cls)}, n);
    LastListingExists(body, n);
    forall i: nat | IsLastListing(body, i, n)
      ensures n in OfBody(body, cls.path) && OfBody(body, cls.path)[n] == Gives(body[i], cls.path)
    {
      LastListingDecides(body, cls.path, n, i);
    }
  }

  // ------------------------------------------------------ main results

  /** When complete, exactly the names that the walk sees in some class of the closure are listed. */
  lemma CompleteIsExact(project: Project, cls: ClassRef, n: string)
    requires InProject(project, cls) && Methods(project, cls, {}).complete
    ensures n in Methods(project, cls, {}).of <==>
            exists c :: InProject(project, c) && InClosure(project, cls, c) && n in Listed(c.node.body)
  {
    if n in Methods(project, cls, {}).of {
      var chain := ReportedComesFromClosure(project, cls, {}, n);
      assert InClosure(project, cls, chain[|chain| - 1]);
    }
    if c :| InProject(project, c) && InClosure(project, cls, c) && n in Listed(c.node.body) {
      var chain :| IsChain(project, chain) && chain[0] == cls && chain[|chain| - 1] == c;
      CompleteCoversChain(project, chain, {});
    }
  }

  /** Some class of the closure binds the name. */
  ghost predicate Inherits(project: Project, cls: ClassRef, n: string)
    requires InProject(project, cls)
  {
    exists c :: InProject(project, c) && InClosure(project, cls, c) && n in Bound(c.node.body)
  }

  /** Some class of the closure binds the name where the walk does not look. */
  ghost predicate InheritsUnseen(project: Project, cls: ClassRef, n: string)
    requires InProject(project, cls)
  {
    exists c :: InProject(project, c) && InClosure(project, cls, c)
                && Unseen(c.node.body, n) && n !in Foreigns(c.node.body)
  }

  lemma CompleteHasNoGetattr(project: Project, cls: ClassRef)
    requires InProject(project, cls) && Methods(project, cls, {}).complete
    ensures "__getattr__" !in Methods(project, cls, {}).of
  {
    if "__getattr__" in Methods(project, cls, {}).of {
      var chain := ReportedComesFromClosure(project, cls, {}, "__getattr__");
      CompleteCoversChain(project, chain, {});
    }
  }

  lemma UnlistedIsUnseen(project: Project, cls: ClassRef, n: string)
    requires InProject(project, cls)
    requires Methods(project, cls, {}).complete && n !in Methods(project, cls, {}).of
    ensures Inherits(project, cls, n) <==> InheritsUnseen(project, cls, n)
  {
    CompleteIsExact(project, cls, n);
    forall c | InProject(project, c) && InClosure(project, cls, c)
      ensures n in Bound(c.node.body) <==> Unseen(c.node.body, n) && n !in Foreigns(c.node.body)
    {
      MissedExactly(c.node.body, n);
    }
  }

  // ----------------------------------------------- what the controller finds

  /** What every object has from `object` or from being one of a class. */
  const OBJECT_NAMES: set<string> := {
    "__class__", "__delattr__", "__dict__", "__dir__", "__doc__", "__eq__", "__format__", "__ge__",
    "__getattribute__", "__getstate__", "__gt__", "__hash__", "__init__", "__init_subclass__", "__le__",
    "__lt__", "__module__", "__ne__", "__new__", "__reduce__", "__reduce_ex__", "__repr__",
    "__setattr__", "__sizeof__", "__str__", "__subclasshook__", "__weakref__"
  }

  /** Some method of the closure assigns the name on its object. */
  ghost predicate Assigns(project: Project, cls: ClassRef, n: string)
    requires InProject(project, cls)
  {
    exists c :: InProject(project, c) && InClosure(project, cls, c) && n in Assigned(c.node.body)
  }

  /**
   `getattr(agent, name)` finds something: the name is bound by a class of the closure or put on
   the object by a method of one, or `object` has it, or a hook of the class answers to any name.
   */
  ghost predicate Gettable(project: Project, cls: ClassRef, n: string)
    requires InProject(project, cls)
  {
    || Inherits(project, cls, n)
    || Assigns(project, cls, n)
    || n in OBJECT_NAMES
    || Inherits(project, cls, "__getattr__")
    || Inherits(project, cls, "__getattribute__")
  }

  /** How a name that no class is known to bind is found after all. */
  ghost predicate GettableOtherwise(project: Project, cls: ClassRef, n: string)
    requires InProject(project, cls)
  {
    || Assigns(project, cls, n)
    || n in OBJECT_NAMES
    || InheritsUnseen(project, cls, "__getattr__")
    || Inherits(project, cls, "__getattribute__")
  }

  /**
   "Has no method" is false exactly when a class of the closure binds the name where the walk does
   not look, a method puts it on the object, `object` has it, or a hook answers: a `__getattribute__`,
   or a `__getattr__` bound where the walk does not look.
   */
  lemma NoMethodIsWrongExactly(project: Project, cls: ClassRef, n: string)
    requires InProject(project, cls)
    requires Methods(project, cls, {}).complete && n !in Methods(project, cls, {}).of
    ensures Gettable(project, cls, n) <==> InheritsUnseen(project, cls, n) || GettableOtherwise(project, cls, n)
  {
    CompleteHasNoGetattr(project, cls);
    UnlistedIsUnseen(project, cls, n);
    UnlistedIsUnseen(project, cls, "__getattr__");
  }

  /** All that the walk meets of the name in this class belongs elsewhere. */
  predicate BelongsElsewhere(c: ClassRef, n: string) {
    n in Foreigns(c.node.body) || (!Seen(c.node.body, n) && !Unseen(c.node.body, n))
  }

  lemma ListedIsInheritedUnlessElsewhere(project: Project, cls: ClassRef, n: string)
    requires InProject(project, cls)
    ensures !Inherits(project, cls, n) <==>
            forall c :: InProject(project, c) && InClosure(project, cls, c) ==> BelongsElsewhere(c, n)
  {
    forall c | InProject(project, c) && InClosure(project, cls, c)
      ensures n !in Bound(c.node.body) <==> BelongsElsewhere(c, n)
    {
      BodySplits(c.node.body, n);
    }
  }

  /** A listed name is missing after all exactly when it belongs elsewhere in each class, and nothing else has it. */
  lemma ListedIsWrongExactly(project: Project, cls: ClassRef, n: string)
    requires InProject(project, cls)
    requires Methods(project, cls, {}).complete && n in Methods(project, cls, {}).of
    ensures !Gettable(project, cls, n) <==>
            && (forall c :: InProject(project, c) && InClosure(project, cls, c) ==> BelongsElsewhere(c, n))
            && !GettableOtherwise(project, cls, n)
  {
    CompleteHasNoGetattr(project, cls);
    UnlistedIsUnseen(project, cls, "__getattr__");
    ListedIsInheritedUnlessElsewhere(project, cls, n);
  }

  /** No class of the closure has an occurrence of the name that the walk misjudges. */
  ghost predicate IsPlain(project: Project, cls: ClassRef, n: string) {
    forall c :: InProject(project, c) && InClosure(project, cls, c) ==>
      !Unseen(c.node.body, n) && !Mistaken(c.node.body, n) && n !in Foreigns(c.node.body)
  }

  /** Where no class of the closure hides, mistakes or disowns the name and nothing else has it, the list is right. */
  lemma PlainClassesAreRight(project: Project, cls: ClassRef, n: string)
    requires InProject(project, cls) && Methods(project, cls, {}).complete
    ensures IsPlain(project, cls, n) && !GettableOtherwise(project, cls, n) ==>
              (n in Methods(project, cls, {}).of <==> Gettable(project, cls, n))
  {
    if IsPlain(project, cls, n) {
      CompleteIsExact(project, cls, n);
      CompleteHasNoGetattr(project, cls);
      UnlistedIsUnseen(project, cls, "__getattr__");
      forall c | InProject(project, c) && InClosure(project, cls, c)
        ensures n in Listed(c.node.body) <==> n in Bound(c.node.body)
      {
        PlainBodyIsExact(c.node.body, n);
      }
    }
  }

  // ------------------------------------------------------------- examples

  function Alone(body: seq<Node>): (r: (Project, ClassRef))
    ensures InProject(r.0, r.1)
  {
    var node := ClassDef("Agent", [], [], body);
    var stmts := [Class(node)];
    assert stmts[0] == Class(node);
    (map["agent.py" := Some(stmts)], ClassRef("agent.py", node))
  }

  /** A class without bases: complete, and judged by its body alone. */
  lemma AloneIs(body: seq<Node>, n: string)
    requires "__getattr__" !in Listed(body)
    ensures var (project, cls) := Alone(body);
            && Methods(project, cls, {}).complete
            && Methods(project, cls, {}).of.Keys == Listed(body)
            && (Inherits(project, cls, n) <==> n in Bound(body))
            && (Assigns(project, cls, n) <==> n in Assigned(body))
  {
    var (project, cls) := Alone(body);
    OfBodyAre(body, "agent.py");
    assert IsChain(project, [cls]) && [cls][0] == cls;
    assert InClosure(project, cls, cls);
    forall c | InClosure(project, cls, c) ensures c == cls {
      var chain :| IsChain(project, chain) && chain[0] == cls && chain[|chain| - 1] == c;
      assert |chain| > 1 ==> IsBase(project, chain[0], chain[1]);
    }
  }

  /** The class is said to lack the name, and it is found. */
  ghost predicate WronglyAbsent(body: seq<Node>, n: string) {
    var (project, cls) := Alone(body);
    && Methods(project, cls, {}).complete && n !in Methods(project, cls, {}).of
    && Gettable(project, cls, n)
  }

  /** A hidden binding, an assignment in `__init__`, a `__getattribute__` and `object` each make the report wrong. */
  lemma WrongReportsExist(hidden: Node)
    requires HidesRun(hidden)
    ensures WronglyAbsent([hidden], "run")
    ensures WronglyAbsent([PUTS_RUN], "run")
    ensures WronglyAbsent([Def("__getattribute__", NO_ARGUMENTS, [], [])], "run")
    ensures WronglyAbsent([], "__str__")
  {
    RunIsHidden(hidden);
    AloneIs([hidden], "run");
    RunIsAssigned();
    AloneIs([PUTS_RUN], "run");
    var hook := Def("__getattribute__", NO_ARGUMENTS, [], []);
    OneStatement(hook);
    AloneIs([hook], "__getattribute__");
    AloneIs([], "__str__");
  }

  /** The variable of a comprehension is listed, and not found. */
  lemma PhantomExists()
    ensures var (project, cls) := Alone([COMPREHENSION]);
            && Methods(project, cls, {}).complete && "x" in Methods(project, cls, {}).of
            && !Gettable(project, cls, "x")
  {
    VariableIsMistaken();
    AloneIs([COMPREHENSION], "x");
    AloneIs([COMPREHENSION], "__getattr__");
    AloneIs([COMPREHENSION], "__getattribute__");
  }

  /** A complete answer means the inheritance graph above the class has no cycle. */
  lemma CompleteMeansAcyclic(project: Project, chain: seq<ClassRef>)
    requires IsChain(project, chain) && Methods(project, chain[0], {}).complete
    ensures forall i, j :: 0 <= i < j < |chain| ==> Id(chain[i]) != Id(chain[j])
  {
    CompleteCoversChain(project, chain, {});
  }
}

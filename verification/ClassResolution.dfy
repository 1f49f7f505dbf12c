/**
 `_resolve_class` and `_methods` of packages/core/canyonos_core/validate.py: which class a
 module-level name is, and which attributes the class and its bases define, read from the
 syntax alone. Imports, aliases and bases may form cycles; a set of visited pairs stops both.

 A project maps each of its files to its statements, or to None when it does not parse.
 */
module ClassResolution {
  import opened Wrappers
  import opened PythonSyntax

  type FileName = string

  datatype Base = Named(id: string) | Computed

  /** `outer` holds the decorators and the bases as expressions. */
  datatype ClassDef = ClassDef(name: string, bases: seq<Base>, outer: seq<Node>, body: seq<Node>)

  datatype Alias = Alias(name: string, asName: Option<string>)

  datatype Stmt =
    | Class(def: ClassDef)
    | Assign(targets: set<string>, value: Option<string>)
    | ImportFrom(file: Option<FileName>, aliases: seq<Alias>)
    | Other(node: Node)

  type Project = map<FileName, Option<seq<Stmt>>>

  datatype ClassRef = ClassRef(path: FileName, node: ClassDef)

  datatype Resolution = Absent | Unreadable | Resolved(cls: ClassRef)

  type Pair = (FileName, string)

  predicate Readable(project: Project, path: FileName) {
    path in project && project[path].Some?
  }

  predicate InProject(project: Project, cls: ClassRef) {
    Readable(project, cls.path) && Class(cls.node) in project[cls.path].value
  }

  // ------------------------------------------------- one statement

  predicate AliasBinds(a: Alias, name: string) {
    a.name == "*" || (if a.asName.Some? then a.asName.value else a.name) == name
  }

  function FirstAlias(aliases: seq<Alias>, name: string): Option<Alias> {
    if aliases == [] then None
    else if AliasBinds(aliases[0], name) then Some(aliases[0])
    else FirstAlias(aliases[1..], name)
  }

  /** Where a statement sends the search for `name`: an answer, or another name elsewhere. */
  datatype Target = NotHere | Stop(answer: Resolution) | Goto(path: FileName, name: string)

  function Look(project: Project, path: FileName, stmt: Stmt, name: string): Target {
    match stmt
    case Class(def) =>
      if def.name == name then Stop(Resolved(ClassRef(path, def)))
      else if Binds(def.outer, name) || Binds(def.body, name) then Stop(Unreadable)
      else NotHere
    case Assign(targets, value) =>
      if name !in targets then NotHere
      else if value.Some? then Goto(path, value.value)
      else Stop(Unreadable)
    case ImportFrom(file, aliases) =>
      var alias := FirstAlias(aliases, name);
      if alias.None? then NotHere
      else if alias.value.name != "*" && file.Some? && Readable(project, file.value) then
        Goto(file.value, alias.value.name)
      else Stop(Unreadable)
    case Other(node) =>
      if Binds([node], name) then Stop(Unreadable) else NotHere
  }

  /** The last statement that binds the name decides. */
  function LookLast(project: Project, path: FileName, stmts: seq<Stmt>, name: string): Target {
    if stmts == [] then Stop(Absent)
    else
      var last := Look(project, path, stmts[|stmts| - 1], name);
      if last.NotHere? then LookLast(project, path, stmts[..|stmts| - 1], name) else last
  }

  // ----------------------------------------------- following the names

  function Mentions(stmt: Stmt): set<string> {
    match stmt
    case Assign(_, value) => if value.Some? then {value.value} else {}
    case ImportFrom(_, aliases) => set a | a in aliases :: a.name
    case _ => {}
  }

  /** Every pair a search can be sent on to: finitely many, which is why it ends. */
  function Pairs(project: Project): set<Pair> {
    set p, q, s, n | p in project && q in project && project[q].Some? && s in project[q].value && n in Mentions(s)
      :: (p, n)
  }

  lemma {:induction false} FirstAliasIsListed(aliases: seq<Alias>, name: string)
    ensures FirstAlias(aliases, name).Some? ==>
              FirstAlias(aliases, name).value in aliases && AliasBinds(FirstAlias(aliases, name).value, name)
  {
    if aliases != [] {
      FirstAliasIsListed(aliases[1..], name);
    }
  }

  lemma {:induction false} LookStaysInProject(project: Project, path: FileName, stmts: seq<Stmt>, name: string)
    requires Readable(project, path)
    requires forall s | s in stmts :: s in project[path].value
    ensures var t := LookLast(project, path, stmts, name);
            && !t.NotHere?
            && (t.Goto? ==> Readable(project, t.path) && (t.path, t.name) in Pairs(project))
            && (t.Stop? && t.answer.Resolved? ==> InProject(project, t.answer.cls))
  {
    if stmts != [] {
      var last := stmts[|stmts| - 1];
      LookStaysInProject(project, path, stmts[..|stmts| - 1], name);
      if last.ImportFrom? {
        FirstAliasIsListed(last.aliases, name);
      }
      var t := Look(project, path, last, name);
      if t.Goto? {
        assert last in project[path].value && t.name in Mentions(last);
        assert (t.path, t.name) in Pairs(project);
      }
    }
  }

  /** Visiting a pair leaves fewer pairs to visit, unless no search could be sent to it. */
  lemma SeenShrinks(project: Project, seen: set<Pair>, x: Pair)
    requires x !in seen
    ensures x in Pairs(project) ==> Pairs(project) - (seen + {x}) < Pairs(project) - seen
    ensures x !in Pairs(project) ==> Pairs(project) - (seen + {x}) == Pairs(project) - seen
  {
    var rest := Pairs(project) - (seen + {x});
    assert rest <= Pairs(project) - seen;
    assert x in Pairs(project) ==> x in (Pairs(project) - seen) - rest;
  }

  function Resolve(project: Project, path: FileName, name: string, seen: set<Pair>): (r: Resolution)
    requires Readable(project, path)
    ensures r.Resolved? ==> InProject(project, r.cls)
    decreases Pairs(project) - seen, (path, name) !in Pairs(project)
  {
    if (path, name) in seen then Unreadable
    else
      LookStaysInProject(project, path, project[path].value, name);
      Follow(project, LookLast(project, path, project[path].value, name), path, name, seen)
  }

  function Follow(project: Project, t: Target, path: FileName, name: string, seen: set<Pair>): (r: Resolution)
    requires Readable(project, path) && (path, name) !in seen
    requires t.Goto? ==> Readable(project, t.path) && (t.path, t.name) in Pairs(project)
    requires t.Stop? && t.answer.Resolved? ==> InProject(project, t.answer.cls)
    requires !t.NotHere?
    ensures r.Resolved? ==> InProject(project, r.cls)
    decreases Pairs(project) - seen, (path, name) !in Pairs(project), 0
  {
    if t.Stop? then t.answer
    else
      SeenShrinks(project, seen, (path, name));
      Resolve(project, t.path, t.name, seen + {(path, name)})
  }

  /** `_resolve_class`: every binding statement overwrites `binding`, so the last one stays. */
  method ResolveClass(project: Project, path: FileName, name: string, seen: set<Pair>) returns (binding: Resolution)
    requires Readable(project, path)
    ensures binding == Resolve(project, path, name, seen)
    decreases Pairs(project) - seen, (path, name) !in Pairs(project)
  {
    if (path, name) in seen {
      return Unreadable;
    }
    var stmts := project[path].value;
    binding := Absent;
    for i := 0 to |stmts|
      invariant !LookLast(project, path, stmts[..i], name).NotHere?
      invariant LookStays(project, LookLast(project, path, stmts[..i], name))
      invariant binding == Follow(project, LookLast(project, path, stmts[..i], name), path, name, seen)
    {
      assert stmts[..i + 1][..i] == stmts[..i];
      LookStaysInProject(project, path, stmts[..i + 1], name);
      var t := Look(project, path, stmts[i], name);
      if t.Stop? {
        binding := t.answer;
      } else if t.Goto? {
        SeenShrinks(project, seen, (path, name));
        binding := ResolveClass(project, t.path, t.name, seen + {(path, name)});
      }
    }
    assert stmts[..|stmts|] == stmts;
  }

  ghost predicate LookStays(project: Project, t: Target) {
    && (t.Goto? ==> Readable(project, t.path) && (t.path, t.name) in Pairs(project))
    && (t.Stop? && t.answer.Resolved? ==> InProject(project, t.answer.cls))
  }

  // ------------------------------------------ the reference: chase k steps

  /** What the name is after at most `k` hops, with no memory of where the search has been. */
  ghost function Chase(project: Project, path: FileName, name: string, k: nat): Option<Resolution>
    requires Readable(project, path)
    decreases k
  {
    if k == 0 then None
    else
      LookStaysInProject(project, path, project[path].value, name);
      var t := LookLast(project, path, project[path].value, name);
      if t.Stop? then Some(t.answer) else Chase(project, t.path, t.name, k - 1)
  }

  /** How many hops a search that ends takes. */
  ghost function Hops(project: Project, path: FileName, name: string, k: nat): nat
    requires Readable(project, path) && Chase(project, path, name, k).Some?
    decreases k
  {
    LookStaysInProject(project, path, project[path].value, name);
    var t := LookLast(project, path, project[path].value, name);
    if t.Stop? then 0 else 1 + Hops(project, t.path, t.name, k - 1)
  }

  lemma {:induction false} HopsAgree(project: Project, path: FileName, name: string, j: nat, k: nat)
    requires Readable(project, path)
    requires Chase(project, path, name, j).Some? && Chase(project, path, name, k).Some?
    ensures Hops(project, path, name, j) == Hops(project, path, name, k)
    ensures Chase(project, path, name, j) == Chase(project, path, name, k)
    decreases k
  {
    LookStaysInProject(project, path, project[path].value, name);
    var t := LookLast(project, path, project[path].value, name);
    if t.Goto? {
      HopsAgree(project, t.path, t.name, j - 1, k - 1);
    }
  }

  /** Every visited pair is further from the answer than the search is now. */
  ghost predicate Behind(project: Project, seen: set<Pair>, hops: nat) {
    forall x, j: nat :: x in seen && Readable(project, x.0) && Chase(project, x.0, x.1, j).Some? ==>
                     Hops(project, x.0, x.1, j) > hops
  }

  lemma {:induction false} ChaseIsFound(project: Project, path: FileName, name: string, seen: set<Pair>, k: nat)
    requires Readable(project, path) && Chase(project, path, name, k).Some?
    requires Behind(project, seen, Hops(project, path, name, k))
    ensures Some(Resolve(project, path, name, seen)) == Chase(project, path, name, k)
    decreases k
  {
    var here := (path, name);
    assert Readable(project, here.0) && Chase(project, here.0, here.1, k).Some?;
    LookStaysInProject(project, path, project[path].value, name);
    var t := LookLast(project, path, project[path].value, name);
    if t.Goto? {
      var now := seen + {(path, name)};
      var hops := Hops(project, t.path, t.name, k - 1);
      forall x, j: nat | x in now && Readable(project, x.0) && Chase(project, x.0, x.1, j).Some?
        ensures Hops(project, x.0, x.1, j) > hops
      {
        if x == (path, name) {
          HopsAgree(project, path, name, j, k);
        }
      }
      ChaseIsFound(project, t.path, t.name, now, k - 1);
    }
  }

  lemma {:induction false} EndlessChaseIsUnreadable(project: Project, path: FileName, name: string, seen: set<Pair>)
    requires Readable(project, path)
    requires forall k: nat :: Chase(project, path, name, k).None?
    ensures Resolve(project, path, name, seen) == Unreadable
    decreases Pairs(project) - seen, (path, name) !in Pairs(project)
  {
    if (path, name) !in seen {
      LookStaysInProject(project, path, project[path].value, name);
      var t := LookLast(project, path, project[path].value, name);
      assert Chase(project, path, name, 1).None?;
      forall k: nat ensures Chase(project, t.path, t.name, k).None? {
        assert Chase(project, path, name, k + 1).None?;
      }
      SeenShrinks(project, seen, (path, name));
      EndlessChaseIsUnreadable(project, t.path, t.name, seen + {(path, name)});
    }
  }

  /** The visited set never changes an answer: it only cuts the searches that have none. */
  lemma ResolutionIsExact(project: Project, path: FileName, name: string)
    requires Readable(project, path)
    ensures forall k: nat :: Chase(project, path, name, k).Some? ==>
                             Chase(project, path, name, k) == Some(Resolve(project, path, name, {}))
    ensures (forall k: nat :: Chase(project, path, name, k).None?) ==>
              Resolve(project, path, name, {}) == Unreadable
  {
    forall k: nat | Chase(project, path, name, k).Some?
      ensures Chase(project, path, name, k) == Some(Resolve(project, path, name, {}))
    {
      ChaseIsFound(project, path, name, {}, k);
    }
    if forall k: nat :: Chase(project, path, name, k).None? {
      EndlessChaseIsUnreadable(project, path, name, {});
    }
  }

  // ------------------------------------ what a name is, statement by statement

  /** The alias brings the name into the module, or may. */
  predicate Brings(a: Alias, name: string) {
    a.name == "*" || a.asName == Some(name) || (a.asName.None? && a.name == name)
  }

  /** The statement gives the name a meaning at module level, or may. */
  predicate Rebinds(stmt: Stmt, name: string) {
    match stmt
    case Class(def) => def.name == name || Binds(def.outer + def.body, name)
    case Assign(targets, _) => name in targets
    case ImportFrom(_, aliases) => exists a | a in aliases :: Brings(a, name)
    case Other(node) => Binds([node], name)
  }

  /** No statement from here on gives the name a meaning. */
  predicate QuietFrom(stmts: seq<Stmt>, from: nat, name: string) {
    forall i :: from <= i < |stmts| ==> !Rebinds(stmts[i], name)
  }

  /** What the name is when this statement decides it: another name elsewhere means what that name means. */
  predicate Means(project: Project, path: FileName, stmt: Stmt, name: string, r: Resolution)
    requires Readable(project, path)
  {
    match stmt
    case Class(def) => r == if def.name == name then Resolved(ClassRef(path, def)) else Unreadable
    case Assign(_, value) => r == if value.Some? then Resolve(project, path, value.value, {}) else Unreadable
    case ImportFrom(file, aliases) =>
      forall k :: 0 <= k < |aliases| && Brings(aliases[k], name) && NoneBrings(aliases[..k], name) ==>
        r == if aliases[k].name == "*" || file.None? || !Readable(project, file.value) then Unreadable
             else Resolve(project, file.value, aliases[k].name, {})
    case Other(_) => r == Unreadable
  }

  predicate NoneBrings(aliases: seq<Alias>, name: string) {
    forall a | a in aliases :: !Brings(a, name)
  }

  lemma {:induction false} BindsTogether(a: seq<Node>, b: seq<Node>, name: string)
    ensures Binds(a + b, name) <==> Binds(a, name) || Binds(b, name)
  {
    if a == [] {
      assert a + b == b;
    } else {
      assert (a + b)[0] == a[0] && (a + b)[1..] == a[1..] + b;
      BindsTogether(a[1..], b, name);
    }
  }

  lemma {:induction false} FirstAliasIs(aliases: seq<Alias>, name: string)
    ensures FirstAlias(aliases, name).None? <==> NoneBrings(aliases, name)
    ensures forall k :: 0 <= k < |aliases| && Brings(aliases[k], name) && NoneBrings(aliases[..k], name) ==>
              FirstAlias(aliases, name) == Some(aliases[k])
  {
    if aliases != [] {
      FirstAliasIs(aliases[1..], name);
      assert forall a :: a in aliases <==> a == aliases[0] || a in aliases[1..];
      assert NoneBrings(aliases, name) <==> !Brings(aliases[0], name) && NoneBrings(aliases[1..], name);
      forall k | 0 < k < |aliases| && Brings(aliases[k], name) && NoneBrings(aliases[..k], name)
        ensures FirstAlias(aliases, name) == Some(aliases[k])
      {
        assert aliases[0] in aliases[..k];
        assert forall a :: a in aliases[1..][..k - 1] ==> a in aliases[..k];
        assert aliases[1..][k - 1] == aliases[k];
      }
    }
  }

  lemma NotHereIs(project: Project, path: FileName, stmt: Stmt, name: string)
    ensures Look(project, path, stmt, name).NotHere? <==> !Rebinds(stmt, name)
  {
    match stmt
    case Class(def) => BindsTogether(def.outer, def.body, name);
    case ImportFrom(_, aliases) => FirstAliasIs(aliases, name);
    case _ =>
  }

  lemma {:induction false} LastDecides(project: Project, path: FileName, stmts: seq<Stmt>, i: nat, name: string)
    requires i < |stmts| && Rebinds(stmts[i], name) && QuietFrom(stmts, i + 1, name)
    ensures LookLast(project, path, stmts, name) == Look(project, path, stmts[i], name)
  {
    NotHereIs(project, path, stmts[|stmts| - 1], name);
    if i < |stmts| - 1 {
      LastDecides(project, path, stmts[..|stmts| - 1], i, name);
    }
  }

  lemma {:induction false} QuietIsAbsent(project: Project, path: FileName, stmts: seq<Stmt>, name: string)
    requires QuietFrom(stmts, 0, name)
    ensures LookLast(project, path, stmts, name) == Stop(Absent)
  {
    if stmts != [] {
      NotHereIs(project, path, stmts[|stmts| - 1], name);
      QuietIsAbsent(project, path, stmts[..|stmts| - 1], name);
    }
  }

  /** A name that stands for another means what that one means, with nothing visited yet. */
  lemma SentOn(project: Project, path: FileName, name: string)
    requires Readable(project, path)
    ensures var t := LookLast(project, path, project[path].value, name);
            && !t.NotHere?
            && (t.Stop? ==> Resolve(project, path, name, {}) == t.answer)
            && (t.Goto? ==> Readable(project, t.path)
                            && Resolve(project, path, name, {}) == Resolve(project, t.path, t.name, {}))
  {
    LookStaysInProject(project, path, project[path].value, name);
    var t := LookLast(project, path, project[path].value, name);
    if t.Goto? {
      ResolutionIsExact(project, path, name);
      ResolutionIsExact(project, t.path, t.name);
      if k: nat :| Chase(project, t.path, t.name, k).Some? {
        assert Chase(project, path, name, k + 1) == Chase(project, t.path, t.name, k);
      } else {
        forall k: nat ensures Chase(project, path, name, k).None? {
          assert k > 0 ==> Chase(project, t.path, t.name, k - 1).None?;
        }
      }
    }
  }

  /**
   The last statement that gives a name a meaning decides what it is: the class it defines, or what
   the name it stands for is; a name that none gives a meaning is absent, and all else is unreadable.
   */
  lemma LastBindingDecides(project: Project, path: FileName, name: string, i: nat)
    requires Readable(project, path)
    ensures var stmts := project[path].value;
            && (i < |stmts| && Rebinds(stmts[i], name) && QuietFrom(stmts, i + 1, name) ==>
                  Means(project, path, stmts[i], name, Resolve(project, path, name, {})))
            && (QuietFrom(stmts, 0, name) ==> Resolve(project, path, name, {}) == Absent)
  {
    var stmts := project[path].value;
    SentOn(project, path, name);
    if QuietFrom(stmts, 0, name) {
      QuietIsAbsent(project, path, stmts, name);
    }
    if i < |stmts| && Rebinds(stmts[i], name) && QuietFrom(stmts, i + 1, name) {
      LastDecides(project, path, stmts, i, name);
      NotHereIs(project, path, stmts[i], name);
      if stmts[i].ImportFrom? {
        FirstAliasIs(stmts[i].aliases, name);
      }
    }
  }
}

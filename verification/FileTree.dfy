/**
 File trees below one root directory: what `prepare.py` and `sync.py` read and change.

 A path is the sequence of its components, so the root is [] and never a key. Hashes
 are treated as contents. `Posix` and `SlashPrefixIsAncestor` justify replacing the
 source's string test `path.startswith(other + "/")` by "is a proper ancestor of".
 */
module FileTree {

  type Path = seq<string>

  /** File contents: ordinary bytes, or the refresh state file that records a source. */
  datatype Content = Bytes(data: string) | State(source: map<Path, Content>)

  type FileMap = map<Path, Content>

  datatype Node = Dir | File(content: Content)

  type Nodes = map<Path, Node>

  datatype Kind = Directory | Entry

  // ---------------------------------------------------------------- paths

  predicate IsAbove(a: Path, p: Path) {
    a < p
  }

  function Posix(p: Path): string {
    if p == [] then ""
    else if |p| == 1 then p[0]
    else p[0] + "/" + Posix(p[1..])
  }

  predicate ValidPath(p: Path) {
    p != [] && forall i :: 0 <= i < |p| ==> '/' !in p[i]
  }

  /** Components without slashes can be told apart by the first slash of the joined string. */
  lemma ComponentCut(x: string, y: string, restX: string, restY: string)
    requires '/' !in x && '/' !in y
    requires x + "/" + restX <= y + "/" + restY
    ensures x == y && restX <= restY
  {
    var l, r := x + "/" + restX, y + "/" + restY;
    assert l[|x|] == '/' && l[..|x|] == x && r[..|y|] == y && r[|y|] == '/';
    assert |x| == |y|;
    assert x == l[..|x|] == r[..|y|] == y;
    assert restX == l[|x| + 1..] && restY == r[|y| + 1..];
    assert r[..|l|] == l;
    assert restY[..|restX|] == restX;
  }

  /** The source's prefix test on joined paths is exactly proper ancestry of components. */
  lemma {:induction false} SlashPrefixIsAncestor(a: Path, p: Path)
    requires ValidPath(a) && ValidPath(p)
    ensures Posix(a) + "/" <= Posix(p) <==> IsAbove(a, p)
  {
    if |p| == 1 {
      assert (Posix(a) + "/")[|Posix(a)|] == '/';
    } else if |a| == 1 {
      assert p == [p[0]] + p[1..];
      if Posix(a) + "/" <= Posix(p) {
        assert a[0] + "/" == a[0] + "/" + "";
        ComponentCut(a[0], p[0], "", Posix(p[1..]));
        assert a == p[..1];
      }
      if IsAbove(a, p) {
        assert a[0] == p[0];
      }
    } else {
      SlashPrefixIsAncestor(a[1..], p[1..]);
      assert a == [a[0]] + a[1..] && p == [p[0]] + p[1..];
      assert Posix(a) + "/" == a[0] + "/" + (Posix(a[1..]) + "/");
      if Posix(a) + "/" <= Posix(p) {
        ComponentCut(a[0], p[0], Posix(a[1..]) + "/", Posix(p[1..]));
      }
      if IsAbove(a, p) {
        assert a[0] == p[0];
        assert a[1..] < p[1..];
      }
    }
  }

  // ---------------------------------------------------------------- trees

  /** What a real directory tree guarantees: everything above a path is a directory. */
  ghost predicate IsTree(t: Nodes) {
    && [] !in t
    && forall a, p :: IsAbove(a, p) && p in t && a != [] ==> a in t && t[a].Dir?
  }

  /** No file lies beneath another file. */
  ghost predicate IsFileSet(f: FileMap) {
    && [] !in f
    && forall a, p :: IsAbove(a, p) && a in f ==> p !in f
  }

  function Files(t: Nodes): FileMap {
    map p | p in t && t[p].File? :: t[p].content
  }

  lemma FilesOfTree(t: Nodes)
    requires IsTree(t)
    ensures IsFileSet(Files(t))
  {}

  ghost predicate HoldsFile(f: FileMap, d: Path) {
    exists p :: p in f && IsAbove(d, p)
  }

  function Ancestors(f: FileMap): set<Path> {
    set p, i | p in f && 0 < i < |p| :: p[..i]
  }

  lemma AncestorsAre(f: FileMap)
    ensures forall d :: d in Ancestors(f) <==> d != [] && HoldsFile(f, d)
  {
    forall d ensures d in Ancestors(f) <==> d != [] && HoldsFile(f, d) {
      if d in Ancestors(f) {
        var p, i :| p in f && 0 < i < |p| && d == p[..i];
        assert IsAbove(d, p);
      }
      if d != [] && HoldsFile(f, d) {
        var p :| p in f && IsAbove(d, p);
        assert d == p[..|d|];
      }
    }
  }

  function Dirs(dirs: set<Path>): Nodes {
    map d | d in dirs :: Dir
  }

  function AsNodes(f: FileMap): Nodes {
    map p | p in f :: File(f[p])
  }

  /** The tree that holds exactly these files, with no directory that holds none. */
  function TreeOf(f: FileMap): Nodes {
    Dirs(Ancestors(f)) + AsNodes(f)
  }

  lemma TreeOfIsTree(f: FileMap)
    requires IsFileSet(f)
    ensures IsTree(TreeOf(f)) && Files(TreeOf(f)) == f
  {
    var t := TreeOf(f);
    AncestorsAre(f);
    forall a, p | IsAbove(a, p) && p in t && a != []
      ensures a in t && t[a].Dir?
    {
      if p in f {
        assert HoldsFile(f, a);
      } else {
        var q :| q in f && IsAbove(p, q);
        assert IsAbove(a, q);
        assert HoldsFile(f, a);
      }
    }
    forall p | p in t && t[p].File? ensures p in f {}
  }

  predicate FileAbove(t: Nodes, p: Path) {
    exists i | 0 < i < |p| :: p[..i] in t && t[p[..i]].File?
  }

  // ------------------------------------------------- deleting deepest first

  predicate HasKind(t: Nodes, p: Path, k: Kind) {
    p in t && (t[p].Dir? <==> k == Directory)
  }

  predicate IsEmptyAt(t: Nodes, p: Path) {
    forall q :: q in t ==> !IsAbove(p, q)
  }

  /** os.rmdir, with "missing", "not empty" and "not a directory" swallowed. */
  function Rmdir(t: Nodes, p: Path): Nodes {
    if HasKind(t, p, Directory) && IsEmptyAt(t, p) then t - {p} else t
  }

  /** Unlink what is not a directory; a missing path is left alone. */
  function Unlink(t: Nodes, p: Path): Nodes {
    if HasKind(t, p, Entry) then t - {p} else t
  }

  function RemoveOne(t: Nodes, p: Path, k: Kind): Nodes {
    if k == Directory then Rmdir(t, p) else Unlink(t, p)
  }

  /** Everything at or beneath p is listed, under the kind it has. */
  ghost predicate Prunable(t: Nodes, listed: map<Path, Kind>, p: Path) {
    && p in t
    && forall q :: q in t && (q == p || IsAbove(p, q)) ==> q in listed && HasKind(t, q, listed[q])
  }

  /** The reference for a deepest-first deletion: drop exactly the prunable paths. */
  ghost function Pruned(t: Nodes, listed: map<Path, Kind>): Nodes {
    map p | p in t && !Prunable(t, listed, p) :: t[p]
  }

  /** The tree once the paths in `done` were visited. */
  ghost function PrunedWithin(t: Nodes, listed: map<Path, Kind>, done: set<Path>): Nodes {
    map p | p in t && !(p in done && Prunable(t, listed, p)) :: t[p]
  }

  ghost predicate VisitedDeeper(listed: map<Path, Kind>, done: set<Path>, p: Path) {
    forall q :: q in listed && |q| > |p| ==> q in done
  }

  predicate SameNodeAt(a: Nodes, b: Nodes, p: Path) {
    (p in a <==> p in b) && (p in a && p in b ==> a[p] == b[p])
  }

  lemma SameNodes(a: Nodes, b: Nodes)
    requires forall p :: SameNodeAt(a, b, p)
    ensures a == b
  {
    forall p ensures p in a <==> p in b {
      assert SameNodeAt(a, b, p);
    }
    forall p | p in a ensures a[p] == b[p] {
      assert SameNodeAt(a, b, p);
    }
  }

  lemma PrunableBeneath(t: Nodes, listed: map<Path, Kind>, p: Path, q: Path)
    requires Prunable(t, listed, p) && q in t && IsAbove(p, q)
    ensures Prunable(t, listed, q)
  {
    forall r | r in t && (r == q || IsAbove(q, r)) ensures r in listed && HasKind(t, r, listed[r]) {
      assert IsAbove(p, r);
    }
  }

  /** A listed path is still there and empty, under its listed kind, exactly when it is prunable. */
  lemma DeepestIsFree(t: Nodes, listed: map<Path, Kind>, done: set<Path>, p: Path)
    requires IsTree(t) && p in listed && p !in done && VisitedDeeper(listed, done, p)
    ensures var now := PrunedWithin(t, listed, done);
            Prunable(t, listed, p) <==> HasKind(now, p, listed[p]) && IsEmptyAt(now, p)
  {
    var now := PrunedWithin(t, listed, done);
    if Prunable(t, listed, p) {
      forall q | q in t && IsAbove(p, q) ensures q !in now {
        PrunableBeneath(t, listed, p, q);
      }
    } else if HasKind(now, p, listed[p]) {
      var q :| q in t && (q == p || IsAbove(p, q)) && !(q in listed && HasKind(t, q, listed[q]));
      assert !Prunable(t, listed, q);
      assert q in now;
    }
  }

  /** One deletion step advances the reference, when everything listed deeper came before. */
  lemma {:induction false} PruneStep(t: Nodes, listed: map<Path, Kind>, done: set<Path>, p: Path)
    requires IsTree(t) && p in listed && p !in done && VisitedDeeper(listed, done, p)
    ensures RemoveOne(PrunedWithin(t, listed, done), p, listed[p]) == PrunedWithin(t, listed, done + {p})
  {
    var now, next := PrunedWithin(t, listed, done), PrunedWithin(t, listed, done + {p});
    DeepestIsFree(t, listed, done, p);
    assert HasKind(now, p, Entry) ==> IsEmptyAt(now, p);
    hide Prunable, IsEmptyAt, VisitedDeeper, IsTree;
    assert RemoveOne(now, p, listed[p]) == if Prunable(t, listed, p) then now - {p} else now;
    forall q ensures SameNodeAt(RemoveOne(now, p, listed[p]), next, q) {}
    SameNodes(RemoveOne(now, p, listed[p]), next);
  }

  lemma PrunedIsTree(t: Nodes, listed: map<Path, Kind>)
    requires IsTree(t)
    ensures IsTree(Pruned(t, listed))
  {
    var now := Pruned(t, listed);
    forall a, p | IsAbove(a, p) && p in now && a != []
      ensures a in now && now[a].Dir?
    {
      var q :| q in t && (q == p || IsAbove(p, q)) && !(q in listed && HasKind(t, q, listed[q]));
      assert IsAbove(a, q);
    }
  }

  /** Some path of greatest depth, as a deepest-first sort would put first. */
  lemma DeepestExists(s: set<Path>)
    requires s != {}
    ensures exists p :: p in s && forall q :: q in s ==> |q| <= |p|
  {
    var x :| x in s;
    if s == {x} {
      assert forall q :: q in s ==> |q| <= |x|;
    } else {
      DeepestExists(s - {x});
      var p :| p in s - {x} && forall q :: q in s - {x} ==> |q| <= |p|;
      var best := if |p| < |x| then x else p;
      assert forall q :: q in s ==> q == x || q in s - {x};
      assert best in s && forall q :: q in s ==> |q| <= |best|;
    }
  }
}

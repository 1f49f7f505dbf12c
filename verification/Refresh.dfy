/**
 `_refresh` of skills/converting-to-canyonos/prepare.py: bring a newer source into an
 artifact tree that its port may have edited, by a three-way comparison of files.

 The reference is `ThreeWay`, one path at a time. The method `Refresh` keeps the source's
 conflict scan and its three passes over a tree of files and directories, and is proved
 to leave exactly the merged files, and no other directory than those that hold them.
 */
module Refresh {
  import opened Wrappers
  import opened FileTree

  // ------------------------------------------------------------ reference

  datatype Merge = Agreed(result: Option<Content>) | Clash

  function ThreeWay(was: Option<Content>, incoming: Option<Content>, edited: Option<Content>): Merge {
    if incoming == was then Agreed(edited)
    else if edited == was then Agreed(incoming)
    else if edited == incoming then Agreed(edited)
    else Clash
  }

  function MergeAt(previous: FileMap, incoming: FileMap, current: FileMap, p: Path): Merge {
    ThreeWay(Get(previous, p), Get(incoming, p), Get(current, p))
  }

  /** The files of a pathwise three-way merge; a path that clashes is absent. */
  function Merged(previous: FileMap, incoming: FileMap, current: FileMap): FileMap {
    map p | p in incoming.Keys + current.Keys
            && MergeAt(previous, incoming, current, p).Agreed?
            && MergeAt(previous, incoming, current, p).result.Some?
      :: MergeAt(previous, incoming, current, p).result.value
  }

  predicate PortChanged(previous: FileMap, current: FileMap, p: Path) {
    Get(current, p) != Get(previous, p)
  }

  predicate Related(p: Path, q: Path) {
    IsAbove(p, q) || IsAbove(q, p)
  }

  /** A file the port changed lies above or beneath an incoming file. */
  ghost predicate KindClash(previous: FileMap, incoming: FileMap, current: FileMap, p: Path) {
    p in current && PortChanged(previous, current, p) && exists i :: i in incoming && Related(i, p)
  }

  ghost predicate Conflicting(previous: FileMap, incoming: FileMap, current: FileMap, p: Path) {
    MergeAt(previous, incoming, current, p).Clash? || KindClash(previous, incoming, current, p)
  }

  ghost predicate NoConflict(previous: FileMap, incoming: FileMap, current: FileMap) {
    forall p :: !Conflicting(previous, incoming, current, p)
  }

  // ------------------------------------------------------- conflict scan

  /** The test of the first loop, as the source writes it. */
  predicate ChangedInBoth(was: Option<Content>, incoming: Option<Content>, edited: Option<Content>) {
    var sourceChanged := incoming != was;
    var portChanged := edited != was;
    if was == None && incoming != None && edited !in {None, incoming} then true
    else was != None && sourceChanged && portChanged && edited != incoming
  }

  lemma ChangedInBothIsClash(was: Option<Content>, incoming: Option<Content>, edited: Option<Content>)
    ensures ChangedInBoth(was, incoming, edited) <==> ThreeWay(was, incoming, edited).Clash?
  {}

  /** Three contents of a path no two of which agree. */
  predicate AllDiffer(was: Option<Content>, incoming: Option<Content>, edited: Option<Content>) {
    was != incoming && incoming != edited && edited != was
  }

  /** Each side that changed the path finds its change in the outcome, and an unchanged path stays. */
  predicate Honours(was: Option<Content>, incoming: Option<Content>, edited: Option<Content>, after: Option<Content>) {
    && (incoming != was ==> after == incoming)
    && (edited != was ==> after == edited)
    && (incoming == was == edited ==> after == was)
  }

  /** The merge is the one content that honours both sides; there is none exactly when all three differ. */
  lemma MergeHonoursBoth(was: Option<Content>, incoming: Option<Content>, edited: Option<Content>)
    ensures ThreeWay(was, incoming, edited).Clash? <==> AllDiffer(was, incoming, edited)
    ensures ThreeWay(was, incoming, edited).Clash? ==> forall after :: !Honours(was, incoming, edited, after)
    ensures ThreeWay(was, incoming, edited).Agreed? ==>
              forall after :: Honours(was, incoming, edited, after) <==>
                              after == ThreeWay(was, incoming, edited).result
    ensures ThreeWay(was, incoming, edited) == ThreeWay(was, edited, incoming)
  {}

  method Conflicts(previous: FileMap, incoming: FileMap, current: FileMap) returns (conflicts: set<Path>)
    ensures forall p :: p in conflicts <==> Conflicting(previous, incoming, current, p)
  {
    conflicts := {};
    var all := previous.Keys + incoming.Keys + current.Keys;
    var todo := all;
    while todo != {}
      invariant todo <= all
      invariant forall p :: p in conflicts <==> p in all - todo && MergeAt(previous, incoming, current, p).Clash?
    {
      var p :| p in todo;
      ChangedInBothIsClash(Get(previous, p), Get(incoming, p), Get(current, p));
      if ChangedInBoth(Get(previous, p), Get(incoming, p), Get(current, p)) {
        conflicts := conflicts + {p};
      }
      todo := todo - {p};
    }
    assert forall p :: p in conflicts <==> MergeAt(previous, incoming, current, p).Clash?;
    var below := FilesBelowIncoming(previous, incoming, current);
    var above := FilesAboveIncoming(previous, incoming, current);
    conflicts := conflicts + below + above;
  }

  method FilesBelowIncoming(previous: FileMap, incoming: FileMap, current: FileMap) returns (conflicts: set<Path>)
    ensures forall p :: p in conflicts <==>
              p in current && PortChanged(previous, current, p) && exists i :: i in incoming && IsAbove(i, p)
  {
    conflicts := {};
    var todo := incoming.Keys;
    while todo != {}
      invariant todo <= incoming.Keys
      invariant forall p :: p in conflicts <==>
                  p in current && PortChanged(previous, current, p) &&
                  exists i :: i in incoming.Keys - todo && IsAbove(i, p)
    {
      var i :| i in todo;
      var found := {};
      var rest := current.Keys;
      while rest != {}
        invariant rest <= current.Keys
        invariant forall p :: p in found <==>
                    p in current.Keys - rest && IsAbove(i, p) && PortChanged(previous, current, p)
      {
        var p :| p in rest;
        if IsAbove(i, p) && Get(previous, p) != Some(current[p]) {
          found := found + {p};
        }
        rest := rest - {p};
      }
      conflicts := conflicts + found;
      todo := todo - {i};
      forall p | p in current && PortChanged(previous, current, p)
        ensures p in conflicts <==> exists j :: j in incoming.Keys - todo && IsAbove(j, p)
      {
        if IsAbove(i, p) {
          assert i in incoming.Keys - todo;
        }
      }
    }
  }

  method FilesAboveIncoming(previous: FileMap, incoming: FileMap, current: FileMap) returns (conflicts: set<Path>)
    ensures forall p :: p in conflicts <==>
              p in current && PortChanged(previous, current, p) && exists i :: i in incoming && IsAbove(p, i)
  {
    conflicts := {};
    var todo := current.Keys;
    while todo != {}
      invariant todo <= current.Keys
      invariant forall p :: p in conflicts <==>
                  p in current.Keys - todo && PortChanged(previous, current, p) &&
                  exists i :: i in incoming && IsAbove(p, i)
    {
      var p :| p in todo;
      if (exists i | i in incoming :: IsAbove(p, i)) && Get(previous, p) != Some(current[p]) {
        conflicts := conflicts + {p};
      }
      todo := todo - {p};
    }
  }

  // ------------------------------------------- why the passes never collide

  /** The source deleted the file and the port had not touched it. */
  predicate Dropped(previous: FileMap, incoming: FileMap, current: FileMap, p: Path) {
    p in previous && p !in incoming && Get(current, p) == Get(previous, p)
  }

  function Kept(previous: FileMap, incoming: FileMap, current: FileMap): FileMap {
    map p | p in current && !Dropped(previous, incoming, current, p) :: current[p]
  }

  /** Without conflicts, what the deletions keep and what the source brings never overlap. */
  lemma NoOverlap(previous: FileMap, incoming: FileMap, current: FileMap, f: FileMap)
    requires IsFileSet(incoming) && IsFileSet(current) && NoConflict(previous, incoming, current)
    requires f.Keys <= Kept(previous, incoming, current).Keys + incoming.Keys
    ensures IsFileSet(f)
  {
    var kept := Kept(previous, incoming, current);
    forall a, p | IsAbove(a, p) && a in f ensures p !in f {
      if p in f {
        if a in incoming {
          assert p in kept && Related(a, p) && !Conflicting(previous, incoming, current, p);
        } else if p in incoming {
          assert a in kept && Related(p, a) && !Conflicting(previous, incoming, current, a);
        }
      }
    }
  }

  function ProgressAt(previous: FileMap, incoming: FileMap, current: FileMap, copied: set<Path>, p: Path)
    : Option<Content>
  {
    if p in copied then Get(Merged(previous, incoming, current), p) else Get(Kept(previous, incoming, current), p)
  }

  /** The files once the deletions are done and the paths in `copied` were visited. */
  function Progress(previous: FileMap, incoming: FileMap, current: FileMap, copied: set<Path>): FileMap {
    map p | p in Kept(previous, incoming, current).Keys + Merged(previous, incoming, current).Keys
            && ProgressAt(previous, incoming, current, copied, p).Some?
      :: ProgressAt(previous, incoming, current, copied, p).value
  }

  lemma CopyStep(previous: FileMap, incoming: FileMap, current: FileMap, copied: set<Path>, p: Path)
    requires NoConflict(previous, incoming, current) && p in incoming && p !in copied
    ensures var f := Progress(previous, incoming, current, copied);
            var g := Progress(previous, incoming, current, copied + {p});
            if Get(incoming, p) == Get(previous, p) || Get(current, p) == Get(incoming, p) then g == f
            else g == f[p := incoming[p]]
  {
    var f, g := Progress(previous, incoming, current, copied), Progress(previous, incoming, current, copied + {p});
    assert !Conflicting(previous, incoming, current, p);
    forall q ensures q != p ==> Get(f, q) == Get(g, q) {}
    if Get(incoming, p) == Get(previous, p) || Get(current, p) == Get(incoming, p) {
      assert Get(f, p) == Get(g, p);
      SameGets(f, g);
    } else {
      forall q ensures Get(f[p := incoming[p]], q) == Get(g, q) {}
      SameGets(f[p := incoming[p]], g);
    }
  }

  lemma ProgressOverlaps(previous: FileMap, incoming: FileMap, current: FileMap, copied: set<Path>)
    requires IsFileSet(incoming) && IsFileSet(current) && NoConflict(previous, incoming, current)
    requires copied <= incoming.Keys
    ensures IsFileSet(Progress(previous, incoming, current, copied))
  {
    NoOverlap(previous, incoming, current, Progress(previous, incoming, current, copied));
  }

  lemma ProgressEnds(previous: FileMap, incoming: FileMap, current: FileMap)
    requires NoConflict(previous, incoming, current)
    ensures Progress(previous, incoming, current, {}) == Kept(previous, incoming, current)
    ensures Progress(previous, incoming, current, incoming.Keys) == Merged(previous, incoming, current)
  {
    var merged, last := Merged(previous, incoming, current), Progress(previous, incoming, current, incoming.Keys);
    forall p ensures Get(last, p) == Get(merged, p) {
      assert !Conflicting(previous, incoming, current, p);
    }
    SameGets(last, merged);
  }

  lemma SameGets(f: FileMap, g: FileMap)
    requires forall p :: Get(f, p) == Get(g, p)
    ensures f == g
  {
    forall p ensures p in f <==> p in g {
      assert Get(f, p) == Get(g, p);
    }
    forall p | p in f ensures f[p] == g[p] {
      assert Get(f, p) == Get(g, p);
    }
  }

  /** After the first guard of the copying pass the second one never fires. */
  lemma SecondGuardIsDead(previous: FileMap, incoming: FileMap, current: FileMap, p: Path)
    requires NoConflict(previous, incoming, current) && p in incoming
    requires Get(incoming, p) != Get(previous, p) && Get(current, p) != Get(incoming, p)
    ensures !(Get(previous, p) != None && Get(current, p) != Get(previous, p))
    ensures MergeAt(previous, incoming, current, p) == Agreed(Some(incoming[p]))
  {
    assert !Conflicting(previous, incoming, current, p);
  }

  function AllDirectories(t: Nodes): map<Path, Kind> {
    map p | p in t && t[p].Dir? :: Directory
  }

  /** Removing empty directories deepest first leaves just the ones that hold a file. */
  lemma PruningDirectories(t: Nodes)
    requires IsTree(t)
    ensures Pruned(t, AllDirectories(t)) == TreeOf(Files(t))
  {
    forall p ensures SameNodeAt(Pruned(t, AllDirectories(t)), TreeOf(Files(t)), p) {
      PrunedAt(t, p);
    }
    SameNodes(Pruned(t, AllDirectories(t)), TreeOf(Files(t)));
  }

  lemma PrunedAt(t: Nodes, p: Path)
    requires IsTree(t)
    ensures SameNodeAt(Pruned(t, AllDirectories(t)), TreeOf(Files(t)), p)
  {
    var f := Files(t);
    AncestorsAre(f);
    if p in t {
      HoldsFileBeneath(t, p);
    }
    if HoldsFile(f, p) && p != [] {
      var q :| q in f && IsAbove(p, q);
      assert p in t && t[p].Dir?;
    }
    hide HoldsFile, Prunable, IsTree;
  }

  lemma HoldsFileBeneath(t: Nodes, p: Path)
    requires IsTree(t) && p in t
    ensures Prunable(t, AllDirectories(t), p) <==> t[p].Dir? && !HoldsFile(Files(t), p)
  {
    if t[p].Dir? && !Prunable(t, AllDirectories(t), p) {
      var q :| q in t && IsAbove(p, q) && t[q].File?;
      assert q in Files(t);
    }
  }

  // --------------------------------------------------- the tree on disk

  function StrictlyAbove(p: Path): set<Path> {
    set i | 0 < i < |p| :: p[..i]
  }

  function WithoutSubtree(t: Nodes, p: Path): Nodes {
    map q | q in t && q != p && !IsAbove(p, q) :: t[q]
  }

  function Installed(t: Nodes, p: Path, c: Content): Nodes {
    t + Dirs(StrictlyAbove(p)) + map[p := File(c)]
  }

  /** What an installation leaves at a path. */
  function InstalledAt(t: Nodes, p: Path, c: Content, cleared: bool, failed: bool, q: Path): Option<Node> {
    if cleared && p < q then None
    else if q == p && (cleared || !failed) then (if failed then None else Some(File(c)))
    else if q < p && q != [] && !failed then Some(Dir)
    else Get(t, q)
  }

  lemma FileAboveIs(t: Nodes, p: Path)
    ensures FileAbove(t, p) <==> exists a :: a < p && a != [] && HasKind(t, a, Entry)
    ensures forall a :: a in StrictlyAbove(p) <==> a < p && a != []
  {
    forall a | a < p && a != [] ensures a == p[..|a|] && a in StrictlyAbove(p) {}
    if FileAbove(t, p) {
      var i :| 0 < i < |p| && p[..i] in t && t[p[..i]].File?;
      assert p[..i] < p && HasKind(t, p[..i], Entry);
    }
  }

  lemma InstallsPathByPath(t: Nodes, p: Path, c: Content, base: Nodes, failed: bool)
    requires p != [] && base == if HasKind(t, p, Directory) then WithoutSubtree(t, p) else t
    requires failed == FileAbove(base, p)
    ensures failed <==> exists a :: a < p && a != [] && HasKind(t, a, Entry)
    ensures forall q :: Get(if failed then base else Installed(base, p, c), q) ==
                        InstalledAt(t, p, c, HasKind(t, p, Directory), failed, q)
  {
    FileAboveIs(base, p);
    assert forall a :: a < p ==> (HasKind(base, a, Entry) <==> HasKind(t, a, Entry));
  }

  lemma NothingInTheWay(f: FileMap, p: Path, c: Content)
    requires IsFileSet(f) && IsFileSet(f[p := c])
    ensures !HasKind(TreeOf(f), p, Directory) && !FileAbove(TreeOf(f), p)
    ensures forall a :: a in StrictlyAbove(p) ==> a !in f
  {
    AncestorsAre(f);
    var g := f[p := c];
    assert p in g;
    assert forall q :: q in f ==> q in g;
    assert !HoldsFile(f, p);
    forall a | a in StrictlyAbove(p) ensures a !in f {
      assert IsAbove(a, p) && p in g;
    }
  }

  lemma AncestorsGrow(f: FileMap, p: Path, c: Content)
    ensures Ancestors(f[p := c]) == Ancestors(f) + StrictlyAbove(p)
  {
    var g := f[p := c];
    forall a | a in Ancestors(g) ensures a in Ancestors(f) + StrictlyAbove(p) {
      var q, i :| q in g && 0 < i < |q| && a == q[..i];
      assert q == p || q in f;
    }
    forall a | a in Ancestors(f) ensures a in Ancestors(g) {
      var q, i :| q in f && 0 < i < |q| && a == q[..i];
      assert q in g;
    }
    assert p in g;
  }

  lemma DrawMore(dirs: set<Path>, more: set<Path>, f: FileMap, p: Path, c: Content)
    requires more !! f.Keys
    ensures Dirs(dirs) + AsNodes(f) + Dirs(more) + map[p := File(c)] == Dirs(dirs + more) + AsNodes(f[p := c])
  {
    assert AsNodes(f[p := c]) == AsNodes(f) + map[p := File(c)];
    assert Dirs(dirs + more) == Dirs(dirs) + Dirs(more);
    assert AsNodes(f).Keys == f.Keys && Dirs(more).Keys == more;
    DisjointSwap(Dirs(dirs), AsNodes(f), Dirs(more));
  }

  lemma DisjointSwap(a: Nodes, b: Nodes, c: Nodes)
    requires b.Keys !! c.Keys
    ensures a + b + c == a + c + b
  {}

  lemma InstallInTree(f: FileMap, p: Path, c: Content)
    requires IsFileSet(f) && IsFileSet(f[p := c])
    ensures !HasKind(TreeOf(f), p, Directory) && !FileAbove(TreeOf(f), p)
    ensures Installed(TreeOf(f), p, c) == TreeOf(f[p := c])
  {
    NothingInTheWay(f, p, c);
    AncestorsGrow(f, p, c);
    DrawMore(Ancestors(f), StrictlyAbove(p), f, p, c);
  }

  /**
   A directory tree that changes in place. `cleared` and `blocked` are history: where an
   installation ever removed a directory, and where one ever failed.
   */
  class Tree {
    var nodes: Nodes
    ghost var cleared: set<Path>
    ghost var blocked: set<Path>

    constructor (start: Nodes)
      ensures nodes == start && cleared == {} && blocked == {}
    {
      nodes, cleared, blocked := start, {}, {};
    }

    method RemoveFile(p: Path)
      modifies this`nodes
      ensures nodes == Unlink(old(nodes), p)
    {
      if p in nodes && nodes[p].File? {
        nodes := nodes - {p};
      }
    }

    method RemoveIfEmpty(p: Path)
      modifies this`nodes
      ensures nodes == Rmdir(old(nodes), p)
    {
      if p in nodes && nodes[p].Dir? && !(exists q | q in nodes :: IsAbove(p, q)) {
        nodes := nodes - {p};
      }
    }

    /** Clear a directory out of the way, make the parents, and write the file. */
    method Install(p: Path, c: Content) returns (ok: bool)
      requires p != []
      modifies this
      ensures var clears := HasKind(old(nodes), p, Directory);
              var base := if clears then WithoutSubtree(old(nodes), p) else old(nodes);
              && ok == !FileAbove(base, p)
              && nodes == (if ok then Installed(base, p, c) else base)
              && cleared == old(cleared) + (if clears then {p} else {})
              && blocked == old(blocked) + (if ok then {} else {p})
              && forall q :: Get(nodes, q) == InstalledAt(old(nodes), p, c, clears, !ok, q)
      ensures ok <==> !exists a :: a < p && a != [] && HasKind(old(nodes), a, Entry)
    {
      hide StrictlyAbove, WithoutSubtree, Dirs;
      ghost var before := nodes;
      if p in nodes && nodes[p].Dir? {
        nodes := WithoutSubtree(nodes, p);
        cleared := cleared + {p};
      }
      ghost var base := nodes;
      ok := !FileAbove(nodes, p);
      if ok {
        nodes := nodes + Dirs(StrictlyAbove(p));
        nodes := nodes + map[p := File(c)];
      } else {
        blocked := blocked + {p};
      }
      InstallsPathByPath(before, p, c, base, !ok);
    }
  }

  // ----------------------------------------------------------- refresh

  datatype Outcome = Refreshed | Refused(conflicts: set<Path>) | OsError

  method Refresh(artifact: Tree, source: Nodes, previous: FileMap)
    returns (outcome: Outcome)
    requires IsTree(artifact.nodes) && IsTree(source)
    modifies artifact
    ensures !outcome.OsError? && artifact.cleared == old(artifact.cleared) && artifact.blocked == old(artifact.blocked)
    ensures outcome.Refreshed? <==> NoConflict(previous, Files(source), Files(old(artifact.nodes)))
    ensures outcome.Refreshed? ==>
              artifact.nodes == TreeOf(Merged(previous, Files(source), Files(old(artifact.nodes))))
    ensures outcome.Refreshed? ==>
              forall p :: HonoursAt(previous, Files(source), Files(old(artifact.nodes)), Files(artifact.nodes), p)
    ensures outcome.Refused? ==>
              && artifact.nodes == old(artifact.nodes) && outcome.conflicts != {}
              && forall p :: p in outcome.conflicts <==>
                   NeedsChoice(previous, Files(source), Files(old(artifact.nodes)), p)
  {
    var current, incoming := Files(artifact.nodes), Files(source);
    FilesOfTree(artifact.nodes);
    FilesOfTree(source);
    RefusedExactly(previous, incoming, current);
    var conflicts := Conflicts(previous, incoming, current);
    if conflicts != {} {
      var p :| p in conflicts;
      assert Conflicting(previous, incoming, current, p);
      outcome := Refused(conflicts);
      return;
    }
    DeleteDropped(artifact, previous, incoming, current);
    RemoveEmptyDirectories(artifact);
    outcome := CopyIncoming(artifact, previous, incoming, current);
    MergedIsFileSet(previous, incoming, current);
    TreeOfIsTree(Merged(previous, incoming, current));
  }

  method DeleteDropped(artifact: Tree, previous: FileMap, incoming: FileMap, current: FileMap)
    requires IsTree(artifact.nodes) && current == Files(artifact.nodes)
    modifies artifact`nodes
    ensures IsTree(artifact.nodes)
    ensures Files(artifact.nodes) == Kept(previous, incoming, current)
  {
    ghost var t := artifact.nodes;
    var todo := previous.Keys;
    while todo != {}
      invariant todo <= previous.Keys
      invariant artifact.nodes ==
                map p | p in t && !(p in previous.Keys - todo && Dropped(previous, incoming, current, p)) :: t[p]
    {
      var p :| p in todo;
      if !(p in incoming || Get(current, p) != Some(previous[p])) {
        artifact.RemoveFile(p);
      }
      todo := todo - {p};
    }
    assert forall a, p :: IsAbove(a, p) && p in artifact.nodes && a != [] ==> a in t && t[a].Dir?;
    assert Files(artifact.nodes) == Kept(previous, incoming, current);
  }

  method RemoveEmptyDirectories(artifact: Tree)
    requires IsTree(artifact.nodes)
    modifies artifact`nodes
    ensures artifact.nodes == TreeOf(Files(old(artifact.nodes)))
  {
    ghost var t, listed := artifact.nodes, AllDirectories(artifact.nodes);
    var todo := AllDirectories(artifact.nodes).Keys;
    ghost var done := {};
    assert artifact.nodes == PrunedWithin(t, listed, done);
    while todo != {}
      invariant done == listed.Keys - todo && todo <= listed.Keys
      invariant forall p, q :: p in todo && q in done ==> |p| <= |q|
      invariant artifact.nodes == PrunedWithin(t, listed, done)
    {
      DeepestExists(todo);
      var p :| p in todo && forall q :: q in todo ==> |q| <= |p|;
      PruneStep(t, listed, done, p);
      artifact.RemoveIfEmpty(p);
      todo := todo - {p};
      done := done + {p};
    }
    assert PrunedWithin(t, listed, listed.Keys) == Pruned(t, listed);
    PruningDirectories(t);
  }

  method CopyIncoming(artifact: Tree, previous: FileMap, incoming: FileMap, current: FileMap)
    returns (outcome: Outcome)
    requires IsFileSet(incoming) && IsFileSet(current) && NoConflict(previous, incoming, current)
    requires artifact.nodes == TreeOf(Kept(previous, incoming, current))
    modifies artifact
    ensures outcome == Refreshed && artifact.cleared == old(artifact.cleared) && artifact.blocked == old(artifact.blocked)
    ensures artifact.nodes == TreeOf(Merged(previous, incoming, current))
  {
    hide TreeOf, Kept, Merged, Progress, Installed, InstalledAt, MergeAt, Conflicting;
    var todo := incoming.Keys;
    ghost var done := {};
    ProgressEnds(previous, incoming, current);
    while todo != {}
      invariant artifact.cleared == old(artifact.cleared) && artifact.blocked == old(artifact.blocked)
      invariant done == incoming.Keys - todo && todo <= incoming.Keys
      invariant artifact.nodes == TreeOf(Progress(previous, incoming, current, done))
    {
      var p :| p in todo;
      ghost var now := Progress(previous, incoming, current, done);
      CopyStep(previous, incoming, current, done, p);
      ProgressOverlaps(previous, incoming, current, done);
      ProgressOverlaps(previous, incoming, current, done + {p});
      var was, brought, edited := Get(previous, p), Get(incoming, p), Get(current, p);
      if !(brought == was || edited == brought) {
        SecondGuardIsDead(previous, incoming, current, p);
        if !(was != None && edited != was) {
          InstallInTree(now, p, incoming[p]);
          var ok := artifact.Install(p, incoming[p]);
          if !ok {
            return OsError;
          }
        }
      }
      todo := todo - {p};
      done := done + {p};
    }
    assert done == incoming.Keys;
    outcome := Refreshed;
  }

  // -------------------------------------------------- needless refusals

  ghost predicate NoClash(previous: FileMap, incoming: FileMap, current: FileMap) {
    forall p :: !MergeAt(previous, incoming, current, p).Clash?
  }

  /** An incoming file that the merge keeps lies above or beneath a file the port changed. */
  ghost predicate MergeNests(previous: FileMap, incoming: FileMap, current: FileMap) {
    exists p, i ::
      && p in current && PortChanged(previous, current, p) && i in incoming && Related(i, p)
      && i in Merged(previous, incoming, current)
  }

  /** Where every path merges, the merge is a proper file tree exactly when no such pair survives in it. */
  lemma MergeNestsExactly(previous: FileMap, incoming: FileMap, current: FileMap)
    requires IsFileSet(incoming) && IsFileSet(current) && NoClash(previous, incoming, current)
    ensures IsFileSet(Merged(previous, incoming, current)) <==> !MergeNests(previous, incoming, current)
  {
    var merged := Merged(previous, incoming, current);
    if MergeNests(previous, incoming, current) {
      var p, i :| && p in current && PortChanged(previous, current, p) && i in incoming && Related(i, p)
                  && i in Merged(previous, incoming, current);
      assert !MergeAt(previous, incoming, current, p).Clash?;
      assert p in merged;
    } else {
      forall a, p | IsAbove(a, p) && a in merged ensures p !in merged {
        if p in merged {
          MergedFrom(previous, incoming, current, a);
          MergedFrom(previous, incoming, current, p);
          assert Related(a, p) && Related(p, a);
        }
      }
    }
  }

  /** A merged file is incoming, or is one the port changed. */
  lemma MergedFrom(previous: FileMap, incoming: FileMap, current: FileMap, p: Path)
    requires p in Merged(previous, incoming, current)
    ensures p in incoming || (p in current && PortChanged(previous, current, p))
  {}

  /** A refresh is refused needlessly exactly when all paths merge and no two files of a kind clash survive together. */
  lemma NeedlesslyRefusedExactly(previous: FileMap, incoming: FileMap, current: FileMap)
    requires IsFileSet(incoming) && IsFileSet(current)
    ensures !NoConflict(previous, incoming, current) && NoClash(previous, incoming, current)
            && IsFileSet(Merged(previous, incoming, current)) <==>
            && NoClash(previous, incoming, current) && !MergeNests(previous, incoming, current)
            && exists p :: KindClash(previous, incoming, current, p)
  {
    if NoClash(previous, incoming, current) {
      MergeNestsExactly(previous, incoming, current);
      if !NoConflict(previous, incoming, current) {
        var p :| Conflicting(previous, incoming, current, p);
        assert !MergeAt(previous, incoming, current, p).Clash?;
      }
      if p :| KindClash(previous, incoming, current, p) {
        assert Conflicting(previous, incoming, current, p);
      }
    }
  }

  /** Such a refusal: the source did not change, and the port replaced its file by a directory. */
  lemma UnchangedSourceIsRefused(pkg: Path, name: string, was: Content, edit: Content)
    requires pkg != []
    ensures var source, port := map[pkg := was], map[pkg + [name] := edit];
            && IsFileSet(source) && IsFileSet(port) && NoClash(source, source, port)
            && Merged(source, source, port) == port
            && !NoConflict(source, source, port)
  {
    var source, port, p := map[pkg := was], map[pkg + [name] := edit], pkg + [name];
    assert IsAbove(pkg, p);
    assert Related(pkg, p) && pkg in source;
    assert KindClash(source, source, port, p);
    assert Conflicting(source, source, port, p);
    SameGets(Merged(source, source, port), port);
  }

  // ----------------------------------------------------------- over runs

  lemma MergedIsFileSet(previous: FileMap, incoming: FileMap, current: FileMap)
    requires IsFileSet(incoming) && IsFileSet(current) && NoConflict(previous, incoming, current)
    ensures IsFileSet(Merged(previous, incoming, current))
  {
    ProgressEnds(previous, incoming, current);
    ProgressOverlaps(previous, incoming, current, incoming.Keys);
  }

  /** A file the port changed since the recorded source is never altered. */
  lemma EditedPathIsKept(previous: FileMap, incoming: FileMap, current: FileMap, p: Path)
    requires NoConflict(previous, incoming, current)
    requires Get(current, p) != Get(previous, p)
    ensures Get(Merged(previous, incoming, current), p) == Get(current, p)
  {
    assert !Conflicting(previous, incoming, current, p);
  }

  /** The path's three contents all differ, or its file, changed in the port, is above or beneath an incoming one. */
  ghost predicate NeedsChoice(previous: FileMap, incoming: FileMap, current: FileMap, p: Path) {
    || AllDiffer(Get(previous, p), Get(incoming, p), Get(current, p))
    || (p in current && Get(current, p) != Get(previous, p) && exists i :: i in incoming && (i < p || p < i))
  }

  /** What a refresh may leave at a path. */
  ghost predicate HonoursAt(previous: FileMap, incoming: FileMap, current: FileMap, after: FileMap, p: Path) {
    Honours(Get(previous, p), Get(incoming, p), Get(current, p), Get(after, p))
  }

  /** A path is in conflict exactly when it needs a choice; without one the merge honours both sides everywhere. */
  lemma RefusedExactly(previous: FileMap, incoming: FileMap, current: FileMap)
    ensures forall p :: Conflicting(previous, incoming, current, p) <==> NeedsChoice(previous, incoming, current, p)
    ensures NoConflict(previous, incoming, current) ==>
              forall p :: HonoursAt(previous, incoming, current, Merged(previous, incoming, current), p)
  {
    forall p ensures Conflicting(previous, incoming, current, p) <==> NeedsChoice(previous, incoming, current, p) {
      MergeHonoursBoth(Get(previous, p), Get(incoming, p), Get(current, p));
      if i :| i in incoming && (i < p || p < i) {
        assert Related(i, p);
      }
    }
    if NoConflict(previous, incoming, current) {
      forall p ensures HonoursAt(previous, incoming, current, Merged(previous, incoming, current), p) {
        assert !Conflicting(previous, incoming, current, p);
      }
    }
  }

  /** A port that already holds the new source is accepted as it is, whatever was recorded. */
  lemma SameChangeAgrees(previous: FileMap, incoming: FileMap)
    requires IsFileSet(incoming)
    ensures NoConflict(previous, incoming, incoming)
    ensures Merged(previous, incoming, incoming) == incoming
  {
    SameGets(Merged(previous, incoming, incoming), incoming);
  }

  /** A port without edits follows the source, whatever the source does. */
  lemma UneditedPortFollowsSource(previous: FileMap, incoming: FileMap)
    ensures NoConflict(previous, incoming, previous)
    ensures Merged(previous, incoming, previous) == incoming
  {
    SameGets(Merged(previous, incoming, previous), incoming);
  }

  /** Refreshing again from the same source is accepted and changes no file. */
  lemma RepeatedRefreshIsIdle(previous: FileMap, incoming: FileMap, current: FileMap)
    requires IsFileSet(incoming) && IsFileSet(current) && NoConflict(previous, incoming, current)
    ensures var merged := Merged(previous, incoming, current);
            NoConflict(incoming, incoming, merged) && Merged(incoming, incoming, merged) == merged
  {
    var merged := Merged(previous, incoming, current);
    MergedIsFileSet(previous, incoming, current);
    forall p ensures !KindClash(incoming, incoming, merged, p) {
      if p in merged && p !in incoming {
        assert !Conflicting(previous, incoming, current, p);
        assert p in current && !Dropped(previous, incoming, current, p);
      }
    }
    SameGets(Merged(incoming, incoming, merged), merged);
  }

  datatype Port = Port(recorded: FileMap, files: FileMap)

  /** One refresh of a port: a refused one leaves it alone, an accepted one records the source. */
  ghost function AfterRefresh(port: Port, source: FileMap): Port {
    if NoConflict(port.recorded, source, port.files) then
      Port(source, Merged(port.recorded, source, port.files))
    else port
  }

  /** What happens to a port: somebody edits its files, or it is refreshed from a source. */
  datatype Event = Edited(files: FileMap) | RefreshedFrom(source: FileMap)

  ghost function After(port: Port, event: Event): Port {
    match event
    case Edited(files) => port.(files := files)
    case RefreshedFrom(source) => AfterRefresh(port, source)
  }

  ghost function AfterRun(port: Port, events: seq<Event>): Port {
    if events == [] then port
    else After(AfterRun(port, events[..|events| - 1]), events[|events| - 1])
  }

  /** The event leaves this path's content to the port: no edit changes it, no source brings it. */
  predicate LeavesAlone(event: Event, p: Path, content: Option<Content>) {
    match event
    case Edited(files) => Get(files, p) == content
    case RefreshedFrom(source) => Get(source, p) != content
  }

  /** Over any run of edits and refreshes a port edit that no source version adopts survives. */
  lemma {:induction false} PortEditSurvivesRun(port: Port, events: seq<Event>, p: Path)
    requires Get(port.files, p) != Get(port.recorded, p)
    requires forall i :: 0 <= i < |events| ==> LeavesAlone(events[i], p, Get(port.files, p))
    ensures var after := AfterRun(port, events);
            && Get(after.files, p) == Get(port.files, p)
            && Get(after.files, p) != Get(after.recorded, p)
  {
    if events != [] {
      var n := |events| - 1;
      PortEditSurvivesRun(port, events[..n], p);
      var before := AfterRun(port, events[..n]);
      assert LeavesAlone(events[n], p, Get(port.files, p));
      if events[n].RefreshedFrom? && NoConflict(before.recorded, events[n].source, before.files) {
        EditedPathIsKept(before.recorded, events[n].source, before.files, p);
      }
    }
  }

  /** Trees stay well formed over any run of well-formed edits and sources. */
  lemma {:induction false} RunKeepsFileSets(port: Port, events: seq<Event>)
    requires IsFileSet(port.files)
    requires forall i :: 0 <= i < |events| ==> IsFileSet(FilesOf(events[i]))
    ensures IsFileSet(AfterRun(port, events).files)
  {
    if events != [] {
      var n := |events| - 1;
      RunKeepsFileSets(port, events[..n]);
      var before := AfterRun(port, events[..n]);
      assert IsFileSet(FilesOf(events[n]));
      if events[n].RefreshedFrom? && NoConflict(before.recorded, events[n].source, before.files) {
        MergedIsFileSet(before.recorded, events[n].source, before.files);
      }
    }
  }

  function FilesOf(event: Event): FileMap {
    if event.Edited? then event.files else event.source
  }

  /**
   What each event of a run does: an edit puts its files there and leaves the record; a refresh
   changes nothing when some path needs a choice, and else records its source and honours both sides.
   */
  lemma EachEventOfRun(port: Port, events: seq<Event>, i: nat)
    requires i < |events|
    ensures var before, after := AfterRun(port, events[..i]), AfterRun(port, events[..i + 1]);
            match events[i]
            case Edited(files) => after == Port(before.recorded, files)
            case RefreshedFrom(source) =>
              if exists p :: NeedsChoice(before.recorded, source, before.files, p) then after == before
              else
                && after.recorded == source
                && forall p :: HonoursAt(before.recorded, source, before.files, after.files, p)
    ensures AfterRun(port, []) == port
  {
    var before := AfterRun(port, events[..i]);
    assert events[..i + 1][..i] == events[..i];
    if events[i].RefreshedFrom? {
      RefusedExactly(before.recorded, events[i].source, before.files);
    }
  }

  /** In every run each refresh is refused, or leaves every path the port holds differently from the record. */
  lemma NoRefreshAltersEdits(port: Port, events: seq<Event>, i: nat, p: Path)
    requires i < |events| && events[i].RefreshedFrom?
    requires var before := AfterRun(port, events[..i]); Get(before.files, p) != Get(before.recorded, p)
    ensures Get(AfterRun(port, events[..i + 1]).files, p) == Get(AfterRun(port, events[..i]).files, p)
  {
    var before := AfterRun(port, events[..i]);
    assert events[..i + 1][..i] == events[..i];
    if NoConflict(before.recorded, events[i].source, before.files) {
      EditedPathIsKept(before.recorded, events[i].source, before.files, p);
    }
  }
}

/**
 `canyonos sync` (packages/cli/canyonos/sync.py): mirror the project into the container's
 workspace with an additive copy, after deleting what a saved manifest says the previous
 sync put there and the project no longer has. The reference is a plain mirror.

 The container also writes files of its own, at paths the project never uses.
 */
module Mirror {
  import opened Wrappers
  import opened FileTree

  type Entries = map<Path, Kind>

  const ENV_NAME: Path := [".env"]

  /** Where docker puts a `.env` copied onto a directory of that name. */
  const INNER: Path := [".env", ".env"]

  /** The project root, and the `.env` beside it when that one lies outside the root. */
  datatype Host = Host(root: Nodes, env: Option<Content>)

  function KindOf(n: Node): Kind {
    if n.Dir? then Directory else Entry
  }

  function ProjectEntries(h: Host): Entries {
    (map p | p in h.root :: KindOf(h.root[p])) + if h.env.Some? then map[ENV_NAME := Entry] else map[]
  }

  /** A `.env` file to copy, and a directory of that name in the root. */
  predicate EnvMeetsDirectory(h: Host) {
    h.env.Some? && HasKind(h.root, ENV_NAME, Directory)
  }

  /** The files and directories a sync is to bring over. */
  function HostTree(h: Host): Nodes {
    if h.env.Some? then h.root[ENV_NAME := File(h.env.value)] else h.root
  }

  ghost predicate IsHost(h: Host) {
    IsTree(h.root)
  }

  lemma HostTreeIsTree(h: Host)
    requires IsHost(h) && !EnvMeetsDirectory(h)
    ensures IsTree(HostTree(h))
  {
    assert forall a :: IsAbove(a, ENV_NAME) ==> a == [];
  }

  lemma EntriesAt(h: Host, p: Path)
    ensures Get(ProjectEntries(h), p) == if p in HostTree(h) then Some(KindOf(HostTree(h)[p])) else None
  {}

  // ------------------------------------------------------ stale entries

  function Stale(previous: Entries, current: Entries): Entries {
    map p | p in previous && Get(current, p) != Some(previous[p]) :: previous[p]
  }

  function Paths(list: seq<(Path, Kind)>): set<Path> {
    set i | 0 <= i < |list| :: list[i].0
  }

  ghost predicate Lists(list: seq<(Path, Kind)>, m: Entries) {
    && Paths(list) == m.Keys
    && (forall i :: 0 <= i < |list| ==> list[i].0 in m && m[list[i].0] == list[i].1)
    && (forall i, j :: 0 <= i < j < |list| ==> list[i].0 != list[j].0)
  }

  lemma PathsGrow(list: seq<(Path, Kind)>, p: Path, k: Kind)
    ensures Paths(list + [(p, k)]) == Paths(list) + {p}
  {
    var longer := list + [(p, k)];
    assert longer[|list|].0 == p;
    forall q | q in Paths(list) ensures q in Paths(longer) {
      var i :| 0 <= i < |list| && list[i].0 == q;
      assert longer[i].0 == q;
    }
  }

  ghost predicate DeepestFirst(list: seq<(Path, Kind)>) {
    forall i, j :: 0 <= i < j < |list| ==> |list[i].0| >= |list[j].0|
  }

  /** The list so far: the deepest of the stale entries, all but those still to come. */
  ghost predicate ListedSoFar(list: seq<(Path, Kind)>, stale: Entries, todo: set<Path>) {
    && todo <= stale.Keys && Paths(list) == stale.Keys - todo
    && (forall i :: 0 <= i < |list| ==> list[i].0 in stale && stale[list[i].0] == list[i].1)
    && (forall i, j :: 0 <= i < j < |list| ==> list[i].0 != list[j].0)
    && DeepestFirst(list)
    && forall i, p :: 0 <= i < |list| && p in todo ==> |list[i].0| >= |p|
  }

  lemma ListOneMore(list: seq<(Path, Kind)>, stale: Entries, todo: set<Path>, p: Path)
    requires ListedSoFar(list, stale, todo) && p in todo && forall q :: q in todo ==> |q| <= |p|
    ensures ListedSoFar(list + [(p, stale[p])], stale, todo - {p})
  {
    PathsGrow(list, p, stale[p]);
    assert p !in Paths(list);
  }

  /** `_stale_entries`: what changed or disappeared, deepest paths first. */
  method StaleEntries(previous: Entries, current: Entries) returns (list: seq<(Path, Kind)>)
    ensures Lists(list, Stale(previous, current)) && DeepestFirst(list)
  {
    var stale := Stale(previous, current);
    var todo := stale.Keys;
    list := [];
    while todo != {}
      invariant ListedSoFar(list, stale, todo)
    {
      DeepestExists(todo);
      var p :| p in todo && forall q :: q in todo ==> |q| <= |p|;
      ListOneMore(list, stale, todo, p);
      hide ListedSoFar;
      list := list + [(p, stale[p])];
      todo := todo - {p};
    }
  }

  // ---------------------------------------------------- the delete script

  /** One entry; unlinking below a file is the error the script does not swallow. */
  function DeleteOne(t: Nodes, p: Path, k: Kind): Option<Nodes> {
    if k == Entry && FileAbove(t, p) then None else Some(RemoveOne(t, p, k))
  }

  function DeleteAll(t: Nodes, list: seq<(Path, Kind)>): Option<Nodes> {
    if list == [] then Some(t)
    else
      var before := DeleteAll(t, list[..|list| - 1]);
      if before.None? then None
      else DeleteOne(before.value, list[|list| - 1].0, list[|list| - 1].1)
  }

  ghost predicate NoFileAboveEntries(t: Nodes, listed: Entries) {
    forall p :: p in listed && listed[p] == Entry ==> !FileAbove(t, p)
  }

  lemma VisitedBefore(list: seq<(Path, Kind)>, listed: Entries, n: nat)
    requires Lists(list, listed) && DeepestFirst(list) && 0 < n <= |list|
    ensures list[n - 1].0 !in Paths(list[..n - 1]) && VisitedDeeper(listed, Paths(list[..n - 1]), list[n - 1].0)
    ensures Paths(list[..n]) == Paths(list[..n - 1]) + {list[n - 1].0}
  {
    var p, done := list[n - 1].0, Paths(list[..n - 1]);
    assert list[..n] == list[..n - 1] + [(p, list[n - 1].1)];
    PathsGrow(list[..n - 1], p, list[n - 1].1);
    forall q | q in listed && |q| > |p| ensures q in done {
      assert q in Paths(list);
      var i :| 0 <= i < |list| && list[i].0 == q;
      assert i < n - 1 && list[..n - 1][i].0 == q;
    }
  }

  /** None of the first n entries that are no directories lies beneath a file. */
  ghost predicate NoFileAboveFirst(t: Nodes, list: seq<(Path, Kind)>, n: nat)
    requires n <= |list|
  {
    forall i :: 0 <= i < n && list[i].1 == Entry ==> !FileAbove(t, list[i].0)
  }

  /** After any number of entries, exactly the prunable ones among them are gone. */
  lemma {:induction false} DeletedSoFar(t: Nodes, list: seq<(Path, Kind)>, listed: Entries, n: nat)
    requires IsTree(t) && Lists(list, listed) && DeepestFirst(list)
    requires n <= |list| && NoFileAboveFirst(t, list, n)
    ensures DeleteAll(t, list[..n]) == Some(PrunedWithin(t, listed, Paths(list[..n])))
  {
    if n == 0 {
      assert Paths(list[..0]) == {} && PrunedWithin(t, listed, {}) == t;
    } else {
      assert list[n - 1].1 == Entry ==> !FileAbove(t, list[n - 1].0);
      DeletedSoFar(t, list, listed, n - 1);
      hide NoFileAboveFirst, FileAbove;
      var done := Paths(list[..n - 1]);
      assert list[n - 1].0 in listed && list[n - 1].1 == listed[list[n - 1].0];
      VisitedBefore(list, listed, n);
      assert list[..n][..n - 1] == list[..n - 1];
      hide DeepestFirst, Lists, Paths, IsTree, VisitedDeeper;
      DeletedOne(t, listed, done, list[n - 1].0);
    }
  }

  lemma DeletedOne(t: Nodes, listed: Entries, done: set<Path>, p: Path)
    requires IsTree(t) && p in listed && p !in done && VisitedDeeper(listed, done, p)
    requires listed[p] == Entry ==> !FileAbove(t, p)
    ensures DeleteOne(PrunedWithin(t, listed, done), p, listed[p]) == Some(PrunedWithin(t, listed, done + {p}))
  {
    PruneStep(t, listed, done, p);
    assert FileAbove(PrunedWithin(t, listed, done), p) ==> FileAbove(t, p);
  }

  /** The script fails exactly when an entry that is no directory lies beneath a file. */
  lemma ScriptFailsExactly(t: Nodes, list: seq<(Path, Kind)>, listed: Entries)
    requires IsTree(t) && Lists(list, listed) && DeepestFirst(list)
    ensures DeleteAll(t, list).None? <==> exists p :: p in listed && listed[p] == Entry && FileAbove(t, p)
  {
    if p :| p in listed && listed[p] == Entry && FileAbove(t, p) {
      assert p in Paths(list);
      var i :| 0 <= i < |list| && list[i].0 == p;
      FileAboveStops(t, list, listed, i);
    } else {
      ScriptPrunes(t, list, listed);
    }
  }

  lemma {:induction false} FileAboveStops(t: Nodes, list: seq<(Path, Kind)>, listed: Entries, i: nat)
    requires IsTree(t) && Lists(list, listed) && DeepestFirst(list)
    requires i < |list| && list[i].1 == Entry && FileAbove(t, list[i].0)
    ensures DeleteAll(t, list).None?
    decreases i
  {
    if j :| 0 <= j < i && list[j].1 == Entry && FileAbove(t, list[j].0) {
      FileAboveStops(t, list, listed, j);
    } else {
      DeletedSoFar(t, list, listed, i);
      FileAboveStays(t, list, listed, i);
      assert list[..i + 1][..i] == list[..i];
      NoneStays(t, list, i + 1);
    }
  }

  /** The file above is listed later, if at all, so it is still there. */
  lemma FileAboveStays(t: Nodes, list: seq<(Path, Kind)>, listed: Entries, i: nat)
    requires Lists(list, listed) && DeepestFirst(list) && i < |list| && FileAbove(t, list[i].0)
    ensures FileAbove(PrunedWithin(t, listed, Paths(list[..i])), list[i].0)
  {
    var p, done := list[i].0, Paths(list[..i]);
    var k :| 0 < k < |p| && p[..k] in t && t[p[..k]].File?;
    forall j | 0 <= j < i ensures list[..i][j].0 != p[..k] {
      assert |list[j].0| >= |p|;
    }
    assert p[..k] !in done;
  }

  /** The script as a whole drops exactly the listed paths with nothing unlisted beneath. */
  lemma ScriptPrunes(t: Nodes, list: seq<(Path, Kind)>, listed: Entries)
    requires IsTree(t) && Lists(list, listed) && DeepestFirst(list) && NoFileAboveEntries(t, listed)
    ensures DeleteAll(t, list) == Some(Pruned(t, listed))
  {
    DeletedSoFar(t, list, listed, |list|);
    assert list[..|list|] == list;
    assert PrunedWithin(t, listed, Paths(list)) == Pruned(t, listed);
  }

  // ------------------------------------------------------------ the copy

  /** `docker cp`: it adds and overwrites, but never puts a file over a directory or back. */
  predicate Fits(ws: Nodes, tree: Nodes) {
    forall p | p in ws && p in tree :: KindOf(ws[p]) == KindOf(tree[p])
  }

  /** Copying the separate `.env`; onto a directory of that name docker copies into it. */
  function WithEnv(ws: Nodes, env: Option<Content>): Nodes {
    if env.None? then ws
    else if HasKind(ws, ENV_NAME, Directory) then ws[INNER := File(env.value)]
    else ws[ENV_NAME := File(env.value)]
  }

  function Copied(ws: Nodes, h: Host): Nodes {
    WithEnv(ws + h.root, h.env)
  }

  /** Where the copy works at all: the root fits, and then the `.env` does. */
  predicate Copies(ws: Nodes, h: Host) {
    Fits(ws, h.root) && (h.env.Some? ==> !HasKind(ws + h.root, INNER, Directory))
  }

  /** The separate `.env` meets a directory of its name and goes into it, without an error. */
  predicate Swallows(ws: Nodes, h: Host) {
    h.env.Some? && HasKind(ws + h.root, ENV_NAME, Directory)
  }

  lemma CopyIsOneTree(ws: Nodes, h: Host)
    requires IsTree(ws) && IsHost(h) && !Swallows(ws, h)
    ensures Fits(ws, HostTree(h)) <==> Copies(ws, h)
    ensures Copies(ws, h) ==> Copied(ws, h) == ws + HostTree(h)
  {
    if Fits(ws, HostTree(h)) {
      assert Fits(ws, h.root);
    }
  }

  /** Once the root fits, a directory in the root or one left in the workspace is in the way. */
  lemma SwallowsWhen(ws: Nodes, h: Host)
    requires Copies(ws, h)
    ensures Swallows(ws, h) <==> EnvMeetsDirectory(h) || (h.env.Some? && HasKind(ws, ENV_NAME, Directory))
  {}

  // ------------------------------------------------ what the manifest means

  /** Paths the container may use for files of its own; the project never does. */
  type Owned = iset<Path>

  ghost predicate Avoids(h: Host, owned: Owned) {
    forall p :: p in HostTree(h) ==> p !in owned
  }

  /** What is recorded above an entry is a directory, or the `.env` that hides one. */
  ghost predicate IsManifest(m: Entries) {
    forall a, p :: IsAbove(a, p) && p in m && a != [] ==> a in m && (m[a] == Directory || a == ENV_NAME)
  }

  /**
   Outside the container's own paths every file is recorded, but for a swallowed `.env`; what
   is recorded has its kind, but for a `.env` that was a directory after all.
   */
  ghost predicate Tracks(ws: Nodes, m: Entries, owned: Owned) {
    && (forall p :: p in m ==> p !in owned)
    && (forall p :: p in m && p in ws ==> HasKind(ws, p, m[p]) || (p == ENV_NAME && ws[p].Dir?))
    && (forall p :: p in ws && ws[p].File? ==> p in owned || p in m || p == INNER)
    && (forall p :: p in m && IsAbove(ENV_NAME, p) && ENV_NAME in ws ==> ws[ENV_NAME].Dir?)
  }

  ghost predicate Sound(ws: Nodes, m: Entries, owned: Owned) {
    IsTree(ws) && IsManifest(m) && Tracks(ws, m, owned)
  }

  /** No `.env` was swallowed: nothing is excepted. */
  ghost predicate Untroubled(ws: Nodes, m: Entries, owned: Owned) {
    && (INNER in ws && ws[INNER].File? ==> INNER in owned || INNER in m)
    && (ENV_NAME in m && ENV_NAME in ws ==> HasKind(ws, ENV_NAME, m[ENV_NAME]))
    && (forall p :: p in m && IsAbove(ENV_NAME, p) ==> ENV_NAME in m && m[ENV_NAME] == Directory)
  }

  lemma NothingFileLikeAbove(ws: Nodes, m: Entries, owned: Owned, h: Host)
    requires Sound(ws, m, owned)
    ensures NoFileAboveEntries(ws, Stale(m, ProjectEntries(h)))
  {
    forall p | p in Stale(m, ProjectEntries(h)) ensures !FileAbove(ws, p) {
      forall i | 0 < i < |p| ensures !(p[..i] in ws && ws[p[..i]].File?) {
        assert IsAbove(p[..i], p);
      }
    }
  }

  /** A managed path beneath a stale directory is stale itself, so it was handled earlier. */
  lemma StaleDirectoriesGoWhole(m: Entries, h: Host, d: Path, q: Path)
    requires IsManifest(m) && IsHost(h) && (d == ENV_NAME ==> !EnvMeetsDirectory(h))
    requires d in Stale(m, ProjectEntries(h)) && m[d] == Directory
    requires q in m && IsAbove(d, q) && d != []
    ensures q in Stale(m, ProjectEntries(h)) && |q| > |d|
  {
    EntriesAt(h, q);
    EntriesAt(h, d);
    assert forall a :: IsAbove(a, ENV_NAME) ==> a == [];
  }

  /** A stale directory is removed exactly when the workspace holds nothing unmanaged in it. */
  lemma StaleDirectoryRemoved(ws: Nodes, m: Entries, owned: Owned, h: Host, d: Path)
    requires Sound(ws, m, owned) && IsHost(h) && (d == ENV_NAME ==> !EnvMeetsDirectory(h))
    requires d in ws && d in Stale(m, ProjectEntries(h)) && m[d] == Directory
    ensures d !in Pruned(ws, Stale(m, ProjectEntries(h))) <==> forall q :: q in ws && IsAbove(d, q) ==> q in m
  {
    var stale := Stale(m, ProjectEntries(h));
    assert forall a :: IsAbove(a, ENV_NAME) ==> a == [];
    if forall q :: q in ws && IsAbove(d, q) ==> q in m {
      forall q | q in ws && (q == d || IsAbove(d, q)) ensures q in stale && HasKind(ws, q, stale[q]) {
        if q != d {
          StaleDirectoriesGoWhole(m, h, d, q);
        }
      }
      assert Prunable(ws, stale, d);
    }
  }

  /** Only what the previous manifest lists is ever deleted, and of that nothing the project still has. */
  lemma OnlyManagedPathsGo(ws: Nodes, m: Entries, h: Host, p: Path)
    requires p in ws && p !in Pruned(ws, Stale(m, ProjectEntries(h)))
    ensures p in m && (p in HostTree(h) ==> KindOf(HostTree(h)[p]) != m[p])
  {
    EntriesAt(h, p);
    assert Prunable(ws, Stale(m, ProjectEntries(h)), p);
  }

  /** Without a manifest nothing is deleted. */
  lemma NothingKnownNothingGoes(ws: Nodes, h: Host)
    ensures Cleaned(ws, map[], h) == ws
  {
    forall p | p in ws ensures !Prunable(ws, Stale(map[], ProjectEntries(h)), p) {}
  }

  // ------------------------------------------------------- one sync

  ghost function Cleaned(ws: Nodes, m: Entries, h: Host): Nodes {
    Pruned(ws, Stale(m, ProjectEntries(h)))
  }

  /** Something the manifest does not know sits where, or beneath where, a project path goes. */
  ghost predicate Blocked(ws: Nodes, m: Entries, h: Host) {
    exists p, q :: && p in HostTree(h) && q in ws && q !in m
                   && (if q == p then KindOf(ws[p]) != KindOf(HostTree(h)[p])
                       else HostTree(h)[p].File? && IsAbove(p, q))
  }

  ghost function OwnedFiles(ws: Nodes, owned: Owned): FileMap {
    map p | p in ws && ws[p].File? && p in owned :: ws[p].content
  }

  /** What a plain mirror would leave: the project's files and the container's own. */
  ghost function Mirrored(ws: Nodes, owned: Owned, h: Host): FileMap {
    OwnedFiles(ws, owned) + Files(HostTree(h))
  }

  /** The copy after the clean-up meets a file/directory clash exactly on something unmanaged in the way. */
  lemma FitsUnlessBlocked(ws: Nodes, m: Entries, owned: Owned, h: Host)
    requires Sound(ws, m, owned) && Untroubled(ws, m, owned) && IsHost(h) && Avoids(h, owned)
    requires !EnvMeetsDirectory(h)
    ensures Fits(Cleaned(ws, m, h), HostTree(h)) <==> !Blocked(ws, m, h)
  {
    var host, now := HostTree(h), Cleaned(ws, m, h);
    if !Fits(now, host) {
      var p :| p in now && p in host && KindOf(now[p]) != KindOf(host[p]);
      MisfitIsBlocked(ws, m, owned, h, p);
    }
    if Blocked(ws, m, h) {
      var p, q :| p in host && q in ws && q !in m
                  && (if q == p then KindOf(ws[p]) != KindOf(host[p]) else host[p].File? && IsAbove(p, q));
      BlockedIsMisfit(ws, m, h, p, q);
    }
  }

  lemma BlockedIsMisfit(ws: Nodes, m: Entries, h: Host, p: Path, q: Path)
    requires IsTree(ws) && [] !in HostTree(h) && p in HostTree(h) && q in ws && q !in m
    requires if q == p then KindOf(ws[p]) != KindOf(HostTree(h)[p]) else HostTree(h)[p].File? && IsAbove(p, q)
    ensures !Fits(Cleaned(ws, m, h), HostTree(h))
  {
    var now := Cleaned(ws, m, h);
    assert !Prunable(ws, Stale(m, ProjectEntries(h)), p);
    assert p in now && KindOf(now[p]) != KindOf(HostTree(h)[p]);
  }

  /** Untroubled, a sync copies to its place all it should exactly when nothing unmanaged is in the way. */
  lemma CopiesUnlessBlocked(ws: Nodes, m: Entries, owned: Owned, h: Host)
    requires Sound(ws, m, owned) && Untroubled(ws, m, owned) && IsHost(h) && Avoids(h, owned)
    requires !EnvMeetsDirectory(h)
    ensures Copies(Cleaned(ws, m, h), h) && !Swallows(Cleaned(ws, m, h), h) <==> !Blocked(ws, m, h)
  {
    var now := Cleaned(ws, m, h);
    FitsUnlessBlocked(ws, m, owned, h);
    CleaningKeepsOwned(ws, m, owned, h);
    if !Swallows(now, h) {
      CopyIsOneTree(now, h);
    }
  }

  lemma MisfitIsBlocked(ws: Nodes, m: Entries, owned: Owned, h: Host, p: Path)
    requires Sound(ws, m, owned) && Untroubled(ws, m, owned) && IsHost(h) && Avoids(h, owned)
    requires !EnvMeetsDirectory(h)
    requires p in Cleaned(ws, m, h) && p in HostTree(h) && KindOf(Cleaned(ws, m, h)[p]) != KindOf(HostTree(h)[p])
    ensures Blocked(ws, m, h)
  {
    var stale := Stale(m, ProjectEntries(h));
    HostTreeIsTree(h);
    EntriesAt(h, p);
    assert !Prunable(ws, stale, p);
    if p in m {
      var q := NotPrunedFor(ws, stale, p);
      EntriesAt(h, q);
      MisfitBeneath(ws, m, owned, h, p, q);
    }
  }

  lemma NotPrunedFor(ws: Nodes, listed: Entries, p: Path) returns (q: Path)
    requires p in ws && !Prunable(ws, listed, p)
    ensures q in ws && (q == p || IsAbove(p, q)) && !(q in listed && HasKind(ws, q, listed[q]))
  {
    q :| q in ws && (q == p || IsAbove(p, q)) && !(q in listed && HasKind(ws, q, listed[q]));
  }

  lemma MisfitBeneath(ws: Nodes, m: Entries, owned: Owned, h: Host, p: Path, q: Path)
    requires Sound(ws, m, owned) && Untroubled(ws, m, owned) && IsTree(HostTree(h))
    requires p in ws && p in m && p in HostTree(h) && KindOf(ws[p]) != KindOf(HostTree(h)[p])
    requires q in ws && (q == p || IsAbove(p, q))
    requires !(q in Stale(m, ProjectEntries(h)) && HasKind(ws, q, Stale(m, ProjectEntries(h))[q]))
    ensures q != p && q !in m && HostTree(h)[p].File?
  {
    EntriesAt(h, p);
    EntriesAt(h, q);
    assert HasKind(ws, p, m[p]);
  }

  lemma CleaningKeepsOwned(ws: Nodes, m: Entries, owned: Owned, h: Host)
    requires Sound(ws, m, owned) && Avoids(h, owned)
    ensures IsTree(Cleaned(ws, m, h))
    ensures forall p :: p in Cleaned(ws, m, h) ==> p in ws && Cleaned(ws, m, h)[p] == ws[p]
    ensures forall p :: p in ws && p in owned ==> p in Cleaned(ws, m, h) && p !in HostTree(h)
  {
    var stale, now := Stale(m, ProjectEntries(h)), Cleaned(ws, m, h);
    PrunedIsTree(ws, stale);
    forall p | p in ws && p in owned ensures p in now {
      assert p !in stale;
      assert !Prunable(ws, stale, p);
    }
  }

  /** A managed file that the project no longer has as one is gone after the clean-up. */
  lemma StaleFileGoes(ws: Nodes, m: Entries, owned: Owned, h: Host, p: Path)
    requires Sound(ws, m, owned) && p in Cleaned(ws, m, h) && ws[p].File? && p !in HostTree(h)
    ensures p !in m && (p in owned || p == INNER)
  {
    var stale := Stale(m, ProjectEntries(h));
    EntriesAt(h, p);
    assert !Prunable(ws, stale, p);
  }

  lemma OverlayIsTree(ws: Nodes, tree: Nodes)
    requires IsTree(ws) && IsTree(tree) && Fits(ws, tree)
    ensures IsTree(ws + tree)
  {
    var all := ws + tree;
    forall a, p | IsAbove(a, p) && p in all && a != [] ensures a in all && all[a].Dir? {
      if p in tree {
        assert a in tree;
      } else {
        assert a in ws;
      }
    }
  }

  lemma CopiedIsTree(ws: Nodes, h: Host)
    requires IsTree(ws) && IsHost(h) && Copies(ws, h)
    ensures IsTree(Copied(ws, h))
  {
    OverlayIsTree(ws, h.root);
    var all, after := ws + h.root, Copied(ws, h);
    forall a, p | IsAbove(a, p) && p in after && a != [] ensures a in after && after[a].Dir? {
      if p == INNER {
        assert |a| == 1 && a == ENV_NAME;
      } else if p != ENV_NAME {
        assert p in all && a in all;
      }
    }
  }

  lemma EntriesAreManifest(h: Host)
    requires IsHost(h)
    ensures IsManifest(ProjectEntries(h))
  {
    forall a, p | IsAbove(a, p) && p in ProjectEntries(h) && a != []
      ensures a in ProjectEntries(h) && (ProjectEntries(h)[a] == Directory || a == ENV_NAME)
    {
      EntriesAt(h, p);
      EntriesAt(h, a);
    }
  }

  /** The new workspace at one path, where the `.env` is not concerned. */
  lemma CopiedAt(ws: Nodes, h: Host, p: Path)
    requires p != ENV_NAME && p != INNER
    ensures Get(Copied(ws, h), p) == if p in HostTree(h) then Some(HostTree(h)[p]) else Get(ws, p)
  {}

  lemma CopiedIsTracked(ws: Nodes, m: Entries, owned: Owned, h: Host)
    requires Sound(ws, m, owned) && IsHost(h) && Avoids(h, owned) && Copies(Cleaned(ws, m, h), h)
    ensures Tracks(Copied(Cleaned(ws, m, h), h), ProjectEntries(h), owned)
  {
    var now := Cleaned(ws, m, h);
    var after, entries := Copied(now, h), ProjectEntries(h);
    forall p ensures Get(entries, p) == if p in HostTree(h) then Some(KindOf(HostTree(h)[p])) else None {
      EntriesAt(h, p);
    }
    forall p | p in entries ensures p !in owned {
      assert p in HostTree(h);
    }
    forall p | p in entries && p in after
      ensures HasKind(after, p, entries[p]) || (p == ENV_NAME && after[p].Dir?)
    {
      assert p in HostTree(h);
    }
    forall p | p in after && after[p].File? ensures p in owned || p in entries || p == INNER {
      if p !in HostTree(h) && p != INNER {
        assert p in now;
        StaleFileGoes(ws, m, owned, h, p);
      }
    }
    forall p | p in entries && IsAbove(ENV_NAME, p) && ENV_NAME in after ensures after[ENV_NAME].Dir? {
      assert p in h.root;
    }
  }

  /** A `.env` swallowed by an earlier sync, left where neither the project nor the container put it. */
  ghost predicate Stray(now: Nodes, owned: Owned, h: Host) {
    INNER in now && now[INNER].File? && INNER !in owned && INNER !in HostTree(h)
  }

  /** After a sync every path but the two of a swallowed `.env` is as a plain mirror has it. */
  lemma MirroredElsewhere(ws: Nodes, m: Entries, owned: Owned, h: Host, p: Path)
    requires Sound(ws, m, owned) && IsHost(h) && Avoids(h, owned)
    requires p != INNER && (p == ENV_NAME ==> !Swallows(Cleaned(ws, m, h), h))
    ensures Get(Files(Copied(Cleaned(ws, m, h), h)), p) == Get(Mirrored(ws, owned, h), p)
  {
    var now := Cleaned(ws, m, h);
    CleaningKeepsOwned(ws, m, owned, h);
    assert Get(Copied(now, h), p) == if p in HostTree(h) then Some(HostTree(h)[p]) else Get(now, p) by {
      if p != ENV_NAME {
        CopiedAt(now, h, p);
      }
    }
    if p in now && now[p].File? && p !in HostTree(h) {
      StaleFileGoes(ws, m, owned, h, p);
    }
  }

  lemma MirroredInside(ws: Nodes, m: Entries, owned: Owned, h: Host)
    requires Sound(ws, m, owned) && IsHost(h) && Avoids(h, owned)
    requires !Swallows(Cleaned(ws, m, h), h)
    ensures Get(Files(Copied(Cleaned(ws, m, h), h)), INNER) == Get(Mirrored(ws, owned, h), INNER)
            <==> !Stray(Cleaned(ws, m, h), owned, h)
  {
    CleaningKeepsOwned(ws, m, owned, h);
  }

  /**
   The workspace after a sync is exactly the project's files and the container's own unless the
   `.env` is swallowed, or one swallowed earlier is still there.
   */
  lemma SyncMirrors(ws: Nodes, m: Entries, owned: Owned, h: Host)
    requires Sound(ws, m, owned) && IsHost(h) && Avoids(h, owned) && Copies(Cleaned(ws, m, h), h)
    ensures var now := Cleaned(ws, m, h); var after := Copied(now, h);
            && Sound(after, ProjectEntries(h), owned)
            && (Files(after) == Mirrored(ws, owned, h) <==> !Swallows(now, h) && !Stray(now, owned, h))
            && (!Swallows(now, h) ==> OwnedFiles(after, owned) == OwnedFiles(ws, owned))
  {
    var now := Cleaned(ws, m, h);
    var after := Copied(now, h);
    CleaningKeepsOwned(ws, m, owned, h);
    CopiedIsTree(now, h);
    EntriesAreManifest(h);
    CopiedIsTracked(ws, m, owned, h);
    if Swallows(now, h) {
      assert Get(Files(after), ENV_NAME) != Get(Mirrored(ws, owned, h), ENV_NAME);
    } else {
      MirroredInside(ws, m, owned, h);
      forall p ensures p != INNER ==> Get(Files(after), p) == Get(Mirrored(ws, owned, h), p) {
        if p != INNER {
          MirroredElsewhere(ws, m, owned, h, p);
        }
      }
      OwnedStay(now, ws, owned, h);
      hide Copied, Cleaned, Mirrored, Stray, Swallows, Sound, Copies, OwnedFiles;
      SameUnless(Files(after), Mirrored(ws, owned, h), INNER);
    }
  }

  lemma OwnedStay(now: Nodes, ws: Nodes, owned: Owned, h: Host)
    requires Avoids(h, owned) && !Swallows(now, h)
    requires forall p :: p in now ==> p in ws && now[p] == ws[p]
    requires forall p :: p in ws && p in owned ==> p in now
    ensures OwnedFiles(Copied(now, h), owned) == OwnedFiles(ws, owned)
  {}

  lemma SameUnless(f: FileMap, g: FileMap, x: Path)
    requires forall p :: p != x ==> Get(f, p) == Get(g, p)
    ensures f == g <==> Get(f, x) == Get(g, x)
  {
    if Get(f, x) == Get(g, x) {
      forall p ensures Get(f, p) == Get(g, p) {}
      assert forall p :: (p in f <==> Get(f, p).Some?) && (p in g <==> Get(g, p).Some?);
      assert f.Keys == g.Keys;
      forall p | p in f ensures f[p] == g[p] {
        assert Get(f, p) == Get(g, p);
      }
    }
  }

  /** A sync that swallows nothing leaves nothing to except. */
  lemma UntroubledKept(ws: Nodes, m: Entries, owned: Owned, h: Host)
    requires Sound(ws, m, owned) && Untroubled(ws, m, owned) && IsHost(h) && Avoids(h, owned)
    requires Copies(Cleaned(ws, m, h), h) && !Swallows(Cleaned(ws, m, h), h)
    ensures Untroubled(Copied(Cleaned(ws, m, h), h), ProjectEntries(h), owned)
    ensures !Stray(Cleaned(ws, m, h), owned, h)
  {
    var now := Cleaned(ws, m, h);
    CleaningKeepsOwned(ws, m, owned, h);
    EntriesAt(h, INNER);
    EntriesAt(h, ENV_NAME);
    if INNER in now && now[INNER].File? && INNER !in HostTree(h) {
      StaleFileGoes(ws, m, owned, h, INNER);
    }
    forall p | p in ProjectEntries(h) && IsAbove(ENV_NAME, p) ensures ProjectEntries(h)[ENV_NAME] == Directory {
      assert p in h.root;
    }
  }

  lemma EarlierIsDeeper(list: seq<(Path, Kind)>, m: Entries, n: nat, a: Path, p: Path)
    requires Lists(list, m) && DeepestFirst(list) && n <= |list|
    requires a in Paths(list[..n]) && p in m && |p| > |a|
    ensures p in Paths(list[..n])
  {
    assert p in Paths(list);
    var i :| 0 <= i < n && list[..n][i].0 == a;
    var j :| 0 <= j < |list| && list[j].0 == p;
    assert list[i].0 == a;
    assert j < i;
    assert list[..n][j].0 == p;
  }

  /** Deleting part of the stale list, then failing, keeps the manifest's meaning. */
  lemma PartialDeletionIsSound(ws: Nodes, m: Entries, owned: Owned, h: Host, list: seq<(Path, Kind)>, n: nat)
    requires Sound(ws, m, owned)
    requires Lists(list, Stale(m, ProjectEntries(h))) && DeepestFirst(list) && n <= |list|
    ensures DeleteAll(ws, list[..n]).Some?
    ensures var left := DeleteAll(ws, list[..n]).value;
            && Sound(left, m, owned)
            && (Untroubled(ws, m, owned) ==> Untroubled(left, m, owned))
            && OwnedFiles(left, owned) == OwnedFiles(ws, owned)
  {
    var stale := Stale(m, ProjectEntries(h));
    NothingFileLikeAbove(ws, m, owned, h);
    DeletedSoFar(ws, list, stale, n);
    var now := PrunedWithin(ws, stale, Paths(list[..n]));
    PartIsTree(ws, list, stale, n);
    assert forall p :: p in owned && p in ws ==> p in now;
    assert forall p :: p in now ==> p in ws && now[p] == ws[p];
    assert Tracks(now, m, owned);
    assert OwnedFiles(now, owned) == OwnedFiles(ws, owned);
  }

  lemma PartIsTree(ws: Nodes, list: seq<(Path, Kind)>, stale: Entries, n: nat)
    requires IsTree(ws) && Lists(list, stale) && DeepestFirst(list) && n <= |list|
    ensures IsTree(PrunedWithin(ws, stale, Paths(list[..n])))
  {
    var done := Paths(list[..n]);
    var now := PrunedWithin(ws, stale, done);
    forall a, p | IsAbove(a, p) && p in now && a != [] ensures a in now && now[a].Dir? {
      if a in done && Prunable(ws, stale, a) {
        PrunableBeneath(ws, stale, a, p);
        EarlierIsDeeper(list, stale, n, a, p);
      }
    }
  }

  // ------------------------------------------------------------ runs

  datatype Sys = Sys(workspace: Nodes, manifest: Entries)

  datatype Event =
    | Synced(host: Host)
    | SyncFailed(host: Host, list: seq<(Path, Kind)>, deleted: nat)
    | ContainerWrote(workspace: Nodes)

  ghost predicate CopiesNow(s: Sys, h: Host) {
    Copies(Cleaned(s.workspace, s.manifest, h), h)
  }

  ghost predicate SwallowsNow(s: Sys, e: Event) {
    e.Synced? && Swallows(Cleaned(s.workspace, s.manifest, e.host), e.host)
  }

  /** What can happen; a sync whose copy breaks off half way is not among them. */
  ghost predicate Possible(s: Sys, e: Event, owned: Owned) {
    match e
    case Synced(h) => IsHost(h) && Avoids(h, owned) && CopiesNow(s, h)
    case SyncFailed(h, list, deleted) =>
      Lists(list, Stale(s.manifest, ProjectEntries(h))) && DeepestFirst(list) && deleted <= |list|
    case ContainerWrote(ws) =>
      IsTree(ws) && forall p :: p !in owned ==> Get(ws, p) == Get(s.workspace, p)
  }

  ghost function After(s: Sys, e: Event): Sys {
    match e
    case Synced(h) => Sys(Copied(Cleaned(s.workspace, s.manifest, h), h), ProjectEntries(h))
    case SyncFailed(h, list, deleted) =>
      var left := DeleteAll(s.workspace, list[..if deleted <= |list| then deleted else |list|]);
      if left.Some? then s.(workspace := left.value) else s
    case ContainerWrote(ws) => s.(workspace := ws)
  }

  ghost function AfterAll(s: Sys, events: seq<Event>): Sys {
    if events == [] then s else After(AfterAll(s, events[..|events| - 1]), events[|events| - 1])
  }

  ghost predicate IsRun(s: Sys, events: seq<Event>, owned: Owned) {
    forall i :: 0 <= i < |events| ==> Possible(AfterAll(s, events[..i]), events[i], owned)
  }

  ghost predicate SoundSys(s: Sys, owned: Owned) {
    Sound(s.workspace, s.manifest, owned)
  }

  ghost predicate UntroubledSys(s: Sys, owned: Owned) {
    Untroubled(s.workspace, s.manifest, owned)
  }

  /** What each event does: the container's files, a partial deletion under the old manifest, or a sync. */
  lemma EachEvent(s: Sys, e: Event, owned: Owned)
    requires SoundSys(s, owned) && Possible(s, e, owned)
    ensures match e
            case Synced(h) =>
              After(s, e) == Sys(Copied(Pruned(s.workspace, Stale(s.manifest, ProjectEntries(h))), h), ProjectEntries(h))
            case SyncFailed(h, list, deleted) =>
              After(s, e) == Sys(PrunedWithin(s.workspace, Stale(s.manifest, ProjectEntries(h)), Paths(list[..deleted])),
                                 s.manifest)
            case ContainerWrote(ws) => After(s, e) == Sys(ws, s.manifest)
  {
    match e
    case SyncFailed(h, list, deleted) =>
      NothingFileLikeAbove(s.workspace, s.manifest, owned, h);
      DeletedSoFar(s.workspace, list, Stale(s.manifest, ProjectEntries(h)), deleted);
    case _ =>
  }

  lemma StepKeepsSound(s: Sys, e: Event, owned: Owned)
    requires SoundSys(s, owned) && Possible(s, e, owned)
    ensures SoundSys(After(s, e), owned)
    ensures UntroubledSys(s, owned) && !SwallowsNow(s, e) ==> UntroubledSys(After(s, e), owned)
  {
    match e
    case Synced(h) =>
      SyncMirrors(s.workspace, s.manifest, owned, h);
      if UntroubledSys(s, owned) && !SwallowsNow(s, e) {
        UntroubledKept(s.workspace, s.manifest, owned, h);
      }
    case SyncFailed(h, list, deleted) =>
      PartialDeletionIsSound(s.workspace, s.manifest, owned, h, list, deleted);
    case ContainerWrote(ws) => WritingKeepsSound(s, ws, owned);
  }

  lemma WritingKeepsSound(s: Sys, ws: Nodes, owned: Owned)
    requires SoundSys(s, owned) && IsTree(ws) && forall p :: p !in owned ==> Get(ws, p) == Get(s.workspace, p)
    ensures Sound(ws, s.manifest, owned)
    ensures UntroubledSys(s, owned) ==> Untroubled(ws, s.manifest, owned)
  {
    forall p ensures p !in owned ==> (p in ws <==> p in s.workspace) && (p in ws ==> ws[p] == s.workspace[p]) {
      assert p !in owned ==> Get(ws, p) == Get(s.workspace, p);
    }
    forall p | p in s.manifest && IsAbove(ENV_NAME, p) ensures ENV_NAME !in owned {
      assert ENV_NAME in s.manifest;
    }
  }

  lemma {:induction false} RunKeepsSound(s: Sys, events: seq<Event>, owned: Owned)
    requires SoundSys(s, owned) && IsRun(s, events, owned)
    ensures SoundSys(AfterAll(s, events), owned)
    ensures UntroubledSys(s, owned) && NoneSwallowed(s, events) ==> UntroubledSys(AfterAll(s, events), owned)
  {
    if events != [] {
      var n := |events| - 1;
      RunFront(s, events, owned);
      RunKeepsSound(s, events[..n], owned);
      assert Possible(AfterAll(s, events[..n]), events[n], owned);
      StepKeepsSound(AfterAll(s, events[..n]), events[n], owned);
      assert NoneSwallowed(s, events) ==> !SwallowsNow(AfterAll(s, events[..n]), events[n]);
    }
  }

  /** No sync of the run swallows a `.env`. */
  ghost predicate NoneSwallowed(s: Sys, events: seq<Event>) {
    forall i :: 0 <= i < |events| ==> !SwallowsNow(AfterAll(s, events[..i]), events[i])
  }

  lemma RunFront(s: Sys, events: seq<Event>, owned: Owned)
    requires IsRun(s, events, owned) && events != []
    ensures var front := events[..|events| - 1];
            IsRun(s, front, owned) && (NoneSwallowed(s, events) ==> NoneSwallowed(s, front))
  {
    var front := events[..|events| - 1];
    forall i | 0 <= i < |front|
      ensures Possible(AfterAll(s, front[..i]), front[i], owned)
      ensures NoneSwallowed(s, events) ==> !SwallowsNow(AfterAll(s, front[..i]), front[i])
    {
      assert front[..i] == events[..i] && front[i] == events[i];
    }
  }

  lemma {:induction false} RunTake(s: Sys, events: seq<Event>, owned: Owned, n: nat)
    requires IsRun(s, events, owned) && n <= |events|
    ensures IsRun(s, events[..n], owned)
  {
    forall i | 0 <= i < n ensures Possible(AfterAll(s, events[..n][..i]), events[..n][i], owned) {
      assert events[..n][..i] == events[..i];
    }
  }

  /** The container starts with files of its own only. */
  ghost predicate Starts(ws: Nodes, owned: Owned) {
    IsTree(ws) && forall p :: p in ws && ws[p].File? ==> p in owned
  }

  /**
   In every run each successful sync leaves exactly the project's files and the container's,
   unless it swallows the `.env` or one swallowed before is still in the way; all other
   paths are right even then.
   */
  lemma EverySyncMirrors(ws: Nodes, events: seq<Event>, owned: Owned, i: nat)
    requires Starts(ws, owned) && IsRun(Sys(ws, map[]), events, owned) && i < |events| && events[i].Synced?
    ensures var before, after := AfterAll(Sys(ws, map[]), events[..i]), AfterAll(Sys(ws, map[]), events[..i + 1]);
            var h := events[i].host; var now := Cleaned(before.workspace, before.manifest, h);
            && (Files(after.workspace) == Mirrored(before.workspace, owned, h)
                <==> !Swallows(now, h) && !Stray(now, owned, h))
            && forall p :: p != ENV_NAME && p != INNER ==>
                 Get(Files(after.workspace), p) == Get(Mirrored(before.workspace, owned, h), p)
  {
    var s, h := Sys(ws, map[]), events[i].host;
    RunTake(s, events, owned, i);
    RunKeepsSound(s, events[..i], owned);
    var before := AfterAll(s, events[..i]);
    assert events[..i + 1][..i] == events[..i];
    SyncMirrors(before.workspace, before.manifest, owned, h);
    forall p | p != ENV_NAME && p != INNER
      ensures Get(Files(Copied(Cleaned(before.workspace, before.manifest, h), h)), p) ==
              Get(Mirrored(before.workspace, owned, h), p)
    {
      MirroredElsewhere(before.workspace, before.manifest, owned, h, p);
    }
  }

  /** As long as no sync has swallowed a `.env`, a sync mirrors exactly unless it swallows this one. */
  lemma MirrorsUntilSwallowed(ws: Nodes, events: seq<Event>, owned: Owned, i: nat)
    requires Starts(ws, owned) && IsRun(Sys(ws, map[]), events, owned) && i < |events| && events[i].Synced?
    requires NoneSwallowed(Sys(ws, map[]), events[..i])
    ensures var before, after := AfterAll(Sys(ws, map[]), events[..i]), AfterAll(Sys(ws, map[]), events[..i + 1]);
            var h := events[i].host;
            Files(after.workspace) == Mirrored(before.workspace, owned, h)
            <==> !EnvMeetsDirectory(h) && !EnvSwallowed(before.workspace, before.manifest, h)
  {
    var s, h := Sys(ws, map[]), events[i].host;
    RunTake(s, events, owned, i);
    RunKeepsSound(s, events[..i], owned);
    var before := AfterAll(s, events[..i]);
    assert events[..i + 1][..i] == events[..i];
    assert Possible(before, events[i], owned);
    UntroubledMirrors(before.workspace, before.manifest, owned, h);
  }

  lemma UntroubledMirrors(ws: Nodes, m: Entries, owned: Owned, h: Host)
    requires Sound(ws, m, owned) && Untroubled(ws, m, owned) && IsHost(h) && Avoids(h, owned)
    requires Copies(Cleaned(ws, m, h), h)
    ensures Files(Copied(Cleaned(ws, m, h), h)) == Mirrored(ws, owned, h)
            <==> !EnvMeetsDirectory(h) && !EnvSwallowed(ws, m, h)
  {
    SyncMirrors(ws, m, owned, h);
    SwallowsWhen(Cleaned(ws, m, h), h);
    if !Swallows(Cleaned(ws, m, h), h) {
      UntroubledKept(ws, m, owned, h);
    }
  }

  /** With a `.env` directory in the root, the separate `.env` never arrives at its place, but inside. */
  lemma EnvDirectoryIsNotMirrored(ws: Nodes, h: Host)
    requires EnvMeetsDirectory(h) && Fits(ws, h.root)
    ensures Get(Files(Copied(ws, h)), [".env"]) != Get(Files(HostTree(h)), [".env"])
    ensures Get(Files(Copied(ws, h)), [".env", ".env"]) == h.env
  {}

  // ------------------------------------------------- the steps in place

  /** `_project_entries`: the walk fills a dictionary; the separate `.env` comes last. */
  method CollectEntries(h: Host) returns (entries: Entries)
    ensures entries == ProjectEntries(h)
  {
    entries := map[];
    var todo := h.root.Keys;
    while todo != {}
      invariant todo <= h.root.Keys
      invariant entries == map p | p in h.root && p !in todo :: KindOf(h.root[p])
    {
      var p :| p in todo;
      entries := entries[p := KindOf(h.root[p])];
      todo := todo - {p};
    }
    if h.env.Some? {
      entries := entries[ENV_NAME := Entry];
    }
  }

  /** Where a sync stops early: in the delete script, in the copy, or saving the manifest. */
  datatype Fault = NoFault | ScriptDies(after: nat) | CopyDies | SaveFails

  /** A `.env` directory nobody manages swallows the copied `.env` without an error. */
  ghost predicate EnvSwallowed(ws: Nodes, m: Entries, h: Host) {
    h.env.Some? && HasKind(Cleaned(ws, m, h), ENV_NAME, Directory)
  }

  class Container {
    const id: string
    var workspace: Nodes
    var saved: Option<(string, Entries)>

    constructor (id: string, workspace: Nodes)
      ensures this.id == id && this.workspace == workspace && saved == None
    {
      this.id, this.workspace, saved := id, workspace, None;
    }

    /** A manifest saved for another container says nothing about this one. */
    function Previous(): Entries
      reads this
    {
      if saved.Some? && saved.value.0 == id then saved.value.1 else map[]
    }

    /** The delete script, which may die after any number of entries. */
    method DeleteStale(list: seq<(Path, Kind)>, limit: nat) returns (ok: bool)
      modifies this`workspace
      ensures ok ==> DeleteAll(old(workspace), list) == Some(workspace)
      ensures !ok ==> exists n :: 0 <= n <= |list| && DeleteAll(old(workspace), list[..n]) == Some(workspace)
      ensures limit >= |list| && DeleteAll(old(workspace), list).Some? ==> ok
    {
      for i := 0 to |list|
        invariant DeleteAll(old(workspace), list[..i]) == Some(workspace)
      {
        assert list[..i + 1][..i] == list[..i];
        if i == limit {
          return false;
        }
        var left := DeleteOne(workspace, list[i].0, list[i].1);
        if left.None? {
          NoneStays(old(workspace), list, i + 1);
          return false;
        }
        workspace := left.value;
      }
      assert list[..|list|] == list;
      ok := true;
    }

    /** `run_sync`; `partial` is what a copy that breaks off leaves, `began` whether one was begun. */
    method RunSync(h: Host, fault: Fault, partial: Nodes, ghost owned: Owned) returns (ok: bool, began: bool)
      requires IsHost(h) && Avoids(h, owned) && Sound(workspace, Previous(), owned)
      modifies this
      ensures !ok ==> saved == old(saved)
      ensures ok ==> began && saved == Some((id, ProjectEntries(h))) && Sound(workspace, Previous(), owned)
      ensures ok && (old(saved).Some? ==> old(saved).value.0 != id) ==> workspace == Copied(old(workspace), h)
      ensures ok ==> Copies(Cleaned(old(workspace), old(Previous()), h), h)
      ensures fault == NoFault && Copies(Cleaned(old(workspace), old(Previous()), h), h) ==> ok
      ensures ok && Untroubled(old(workspace), old(Previous()), owned) ==>
                (Files(workspace) == Mirrored(old(workspace), owned, h)
                 <==> !EnvMeetsDirectory(h) && !EnvSwallowed(old(workspace), old(Previous()), h))
      ensures ok ==> forall p :: p != ENV_NAME && p != INNER ==>
                       Get(Files(workspace), p) == Get(Mirrored(old(workspace), owned, h), p)
      ensures !began ==>
                && fault.ScriptDies? && Sound(workspace, Previous(), owned)
                && OwnedFiles(workspace, owned) == OwnedFiles(old(workspace), owned)
    {
      hide Copies, Copied, IsTree, IsManifest, Tracks, Untroubled, Avoids, Files, OwnedFiles, Mirrored, Prunable;
      hide Lists, DeepestFirst, EnvMeetsDirectory, EnvSwallowed;
      ghost var ws, m := workspace, Previous();
      var entries := CollectEntries(h);
      var list := StaleEntries(Previous(), entries);
      SyncFacts(ws, m, owned, h, list);
      NothingKnownNothingGoes(ws, h);
      var deleted := DeleteStale(list, if fault.ScriptDies? then fault.after else |list|);
      if !deleted {
        ghost var n :| 0 <= n <= |list| && DeleteAll(ws, list[..n]) == Some(workspace);
        PartialDeletionIsSound(ws, m, owned, h, list, n);
        return false, false;
      }
      began := true;
      if fault == CopyDies || !Copies(workspace, h) {
        workspace := partial;
        return false, began;
      }
      workspace := Copied(workspace, h);
      if fault == SaveFails {
        return false, began;
      }
      saved := Some((id, entries));
      ok := true;
    }
  }

  /** What a sync relies on. */
  lemma SyncFacts(ws: Nodes, m: Entries, owned: Owned, h: Host, list: seq<(Path, Kind)>)
    requires Sound(ws, m, owned) && IsHost(h) && Avoids(h, owned)
    requires Lists(list, Stale(m, ProjectEntries(h))) && DeepestFirst(list)
    ensures DeleteAll(ws, list) == Some(Cleaned(ws, m, h))
    ensures Copies(Cleaned(ws, m, h), h) ==>
              var after := Copied(Cleaned(ws, m, h), h);
              && Sound(after, ProjectEntries(h), owned)
              && (Untroubled(ws, m, owned) ==>
                    (Files(after) == Mirrored(ws, owned, h)
                     <==> !EnvMeetsDirectory(h) && !EnvSwallowed(ws, m, h)))
              && forall p :: p != ENV_NAME && p != INNER ==> Get(Files(after), p) == Get(Mirrored(ws, owned, h), p)
  {
    NothingFileLikeAbove(ws, m, owned, h);
    ScriptPrunes(ws, list, Stale(m, ProjectEntries(h)));
    if Copies(Cleaned(ws, m, h), h) {
      SyncMirrors(ws, m, owned, h);
      if Untroubled(ws, m, owned) {
        UntroubledMirrors(ws, m, owned, h);
      }
      forall p | p != ENV_NAME && p != INNER
        ensures Get(Files(Copied(Cleaned(ws, m, h), h)), p) == Get(Mirrored(ws, owned, h), p)
      {
        MirroredElsewhere(ws, m, owned, h, p);
      }
    }
  }

  lemma {:induction false} NoneStays(t: Nodes, list: seq<(Path, Kind)>, n: nat)
    requires n <= |list| && DeleteAll(t, list[..n]).None?
    ensures DeleteAll(t, list).None?
    decreases |list| - n
  {
    if n == |list| {
      assert list[..n] == list;
    } else {
      assert list[..n + 1][..n] == list[..n];
      NoneStays(t, list, n + 1);
    }
  }
}

/**
 scripts/supported-versions.ts: the newest release and the two before it within its
 MAJOR.MINOR series. A version is a final release without leading zeros, so the string and
 the three numbers determine each other.
 */
module SupportWindow {
  import Pep440

  datatype Version = Version(major: nat, minor: nat, patch: nat)

  const SUPPORTED_COUNT: nat := 3

  /** `newestFirst` is positive when its second argument is the newer one. */
  predicate Newer(a: Version, b: Version) {
    if a.major != b.major then a.major > b.major
    else if a.minor != b.minor then a.minor > b.minor
    else a.patch > b.patch
  }

  predicate SameSeries(a: Version, b: Version) {
    a.major == b.major && a.minor == b.minor
  }

  // ------------------------------------------------------- the pipeline

  /** `new Set(versions)`, in order of first appearance. */
  function Distinct(vs: seq<Version>): seq<Version> {
    if vs == [] then []
    else
      var front, last := Distinct(vs[..|vs| - 1]), vs[|vs| - 1];
      if last in front then front else front + [last]
  }

  function Insert(v: Version, sorted: seq<Version>): seq<Version> {
    if sorted == [] || Newer(v, sorted[0]) then [v] + sorted
    else [sorted[0]] + Insert(v, sorted[1..])
  }

  function SortNewestFirst(vs: seq<Version>): seq<Version> {
    if vs == [] then [] else Insert(vs[0], SortNewestFirst(vs[1..]))
  }

  function InSeriesOf(vs: seq<Version>, v: Version): seq<Version> {
    if vs == [] then []
    else (if SameSeries(vs[0], v) then [vs[0]] else []) + InSeriesOf(vs[1..], v)
  }

  function Take(vs: seq<Version>, n: nat): seq<Version> {
    if |vs| <= n then vs else vs[..n]
  }

  /** `supportedWindow(versions).supported`; its `latest` is the first of them, if any. */
  function Window(versions: seq<Version>): seq<Version> {
    var newest := SortNewestFirst(Distinct(versions));
    if newest == [] then [] else Take(InSeriesOf(newest, newest[0]), SUPPORTED_COUNT)
  }

  /** `addRelease`. */
  function AddRelease(supported: seq<Version>, v: Version): seq<Version> {
    Window([v] + supported)
  }

  function AddAll(supported: seq<Version>, vs: seq<Version>): seq<Version> {
    if vs == [] then supported
    else AddRelease(AddAll(supported, vs[..|vs| - 1]), vs[|vs| - 1])
  }

  // --------------------------------------------------------- sorting

  ghost predicate Descending(vs: seq<Version>) {
    forall i, j :: 0 <= i < j < |vs| ==> Newer(vs[i], vs[j])
  }

  ghost predicate SameElements(a: seq<Version>, b: seq<Version>) {
    forall v :: v in a <==> v in b
  }

  lemma {:induction false} DistinctIs(vs: seq<Version>)
    ensures SameElements(Distinct(vs), vs)
    ensures forall i, j :: 0 <= i < j < |Distinct(vs)| ==> Distinct(vs)[i] != Distinct(vs)[j]
  {
    if vs != [] {
      var front := vs[..|vs| - 1];
      DistinctIs(front);
      assert forall v :: v in vs <==> v in front || v == vs[|vs| - 1];
    }
  }

  lemma {:induction false} InsertIs(v: Version, sorted: seq<Version>)
    requires Descending(sorted) && v !in sorted
    ensures Descending(Insert(v, sorted))
    ensures forall w :: w in Insert(v, sorted) <==> w == v || w in sorted
  {
    if sorted != [] && !Newer(v, sorted[0]) {
      var rest := Insert(v, sorted[1..]);
      InsertIs(v, sorted[1..]);
      assert Newer(sorted[0], v);
      forall j | 0 <= j < |rest| ensures Newer(sorted[0], rest[j]) {
        assert rest[j] in rest;
        if rest[j] != v {
          var k :| 0 <= k < |sorted[1..]| && sorted[1..][k] == rest[j];
          assert sorted[k + 1] == rest[j];
        }
      }
      assert forall w :: w in sorted <==> w == sorted[0] || w in sorted[1..];
    }
  }

  lemma {:induction false} SortIs(vs: seq<Version>)
    requires forall i, j :: 0 <= i < j < |vs| ==> vs[i] != vs[j]
    ensures Descending(SortNewestFirst(vs)) && SameElements(SortNewestFirst(vs), vs)
  {
    if vs != [] {
      SortIs(vs[1..]);
      assert forall w :: w in vs <==> w == vs[0] || w in vs[1..];
      assert vs[0] !in vs[1..];
      InsertIs(vs[0], SortNewestFirst(vs[1..]));
    }
  }

  lemma {:induction false} InSeriesIs(vs: seq<Version>, v: Version)
    requires Descending(vs)
    ensures Descending(InSeriesOf(vs, v))
    ensures forall w :: w in InSeriesOf(vs, v) <==> w in vs && SameSeries(w, v)
  {
    if vs != [] {
      InSeriesIs(vs[1..], v);
      assert forall w :: w in vs <==> w == vs[0] || w in vs[1..];
      var rest := InSeriesOf(vs[1..], v);
      forall j | 0 <= j < |rest| ensures Newer(vs[0], rest[j]) {
        assert rest[j] in rest;
        var k :| 0 <= k < |vs[1..]| && vs[1..][k] == rest[j];
        assert vs[k + 1] == rest[j];
      }
    }
  }

  /** The order is that of releases: the first number that differs decides. */
  lemma NewerIsReleaseOrder(a: Version, b: Version)
    ensures Newer(a, b) <==> Pep440.Less([b.major, b.minor, b.patch], [a.major, a.minor, a.patch])
  {
    var x, y := [b.major, b.minor, b.patch], [a.major, a.minor, a.patch];
    assert x[1..] == [b.minor, b.patch] && y[1..] == [a.minor, a.patch];
    assert x[1..][1..] == [b.patch] && y[1..][1..] == [a.patch];
    assert Pep440.Less(x, y) <==> if b.major != a.major then b.major < a.major else Pep440.Less(x[1..], y[1..]);
    assert Pep440.Less(x[1..], y[1..]) <==>
      if b.minor != a.minor then b.minor < a.minor else Pep440.Less([b.patch], [a.patch]);
    assert [b.patch][1..] == [] && [a.patch][1..] == [];
    assert !Pep440.Less([], []);
  }

  // ------------------------------------------ the reference, on sets

  ghost predicate IsLatest(s: set<Version>, top: Version) {
    top in s && forall v :: v in s ==> v == top || Newer(top, v)
  }

  /** Three versions of the set are newer than v. */
  ghost predicate Outdated(s: set<Version>, v: Version) {
    exists a, b, c :: a in s && b in s && c in s && Newer(a, b) && Newer(b, c) && Newer(c, v)
  }

  /** v is in the latest version's series, and fewer than three are newer. */
  ghost predicate Supported(s: set<Version>, v: Version) {
    v in s && (exists top :: IsLatest(s, top) && SameSeries(top, v)) && !Outdated(s, v)
  }

  function SetOf(vs: seq<Version>): set<Version> {
    set v | v in vs
  }

  /** The window is the strictly descending list of the supported versions. */
  ghost predicate IsWindow(w: seq<Version>, s: set<Version>) {
    && Descending(w)
    && (forall v :: v in w <==> Supported(s, v))
    && |w| <= SUPPORTED_COUNT
    && (s != {} ==> w != [] && IsLatest(s, w[0]))
  }

  lemma WindowIs(versions: seq<Version>)
    ensures IsWindow(Window(versions), SetOf(versions))
  {
    var s := SetOf(versions);
    DistinctIs(versions);
    SortIs(Distinct(versions));
    var newest := SortNewestFirst(Distinct(versions));
    assert forall v :: v in newest <==> v in s;
    if newest == [] {
      assert s == {};
    } else {
      var top := newest[0];
      var mine := InSeriesOf(newest, top);
      InSeriesIs(newest, top);
      assert IsLatest(s, top) by {
        forall v | v in s ensures v == top || Newer(top, v) {
          var i :| 0 <= i < |newest| && newest[i] == v;
        }
      }
      assert mine[0] == top by {
        assert top in mine;
        var i :| 0 <= i < |mine| && mine[i] == top;
        assert mine[0] in newest;
      }
      TakeIsSupported(s, top, mine);
    }
  }

  lemma TakeIsSupported(s: set<Version>, top: Version, mine: seq<Version>)
    requires IsLatest(s, top) && Descending(mine) && mine != [] && mine[0] == top
    requires forall v :: v in mine <==> v in s && SameSeries(v, top)
    ensures IsWindow(Take(mine, SUPPORTED_COUNT), s)
  {
    var w := Take(mine, SUPPORTED_COUNT);
    forall v | v in w ensures Supported(s, v) {
      var i :| 0 <= i < |w| && w[i] == v;
      assert mine[i] == v && i < 3;
      assert v in mine;
      if a, b, c :| a in s && b in s && c in s && Newer(a, b) && Newer(b, c) && Newer(c, v) {
        ThreeNewer(s, top, mine, i, a, b, c);
      }
    }
    forall i | 3 <= i < |mine| ensures Outdated(s, mine[i]) {
      assert mine[0] in mine && mine[1] in mine && mine[2] in mine;
      assert Newer(mine[0], mine[1]) && Newer(mine[1], mine[2]) && Newer(mine[2], mine[i]);
    }
    forall v | Supported(s, v) ensures v in w {
      assert SameSeries(v, top);
      assert v in mine;
      var i :| 0 <= i < |mine| && mine[i] == v;
      assert w[i] == mine[i];
    }
  }

  lemma ThreeNewer(s: set<Version>, top: Version, mine: seq<Version>, i: nat, a: Version, b: Version, c: Version)
    requires IsLatest(s, top) && Descending(mine) && i < |mine|
    requires forall v :: v in mine <==> v in s && SameSeries(v, top)
    requires a in s && b in s && c in s && Newer(a, b) && Newer(b, c) && Newer(c, mine[i])
    ensures i >= 3
  {
    assert mine[i] in mine;
    assert SameSeries(a, top) && SameSeries(b, top) && SameSeries(c, top);
    var x :| 0 <= x < |mine| && mine[x] == a;
    var y :| 0 <= y < |mine| && mine[y] == b;
    var z :| 0 <= z < |mine| && mine[z] == c;
  }

  lemma {:induction false} DescendingIsUnique(a: seq<Version>, b: seq<Version>)
    requires Descending(a) && Descending(b) && SameElements(a, b)
    ensures a == b
  {
    assert b == [] || b[0] in b;
    if a != [] {
      assert a[0] in b;
      assert b != [] && b[0] in a;
      var i :| 0 <= i < |b| && b[i] == a[0];
      var j :| 0 <= j < |a| && a[j] == b[0];
      assert a[0] == b[0];
      forall v ensures v in a[1..] <==> v in b[1..] {
        assert v in a <==> v == a[0] || v in a[1..];
        assert v in b <==> v == b[0] || v in b[1..];
        assert a[0] !in a[1..] && b[0] !in b[1..];
      }
      DescendingIsUnique(a[1..], b[1..]);
    }
  }

  // -------------------------------------------------------- main results

  /** Only the set of versions matters: neither order nor repetition. */
  lemma WindowOfSet(a: seq<Version>, b: seq<Version>)
    requires SameElements(a, b)
    ensures Window(a) == Window(b)
  {
    WindowIs(a);
    WindowIs(b);
    assert SetOf(a) == SetOf(b);
    DescendingIsUnique(Window(a), Window(b));
  }

  lemma LatestExists(vs: seq<Version>)
    requires vs != []
    ensures Window(vs) != [] && IsLatest(SetOf(vs), Window(vs)[0])
  {
    WindowIs(vs);
    assert vs[0] in SetOf(vs);
  }

  /** Replacing some releases by their window changes nothing that follows. */
  lemma WindowIsHomomorphic(a: seq<Version>, b: seq<Version>)
    ensures Window(a + Window(b)) == Window(a + b)
  {
    var small, all := a + Window(b), a + b;
    WindowIs(b);
    WindowIs(small);
    WindowIs(all);
    if b == [] {
      assert Window(b) == [];
    } else {
      LatestExists(b);
      LatestExists(all);
      var top, newest := Window(b)[0], Window(all)[0];
      assert top in Window(b);
      assert top in b && top in SetOf(all);
      assert newest in b ==> newest in SetOf(b);
      assert newest in small;
      assert IsLatest(SetOf(small), newest);
      forall v ensures Supported(SetOf(small), v) <==> Supported(SetOf(all), v) {
        SupportCarriesOver(a, b, newest, v);
      }
    }
    DescendingIsUnique(Window(small), Window(all));
  }

  lemma SupportCarriesOver(a: seq<Version>, b: seq<Version>, newest: Version, v: Version)
    requires b != []
    requires IsLatest(SetOf(a + b), newest) && IsLatest(SetOf(a + Window(b)), newest)
    ensures Supported(SetOf(a + Window(b)), v) <==> Supported(SetOf(a + b), v)
  {
    hide Window, Supported, IsLatest;
    if Supported(SetOf(a + b), v) {
      SupportShrinks(a, b, newest, v);
    }
    if Supported(SetOf(a + Window(b)), v) {
      SupportGrows(a, b, newest, v);
    }
  }

  lemma SupportShrinks(a: seq<Version>, b: seq<Version>, newest: Version, v: Version)
    requires b != [] && IsLatest(SetOf(a + Window(b)), newest)
    requires IsLatest(SetOf(a + b), newest) && Supported(SetOf(a + b), v)
    ensures Supported(SetOf(a + Window(b)), v)
  {
    hide Window;
    var w, small, all := Window(b), SetOf(a + Window(b)), SetOf(a + b);
    WindowIs(b);
    LatestExists(b);
    assert SameSeries(newest, v);
    assert forall x :: x in w ==> x in SetOf(b);
    if v in b && v !in a {
      assert w[0] in w;
      assert w[0] in all && v in SetOf(b);
      assert SameSeries(w[0], v);
      assert !Outdated(SetOf(b), v);
      assert Supported(SetOf(b), v);
    }
    assert v in small;
    assert !Outdated(small, v);
  }

  lemma SupportGrows(a: seq<Version>, b: seq<Version>, newest: Version, v: Version)
    requires b != [] && IsLatest(SetOf(a + b), newest)
    requires IsLatest(SetOf(a + Window(b)), newest) && Supported(SetOf(a + Window(b)), v)
    ensures Supported(SetOf(a + b), v)
  {
    hide Window;
    WindowIs(b);
    assert forall x :: x in Window(b) ==> x in SetOf(b);
    assert SameSeries(newest, v);
    if Outdated(SetOf(a + b), v) {
      OutdatedShrinks(a, b, newest, v);
    }
  }

  lemma OutdatedShrinks(a: seq<Version>, b: seq<Version>, newest: Version, v: Version)
    requires b != [] && IsLatest(SetOf(a + b), newest) && SameSeries(v, newest) && Outdated(SetOf(a + b), v)
    ensures Outdated(SetOf(a + Window(b)), v)
  {
    hide Window;
    var small, all := SetOf(a + Window(b)), SetOf(a + b);
    var x, y, z :| x in all && y in all && z in all && Newer(x, y) && Newer(y, z) && Newer(z, v);
    if x !in small {
      FullWindowAbove(b, newest, v, x);
    } else if y !in small {
      FullWindowAbove(b, newest, v, y);
    } else if z !in small {
      FullWindowAbove(b, newest, v, z);
    }
  }

  /** A version that fell out of the window of b, yet is newer than v, leaves three newer ones in it. */
  lemma FullWindowAbove(b: seq<Version>, newest: Version, v: Version, x: Version)
    requires x in b && x !in Window(b) && Newer(x, v) && SameSeries(v, newest)
    requires forall y :: y in b ==> y == newest || Newer(newest, y)
    ensures Outdated(SetOf(Window(b)), v)
  {
    WindowIs(b);
    LatestExists(b);
    var top := Window(b)[0];
    assert top in Window(b) && x in SetOf(b);
    assert SameSeries(x, top);
    OutdatedByWindow(b, x);
    OlderIsOutdated(SetOf(Window(b)), x, v);
  }

  lemma OlderIsOutdated(s: set<Version>, x: Version, v: Version)
    requires Outdated(s, x) && Newer(x, v)
    ensures Outdated(s, v)
  {
    var p, q, r :| p in s && q in s && r in s && Newer(p, q) && Newer(q, r) && Newer(r, x);
    assert Newer(r, v);
  }

  lemma OutdatedByWindow(b: seq<Version>, x: Version)
    requires x in b && b != [] && SameSeries(x, Window(b)[0]) && x !in Window(b)
    requires Window(b) != []
    ensures Outdated(SetOf(Window(b)), x)
  {
    DistinctIs(b);
    SortIs(Distinct(b));
    var newest := SortNewestFirst(Distinct(b));
    assert x in newest;
    var mine := InSeriesOf(newest, newest[0]);
    InSeriesIs(newest, newest[0]);
    assert newest[0] in mine;
    assert Window(b)[0] in mine;
    assert x in mine;
    var i :| 0 <= i < |mine| && mine[i] == x;
    var w := Window(b);
    assert w == Take(mine, 3);
    assert forall k :: 0 <= k < |w| ==> w[k] in w;
    assert i >= 3 && w == mine[..3];
    assert w[0] in SetOf(w) && w[1] in SetOf(w) && w[2] in SetOf(w);
    assert Newer(w[0], w[1]) && Newer(w[1], w[2]) && Newer(w[2], x);
  }

  /** The versions of v's series in the list have at most two greater patch numbers. */
  ghost predicate AmongLastThree(vs: seq<Version>, v: Version) {
    !exists p, q, r ::
      && p > q > r > v.patch
      && Version(v.major, v.minor, p) in vs && Version(v.major, v.minor, q) in vs && Version(v.major, v.minor, r) in vs
  }

  /**
   In numbers: a version is in the window exactly when it is in the list, no version of the list
   has a higher MAJOR.MINOR, and at most two of its series have a higher patch.
   */
  lemma WindowByNumbers(vs: seq<Version>, v: Version)
    ensures v in Window(vs) <==>
            && v in vs
            && (forall u :: u in vs ==> u.major < v.major || (u.major == v.major && u.minor <= v.minor))
            && AmongLastThree(vs, v)
  {
    var s := SetOf(vs);
    WindowIs(vs);
    if v in vs {
      LatestExists(vs);
      var top := Window(vs)[0];
      assert v == top || Newer(top, v);
      assert SameSeries(top, v) <==>
        forall u :: u in vs ==> u.major < v.major || (u.major == v.major && u.minor <= v.minor) by
      {
        assert top in s;
        assert top in vs;
        assert forall u :: u in vs ==> u in s;
        assert forall u :: u in s ==> u == top || Newer(top, u);
      }
      if SameSeries(top, v) {
        OutdatedInNumbers(vs, top, v);
      }
    }
  }

  lemma OutdatedInNumbers(vs: seq<Version>, top: Version, v: Version)
    requires v in vs && IsLatest(SetOf(vs), top) && SameSeries(top, v)
    ensures Outdated(SetOf(vs), v) <==> !AmongLastThree(vs, v)
  {
    var s := SetOf(vs);
    if a, b, c :| a in s && b in s && c in s && Newer(a, b) && Newer(b, c) && Newer(c, v) {
      assert a == Version(v.major, v.minor, a.patch);
      assert b == Version(v.major, v.minor, b.patch);
      assert c == Version(v.major, v.minor, c.patch);
      assert a.patch > b.patch > c.patch > v.patch;
    }
    if p, q, r :| && p > q > r > v.patch
                  && Version(v.major, v.minor, p) in vs && Version(v.major, v.minor, q) in vs
                  && Version(v.major, v.minor, r) in vs
    {
      var a, b, c := Version(v.major, v.minor, p), Version(v.major, v.minor, q), Version(v.major, v.minor, r);
      assert a in s && b in s && c in s && Newer(a, b) && Newer(b, c) && Newer(c, v);
    }
  }

  lemma AddingOne(known: seq<Version>, v: Version)
    ensures AddRelease(Window(known), v) == Window(known + [v])
  {
    WindowIsHomomorphic([v], known);
    WindowOfSet([v] + known, known + [v]);
  }

  /** Adding releases one at a time, in any order, ends at the window of all of them. */
  lemma {:induction false} AddingInAnyOrder(start: seq<Version>, vs: seq<Version>)
    ensures AddAll(Window(start), vs) == Window(start + vs)
    decreases |vs|
  {
    hide Window, AddRelease;
    if vs == [] {
      assert start + vs == start;
    } else {
      var front, last := vs[..|vs| - 1], vs[|vs| - 1];
      AddingInAnyOrder(start, front);
      AddingOne(start + front, last);
      assert start + vs == (start + front) + [last];
    }
  }

  lemma FoldOrderDoesNotMatter(vs: seq<Version>, ws: seq<Version>)
    requires SameElements(vs, ws)
    ensures AddAll([], vs) == AddAll([], ws) == Window(vs)
  {
    AddingInAnyOrder([], vs);
    AddingInAnyOrder([], ws);
    assert [] + vs == vs && [] + ws == ws;
    WindowOfSet(vs, ws);
  }
}

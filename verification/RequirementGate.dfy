/**
 The version gate on whole requirement lines (packages/core/canyonos_core/stub_generator.py).
 The source judges clause by clause; here a line is judged by the releases that all its
 clauses allow together. `Climb` says from where on the line's `!=X.*` clauses leave anything:
 with it, exactly the lines that are wrongly passed over are named.
 */
module RequirementGate {
  import opened Pep440
  import opened VersionGate

  predicate AllWellFormed(clauses: seq<Clause>) {
    forall c | c in clauses :: WellFormed(c)
  }

  /** Some release meets the line. */
  ghost predicate IsMet(clauses: seq<Clause>)
    requires AllWellFormed(clauses)
  {
    exists r: Release :: Allows(clauses, r)
  }

  ghost predicate NoneBelow(clauses: seq<Clause>, limit: Release)
    requires AllWellFormed(clauses)
  {
    forall r: Release :: Less(r, limit) ==> !Allows(clauses, r)
  }

  ghost predicate NoneFrom(clauses: seq<Clause>, floor: Release)
    requires AllWellFormed(clauses)
  {
    forall r: Release :: AtMost(floor, r) ==> !Allows(clauses, r)
  }

  // ------------------------------------------------- excluded series

  /** `!=X.*` with X a prefix of the release. */
  predicate Excludes(c: Clause, r: Release) {
    c.operator == NotEqual && c.wildcard && Starts(c.release, r)
  }

  /** The first clause that excludes the series around a release, or the end of the line. */
  function FirstExcluding(clauses: seq<Clause>, at: Release): (i: nat)
    ensures i <= |clauses|
    ensures i < |clauses| ==> Excludes(clauses[i], at)
  {
    if clauses == [] || Excludes(clauses[0], at) then 0 else 1 + FirstExcluding(clauses[1..], at)
  }

  lemma {:induction false} NoneExcluding(clauses: seq<Clause>, at: Release)
    requires FirstExcluding(clauses, at) == |clauses|
    ensures forall c :: c in clauses ==> !Excludes(c, at)
  {
    if clauses != [] {
      NoneExcluding(clauses[1..], at);
      assert forall c :: c in clauses <==> c == clauses[0] || c in clauses[1..];
    }
  }

  /** The first release from `at` on around which the line excludes no series. */
  function Climb(clauses: seq<Clause>, at: Release): Release
    decreases |clauses|
  {
    var i := FirstExcluding(clauses, at);
    if i == |clauses| then at else Climb(clauses[..i] + clauses[i + 1..], Next(clauses[i].release))
  }

  /** The climb ends outside all excluded series, and every release it passes lies in one. */
  ghost predicate IsClimb(clauses: seq<Clause>, at: Release, top: Release) {
    && AtMost(at, top)
    && (forall c :: c in clauses ==> !Excludes(c, top))
    && (forall r: Release :: AtMost(at, r) && Less(r, top) ==> exists c :: c in clauses && Excludes(c, r))
  }

  lemma {:induction false} ClimbIs(clauses: seq<Clause>, at: Release)
    ensures IsClimb(clauses, at, Climb(clauses, at))
    decreases |clauses|
  {
    var i := FirstExcluding(clauses, at);
    if i == |clauses| {
      NoneExcluding(clauses, at);
      SameIsReflexive(at);
    } else {
      var rest, c := clauses[..i] + clauses[i + 1..], clauses[i];
      ClimbIs(rest, Next(c.release));
      assert forall d :: d in clauses <==> d == c || d in rest by {
        assert clauses == clauses[..i] + [c] + clauses[i + 1..];
      }
      ClimbOver(clauses, rest, c, at, Climb(clauses, at));
    }
  }

  lemma ClimbOver(clauses: seq<Clause>, rest: seq<Clause>, c: Clause, at: Release, top: Release)
    requires Excludes(c, at) && IsClimb(rest, Next(c.release), top)
    requires forall d :: d in clauses <==> d == c || d in rest
    ensures IsClimb(clauses, at, top)
  {
    var p := c.release;
    PrefixIsInterval(p, at);
    PrefixIsInterval(p, top);
    Transitive(at, Next(p), top);
    forall r: Release | AtMost(at, r) && Less(r, top) ensures exists d :: d in clauses && Excludes(d, r) {
      PrefixIsInterval(p, r);
      Transitive(p, at, r);
      if AtMost(Next(p), r) {
        var d :| d in rest && Excludes(d, r);
        assert d in clauses;
      } else {
        assert c in clauses && Excludes(c, r);
      }
    }
  }

  // ------------------------------------------ between a bound and a point

  /** A bound above `lo` and at most `hi`, below which no clause begins to exclude. */
  function Narrow(lo: Release, hi: Release, clauses: seq<Clause>): (r: Release)
    requires Less(lo, hi)
    ensures Less(lo, r)
  {
    if clauses == [] then hi
    else
      var rest, c := Narrow(lo, hi, clauses[1..]), clauses[0];
      if c.operator == NotEqual && Less(lo, c.release) && Less(c.release, rest) then c.release else rest
  }

  lemma {:induction false} NarrowIs(lo: Release, hi: Release, clauses: seq<Clause>, r: Release)
    requires AllWellFormed(clauses) && Less(lo, hi) && Less(lo, r) && Less(r, Narrow(lo, hi, clauses))
    requires forall c :: c in clauses ==> !Excludes(c, lo)
    ensures Less(r, hi)
    ensures forall c :: c in clauses && c.operator == NotEqual ==> Satisfies(c, r)
  {
    if clauses != [] {
      var rest, c := Narrow(lo, hi, clauses[1..]), clauses[0];
      assert forall d :: d in clauses <==> d == c || d in clauses[1..];
      if c.operator == NotEqual && Less(lo, c.release) && Less(c.release, rest) {
        Transitive(r, c.release, rest);
      }
      NarrowIs(lo, hi, clauses[1..], r);
      if c.operator == NotEqual {
        ExclusionIsAvoided(lo, rest, Narrow(lo, hi, clauses), c, r);
      }
    }
  }

  lemma ExclusionIsAvoided(lo: Release, rest: Release, hi: Release, c: Clause, r: Release)
    requires c.operator == NotEqual && !Excludes(c, lo) && Less(lo, r) && Less(r, hi) && Less(r, rest)
    requires hi == if Less(lo, c.release) && Less(c.release, rest) then c.release else rest
    ensures if c.wildcard then !Starts(c.release, r) else !Same(c.release, r)
  {
    var v := c.release;
    Trichotomy(v, r);
    if c.wildcard {
      PrefixIsInterval(v, r);
      PrefixIsInterval(v, lo);
      if AtMost(v, lo) {
        Transitive(Next(v), lo, r);
      } else if AtMost(v, r) {
        Transitive(v, r, rest);
      }
    } else if Same(v, r) {
      Transitive(lo, r, v);
      Transitive(v, r, rest);
    }
  }

  // ------------------------------------------- newer than the limit only

  /** The bound a clause puts below its releases, if any. */
  function Lowest(c: Clause): Release {
    if c.operator in {Equal, Arbitrary, GreaterThan, GreaterOrEqual, Compatible} then c.release else [0]
  }

  function MaxLowest(clauses: seq<Clause>): Release {
    if clauses == [] then [0] else Larger(Lowest(clauses[0]), MaxLowest(clauses[1..]))
  }

  lemma {:induction false} MaxLowestIs(clauses: seq<Clause>, limit: Release)
    requires AllWellFormed(clauses) && Less([0], limit)
    requires forall c :: c in clauses ==> !AboveTested(c, limit)
    ensures Less(MaxLowest(clauses), limit)
    ensures forall c :: c in clauses ==> AtMost(Lowest(c), MaxLowest(clauses))
  {
    if clauses != [] {
      var c, rest, most := clauses[0], MaxLowest(clauses[1..]), MaxLowest(clauses);
      MaxLowestIs(clauses[1..], limit);
      LargerIsAtLeast(Lowest(c), rest);
      Trichotomy(c.release, limit);
      assert !AboveTested(c, limit);
      forall d | d in clauses[1..] ensures AtMost(Lowest(d), most) {
        Transitive(Lowest(d), rest, most);
      }
      assert forall d :: d in clauses <==> d == c || d in clauses[1..];
    }
  }

  lemma BelowItsBound(c: Clause, r: Release)
    requires WellFormed(c) && Less(r, Lowest(c))
    ensures !Satisfies(c, r)
  {
    ZeroIsLeast(r);
    Trichotomy(c.release, r);
    SameIsReflexive(r);
    PrefixIsInterval(c.release, r);
  }

  /** Below the highest of these bounds some clause is not met. */
  lemma {:induction false} BelowLowest(clauses: seq<Clause>, r: Release)
    requires AllWellFormed(clauses) && Less(r, MaxLowest(clauses))
    ensures !Allows(clauses, r)
  {
    ZeroIsLeast(r);
    assert clauses != [];
    if Less(Lowest(clauses[0]), MaxLowest(clauses[1..])) {
      BelowLowest(clauses[1..], r);
      var c :| c in clauses[1..] && !Satisfies(c, r);
      assert c in clauses;
    } else {
      BelowItsBound(clauses[0], r);
    }
  }

  /** A clause met by x at or above the limit, and not flagged, is met just below the limit too. */
  lemma MetBelow(c: Clause, lo: Release, limit: Release, r: Release, x: Release)
    requires WellFormed(c) && !AboveTested(c, limit) && Satisfies(c, x) && AtMost(limit, x)
    requires AtMost(Lowest(c), lo) && Less(lo, r) && Less(r, limit)
    requires c.operator == NotEqual ==> Satisfies(c, r)
    ensures Satisfies(c, r)
  {
    var v := c.release;
    Trichotomy(v, x);
    Trichotomy(v, limit);
    Transitive(r, limit, x);
    Transitive(Lowest(c), lo, r);
    Trichotomy(v, r);
    match c.operator
    case Equal =>
      if c.wildcard {
        PrefixIsInterval(v, x);
        PrefixIsInterval(v, r);
        Transitive(r, x, Next(v));
      } else {
        Transitive(v, limit, x);
      }
    case Arbitrary =>
      SameIsReflexive(v);
    case LessThan => Transitive(r, x, v);
    case LessOrEqual => Transitive(r, x, v);
    case Compatible =>
      var p := v[..|v| - 1];
      PrefixIsInterval(p, x);
      PrefixIsInterval(p, r);
      PrefixIsAtMost(v);
      Transitive(p, v, r);
      Transitive(r, x, Next(p));
    case _ =>
  }

  lemma PrefixIsAtMost(v: Release)
    requires |v| >= 2
    ensures AtMost(v[..|v| - 1], v)
  {
    var p := v[..|v| - 1];
    StartsPrefix(p, v);
    PrefixIsInterval(p, v);
  }

  /** Above the climb, and below the limit, there is room for a release that an unflagged line allows. */
  lemma AllowedBelow(clauses: seq<Clause>, limit: Release, x: Release) returns (r: Release)
    requires AllWellFormed(clauses) && !IsZero(limit) && Allows(clauses, x)
    requires forall c :: c in clauses ==> !AboveTested(c, limit)
    requires Less(Climb(clauses, MaxLowest(clauses)), limit)
    ensures Less(r, limit) && Allows(clauses, r)
  {
    if Less(x, limit) {
      r := x;
    } else {
      ZeroIsLeast(limit);
      MaxLowestIs(clauses, limit);
      var lo := Climb(clauses, MaxLowest(clauses));
      ClimbIs(clauses, MaxLowest(clauses));
      r := Between(lo, Narrow(lo, limit, clauses));
      NarrowIs(lo, limit, clauses, r);
      forall c | c in clauses ensures Satisfies(c, r) {
        Transitive(Lowest(c), MaxLowest(clauses), lo);
        MetBelow(c, lo, limit, r, x);
      }
    }
  }

  /** How an unflagged line that allows nothing below the limit looks: unmeetable, or climbing past the limit. */
  predicate PassedOverAbove(clauses: seq<Clause>, limit: Release)
    requires AllWellFormed(clauses)
  {
    !Meetable(clauses) || AtMost(limit, Climb(clauses, MaxLowest(clauses)))
  }

  lemma NothingUnderClimb(clauses: seq<Clause>, limit: Release, r: Release)
    requires AllWellFormed(clauses) && AtMost(limit, Climb(clauses, MaxLowest(clauses))) && Less(r, limit)
    ensures !Allows(clauses, r)
  {
    var lo := MaxLowest(clauses);
    if Less(r, lo) {
      BelowLowest(clauses, r);
    } else {
      ClimbIs(clauses, lo);
      Transitive(r, limit, Climb(clauses, lo));
      var c :| c in clauses && Excludes(c, r);
    }
  }

  /** Any line allows no release below the limit exactly when it is flagged as too new or passed over so. */
  lemma LineAboveIsExact(clauses: seq<Clause>, limit: Release)
    requires AllWellFormed(clauses) && !IsZero(limit)
    ensures (exists c | c in clauses :: AboveTested(c, limit)) || PassedOverAbove(clauses, limit)
            <==> NoneBelow(clauses, limit)
  {
    MeetableExactly(clauses);
    hide Meetable;
    if c :| c in clauses && AboveTested(c, limit) {
      forall r: Release | Less(r, limit) ensures !Allows(clauses, r) {
        if Satisfies(c, r) {
          AboveIsSound(c, limit, r);
        }
      }
    } else if PassedOverAbove(clauses, limit) {
      forall r: Release | Less(r, limit) ensures !Allows(clauses, r) {
        if IsMet(clauses) {
          NothingUnderClimb(clauses, limit, r);
        }
      }
    } else {
      var x: Release :| Allows(clauses, x);
      var r := AllowedBelow(clauses, limit, x);
    }
  }

  // ------------------------------------------- older than the floor only

  /** `<=floor` and `!=floor` together: every clause leaves a supported release, the line none. */
  predicate Pinched(clauses: seq<Clause>, floor: Release) {
    && (exists c | c in clauses :: c.operator == LessOrEqual && Same(c.release, floor))
    && (exists c | c in clauses :: c.operator == NotEqual && !c.wildcard && Same(c.release, floor))
  }

  /** The bound a clause puts above its releases, or the one given. */
  function Highest(c: Clause, most: Release): Release
    requires WellFormed(c)
  {
    match c.operator
    case LessThan | LessOrEqual => c.release
    case Equal => if c.wildcard then Next(c.release) else most
    case Compatible => Next(c.release[..|c.release| - 1])
    case _ => most
  }

  function MinHighest(clauses: seq<Clause>, most: Release): Release
    requires AllWellFormed(clauses)
  {
    if clauses == [] then most
    else
      var rest, h := MinHighest(clauses[1..], most), Highest(clauses[0], most);
      if Less(h, rest) then h else rest
  }

  lemma {:induction false} MinHighestIs(clauses: seq<Clause>, most: Release, floor: Release)
    requires AllWellFormed(clauses) && Less(floor, most)
    requires forall c :: c in clauses ==> Less(floor, Highest(c, most))
    ensures Less(floor, MinHighest(clauses, most))
    ensures forall c :: c in clauses ==> AtMost(MinHighest(clauses, most), Highest(c, most))
  {
    if clauses != [] {
      var rest, h, least := MinHighest(clauses[1..], most), Highest(clauses[0], most), MinHighest(clauses, most);
      MinHighestIs(clauses[1..], most, floor);
      assert Less(floor, h);
      SameIsReflexive(h);
      SameIsReflexive(rest);
      Trichotomy(h, rest);
      forall d | d in clauses[1..] ensures AtMost(least, Highest(d, most)) {
        Transitive(least, rest, Highest(d, most));
      }
      assert forall d :: d in clauses <==> d == clauses[0] || d in clauses[1..];
    }
  }

  /** A clause that is not flagged puts its bound at the floor or above. */
  lemma HighestIsAbove(c: Clause, most: Release, floor: Release)
    requires WellFormed(c) && !BelowSupported(c, floor)
    requires Less(floor, most) && !(c.operator == LessOrEqual && Same(c.release, floor))
    ensures Less(floor, Highest(c, most))
  {
    Trichotomy(floor, c.release);
    Trichotomy(c.release, floor);
    if c.operator == LessOrEqual && Same(floor, c.release) {
      SameIsSymmetric(floor, c.release);
    }
  }

  /** Such a clause is met at the floor, unless it excludes it, and from there up to its bound. */
  lemma MetFrom(c: Clause, most: Release, floor: Release, r: Release, x: Release)
    requires WellFormed(c) && !BelowSupported(c, floor) && Satisfies(c, x) && Less(x, floor)
    requires AtMost(floor, r) && (r == floor || Less(r, Highest(c, most)))
    requires c.operator == NotEqual ==> Satisfies(c, r)
    ensures Satisfies(c, r)
  {
    var v := c.release;
    Transitive(x, floor, r);
    Trichotomy(v, x);
    Trichotomy(v, floor);
    Trichotomy(v, r);
    SameIsReflexive(x);
    match c.operator
    case Equal =>
      if c.wildcard {
        PrefixIsInterval(v, x);
        PrefixIsInterval(v, r);
        Transitive(v, x, r);
      } else {
        Transitive(v, x, floor);
      }
    case Arbitrary => Transitive(v, x, floor);
    case GreaterThan => Transitive(v, x, r);
    case GreaterOrEqual => Transitive(v, x, r);
    case Compatible =>
      var p := v[..|v| - 1];
      PrefixIsInterval(p, x);
      PrefixIsInterval(p, r);
      Transitive(v, x, r);
      Transitive(p, x, r);
    case _ =>
  }

  /** From a floor that lies in no excluded series, an unflagged and unpinched line allows some release. */
  lemma AllowedFrom(clauses: seq<Clause>, floor: Release, x: Release) returns (r: Release)
    requires AllWellFormed(clauses) && !Pinched(clauses, floor) && Allows(clauses, x)
    requires forall c :: c in clauses ==> !BelowSupported(c, floor) && !Excludes(c, floor)
    ensures AtMost(floor, r) && Allows(clauses, r)
  {
    SameIsReflexive(floor);
    if AtMost(floor, x) {
      r := x;
    } else if exists c | c in clauses :: c.operator == NotEqual && !c.wildcard && Same(c.release, floor) {
      var most := Next(floor);
      PrefixBelowNext(floor, floor);
      forall c | c in clauses ensures Less(floor, Highest(c, most)) {
        HighestIsAbove(c, most, floor);
      }
      MinHighestIs(clauses, most, floor);
      var hi := MinHighest(clauses, most);
      r := Between(floor, Narrow(floor, hi, clauses));
      NarrowIs(floor, hi, clauses, r);
      Trichotomy(floor, r);
      forall c | c in clauses ensures Satisfies(c, r) {
        Transitive(r, hi, Highest(c, most));
        MetFrom(c, most, floor, r, x);
      }
    } else {
      r := floor;
      forall c | c in clauses ensures Satisfies(c, r) {
        assert c.operator == NotEqual ==> Satisfies(c, r);
        MetFrom(c, floor, floor, r, x);
      }
    }
  }

  lemma PinchedAllowsNone(clauses: seq<Clause>, floor: Release, r: Release)
    requires AllWellFormed(clauses) && Pinched(clauses, floor) && AtMost(floor, r)
    ensures !Allows(clauses, r)
  {
    var low :| low in clauses && low.operator == LessOrEqual && Same(low.release, floor);
    var out :| out in clauses && out.operator == NotEqual && !out.wildcard && Same(out.release, floor);
    if Satisfies(low, r) {
      Trichotomy(low.release, floor);
      Trichotomy(out.release, floor);
      Transitive(r, low.release, floor);
      Transitive(out.release, floor, r);
      Transitive(r, floor, out.release);
      Trichotomy(out.release, r);
    }
  }

  lemma BelowSupportedGrows(c: Clause, floor: Release, higher: Release)
    requires WellFormed(c) && BelowSupported(c, floor) && AtMost(floor, higher)
    ensures BelowSupported(c, higher)
  {
    if c.operator == Equal && c.wildcard {
      Transitive(Next(c.release), floor, higher);
    } else if c.operator == Compatible {
      Transitive(Next(c.release[..|c.release| - 1]), floor, higher);
    } else {
      Transitive(c.release, floor, higher);
    }
  }

  /**
   What an unflagged line that allows nothing from the floor on looks like: unmeetable, or, where
   the excluded series around the floor end, a clause is at its end too or the line is pinched.
   */
  predicate PassedOverBelow(clauses: seq<Clause>, floor: Release)
    requires AllWellFormed(clauses)
  {
    var top := Climb(clauses, floor);
    || !Meetable(clauses)
    || Pinched(clauses, top)
    || (top != floor && exists c | c in clauses :: BelowSupported(c, top))
  }

  lemma NothingFromTop(clauses: seq<Clause>, floor: Release, r: Release)
    requires AllWellFormed(clauses) && AtMost(floor, r)
    requires var top := Climb(clauses, floor);
             Pinched(clauses, top) || exists c | c in clauses :: BelowSupported(c, top)
    ensures !Allows(clauses, r)
  {
    var top := Climb(clauses, floor);
    ClimbIs(clauses, floor);
    if Less(r, top) {
      var c :| c in clauses && Excludes(c, r);
    } else if Pinched(clauses, top) {
      PinchedAllowsNone(clauses, top, r);
    } else {
      var c :| c in clauses && BelowSupported(c, top);
      if Satisfies(c, r) {
        BelowIsSound(c, top, r);
      }
    }
  }

  /** Any line allows no supported release exactly when it is flagged as too old or passed over so. */
  lemma LineBelowIsExact(clauses: seq<Clause>, floor: Release)
    requires AllWellFormed(clauses)
    ensures (exists c | c in clauses :: BelowSupported(c, floor)) || PassedOverBelow(clauses, floor)
            <==> NoneFrom(clauses, floor)
  {
    var top := Climb(clauses, floor);
    MeetableExactly(clauses);
    hide Meetable;
    ClimbIs(clauses, floor);
    if c :| c in clauses && BelowSupported(c, floor) {
      BelowSupportedGrows(c, floor, top);
    }
    if Pinched(clauses, top) || exists c | c in clauses :: BelowSupported(c, top) {
      forall r: Release | AtMost(floor, r) ensures !Allows(clauses, r) {
        NothingFromTop(clauses, floor, r);
      }
    } else if IsMet(clauses) {
      var x: Release :| Allows(clauses, x);
      var r := AllowedFrom(clauses, top, x);
      Transitive(floor, top, r);
    }
  }

  // ------------------------------------------- lines that can be met

  /** The clause allows one release, or one up to trailing zeros. */
  predicate Fixes(c: Clause) {
    (c.operator == Equal && !c.wildcard) || c.operator == Arbitrary
  }

  /** The clause leaves out the single release. */
  predicate Omits(c: Clause, at: Release) {
    ((c.operator == NotEqual && !c.wildcard) || c.operator == GreaterThan) && Same(c.release, at)
  }

  /**
   Whether a line can be met, by looking at its clauses: at the release one of them fixes, or
   where the climb from the highest lower bound ends, or just above that.
   */
  predicate Meetable(clauses: seq<Clause>)
    requires AllWellFormed(clauses)
  {
    if exists c | c in clauses :: Fixes(c) then
      exists c | c in clauses :: Fixes(c) && Allows(clauses, c.release)
    else
      var at := Climb(clauses, MaxLowest(clauses));
      && (forall c | c in clauses :: !BelowSupported(c, at))
      && ((forall c | c in clauses :: !(c.operator == LessOrEqual && Same(c.release, at)))
          || forall c | c in clauses :: !Omits(c, at))
  }

  lemma SameIsMet(c: Clause, r: Release, v: Release)
    requires WellFormed(c) && c.operator != Arbitrary && Satisfies(c, r) && Same(v, r)
    ensures Satisfies(c, v)
  {
    Trichotomy(v, r);
    Trichotomy(c.release, r);
    Trichotomy(c.release, v);
    SameMovesTogether(c.release, r, v);
    if c.wildcard {
      PrefixMovesTogether(c.release, r, v);
    } else if c.operator == Compatible {
      PrefixMovesTogether(c.release[..|c.release| - 1], r, v);
    }
  }

  lemma SameMovesTogether(a: Release, r: Release, v: Release)
    requires Same(v, r)
    ensures Less(a, r) <==> Less(a, v)
    ensures Less(r, a) <==> Less(v, a)
  {
    Trichotomy(v, r);
    if Less(a, r) {
      Transitive(a, r, v);
    }
    if Less(a, v) {
      Transitive(a, v, r);
    }
    if Less(r, a) {
      Transitive(v, r, a);
    }
    if Less(v, a) {
      Transitive(r, v, a);
    }
  }

  lemma PrefixMovesTogether(p: Release, r: Release, v: Release)
    requires Same(v, r)
    ensures Starts(p, r) <==> Starts(p, v)
  {
    PrefixIsInterval(p, r);
    PrefixIsInterval(p, v);
    SameMovesTogether(p, r, v);
    SameMovesTogether(Next(p), r, v);
  }

  lemma FixedIsMeetable(clauses: seq<Clause>, x: Release)
    requires AllWellFormed(clauses) && Allows(clauses, x) && exists c :: c in clauses && Fixes(c)
    ensures exists c :: c in clauses && Fixes(c) && Allows(clauses, c.release)
  {
    if a :| a in clauses && a.operator == Arbitrary {
      assert a.release == x;
    } else {
      var e :| e in clauses && Fixes(e);
      forall c | c in clauses ensures Satisfies(c, e.release) {
        SameIsMet(c, x, e.release);
      }
    }
  }

  /** A release at or just above the climb's end meets every clause that is not at its end there. */
  lemma MetAt(c: Clause, at: Release, most: Release, r: Release)
    requires WellFormed(c) && !Fixes(c) && !BelowSupported(c, at) && AtMost(Lowest(c), at)
    requires r == at || (Less(at, r) && Less(r, Highest(c, most)))
    requires c.operator == NotEqual ==> Satisfies(c, r)
    requires c.operator == GreaterThan ==> !Same(c.release, r)
    ensures Satisfies(c, r)
  {
    var v := c.release;
    SameIsReflexive(at);
    Transitive(Lowest(c), at, r);
    Trichotomy(v, r);
    match c.operator
    case Equal => PrefixIsInterval(v, r);
    case Compatible =>
      var p := v[..|v| - 1];
      PrefixIsInterval(p, r);
      PrefixIsAtMost(v);
      Transitive(p, v, r);
    case _ =>
  }

  lemma MeetableIsMet(clauses: seq<Clause>)
    requires AllWellFormed(clauses) && Meetable(clauses) && !exists c :: c in clauses && Fixes(c)
    ensures IsMet(clauses)
  {
    var lo := MaxLowest(clauses);
    var at, most := Climb(clauses, lo), Next(Climb(clauses, lo));
    ClimbIs(clauses, lo);
    LowestAreAtMost(clauses);
    SameIsReflexive(at);
    PrefixBelowNext(at, at);
    var r := at;
    if exists c | c in clauses :: Omits(c, at) {
      forall c | c in clauses ensures Less(at, Highest(c, most)) {
        HighestIsAbove(c, most, at);
      }
      MinHighestIs(clauses, most, at);
      var hi := MinHighest(clauses, most);
      r := Between(at, Narrow(at, hi, clauses));
      NarrowIs(at, hi, clauses, r);
    }
    forall c | c in clauses ensures Satisfies(c, r) {
      Transitive(Lowest(c), lo, at);
      if r != at {
        Transitive(r, MinHighest(clauses, most), Highest(c, most));
        Trichotomy(c.release, r);
        Transitive(Lowest(c), at, r);
      }
      MetAt(c, at, most, r);
    }
    assert Allows(clauses, r);
  }

  lemma {:induction false} LowestAreAtMost(clauses: seq<Clause>)
    ensures forall c :: c in clauses ==> AtMost(Lowest(c), MaxLowest(clauses))
  {
    if clauses != [] {
      var c, rest, most := clauses[0], MaxLowest(clauses[1..]), MaxLowest(clauses);
      LowestAreAtMost(clauses[1..]);
      LargerIsAtLeast(Lowest(c), rest);
      forall d | d in clauses[1..] ensures AtMost(Lowest(d), most) {
        Transitive(Lowest(d), rest, most);
      }
      assert forall d :: d in clauses <==> d == c || d in clauses[1..];
    }
  }

  lemma MetIsMeetable(clauses: seq<Clause>, x: Release)
    requires AllWellFormed(clauses) && Allows(clauses, x) && !exists c :: c in clauses && Fixes(c)
    ensures Meetable(clauses)
  {
    var lo := MaxLowest(clauses);
    var at := Climb(clauses, lo);
    ClimbIs(clauses, lo);
    if Less(x, lo) {
      BelowLowest(clauses, x);
    }
    assert AtMost(at, x);
    forall c | c in clauses ensures !BelowSupported(c, at) {
      if BelowSupported(c, at) {
        BelowIsSound(c, at, x);
      }
    }
    if low, out :| low in clauses && low.operator == LessOrEqual && Same(low.release, at)
                   && out in clauses && Omits(out, at) {
      OmittedIsUnmet(low, out, at, x);
    }
  }

  lemma OmittedIsUnmet(low: Clause, out: Clause, at: Release, x: Release)
    requires WellFormed(out) && low.operator == LessOrEqual && Same(low.release, at) && Omits(out, at) && AtMost(at, x)
    requires WellFormed(low)
    ensures !(Satisfies(low, x) && Satisfies(out, x))
  {
    Trichotomy(low.release, at);
    Trichotomy(out.release, at);
    if Satisfies(low, x) {
      Transitive(x, low.release, at);
      Transitive(out.release, at, x);
      Transitive(x, at, out.release);
      Trichotomy(out.release, x);
    }
  }

  /** Exactly the lines that look meetable are met by some release. */
  lemma MeetableExactly(clauses: seq<Clause>)
    requires AllWellFormed(clauses)
    ensures Meetable(clauses) <==> IsMet(clauses)
  {
    if exists c :: c in clauses && Fixes(c) {
      if IsMet(clauses) {
        var x: Release :| Allows(clauses, x);
        FixedIsMeetable(clauses, x);
      }
    } else {
      if Meetable(clauses) {
        MeetableIsMet(clauses);
      }
      if IsMet(clauses) {
        var x: Release :| Allows(clauses, x);
        MetIsMeetable(clauses, x);
      }
    }
  }

  // --------------------------------------------------------- main results

  ghost predicate IsFor(l: Line, name: string) {
    l.Parsed? && Lower(l.requirement.name) == name
  }

  /** A requirement is met by no supported release exactly when it is reported as too old or passed over. */
  lemma TooOldExactly(line: Line, floors: map<string, Base>)
    requires line.Parsed? && Parseable(line) && Lower(line.requirement.name) in floors
    ensures var floor := floors[Lower(line.requirement.name)].floor;
            TooOld(line, floors) || PassedOverBelow(line.requirement.clauses, floor)
            <==> NoneFrom(line.requirement.clauses, floor)
  {
    LineBelowIsExact(line.requirement.clauses, floors[Lower(line.requirement.name)].floor);
  }

  /** Keeping the package's cap would leave this line unsatisfiable. */
  ghost predicate Suffers(l: Line, name: string) {
    name in TESTED_MAJOR_VERSIONS && IsFor(l, name) && Parseable(l) && NoneBelow(l.requirement.clauses, Limit(name))
  }

  ghost predicate PassedOver(l: Line, name: string) {
    && name in TESTED_MAJOR_VERSIONS && IsFor(l, name) && Parseable(l)
    && PassedOverAbove(l.requirement.clauses, Limit(name))
  }

  /** Keeping a cap would leave some line unsatisfiable exactly when it is dropped or a line was passed over. */
  lemma CapDroppedExactlyWhenUnsatisfiable(lines: seq<Line>, name: string)
    requires (forall l | l in lines :: Parseable(l)) && name in TESTED_MAJOR_VERSIONS
    ensures CapDropped(lines, name) || (exists l :: l in lines && PassedOver(l, name))
            <==> exists l :: l in lines && Suffers(l, name)
  {
    var limit := Limit(name);
    assert !IsZero(limit);
    forall l | l in lines && IsFor(l, name)
      ensures TooNew(l) || PassedOver(l, name) <==> Suffers(l, name)
    {
      LineAboveIsExact(l.requirement.clauses, limit);
    }
  }

  /** On any line at all, a dropped cap would have left the line unsatisfiable. */
  lemma CapDroppedIsSound(lines: seq<Line>, name: string)
    requires (forall l | l in lines :: Parseable(l)) && name in TESTED_MAJOR_VERSIONS
    requires CapDropped(lines, name)
    ensures exists l :: l in lines && IsFor(l, name) && NoneBelow(l.requirement.clauses, Limit(name))
  {
    var l :| l in lines && TooNew(l) && Lower(l.requirement.name) == name;
    var c :| c in l.requirement.clauses && AboveTested(c, Limit(name));
    forall r: Release | Less(r, Limit(name)) ensures !Allows(l.requirement.clauses, r) {
      if Satisfies(c, r) {
        AboveIsSound(c, Limit(name), r);
      }
    }
    assert IsFor(l, name);
  }

  // ------------------------------------------------ lines that are missed

  /** `>=2,<1`: no release at all, and neither clause is flagged. */
  lemma ContradictionIsMissed(limit: Release)
    requires Less([2], limit)
    ensures var both := [Clause(GreaterOrEqual, [2], false), Clause(LessThan, [1], false)];
            && AllWellFormed(both) && NoneBelow(both, limit)
            && forall c | c in both :: !AboveTested(c, limit)
  {
    var low, high := Clause(GreaterOrEqual, [2], false), Clause(LessThan, [1], false);
    var both := [low, high];
    SameIsReflexive(limit);
    Transitive([2], limit, limit);
    Transitive([1], [2], limit);
    forall r: Release ensures !Allows(both, r) {
      assert low in both && high in both;
      if Satisfies(low, r) && Satisfies(high, r) {
        Transitive([2], r, [1]);
      }
    }
  }

  /** `>=1,!=1.*` at the limit 2: met by 2, by nothing below, and not flagged. */
  lemma ExcludedSeriesIsMissed()
    ensures var both := [Clause(GreaterOrEqual, [1], false), Clause(NotEqual, [1], true)];
            && AllWellFormed(both) && Allows(both, [2]) && NoneBelow(both, [2])
            && forall c | c in both :: !AboveTested(c, [2])
  {
    var low, out := Clause(GreaterOrEqual, [1], false), Clause(NotEqual, [1], true);
    var both := [low, out];
    assert Next([1]) == [2];
    forall r: Release | Less(r, [2]) ensures !Allows(both, r) {
      assert low in both && out in both;
      PrefixIsInterval([1], r);
    }
  }

  /** `<=1.76.0,!=1.76.0` at the floor 1.76.0: met by 0, by nothing supported, and not flagged. */
  lemma PinchIsMissed(floor: Release)
    requires !IsZero(floor)
    ensures var both := [Clause(LessOrEqual, floor, false), Clause(NotEqual, floor, false)];
            && AllWellFormed(both) && IsMet(both) && NoneFrom(both, floor)
            && forall c | c in both :: !BelowSupported(c, floor)
  {
    var low, out := Clause(LessOrEqual, floor, false), Clause(NotEqual, floor, false);
    var both := [low, out];
    SameIsReflexive(floor);
    ZeroIsLeast(floor);
    Trichotomy([0], floor);
    Trichotomy(floor, [0]);
    assert Satisfies(low, [0]) && Satisfies(out, [0]);
    assert Allows(both, [0]);
    assert low in both && out in both && Pinched(both, floor);
    forall r: Release | AtMost(floor, r) ensures !Allows(both, r) {
      PinchedAllowsNone(both, floor, r);
    }
  }
}

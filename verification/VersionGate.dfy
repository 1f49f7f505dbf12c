/**
 The version gate of packages/core/canyonos_core/stub_generator.py: which requirement
 lines allow only releases older, or only releases newer, than CanyonOS runs with.

 The source decides by bounds on one clause; the reference is PEP 440 itself, quantified
 over every release. `Line` is a requirements line as the packaging library parses it.
 */
module VersionGate {
  import opened Pep440

  datatype Requirement = Requirement(name: string, clauses: seq<Clause>)

  datatype Line = Parsed(text: string, requirement: Requirement) | Unparsable(text: string)

  datatype Base = Base(name: string, floor: Release, text: string)

  const BASE_AGENT_REQUIREMENTS: seq<Base> := [
    Base("grpcio", [1, 76, 0], "grpcio>=1.76.0"),
    Base("protobuf", [6, 31, 1], "protobuf>=6.31.1"),
    Base("redis", [3, 5], "redis>=3.5")
  ]

  const TESTED_MAJOR_VERSIONS: map<string, nat> := map["grpcio" := 1, "protobuf" := 6, "redis" := 8]

  // ------------------------------------------------- the clause tests

  /** `_below_supported_version`; a wildcard after != makes Version() raise, so False. */
  predicate BelowSupported(c: Clause, floor: Release)
    requires WellFormed(c)
  {
    if c.operator == Equal && c.wildcard then AtMost(Next(c.release), floor)
    else if c.wildcard then false
    else match c.operator
      case Equal | Arbitrary => Less(c.release, floor)
      case LessThan => AtMost(c.release, floor)
      case LessOrEqual => Less(c.release, floor)
      case Compatible => AtMost(Next(c.release[..|c.release| - 1]), floor)
      case _ => false
  }

  /** `_above_tested_version`. */
  predicate AboveTested(c: Clause, limit: Release)
    requires WellFormed(c)
  {
    if c.operator == Equal && c.wildcard then AtMost(limit, c.release)
    else if c.wildcard then false
    else c.operator in {Equal, Arbitrary, GreaterOrEqual, GreaterThan, Compatible} && AtMost(limit, c.release)
  }

  // ---------------------------------------------------- below the floor

  ghost predicate ExcludesFrom(c: Clause, floor: Release)
    requires WellFormed(c)
  {
    forall r: Release :: AtMost(floor, r) ==> !Satisfies(c, r)
  }

  function Larger(a: Release, b: Release): Release {
    if Less(a, b) then b else a
  }

  lemma LargerIsAtLeast(a: Release, b: Release)
    ensures AtMost(a, Larger(a, b)) && AtMost(b, Larger(a, b))
  {
    Trichotomy(a, b);
    SameIsReflexive(a);
    SameIsReflexive(b);
  }

  lemma PrefixBelowNext(p: Release, r: seq<nat>)
    requires AtMost(r, p)
    ensures Less(r, Next(p))
  {
    SameIsReflexive(p);
    StartsItself(p);
    PrefixIsInterval(p, p);
    Transitive(r, p, Next(p));
  }

  lemma {:induction false} StartsItself(p: seq<nat>)
    ensures Starts(p, p)
  {
    if p != [] {
      StartsItself(p[1..]);
    }
  }

  /** A flagged clause is met by no supported release. */
  lemma BelowIsSound(c: Clause, floor: Release, r: Release)
    requires WellFormed(c) && BelowSupported(c, floor) && Satisfies(c, r)
    ensures Less(r, floor)
  {
    Trichotomy(c.release, r);
    if c.operator == Equal && c.wildcard {
      PrefixIsInterval(c.release, r);
      Transitive(r, Next(c.release), floor);
    } else if c.operator == Compatible {
      var p := c.release[..|c.release| - 1];
      PrefixIsInterval(p, r);
      Transitive(r, Next(p), floor);
    } else {
      SameIsReflexive(r);
      assert AtMost(r, c.release);
      Transitive(r, c.release, floor);
    }
  }

  /** A supported release that meets a clause the test lets pass. */
  function SupportedWitness(c: Clause, floor: Release): Release
    requires WellFormed(c)
  {
    match c.operator
    case Equal => if c.wildcard then Larger(floor, c.release) else c.release
    case Compatible => Larger(floor, c.release)
    case NotEqual => Next(Larger(floor, Next(c.release)))
    case LessThan | LessOrEqual => floor
    case GreaterThan => Next(Larger(floor, c.release))
    case GreaterOrEqual => Larger(floor, c.release)
    case Arbitrary => c.release
  }

  lemma BelowIsComplete(c: Clause, floor: Release)
    requires WellFormed(c) && !BelowSupported(c, floor)
    ensures var r := SupportedWitness(c, floor); AtMost(floor, r) && Satisfies(c, r)
  {
    var v, r := c.release, SupportedWitness(c, floor);
    SameIsReflexive(v);
    SameIsReflexive(floor);
    LargerIsAtLeast(floor, v);
    Trichotomy(v, floor);
    if c.operator == Equal && c.wildcard {
      PrefixIsInterval(v, r);
      PrefixBelowNext(v, v);
    } else if c.operator == Compatible {
      var p := v[..|v| - 1];
      StartsPrefix(p, v);
      PrefixIsInterval(p, v);
      PrefixIsInterval(p, r);
      Transitive(p, v, r);
    } else if c.operator == NotEqual {
      var big := Larger(floor, Next(v));
      LargerIsAtLeast(floor, Next(v));
      PrefixBelowNext(big, big);
      Transitive(floor, big, r);
      Transitive(Next(v), big, r);
      PrefixBelowNext(v, v);
      Transitive(v, Next(v), r);
      PrefixIsInterval(v, r);
      Trichotomy(v, r);
      Trichotomy(Next(v), r);
    } else if c.operator == GreaterThan {
      PrefixBelowNext(Larger(floor, v), Larger(floor, v));
      Transitive(floor, Larger(floor, v), r);
      Transitive(v, Larger(floor, v), r);
      Trichotomy(floor, r);
    }
  }

  lemma {:induction false} StartsPrefix(p: seq<nat>, r: seq<nat>)
    requires p <= r
    ensures Starts(p, r)
  {
    if p != [] {
      assert p[0] == r[0] && p[1..] <= r[1..];
      StartsPrefix(p[1..], r[1..]);
    }
  }

  /** The test is exact: it flags a clause exactly when no supported release meets it. */
  lemma BelowIsExact(c: Clause, floor: Release)
    requires WellFormed(c)
    ensures BelowSupported(c, floor) <==> ExcludesFrom(c, floor)
  {
    if BelowSupported(c, floor) {
      forall r: Release | AtMost(floor, r) ensures !Satisfies(c, r) {
        if Satisfies(c, r) {
          BelowIsSound(c, floor, r);
        }
      }
    } else {
      BelowIsComplete(c, floor);
    }
  }

  // ------------------------------------------------- at or above the limit

  ghost predicate ExcludesBelow(c: Clause, limit: Release)
    requires WellFormed(c)
  {
    forall r: Release :: Less(r, limit) ==> !Satisfies(c, r)
  }

  predicate IsZero(r: seq<nat>) {
    Same(r, [])
  }

  /**
   The only clauses with no release below the limit that the test does not flag:
   `<0`, and `!=0.*` written so that the excluded series reaches up to the limit.
   */
  predicate Unflagged(c: Clause, limit: Release) {
    || (c.operator == LessThan && IsZero(c.release))
    || (c.operator == NotEqual && c.wildcard && IsZero(c.release) && AtMost(limit, Next(c.release)))
  }

  lemma AboveIsSound(c: Clause, limit: Release, r: Release)
    requires WellFormed(c) && Satisfies(c, r)
    requires AboveTested(c, limit) || Unflagged(c, limit)
    ensures AtMost(limit, r)
  {
    var v := c.release;
    Trichotomy(v, r);
    if Unflagged(c, limit) {
      NothingBelowZero(r, v);
      if c.operator == NotEqual {
        PrefixIsInterval(v, r);
        Transitive(limit, Next(v), r);
      }
    } else {
      if c.operator == Equal && c.wildcard {
        PrefixIsInterval(v, r);
      }
      SameIsReflexive(v);
      Transitive(limit, v, r);
    }
  }

  lemma ZeroIsLeast(r: seq<nat>)
    ensures AtMost([0], r)
    ensures !IsZero(r) ==> Less([0], r)
  {
    assert Same([0], []);
    NothingBelowZero(r, [0]);
    Trichotomy([0], r);
    if Same([0], r) {
      assert Same(Tail([0]), Tail(r));
      assert Same([], Tail(r));
      SameIsSymmetric([], Tail(r));
    }
  }

  lemma {:induction false} SameIsSymmetric(a: seq<nat>, b: seq<nat>)
    requires Same(a, b)
    ensures Same(b, a)
    decreases |a| + |b|
  {
    if a != [] || b != [] {
      SameIsSymmetric(Tail(a), Tail(b));
    }
  }

  /** A tested release that meets a clause which neither the test nor the exception covers. */
  function TestedWitness(c: Clause, limit: Release): Release
    requires !IsZero(limit)
    requires Less([0], limit)
  {
    match c.operator
    case LessThan | LessOrEqual => [0]
    case NotEqual =>
      if !IsZero(c.release) then [0]
      else if c.wildcard then Next(c.release)
      else Between([0], limit)
    case GreaterThan => if Less(c.release, limit) then Between(c.release, limit) else [0]
    case _ => c.release
  }

  lemma AboveIsComplete(c: Clause, limit: Release)
    requires WellFormed(c) && !IsZero(limit)
    requires !AboveTested(c, limit) && !Unflagged(c, limit)
    ensures Less([0], limit)
    ensures var r := TestedWitness(c, limit); Less(r, limit) && Satisfies(c, r)
  {
    var v := c.release;
    ZeroIsLeast(limit);
    if c.operator == NotEqual {
      NotEqualIsMet(c, limit);
    } else {
      ZeroIsLeast(v);
      SameIsReflexive(v);
      Trichotomy(v, limit);
      StartsItself(v);
      if c.operator == Compatible {
        StartsPrefix(v[..|v| - 1], v);
      }
    }
  }

  lemma NotEqualIsMet(c: Clause, limit: Release)
    requires WellFormed(c) && !IsZero(limit) && Less([0], limit)
    requires c.operator == NotEqual && !Unflagged(c, limit)
    ensures var r := TestedWitness(c, limit); Less(r, limit) && Satisfies(c, r)
  {
    var v, r := c.release, TestedWitness(c, limit);
    assert Same([0], []);
    if !IsZero(v) {
      ZeroStarts(v, [0]);
      ZeroIsLeast(v);
      Trichotomy(v, [0]);
    } else if c.wildcard {
      PrefixIsInterval(v, r);
      SameIsReflexive(r);
    } else if Same(v, r) {
      ZeroIsSameAs(v, r);
      NothingBelowZero([0], r);
    }
  }

  lemma {:induction false} ZeroIsSameAs(z: seq<nat>, r: seq<nat>)
    requires Same(z, []) && Same(z, r)
    ensures Same(r, [])
    decreases |z| + |r|
  {
    if z != [] || r != [] {
      ZeroIsSameAs(Tail(z), Tail(r));
    }
  }

  /** Exact up to `<0` and `!=0.*`: flagged or excepted exactly when no tested release fits. */
  lemma AboveIsExact(c: Clause, limit: Release)
    requires WellFormed(c) && !IsZero(limit)
    ensures AboveTested(c, limit) || Unflagged(c, limit) <==> ExcludesBelow(c, limit)
  {
    if AboveTested(c, limit) || Unflagged(c, limit) {
      forall r: Release | Less(r, limit) ensures !Satisfies(c, r) {
        if Satisfies(c, r) {
          AboveIsSound(c, limit, r);
        }
      }
    } else {
      AboveIsComplete(c, limit);
    }
  }

  /** `<0` is met by nothing at all, so it excludes every tested release, and is never flagged. */
  lemma BelowZeroIsMissed(c: Clause, limit: Release)
    requires WellFormed(c) && c.operator == LessThan && IsZero(c.release) && !IsZero(limit)
    ensures ExcludesBelow(c, limit) && !AboveTested(c, limit)
  {
    AboveIsExact(c, limit);
  }

  lemma NextOfZero(z: Release)
    requires IsZero(z)
    ensures AtMost(Next(z), [1])
  {
    var n := Next(z);
    if |z| == 1 {
      assert n == [1];
      SameIsReflexive([1]);
    } else {
      assert n[0] == z[0] == 0;
    }
  }

  /** Above 1 no excluded series reaches the limit, so `<0` is the one exception. */
  lemma OnlyBelowZeroIsUnflagged(c: Clause, limit: Release)
    requires WellFormed(c) && Less([1], limit)
    ensures Unflagged(c, limit) <==> c.operator == LessThan && IsZero(c.release)
  {
    if IsZero(c.release) {
      NextOfZero(c.release);
      Transitive(Next(c.release), [1], limit);
    }
  }

  /** For the limits in use the test is exact but for `<0`. */
  lemma AboveIsExactInUse(c: Clause, name: string)
    requires WellFormed(c) && name in TESTED_MAJOR_VERSIONS
    ensures AboveTested(c, Limit(name)) || (c.operator == LessThan && IsZero(c.release))
            <==> ExcludesBelow(c, Limit(name))
  {
    var limit := Limit(name);
    assert Less([1], limit) && !IsZero(limit);
    AboveIsExact(c, limit);
    OnlyBelowZeroIsUnflagged(c, limit);
  }

  /** The releases below the limit are those up to the tested major. */
  lemma LimitIsNextMajor(name: string, r: Release)
    requires name in TESTED_MAJOR_VERSIONS
    ensures Less(r, Limit(name)) <==> r[0] <= TESTED_MAJOR_VERSIONS[name]
  {
    var limit := Limit(name);
    if r[0] == limit[0] {
      NothingBelowZero(Tail(r), Tail(limit));
    }
  }

  /** The majors the image is tested with. */
  lemma LimitsInUse(r: Release)
    ensures Less(r, Limit("grpcio")) <==> r[0] <= 1
    ensures Less(r, Limit("protobuf")) <==> r[0] <= 6
    ensures Less(r, Limit("redis")) <==> r[0] <= 8
  {
    LimitIsNextMajor("grpcio", r);
    LimitIsNextMajor("protobuf", r);
    LimitIsNextMajor("redis", r);
  }

  /** `~=a.b` is met from a.b on within the major a. */
  lemma CompatibleMeans(a: nat, b: nat, r: Release)
    ensures var c := Clause(Compatible, [a, b], false);
            WellFormed(c) && (Satisfies(c, r) <==> r[0] == a && b <= At0(r[1..]))
  {
    var c, rest := Clause(Compatible, [a, b], false), r[1..];
    assert c.release[..|c.release| - 1] == [a] && [a][1..] == [];
    assert Starts([a], r) <==> r[0] == a;
    assert [a, b][1..] == [b] && [b][1..] == [];
    assert Less(r, [a, b]) <==> if r[0] != a then r[0] < a else Less(rest, [b]);
    assert Less(rest, [b]) <==> if At0(rest) != b then At0(rest) < b else Less(Tail(rest), []);
    NothingBelowZero(Tail(rest), []);
  }

  /** Some release meets the clause, and only releases beyond this major do. */
  ghost predicate OnlyBeyond(c: Clause, major: nat)
    requires WellFormed(c)
  {
    && (exists r: Release :: Satisfies(c, r))
    && (forall r: Release :: Satisfies(c, r) ==> r[0] > major)
  }

  /** A clause is flagged exactly when it can be met, but by releases beyond the tested major only. */
  lemma FlaggedExactlyBeyond(c: Clause, name: string)
    requires WellFormed(c) && name in TESTED_MAJOR_VERSIONS
    ensures AboveTested(c, Limit(name)) <==> OnlyBeyond(c, TESTED_MAJOR_VERSIONS[name])
  {
    var limit, major := Limit(name), TESTED_MAJOR_VERSIONS[name];
    AboveIsExactInUse(c, name);
    forall r: Release ensures Less(r, limit) <==> r[0] <= major {
      LimitIsNextMajor(name, r);
    }
    if AboveTested(c, limit) {
      SomeReleaseMeets(c);
    }
    if c.operator == LessThan && IsZero(c.release) {
      forall r: Release ensures !Satisfies(c, r) {
        NothingBelowZero(r, c.release);
      }
    }
  }

  lemma SomeReleaseMeets(c: Clause)
    requires WellFormed(c) && c.operator in {Equal, Arbitrary, GreaterOrEqual, GreaterThan, Compatible}
    ensures exists r: Release :: Satisfies(c, r)
  {
    SameIsReflexive(c.release);
    StartsItself(c.release);
    if c.operator == Compatible {
      StartsPrefix(c.release[..|c.release| - 1], c.release);
    }
    PrefixBelowNext(c.release, c.release);
    assert Satisfies(c, if c.operator == GreaterThan then Next(c.release) else c.release);
  }

  // ------------------------------------------------------ requirements

  predicate Parseable(line: Line) {
    line.Parsed? ==> forall c | c in line.requirement.clauses :: WellFormed(c)
  }

  predicate Allows(clauses: seq<Clause>, r: Release)
    requires forall c | c in clauses :: WellFormed(c)
  {
    forall c | c in clauses :: Satisfies(c, r)
  }

  function LowerChar(c: char): char {
    if 'A' <= c <= 'Z' then c - 'A' + 'a' else c
  }

  function Lower(s: string): string {
    seq(|s|, i requires 0 <= i < |s| => LowerChar(s[i]))
  }

  /** The same letter, a capital or a small one, or the same character. */
  predicate SameLetter(a: char, b: char) {
    || a == b
    || ('A' <= a <= 'Z' && b as int - a as int == 32)
    || ('A' <= b <= 'Z' && a as int - b as int == 32)
  }

  predicate SameButCase(a: string, b: string) {
    |a| == |b| && forall i :: 0 <= i < |a| ==> SameLetter(a[i], b[i])
  }

  /** Names are compared without regard to case. */
  lemma LowerIgnoresCase(a: string, b: string)
    ensures Lower(a) == Lower(b) <==> SameButCase(a, b)
  {
    forall x: char, y: char ensures LowerChar(x) == LowerChar(y) <==> SameLetter(x, y) {}
    if Lower(a) == Lower(b) {
      forall i | 0 <= i < |a| ensures SameLetter(a[i], b[i]) {
        assert Lower(a)[i] == Lower(b)[i];
      }
    }
  }

  predicate AnyBelow(line: Line, floor: Release)
    requires line.Parsed? && Parseable(line)
  {
    exists c | c in line.requirement.clauses :: BelowSupported(c, floor)
  }

  predicate AnyAbove(line: Line, limit: Release)
    requires line.Parsed? && Parseable(line)
  {
    exists c | c in line.requirement.clauses :: AboveTested(c, limit)
  }

  function Limit(name: string): Release
    requires name in TESTED_MAJOR_VERSIONS
  {
    [TESTED_MAJOR_VERSIONS[name] + 1]
  }

  /** The dictionary of floors: the last base of a name wins. */
  function Floors(bases: seq<Base>): map<string, Base> {
    if bases == [] then map[]
    else Floors(bases[..|bases| - 1])[bases[|bases| - 1].name := bases[|bases| - 1]]
  }

  /** The line is reported as too old, and against which floor. */
  predicate TooOld(line: Line, floors: map<string, Base>)
    requires Parseable(line)
  {
    line.Parsed? && Lower(line.requirement.name) in floors
    && AnyBelow(line, floors[Lower(line.requirement.name)].floor)
  }

  predicate TooNew(line: Line)
    requires Parseable(line)
  {
    line.Parsed? && Lower(line.requirement.name) in TESTED_MAJOR_VERSIONS
    && AnyAbove(line, Limit(Lower(line.requirement.name)))
  }

  function OldReports(lines: seq<Line>, floors: map<string, Base>): seq<(Line, Base)>
    requires forall l | l in lines :: Parseable(l)
  {
    if lines == [] then []
    else
      var l := lines[|lines| - 1];
      OldReports(lines[..|lines| - 1], floors)
      + if TooOld(l, floors) then [(l, floors[Lower(l.requirement.name)])] else []
  }

  function NewReports(lines: seq<Line>): seq<(Line, Release)>
    requires forall l | l in lines :: Parseable(l)
  {
    if lines == [] then []
    else
      var l := lines[|lines| - 1];
      NewReports(lines[..|lines| - 1])
      + if TooNew(l) then [(l, Limit(Lower(l.requirement.name)))] else []
  }

  method TooOldRequirements(lines: seq<Line>) returns (unsupported: seq<(Line, Base)>)
    requires forall l | l in lines :: Parseable(l)
    ensures unsupported == OldReports(lines, Floors(BASE_AGENT_REQUIREMENTS))
    ensures forall e :: e in unsupported <==> IsOldReport(lines, e)
  {
    OldReportsMean(lines);
    var floors := map[];
    for i := 0 to |BASE_AGENT_REQUIREMENTS|
      invariant floors == Floors(BASE_AGENT_REQUIREMENTS[..i])
    {
      var base := BASE_AGENT_REQUIREMENTS[i];
      assert BASE_AGENT_REQUIREMENTS[..i + 1][..i] == BASE_AGENT_REQUIREMENTS[..i];
      floors := floors[base.name := base];
    }
    assert BASE_AGENT_REQUIREMENTS[..|BASE_AGENT_REQUIREMENTS|] == BASE_AGENT_REQUIREMENTS;
    unsupported := [];
    for i := 0 to |lines|
      invariant unsupported == OldReports(lines[..i], floors)
    {
      assert lines[..i + 1][..i] == lines[..i];
      var line := lines[i];
      if line.Parsed? {
        var name := Lower(line.requirement.name);
        if name in floors && AnyBelow(line, floors[name].floor) {
          unsupported := unsupported + [(line, floors[name])];
        }
      }
    }
    assert lines[..|lines|] == lines;
  }

  method TooNewRequirements(lines: seq<Line>) returns (tooNew: seq<(Line, Release)>)
    requires forall l | l in lines :: Parseable(l)
    ensures tooNew == NewReports(lines)
    ensures forall e :: e in tooNew <==> IsNewReport(lines, e)
  {
    NewReportsMean(lines);
    tooNew := [];
    for i := 0 to |lines|
      invariant tooNew == NewReports(lines[..i])
    {
      assert lines[..i + 1][..i] == lines[..i];
      var line := lines[i];
      if line.Parsed? {
        var name := Lower(line.requirement.name);
        if name in TESTED_MAJOR_VERSIONS && AnyAbove(line, Limit(name)) {
          tooNew := tooNew + [(line, Limit(name))];
        }
      }
    }
    assert lines[..|lines|] == lines;
  }

  /** The line names the package, in any case, and has a clause that only releases beyond the major meet. */
  ghost predicate AsksNewer(line: Line, name: string, major: nat)
    requires Parseable(line)
  {
    && line.Parsed? && SameButCase(line.requirement.name, name)
    && exists c :: c in line.requirement.clauses && OnlyBeyond(c, major)
  }

  lemma TooNewExactly(line: Line, name: string)
    requires Parseable(line) && name in TESTED_MAJOR_VERSIONS
    ensures AsksNewer(line, name, TESTED_MAJOR_VERSIONS[name]) <==>
            TooNew(line) && Lower(line.requirement.name) == name
  {
    if line.Parsed? {
      LowerIgnoresCase(line.requirement.name, name);
      assert Lower(name) == name;
      forall c | c in line.requirement.clauses
        ensures AboveTested(c, Limit(name)) <==> OnlyBeyond(c, TESTED_MAJOR_VERSIONS[name])
      {
        FlaggedExactlyBeyond(c, name);
      }
    }
  }

  /** The names whose `<major+1` cap stays in the image's constraints. */
  method KeptCaps(lines: seq<Line>) returns (kept: set<string>)
    requires forall l | l in lines :: Parseable(l)
    ensures kept == set name | name in TESTED_MAJOR_VERSIONS && !CapDropped(lines, name)
    ensures forall name :: name in TESTED_MAJOR_VERSIONS ==>
              (name !in kept <==> exists l :: l in lines && AsksNewer(l, name, TESTED_MAJOR_VERSIONS[name]))
  {
    var reports := TooNewRequirements(lines);
    NewReportsAre(lines);
    hide IsNewReport, AsksNewer, Lower, SameButCase;
    var askedNewer := set e | e in reports && e.0.Parsed? :: Lower(e.0.requirement.name);
    kept := set name | name in TESTED_MAJOR_VERSIONS && name !in askedNewer;
    forall name | name in TESTED_MAJOR_VERSIONS
      ensures name in askedNewer <==> CapDropped(lines, name)
      ensures CapDropped(lines, name) <==>
              exists l :: l in lines && AsksNewer(l, name, TESTED_MAJOR_VERSIONS[name])
    {
      forall l | l in lines
        ensures AsksNewer(l, name, TESTED_MAJOR_VERSIONS[name]) <==>
                TooNew(l) && Lower(l.requirement.name) == name
      {
        TooNewExactly(l, name);
      }
      if CapDropped(lines, name) {
        var l :| l in lines && TooNew(l) && Lower(l.requirement.name) == name;
        assert (l, Limit(name)) in reports;
      }
    }
  }

  ghost predicate CapDropped(lines: seq<Line>, name: string)
    requires forall l | l in lines :: Parseable(l)
  {
    exists l :: l in lines && TooNew(l) && Lower(l.requirement.name) == name
  }

  lemma {:induction false} NewReportsAre(lines: seq<Line>)
    requires forall l | l in lines :: Parseable(l)
    ensures forall e :: e in NewReports(lines) <==>
                        e.0 in lines && TooNew(e.0) && e.1 == Limit(Lower(e.0.requirement.name))
  {
    if lines != [] {
      NewReportsAre(lines[..|lines| - 1]);
    }
  }

  lemma {:induction false} OldReportsAre(lines: seq<Line>, floors: map<string, Base>)
    requires forall l | l in lines :: Parseable(l)
    ensures forall e :: e in OldReports(lines, floors) <==>
                        e.0 in lines && TooOld(e.0, floors) && e.1 == floors[Lower(e.0.requirement.name)]
  {
    if lines != [] {
      OldReportsAre(lines[..|lines| - 1], floors);
    }
  }

  /** A line of the list asks for a package beyond its tested major; it is reported with the next major. */
  ghost predicate IsNewReport(lines: seq<Line>, e: (Line, Release))
    requires forall l | l in lines :: Parseable(l)
  {
    && e.0 in lines
    && exists name :: name in TESTED_MAJOR_VERSIONS && AsksNewer(e.0, name, TESTED_MAJOR_VERSIONS[name])
                      && e.1 == [TESTED_MAJOR_VERSIONS[name] + 1]
  }

  lemma NewReportsMean(lines: seq<Line>)
    requires forall l | l in lines :: Parseable(l)
    ensures forall e :: e in NewReports(lines) <==> IsNewReport(lines, e)
  {
    NewReportsAre(lines);
    forall l, name | l in lines && name in TESTED_MAJOR_VERSIONS
      ensures AsksNewer(l, name, TESTED_MAJOR_VERSIONS[name]) <==> TooNew(l) && Lower(l.requirement.name) == name
    {
      TooNewExactly(l, name);
    }
    hide TooNew, AsksNewer;
    forall e ensures e in NewReports(lines) <==> IsNewReport(lines, e) {
      if e.0 in lines && TooNew(e.0) && e.1 == Limit(Lower(e.0.requirement.name)) {
        assert AsksNewer(e.0, Lower(e.0.requirement.name), TESTED_MAJOR_VERSIONS[Lower(e.0.requirement.name)]);
      }
    }
  }

  /** The line names the base package, in any case, and has a clause that no release from the floor on meets. */
  ghost predicate AsksOlder(line: Line, base: Base)
    requires Parseable(line)
  {
    && line.Parsed? && SameButCase(line.requirement.name, base.name)
    && exists c :: c in line.requirement.clauses && ExcludesFrom(c, base.floor)
  }

  ghost predicate IsOldReport(lines: seq<Line>, e: (Line, Base))
    requires forall l | l in lines :: Parseable(l)
  {
    e.0 in lines && e.1 in BASE_AGENT_REQUIREMENTS && AsksOlder(e.0, e.1)
  }

  lemma FloorsAre()
    ensures Floors(BASE_AGENT_REQUIREMENTS) == map[
              "grpcio" := Base("grpcio", [1, 76, 0], "grpcio>=1.76.0"),
              "protobuf" := Base("protobuf", [6, 31, 1], "protobuf>=6.31.1"),
              "redis" := Base("redis", [3, 5], "redis>=3.5")]
    ensures forall name :: name in Floors(BASE_AGENT_REQUIREMENTS) ==> Lower(name) == name
    ensures forall base :: base in BASE_AGENT_REQUIREMENTS <==>
                           base.name in Floors(BASE_AGENT_REQUIREMENTS) && Floors(BASE_AGENT_REQUIREMENTS)[base.name] == base
  {
    var all := BASE_AGENT_REQUIREMENTS;
    assert all[..2][..1] == all[..1] && all[..1][..0] == [];
    assert Floors(all) == Floors(all[..2])[all[2].name := all[2]];
    assert Floors(all[..2]) == Floors(all[..1])[all[1].name := all[1]];
    assert Floors(all[..1]) == Floors([])[all[0].name := all[0]];
  }

  lemma OldReportsMean(lines: seq<Line>)
    requires forall l | l in lines :: Parseable(l)
    ensures forall e :: e in OldReports(lines, Floors(BASE_AGENT_REQUIREMENTS)) <==> IsOldReport(lines, e)
  {
    var floors := Floors(BASE_AGENT_REQUIREMENTS);
    OldReportsAre(lines, floors);
    FloorsAre();
    forall e: (Line, Base) | e.0 in lines && e.0.Parsed?
      ensures TooOld(e.0, floors) && e.1 == floors[Lower(e.0.requirement.name)] <==> IsOldReport(lines, e)
    {
      LowerIgnoresCase(e.0.requirement.name, e.1.name);
      forall c | c in e.0.requirement.clauses ensures BelowSupported(c, e.1.floor) <==> ExcludesFrom(c, e.1.floor) {
        BelowIsExact(c, e.1.floor);
      }
    }
  }

  /** Every requirement reported as too old is met by no release CanyonOS supports. */
  lemma TooOldIsUnsatisfiable(lines: seq<Line>, e: (Line, Base), r: Release)
    requires forall l | l in lines :: Parseable(l)
    requires e in OldReports(lines, Floors(BASE_AGENT_REQUIREMENTS))
    requires AtMost(e.1.floor, r)
    ensures e.0 in lines && e.0.Parsed? && !Allows(e.0.requirement.clauses, r)
  {
    OldReportsAre(lines, Floors(BASE_AGENT_REQUIREMENTS));
    var c :| c in e.0.requirement.clauses && BelowSupported(c, e.1.floor);
    BelowIsExact(c, e.1.floor);
  }
}

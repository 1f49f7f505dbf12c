/**
 The part of PEP 440 the version gate relies on: the "Version specifiers" section, for
 final releases of epoch 0. A release is its sequence of numbers; releases compare
 component by component after padding the shorter one with zeros.
 */
module Pep440 {

  type Release = r: seq<nat> | r != [] witness [0]

  function At0(s: seq<nat>): nat {
    if s == [] then 0 else s[0]
  }

  function Tail(s: seq<nat>): seq<nat> {
    if s == [] then [] else s[1..]
  }

  predicate Less(a: seq<nat>, b: seq<nat>)
    decreases |a| + |b|
  {
    if a == [] && b == [] then false
    else if At0(a) != At0(b) then At0(a) < At0(b)
    else Less(Tail(a), Tail(b))
  }

  predicate Same(a: seq<nat>, b: seq<nat>)
    decreases |a| + |b|
  {
    (a == [] && b == []) || (At0(a) == At0(b) && Same(Tail(a), Tail(b)))
  }

  predicate AtMost(a: seq<nat>, b: seq<nat>) {
    !Less(b, a)
  }

  /** The release's padded components start with those of `p`. */
  predicate Starts(p: seq<nat>, r: seq<nat>)
    decreases |p|
  {
    p == [] || (At0(r) == p[0] && Starts(p[1..], Tail(r)))
  }

  // ------------------------------------------------------- specifiers

  datatype Operator =
    | Equal | NotEqual | LessThan | LessOrEqual | GreaterThan | GreaterOrEqual | Compatible | Arbitrary

  /** One clause, such as `==1.4.*` (a wildcard) or `~=2.2`. */
  datatype Clause = Clause(operator: Operator, release: Release, wildcard: bool)

  /** What the grammar allows: a wildcard after == and != only, two components after ~=. */
  predicate WellFormed(c: Clause) {
    && (c.wildcard ==> c.operator in {Equal, NotEqual})
    && (c.operator == Compatible ==> |c.release| >= 2)
  }

  predicate Satisfies(c: Clause, r: Release)
    requires WellFormed(c)
  {
    match c.operator
    case Equal => if c.wildcard then Starts(c.release, r) else Same(c.release, r)
    case NotEqual => if c.wildcard then !Starts(c.release, r) else !Same(c.release, r)
    case LessThan => Less(r, c.release)
    case LessOrEqual => AtMost(r, c.release)
    case GreaterThan => Less(c.release, r)
    case GreaterOrEqual => AtMost(c.release, r)
    case Compatible => AtMost(c.release, r) && Starts(c.release[..|c.release| - 1], r)
    case Arbitrary => r == c.release
  }

  // ------------------------------------------------------- the order

  lemma {:induction false} Trichotomy(a: seq<nat>, b: seq<nat>)
    ensures (Less(a, b) && !Less(b, a) && !Same(a, b))
         || (!Less(a, b) && Less(b, a) && !Same(a, b))
         || (!Less(a, b) && !Less(b, a) && Same(a, b))
    decreases |a| + |b|
  {
    if (a != [] || b != []) && At0(a) == At0(b) {
      Trichotomy(Tail(a), Tail(b));
    }
  }

  lemma {:induction false} AtMostIsTransitive(a: seq<nat>, b: seq<nat>, c: seq<nat>)
    requires AtMost(a, b) && AtMost(b, c)
    ensures AtMost(a, c)
    ensures Less(a, b) || Less(b, c) ==> Less(a, c)
    decreases |a| + |b| + |c|
  {
    if (a != [] || b != [] || c != []) && At0(a) == At0(b) == At0(c) {
      AtMostIsTransitive(Tail(a), Tail(b), Tail(c));
    }
    Trichotomy(a, b);
    Trichotomy(b, c);
    Trichotomy(a, c);
  }

  lemma Transitive(a: seq<nat>, b: seq<nat>, c: seq<nat>)
    requires (AtMost(a, b) || Less(a, b)) && (AtMost(b, c) || Less(b, c))
    ensures AtMost(a, c)
    ensures Less(a, b) || Less(b, c) ==> Less(a, c)
  {
    Trichotomy(a, b);
    Trichotomy(b, c);
    AtMostIsTransitive(a, b, c);
  }

  lemma {:induction false} NothingBelowZero(r: seq<nat>, z: seq<nat>)
    requires Same(z, [])
    ensures !Less(r, z)
    decreases |r| + |z|
  {
    if r != [] || z != [] {
      NothingBelowZero(Tail(r), Tail(z));
    }
  }

  /** The first release after every one that starts with `p`. */
  function Next(p: Release): Release {
    p[..|p| - 1] + [p[|p| - 1] + 1]
  }

  /** Matching a prefix is lying in the interval from the prefix up to the next one. */
  lemma {:induction false} PrefixIsInterval(p: Release, r: seq<nat>)
    ensures Starts(p, r) <==> AtMost(p, r) && Less(r, Next(p))
    decreases |p|
  {
    var n := Next(p);
    if |p| == 1 {
      NothingBelowZero(Tail(r), []);
      assert p[1..] == [] && n[1..] == [];
    } else {
      PrefixIsInterval(p[1..], Tail(r));
      assert n[1..] == Next(p[1..]) && n[0] == p[0];
    }
  }

  lemma {:induction false} AppendOneGrows(a: seq<nat>)
    ensures Less(a, a + [1])
  {
    if a != [] {
      AppendOneGrows(a[1..]);
      assert (a + [1])[1..] == a[1..] + [1];
    }
  }

  /** The order is dense: something lies between any two different releases. */
  function Between(a: seq<nat>, b: seq<nat>): (r: Release)
    requires Less(a, b)
    ensures Less(a, r) && Less(r, b)
    decreases |a| + |b|
  {
    if At0(a) != At0(b) then
      AppendOneGrows(Tail(a));
      var r := [At0(a)] + (Tail(a) + [1]);
      assert Tail(r) == Tail(a) + [1];
      r
    else
      var rest := Between(Tail(a), Tail(b));
      assert ([At0(a)] + rest)[1..] == rest;
      [At0(a)] + rest
  }

  lemma {:induction false} SameIsReflexive(a: seq<nat>)
    ensures Same(a, a) && !Less(a, a)
  {
    if a != [] {
      SameIsReflexive(a[1..]);
    }
  }

  lemma {:induction false} SameStarts(z: seq<nat>, r: seq<nat>)
    requires Same(z, [])
    ensures Starts(z, []) && (Same(r, []) ==> Starts(z, r))
    decreases |z|
  {
    if z != [] {
      SameStarts(z[1..], Tail(r));
      SameStarts(z[1..], []);
    }
  }

  /** The release 0 starts with a prefix exactly when that prefix is all zeros. */
  lemma {:induction false} ZeroStarts(p: seq<nat>, r: seq<nat>)
    requires Same(r, [])
    ensures Starts(p, r) <==> Same(p, [])
    decreases |p|
  {
    if p != [] {
      assert r != [] ==> Same(Tail(r), []);
      ZeroStarts(p[1..], Tail(r));
    }
  }
}

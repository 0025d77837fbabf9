/**
  The chain of variables behind a container's tag. The parent relation descends to the global default,
  and the names in between are found by the direct search too, except below a shadowed exception.
*/
module TagHierarchy {
  import opened Prelude
  import opened ParentSearch

  // -----------------------------------------------------------------------------------------------
  // A measure on names
  // -----------------------------------------------------------------------------------------------

  /** The chain from `c` may still hop to a longer name. */
  ghost predicate HopAhead(x: Hops, c: Name) {
    exists k :: 0 <= k <= |c| && c[..k] in x
  }

  ghost function Stage(x: Hops, c: Name): nat {
    if c == OPENSTACK then 0 else if HopAhead(x, c) then 2 else 1
  }

  /** `a` comes before `b`: an earlier stage or, within a stage, a shorter name. */
  ghost predicate Lower(x: Hops, a: Name, b: Name) {
    Stage(x, a) < Stage(x, b) || (Stage(x, a) == Stage(x, b) && |a| < |b|)
  }

  lemma NoHopAfterHop(x: Hops, y: Name, a: Name)
    requires y in x && a <= Target(x, y)
    ensures !HopAhead(x, a)
  {
    forall k | 0 <= k <= |a| && a[..k] in x ensures false {
    }
  }

  /** Every step to a parent goes down, though the hop from `tgtd` to `iscsi` makes the name longer. */
  lemma ParentLower(x: Hops, s: set<Name>, c: Name)
    requires c != OPENSTACK
    ensures Lower(x, Parent(x, s, c), c)
  {
    var z := Parent(x, s, c);
    if z != OPENSTACK {
      if c in x {
        assert c == c[..|c|];
        assert HopAhead(x, c);
        NoHopAfterHop(x, c, z);
      } else if HopAhead(x, z) {
        var k :| 0 <= k <= |z| && z[..k] in x;
        assert z[..k] == c[..k];
      }
    }
  }

  /** The chain of parents, up to the global default. */
  ghost function Chain(x: Hops, s: set<Name>, c: Name): (r: seq<Name>)
    ensures r != [] && r[0] == c && r[|r| - 1] == OPENSTACK
    ensures forall i :: 0 <= i < |r| - 1 ==> r[i] != OPENSTACK && r[i + 1] == Parent(x, s, r[i])
    decreases Stage(x, c), |c|
  {
    if c == OPENSTACK then [c]
    else
      ParentLower(x, s, c);
      [c] + Chain(x, s, Parent(x, s, c))
  }

  lemma {:induction false} DescentBelow(x: Hops, s: set<Name>, r: seq<Name>, i: nat, j: nat)
    requires i < j < |r|
    requires forall k :: 0 <= k < |r| - 1 ==> r[k] != OPENSTACK && r[k + 1] == Parent(x, s, r[k])
    ensures Lower(x, r[j], r[i])
  {
    ParentLower(x, s, r[j - 1]);
    assert r[j] == Parent(x, s, r[j - 1]);
    if i < j - 1 {
      DescentBelow(x, s, r, i, j - 1);
    }
  }

  /** The parent relation has no cycle: no name comes twice in a chain. */
  lemma ChainAcyclic(x: Hops, s: set<Name>, c: Name)
    ensures NoDuplicates(Chain(x, s, c))
  {
    var r := Chain(x, s, c);
    forall i, j | 0 <= i < j < |r| ensures r[i] != r[j] {
      DescentBelow(x, s, r, i, j);
    }
  }

  // -----------------------------------------------------------------------------------------------
  // Searching again from a parent
  // -----------------------------------------------------------------------------------------------

  /** The variable the script takes the tag from, when the names in `s` carry one. */
  ghost function Resolve(x: Hops, s: set<Name>, c: Name): Name {
    if c in s then c else Parent(x, s, c)
  }

  lemma NearestUnique(s: set<Name>, p: Name, k: nat, n: Name)
    requires k <= |p|
    requires n != OPENSTACK ==> 0 < |n| <= k && n == p[..|n|] && n in s
    requires forall j :: (if n == OPENSTACK then 0 else |n|) < j <= k ==> !Candidate(s, p[..j])
    ensures n == Nearest(s, p, k)
  {
    var z := Nearest(s, p, k);
    if n != OPENSTACK && z != OPENSTACK {
      assert |n| == |z|;
    }
  }

  /** A search among fewer names can start from the result of a search among more. */
  lemma SearchAgain(s: set<Name>, m: set<Name>, p: Name, k: nat)
    requires s <= m && k <= |p|
    ensures var z := Nearest(m, p, k);
            Nearest(s, p, k) == if z == OPENSTACK then OPENSTACK else if z in s then z else Above(s, z)
  {
    var z := Nearest(m, p, k);
    if z != OPENSTACK && z !in s {
      var a := Above(s, z);
      forall j | (if a == OPENSTACK then 0 else |a|) < j <= k ensures !Candidate(s, p[..j]) {
        if j < |z| { assert p[..j] == z[..j]; }
      }
      NearestUnique(s, p, k, a);
    } else {
      NearestUnique(s, p, k, z);
    }
  }

  // -----------------------------------------------------------------------------------------------
  // Shadowed exceptions
  // -----------------------------------------------------------------------------------------------

  /** Leaving out the exception, the search above `y` and the hop from `y` meet the same names of `n`. */
  ghost predicate SameAncestors(x: Hops, n: set<Name>, y: Name) {
    forall z :: z in n && z != OPENSTACK ==>
      (ProperPrefix(z, y) <==> Target(x, y) != OPENSTACK && z <= Target(x, y))
  }

  /** An ordinary name extends the exception container `y`. */
  ghost predicate Extended(x: Hops, n: set<Name>, y: Name, v: Name) {
    v in n && v !in x && ProperPrefix(y, v)
  }

  /** Every exception container that some ordinary name extends hops to its own ancestors. */
  ghost predicate NoShadowedException(x: Hops, n: set<Name>) {
    forall v, y :: y in n && y in x && Extended(x, n, y, v) ==> SameAncestors(x, n, y)
  }

  /** No name is cut from "openstack" itself while an exception container falls back to it. */
  ghost predicate NoShadowedDefault(x: Hops, n: set<Name>) {
    forall y, z :: y in n && y in x && Target(x, y) == OPENSTACK && z in n ==> !ProperPrefix(z, OPENSTACK)
  }

  /** Above an exception container that shadows nothing, the plain search agrees with the hop. */
  lemma HopAgrees(x: Hops, n: set<Name>, s: set<Name>, y: Name)
    requires y in x && s <= n && "" !in n && SameAncestors(x, n, y)
    requires Target(x, y) == OPENSTACK && OPENSTACK !in s ==> forall z :: z in n ==> !ProperPrefix(z, OPENSTACK)
    ensures Above(s, y) == Parent(x, s, y)
  {
    var e, a, b := Target(x, y), Above(s, y), Parent(x, s, y);
    if e == OPENSTACK {
      if a != OPENSTACK { assert ProperPrefix(a, y); }
      assert b != OPENSTACK ==> ProperPrefix(b, e);
    } else {
      if b != OPENSTACK { assert b <= e; assert ProperPrefix(b, y); assert b == y[..|b|]; }
      assert e == e[..|e|];
      forall j | (if b == OPENSTACK then 0 else |b|) < j <= |y| - 1 ensures !Candidate(s, y[..j]) {
        assert ProperPrefix(y[..j], y);
        assert y[..j] <= e ==> y[..j] == e[..j];
      }
      NearestUnique(s, y, |y| - 1, b);
    }
  }

  // -----------------------------------------------------------------------------------------------
  // Walking the chain
  // -----------------------------------------------------------------------------------------------

  /**
    Where a chain of variables stops: at the first name that carries a tag (those in `s`), going from
    each name in the tags file (`t`) to its parent in the file, and from any other to its parent in `n`.
  */
  ghost function Walk(x: Hops, n: set<Name>, t: set<Name>, s: set<Name>, c: Name): Name
    decreases Stage(x, c), |c|
  {
    if c in s || c == OPENSTACK then c
    else
      var m := if c in t then t else n;
      ParentLower(x, m, c);
      Walk(x, n, t, s, Parent(x, m, c))
  }

  /** The exception containers that `c` extends shadow nothing. */
  ghost predicate Clear(x: Hops, n: set<Name>, c: Name) {
    c !in x ==> forall y :: y in n && y in x && ProperPrefix(y, c) ==> SameAncestors(x, n, y)
  }

  lemma HopIsNearest(x: Hops, s: set<Name>, c: Name)
    requires c in x && Target(x, c) != OPENSTACK
    ensures Parent(x, s, c) == Nearest(s, Target(x, c), |Target(x, c)|)
  {
    var p := Target(x, c);
    assert p[..|p|] == p;
  }

  lemma ClearAfterHop(x: Hops, n: set<Name>, c: Name, z: Name)
    requires c in x && z <= Target(x, c)
    ensures z !in x && Clear(x, n, z)
  {
    NoHopAfterHop(x, c, z);
    assert z == z[..|z|];
    forall y | y in x ensures !ProperPrefix(y, z) {
      assert |y| <= |z| ==> z[..|y|] !in x;
    }
  }

  /** The direct search may go on from the variable an exception hops to. */
  lemma SearchAfterHop(x: Hops, n: set<Name>, m: set<Name>, s: set<Name>, c: Name)
    requires s <= m <= n && OPENSTACK in m && c in x && c in n && c !in s
    requires OPENSTACK in s || NoShadowedDefault(x, n)
    ensures var z := Parent(x, m, c);
            Resolve(x, s, c) == if z == OPENSTACK then OPENSTACK else Resolve(x, s, z)
  {
    var p, z := Target(x, c), Parent(x, m, c);
    if p == OPENSTACK {
      assert Above(s, p) != OPENSTACK ==> ProperPrefix(Above(s, p), p);
    } else {
      HopIsNearest(x, m, c);
      HopIsNearest(x, s, c);
      SearchAgain(s, m, p, |p|);
      if z != OPENSTACK { ClearAfterHop(x, n, c, z); }
    }
  }

  /** At a proper prefix of `c`, hopping or not makes no difference. */
  lemma PrefixAgrees(x: Hops, n: set<Name>, s: set<Name>, c: Name, z: Name)
    requires s <= n && "" !in n && c !in x && Clear(x, n, c) && (OPENSTACK in s || NoShadowedDefault(x, n))
    requires z in n && ProperPrefix(z, c)
    ensures Parent(x, s, z) == Above(s, z)
  {
    if z in x {
      HopAgrees(x, n, s, z);
    }
  }

  /** The direct search may go on from a proper prefix, unless an exception is shadowed there. */
  lemma SearchAfterPrefix(x: Hops, n: set<Name>, m: set<Name>, s: set<Name>, c: Name)
    requires s <= m <= n && "" !in n && c !in x && c in n && c !in s
    requires Clear(x, n, c) && (OPENSTACK in s || NoShadowedDefault(x, n))
    ensures var z := Parent(x, m, c);
            Resolve(x, s, c) == if z == OPENSTACK then OPENSTACK else Resolve(x, s, z)
  {
    var z := Above(m, c);
    assert Parent(x, m, c) == z && Parent(x, s, c) == Above(s, c);
    SearchAgain(s, m, c, |c| - 1);
    if z != OPENSTACK {
      PrefixAgrees(x, n, s, c, z);
    }
  }

  lemma ClearAfterPrefix(x: Hops, n: set<Name>, c: Name, z: Name)
    requires Clear(x, n, c) && c !in x && ProperPrefix(z, c)
    ensures Clear(x, n, z)
  {
    assert forall y :: ProperPrefix(y, z) ==> ProperPrefix(y, c);
  }

  /** The chain stops at the variable that the direct search finds. */
  lemma {:induction false} WalkResolves(x: Hops, n: set<Name>, t: set<Name>, s: set<Name>, c: Name)
    requires s <= t <= n && OPENSTACK in t && "" !in n && c in n && c != OPENSTACK
    requires Clear(x, n, c) && (OPENSTACK in s || NoShadowedDefault(x, n))
    ensures Walk(x, n, t, s, c) == Resolve(x, s, c)
    decreases Stage(x, c), |c|
  {
    if c !in s {
      var m := if c in t then t else n;
      var z := Parent(x, m, c);
      ParentLower(x, m, c);
      if c in x {
        SearchAfterHop(x, n, m, s, c);
        if z != OPENSTACK { HopIsNearest(x, m, c); ClearAfterHop(x, n, c, z); }
      } else {
        SearchAfterPrefix(x, n, m, s, c);
        if z != OPENSTACK { ClearAfterPrefix(x, n, c, z); }
      }
      if z != OPENSTACK { WalkResolves(x, n, t, s, z); }
    }
  }

  // -----------------------------------------------------------------------------------------------
  // What a shadowed exception breaks
  // -----------------------------------------------------------------------------------------------

  /** With no tags in between, the chain from `c` comes down to the exception container it extends. */
  lemma {:induction false} WalkDown(x: Hops, n: set<Name>, t: set<Name>, y: Name, c: Name)
    requires y in n && y in x && OPENSTACK in t
    requires y <= c && (c == y || c !in x)
    requires forall w :: w in t ==> !(y <= w)
    ensures Walk(x, n, t, t, c) == Walk(x, n, t, t, y)
    decreases Stage(x, c), |c|
  {
    if c != y {
      var z := Above(n, c);
      ParentLower(x, n, c);
      assert y == c[..|y|] && Candidate(n, c[..|y|]);
      assert y <= z;
      WalkDown(x, n, t, y, z);
    }
  }

  /** With only `w` and the default tagged, the chain from `c` and the search end at different ones of the two. */
  ghost predicate Distinguishes(x: Hops, n: set<Name>, w: Name, c: Name) {
    var t := {OPENSTACK, w};
    c != OPENSTACK && w != OPENSTACK &&
    Walk(x, n, t, t, c) in t && Resolve(x, t, c) in t && Walk(x, n, t, t, c) != Resolve(x, t, c)
  }

  /** The search above `c` finds the one tagged name exactly when it is cut from `c`. */
  lemma AboveOne(w: Name, c: Name)
    requires w != OPENSTACK && w != ""
    ensures Above({OPENSTACK, w}, c) == if ProperPrefix(w, c) then w else OPENSTACK
  {
    if ProperPrefix(w, c) {
      assert w == c[..|w|] && Candidate({OPENSTACK, w}, c[..|w|]);
    }
  }

  /** The exception container `y` is resolved to the one tagged name exactly when it hops to it or below it. */
  lemma HopToOne(x: Hops, w: Name, y: Name)
    requires w != OPENSTACK && w != "" && y in x && y != w
    ensures Resolve(x, {OPENSTACK, w}, y) == if Target(x, y) != OPENSTACK && w <= Target(x, y) then w else OPENSTACK
  {
    AboveOne(w, Target(x, y));
  }

  /** Tagging one name besides the default is enough to tell the chain and the search apart. */
  lemma ShadowWitness(x: Hops, n: set<Name>, y: Name, v: Name, w: Name)
    requires OPENSTACK in n && "" !in n
    requires y in n && y in x && Extended(x, n, y, v) && w in n && w != OPENSTACK
    requires !(ProperPrefix(w, y) <==> Target(x, y) != OPENSTACK && w <= Target(x, y))
    ensures Distinguishes(x, n, w, v)
  {
    var t := {OPENSTACK, w};
    assert !(y <= w);
    WalkDown(x, n, t, y, v);
    WalkResolves(x, n, t, t, y);
    AboveOne(w, v);
    HopToOne(x, w, y);
  }

  /** Where an exception is shadowed, there are two such names, with whatever follows from that. */
  lemma ShadowedNames(x: Hops, n: set<Name>, differ: (Name, Name) -> bool) returns (v: Name, w: Name)
    requires OPENSTACK in n && "" !in n
    requires forall c, w :: c in n && w in n && Distinguishes(x, n, w, c) ==> differ(c, w)
    ensures NoShadowedException(x, n) || (v in n && v != OPENSTACK && w in n && w != OPENSTACK && differ(v, w))
  {
    if NoShadowedException(x, n) {
      v, w := OPENSTACK, OPENSTACK;
    } else {
      var y, v' :| y in n && y in x && Extended(x, n, y, v') && !SameAncestors(x, n, y);
      v := v';
      w :| w in n && w != OPENSTACK && !(ProperPrefix(w, y) <==> Target(x, y) != OPENSTACK && w <= Target(x, y));
      ShadowWitness(x, n, y, v, w);
    }
  }

  /** With only `w` tagged, a prefix of the default's name, the chain fails where the search succeeds. */
  lemma DefaultWitness(x: Hops, n: set<Name>, y: Name, w: Name)
    requires OPENSTACK in n && y in n && y in x && Target(x, y) == OPENSTACK
    requires w in n && w != "" && ProperPrefix(w, OPENSTACK)
    ensures Walk(x, n, {OPENSTACK, w}, {w}, y) == OPENSTACK && Resolve(x, {w}, y) == w
  {
    assert !(y <= OPENSTACK) && y != w;
    assert w == OPENSTACK[..|w|] && Candidate({w}, OPENSTACK[..|w|]);
  }

  lemma ShadowedDefaultNames(x: Hops, n: set<Name>) returns (y: Name, w: Name)
    requires OPENSTACK in n && "" !in n && !NoShadowedDefault(x, n)
    ensures y in n && y != OPENSTACK && w in n && w != OPENSTACK
    ensures Walk(x, n, {OPENSTACK, w}, {w}, y) == OPENSTACK && Resolve(x, {w}, y) == w
  {
    y, w :| y in n && y in x && Target(x, y) == OPENSTACK && w in n && ProperPrefix(w, OPENSTACK);
    DefaultWitness(x, n, y, w);
  }
}

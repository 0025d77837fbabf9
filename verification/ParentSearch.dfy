/**
  The search for the parent of a tag variable, on names alone: hop to the variable an exception names,
  or take the longest proper prefix that is available, or fall back to the global default.
*/
module ParentSearch {
  type Name = string

  const OPENSTACK: Name := "openstack"

  /** No hop can follow a hop, and no name that hops extends another one. */
  ghost predicate Sound(x: map<Name, Name>) {
    forall y, z :: y in x && z in x ==> x[z] != "" && !(y <= x[z]) && !(y <= OPENSTACK) && (y <= z ==> y == z)
  }

  /** A table of exceptions: from a container to the variable its tag comes from. */
  type Hops = x: map<Name, Name> | Sound(x) witness map[]

  /** The name whose prefixes are searched for the parent. */
  ghost function Target(x: Hops, c: Name): Name {
    if c in x then x[c] else c
  }

  ghost predicate Candidate(s: set<Name>, n: Name) {
    n in s && n != OPENSTACK
  }

  /** The longest candidate among the non-empty prefixes `p[..1]`, ..., `p[..k]`, or the global default. */
  ghost function Nearest(s: set<Name>, p: Name, k: nat): (n: Name)
    requires k <= |p|
    ensures n != OPENSTACK ==> 0 < |n| <= k && n == p[..|n|] && n in s
    ensures forall j :: (if n == OPENSTACK then 0 else |n|) < j <= k ==> !Candidate(s, p[..j])
  {
    if k == 0 then OPENSTACK
    else if Candidate(s, p[..k]) then p[..k]
    else Nearest(s, p, k - 1)
  }

  /** The nearest candidate among the proper prefixes of `p`. */
  ghost function Above(s: set<Name>, p: Name): Name {
    Nearest(s, p, if p == "" then 0 else |p| - 1)
  }

  /** The parent of `c` when the names in `s` may be used. */
  ghost function Parent(x: Hops, s: set<Name>, c: Name): Name {
    var p := Target(x, c);
    if c in x && p in s then p else Above(s, p)
  }
}

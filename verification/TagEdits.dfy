/** How one override in the tags file bears on the tags of all containers. */
module TagEdits {
  import opened Prelude
  import opened ParentSearch
  import opened KollaTags
  import opened TagValidation
  import opened TagHierarchy
  import opened Deployment

  // -----------------------------------------------------------------------------------------------
  // On names
  // -----------------------------------------------------------------------------------------------

  /** Dropping a candidate sends a search that found it on to the next one up. */
  lemma AboveWithout(s: set<Name>, k: Name, p: Name)
    requires k != OPENSTACK
    ensures Above(s - {k}, p) == if Above(s, p) != k then Above(s, p) else Above(s, k)
  {
    var j := if p == "" then 0 else |p| - 1;
    SearchAgain(s - {k}, s, p, j);
    if Above(s, p) == k {
      var a := Above(s, k);
      assert forall i :: 0 <= i < |k| ==> k[..i] != k;
      NearestUnique(s - {k}, k, |k| - 1, a);
    }
  }

  /** Without the name `k`, containers resolved to `k` go one step further up. */
  lemma ResolveWithout(x: Hops, s: set<Name>, k: Name, c: Name)
    requires k != OPENSTACK
    ensures Resolve(x, s - {k}, c) ==
            if Resolve(x, s, c) != k then Resolve(x, s, c) else if c == k then Parent(x, s, k) else Above(s, k)
  {
    AboveWithout(s, k, Target(x, c));
    AboveWithout(s, k, k);
    assert Above(s, k) != k && Above(s, Target(x, k)) != k;
  }

  /** Adding `k` makes it the variable of `c`, in place of whatever was found before. */
  ghost predicate Captures(x: Hops, s: set<Name>, k: Name, c: Name) {
    || c == k
    || (c !in s && c in x && x[c] == k)
    || (&& c !in s && !(c in x && x[c] in s) && k != "" && ProperPrefix(k, Target(x, c))
        && (Parent(x, s, c) == OPENSTACK || |Parent(x, s, c)| <= |k|))
  }

  lemma ResolveWith(x: Hops, s: set<Name>, k: Name, c: Name)
    requires k != OPENSTACK && k != ""
    ensures Resolve(x, s + {k}, c) == if Captures(x, s, k, c) then k else Resolve(x, s, c)
  {
    var p := Target(x, c);
    if c !in s && c != k && !(c in x && p in s + {k}) && p != "" {
      var n := if Captures(x, s, k, c) then k else Above(s, p);
      assert ProperPrefix(k, p) ==> k == p[..|k|];
      forall j | (if n == OPENSTACK then 0 else |n|) < j <= |p| - 1 ensures !Candidate(s + {k}, p[..j]) {
        assert |p[..j]| == j && ProperPrefix(p[..j], p);
      }
      NearestUnique(s + {k}, p, |p| - 1, n);
    }
  }

  // -----------------------------------------------------------------------------------------------
  // On tags files
  // -----------------------------------------------------------------------------------------------

  /** The file without the tag of `k` for the distro. */
  function Without(tags: KollaImageTags, k: Name, distro: Distro): KollaImageTags
    requires k in tags.entry
  {
    TagVars(tags.order, tags.entry[k := tags.entry[k] - {distro}])
  }

  /** The file with `tag` as the tag of `k` for the distro. */
  function With(tags: KollaImageTags, k: Name, distro: Distro, tag: Tag): KollaImageTags {
    if k in tags.entry then TagVars(tags.order, tags.entry[k := tags.entry[k][distro := tag]])
    else TagVars(tags.order + [k], tags.entry[k := map[distro := tag]])
  }

  /** The tag found by prefix alone, without looking at the exception table. */
  ghost function PrefixTag(tags: KollaImageTags, distro: Distro, k: Name): Result<Tag, TagError> {
    Lookup(tags, Above(Tagged(tags, distro), k), distro)
  }

  /** The tags that `c` is deployed with when the override of `k` is dropped. */
  lemma GetTagWithout(tags: KollaImageTags, distro: Distro, k: Name, c: Name)
    requires Usable(tags) && k in tags.entry && k != OPENSTACK
    ensures var x, s := ExceptionHops(), Tagged(tags, distro);
            GetTag(Without(tags, k, distro), distro, c) ==
            Lookup(tags, if Resolve(x, s, c) != k then Resolve(x, s, c) else if c == k then Parent(x, s, k)
                   else Above(s, k), distro)
  {
    var t := Without(tags, k, distro);
    assert Usable(t);
    assert Tagged(t, distro) == Tagged(tags, distro) - {k};
    GetTagResolves(t, distro, c);
    ResolveWithout(ExceptionHops(), Tagged(tags, distro), k, c);
  }

  /** `c` takes the tag of another variable `k`. */
  ghost predicate TakesTagOf(tags: KollaImageTags, distro: Distro, k: Name, c: Name) {
    c != k && Resolve(ExceptionHops(), Tagged(tags, distro), c) == k
  }

  /** A container that takes the tag of `k` has the tag above `k` once `k` has none, and any other keeps its tag. */
  lemma TagBelow(tags: KollaImageTags, distro: Distro, k: Name, c: Name)
    requires Usable(tags) && k in tags.entry && k != OPENSTACK && distro in tags.entry[k] && c != k
    ensures TakesTagOf(tags, distro, k, c) ==>
              GetTag(tags, distro, c) == Ok(tags.entry[k][distro])
                  && GetTag(Without(tags, k, distro), distro, c) == PrefixTag(tags, distro, k)
    ensures !TakesTagOf(tags, distro, k, c) ==> GetTag(Without(tags, k, distro), distro, c) == GetTag(tags, distro, c)
  {
    GetTagWithout(tags, distro, k, c);
    GetTagResolves(tags, distro, c);
  }

  /** The variable itself has its own tag, and once that is gone its parent's. */
  lemma TagOfDropped(tags: KollaImageTags, distro: Distro, k: Name)
    requires Usable(tags) && k in tags.entry && k != OPENSTACK && distro in tags.entry[k]
    ensures GetTag(tags, distro, k) == Ok(tags.entry[k][distro])
    ensures GetTag(Without(tags, k, distro), distro, k) == ParentTag(tags, distro, k)
  {
    GetTagWithout(tags, distro, k, k);
    ParentTagNameIsParent(tags, Some(distro), k);
  }

  /** Dropping the override of `k` changes the tag of no container in `n`. */
  ghost predicate Unchanged(tags: KollaImageTags, distro: Distro, k: Name, n: iset<Name>)
    requires k in tags.entry
  {
    forall c :: c in n ==> GetTag(Without(tags, k, distro), distro, c) == GetTag(tags, distro, c)
  }

  /**
    Among the containers in `n`, the override of `k` gives nothing that would not be found without it: `k` has its
    parent's tag and, where another container takes the tag of `k`, that is the tag of its prefix too.
  */
  ghost predicate Redundant(tags: KollaImageTags, distro: Distro, k: Name, n: iset<Name>)
    requires k in tags.entry && distro in tags.entry[k]
  {
    var own := Ok(tags.entry[k][distro]);
    && (k in n ==> ParentTag(tags, distro, k) == own)
    && ((exists c :: c in n && TakesTagOf(tags, distro, k, c)) ==> PrefixTag(tags, distro, k) == own)
  }

  /**
    Dropping the override of `k` changes no container's tag exactly when it is redundant, for any set of containers.
  */
  lemma RedundantOverrideIff(tags: KollaImageTags, distro: Distro, k: Name, n: iset<Name>)
    requires Usable(tags) && k in tags.entry && k != OPENSTACK && distro in tags.entry[k]
    ensures Unchanged(tags, distro, k, n) <==> Redundant(tags, distro, k, n)
  {
    TagOfDropped(tags, distro, k);
    forall c | c in n && c != k
      ensures GetTag(Without(tags, k, distro), distro, c) == GetTag(tags, distro, c)
              <==> (TakesTagOf(tags, distro, k, c) ==> PrefixTag(tags, distro, k) == Ok(tags.entry[k][distro]))
    {
      TagBelow(tags, distro, k, c);
    }
  }

  /** For an ordinary variable it is its parent's tag that decides, if any container uses the override at all. */
  lemma OrdinaryOverrideIff(tags: KollaImageTags, distro: Distro, k: Name, n: iset<Name>)
    requires Usable(tags) && k in tags.entry && k != OPENSTACK && distro in tags.entry[k] && !IsException(k)
    ensures Unchanged(tags, distro, k, n)
       <==> (k in n || (exists c :: c in n && TakesTagOf(tags, distro, k, c))
             ==> ParentTag(tags, distro, k) == Ok(tags.entry[k][distro]))
  {
    RedundantOverrideIff(tags, distro, k, n);
    ParentTagNameIsParent(tags, Some(distro), k);
  }

  lemma LookupWith(tags: KollaImageTags, distro: Distro, k: Name, tag: Tag, n: Name)
    ensures Lookup(With(tags, k, distro, tag), n, distro).Ok? <==> n == k || Lookup(tags, n, distro).Ok?
    ensures n != k ==> Lookup(With(tags, k, distro, tag), n, distro) == Lookup(tags, n, distro)
    ensures n == k ==> Lookup(With(tags, k, distro, tag), n, distro) == Ok(tag)
    ensures Tagged(With(tags, k, distro, tag), distro) == Tagged(tags, distro) + {k}
  {
  }

  /** With the tag of `k` set, a container's tag is that of the variable found among the tagged ones and `k`. */
  lemma GetTagWith(tags: KollaImageTags, distro: Distro, k: Name, tag: Tag, c: Name)
    requires Usable(With(tags, k, distro, tag))
    ensures var n := Resolve(ExceptionHops(), Tagged(tags, distro) + {k}, c);
            GetTag(With(tags, k, distro, tag), distro, c) == if n == k then Ok(tag) else Lookup(tags, n, distro)
  {
    GetTagResolves(With(tags, k, distro, tag), distro, c);
    LookupWith(tags, distro, k, tag, Resolve(ExceptionHops(), Tagged(tags, distro) + {k}, c));
  }

  /** Setting the tag of `k` gives it to exactly the containers that `k` captures. */
  lemma OverrideReaches(tags: KollaImageTags, distro: Distro, k: Name, tag: Tag, c: Name)
    requires Usable(tags) && Usable(With(tags, k, distro, tag)) && k != OPENSTACK
    ensures GetTag(With(tags, k, distro, tag), distro, c) ==
            if Captures(ExceptionHops(), Tagged(tags, distro), k, c) then Ok(tag) else GetTag(tags, distro, c)
  {
    GetTagWith(tags, distro, k, tag, c);
    GetTagResolves(tags, distro, c);
    ResolveWith(ExceptionHops(), Tagged(tags, distro), k, c);
  }
}

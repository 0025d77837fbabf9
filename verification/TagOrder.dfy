/** When the parent of a container does not depend on the order of the keys in the tags file. */
module TagOrder {
  import opened Prelude
  import opened StableSort
  import opened ParentSearch
  import opened KollaTags

  /** The empty key is a proper prefix of every other name, and sorts level with the default. */
  predicate EmptyKeyMatches(tags: TagVars, distro: Option<Distro>, c: Name) {
    PrefixVar(c) != "" && Carries(tags, distro, "")
  }

  /** A prefix variable or a non-empty prefix is found, or at most one key is left to fall back to. */
  ghost predicate Determined(tags: TagVars, distro: Option<Distro>, c: Name) {
    || (IsException(c) && Carries(tags, distro, PrefixVar(c)))
    || Above(Carriers(tags, distro), PrefixVar(c)) != OPENSTACK
    || (if OPENSTACK in tags.entry || EmptyKeyMatches(tags, distro, c)
        then !(OPENSTACK in tags.entry && EmptyKeyMatches(tags, distro, c))
        else |tags.order| <= 1)
  }

  ghost predicate LeastKey(tags: TagVars, distro: Option<Distro>, p: Name, n: Name) {
    n in tags.entry && forall m :: m in tags.entry ==> TagKey(tags, distro, p, n) <= TagKey(tags, distro, p, m)
  }

  /** The first sorted key has the least sort key. */
  lemma SortedHeadLeast(tags: KollaImageTags, distro: Option<Distro>, p: Name)
    requires tags.order != []
    ensures LeastKey(tags, distro, p, Sort(tags.order, n => TagKey(tags, distro, p, n))[0])
  {
    var key := n => TagKey(tags, distro, p, n);
    var i := SortHead(tags.order, key);
    assert tags.order[i] in tags.order;
    forall m | m in tags.entry ensures key(tags.order[i]) <= key(m) {
      assert m in tags.order;
    }
  }

  lemma FrontOrder<T>(s: seq<T>, x: T) returns (front: seq<T>)
    requires x in s && NoDuplicates(s)
    ensures front != [] && front[0] == x && NoDuplicates(front) && forall y :: y in front <==> y in s
  {
    var i :| 0 <= i < |s| && s[i] == x;
    front := [x] + (s[..i] + s[i + 1..]);
    assert s == s[..i] + ([x] + s[i + 1..]);
  }

  /** Any key may come first. */
  lemma MovedToFront(tags: KollaImageTags, n: Name) returns (t: KollaImageTags)
    requires n in tags.order
    ensures t.entry == tags.entry && t.order != [] && t.order[0] == n
  {
    var front := FrontOrder(tags.order, n);
    assert TagVars(front, tags.entry).WellFormed();
    t := TagVars(front, tags.entry);
  }

  /** A key that comes first and has the least sort key is the one returned. */
  lemma FrontWins(tags: KollaImageTags, distro: Option<Distro>, c: Name)
    requires tags.order != [] && LeastKey(tags, distro, PrefixVar(c), tags.order[0])
    requires !(IsException(c) && Carries(tags, distro, PrefixVar(c)))
    ensures ParentTagName(tags, distro, c) == Ok(tags.order[0])
  {
    var key := n => TagKey(tags, distro, PrefixVar(c), n);
    var i := SortHead(tags.order, key);
    assert tags.order[i] in tags.order;
    assert key(tags.order[0]) <= key(tags.order[i]);
  }

  /** Two names with the same least sort key: the fall-back is ambiguous. */
  lemma TiedKeys(tags: KollaImageTags, distro: Option<Distro>, c: Name) returns (a: Name, b: Name)
    requires !Determined(tags, distro, c)
    ensures a != b && LeastKey(tags, distro, PrefixVar(c), a) && LeastKey(tags, distro, PrefixVar(c), b)
  {
    var s, p := Carriers(tags, distro), PrefixVar(c);
    if OPENSTACK in tags.entry {
      a, b := OPENSTACK, "";
    } else {
      a, b := tags.order[0], tags.order[1];
      assert a in tags.order && b in tags.order;
    }
    forall m | m in tags.entry
        ensures TagKey(tags, distro, p, m) >= TagKey(tags, distro, p, a) == TagKey(tags, distro, p, b) {
      NoCandidate(tags, distro, p, m);
      NoCandidate(tags, distro, p, a);
      NoCandidate(tags, distro, p, b);
    }
  }

  lemma NoCandidate(tags: TagVars, distro: Option<Distro>, p: Name, m: Name)
    requires Above(Carriers(tags, distro), p) == OPENSTACK && m in tags.entry
    ensures TagKey(tags, distro, p, m) == if m == OPENSTACK || (m == "" && p != "" && Carries(tags, distro, m)) then 0
            else 1
  {
    if m != OPENSTACK && ProperPrefix(m, p) && m != "" {
      assert m == p[..|m|];
    }
  }

  lemma LeastKeyUnique(tags: KollaImageTags, distro: Option<Distro>, c: Name, a: Name, b: Name)
    requires Determined(tags, distro, c) && !(IsException(c) && Carries(tags, distro, PrefixVar(c)))
    requires LeastKey(tags, distro, PrefixVar(c), a) && LeastKey(tags, distro, PrefixVar(c), b)
    ensures a == b
  {
    var s, p := Carriers(tags, distro), PrefixVar(c);
    var z := Above(s, p);
    if z != OPENSTACK {
      assert TagKey(tags, distro, p, z) == -|z|;
      assert a == p[..|a|] && b == p[..|b|];
    } else {
      NoCandidate(tags, distro, p, a);
      NoCandidate(tags, distro, p, b);
      if !(OPENSTACK in tags.entry) && !EmptyKeyMatches(tags, distro, c) {
        assert a in tags.order && b in tags.order;
      } else {
        var zero := if OPENSTACK in tags.entry then OPENSTACK else "";
        NoCandidate(tags, distro, p, zero);
      }
    }
  }

  /** Reordering the file leaves the parent unchanged exactly when the parent is determined. */
  lemma OrderIndependentIff(tags: KollaImageTags, distro: Option<Distro>, c: Name)
    ensures (forall t: KollaImageTags :: t.entry == tags.entry ==>
               ParentTagName(t, distro, c) == ParentTagName(tags, distro, c))
            <==> Determined(tags, distro, c)
  {
    if Determined(tags, distro, c) {
      forall t: KollaImageTags | t.entry == tags.entry
        ensures ParentTagName(t, distro, c) == ParentTagName(tags, distro, c)
      {
        SameSortedHead(tags, t, distro, c);
      }
    } else {
      UndeterminedDiffers(tags, distro, c);
    }
  }

  lemma UndeterminedDiffers(tags: KollaImageTags, distro: Option<Distro>, c: Name)
    requires !Determined(tags, distro, c)
    ensures exists t: KollaImageTags ::
              t.entry == tags.entry && ParentTagName(t, distro, c) != ParentTagName(tags, distro, c)
  {
    var a, b := TiedKeys(tags, distro, c);
    assert a in tags.order && b in tags.order;
    var ta := MovedToFront(tags, a);
    var tb := MovedToFront(tags, b);
    FrontWins(ta, distro, c);
    FrontWins(tb, distro, c);
    assert ParentTagName(ta, distro, c) != ParentTagName(tb, distro, c);
  }

  lemma NoKeys(tags: KollaImageTags)
    ensures tags.order == [] <==> tags.entry.Keys == {}
  {
    if tags.order != [] {
      assert tags.order[0] in tags.order;
    }
  }

  lemma SameSortedHead(tags: KollaImageTags, t: KollaImageTags, distro: Option<Distro>, c: Name)
    requires t.entry == tags.entry && Determined(tags, distro, c)
    ensures ParentTagName(t, distro, c) == ParentTagName(tags, distro, c)
  {
    var p := PrefixVar(c);
    NoKeys(tags);
    NoKeys(t);
    if tags.order != [] && !(IsException(c) && Carries(tags, distro, p)) {
      SortedHeadLeast(tags, distro, p);
      SortedHeadLeast(t, distro, p);
      LeastKeyUnique(tags, distro, c, Sort(tags.order, n => TagKey(tags, distro, p, n))[0],
                     Sort(t.order, n => TagKey(t, distro, p, n))[0]);
    }
  }
}

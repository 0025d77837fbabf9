/** When the deployed tag is the tag that the script checks, lists and syncs. */
module DeployAgreement {
  import opened Prelude
  import opened ParentSearch
  import opened KollaTags
  import opened TagValidation
  import opened TagHierarchy
  import opened Deployment

  /** A hierarchy that `check_hierarchy` accepts; its variable names are not empty. */
  ghost predicate Checked(h: Hierarchy) {
    Accepted(h) && "" !in h.parent
  }

  ghost predicate Agrees(h: Hierarchy, tags: KollaImageTags, distro: Distro, c: Name)
    requires Checked(h) && Overrides(h, tags)
  {
    DeployTag(h, tags, distro, c) == ToOption(GetTag(tags, distro, c))
  }

  type Pattern = (Distro, Tag) -> bool

  /**
    For every file that passes `validate` with a default tag for the distro, every container gets the same tag both
    ways.
  */
  ghost predicate AlwaysAgrees(h: Hierarchy, tagMatches: Pattern, distro: Distro)
    requires Checked(h)
  {
    forall tags: KollaImageTags, c ::
      Overrides(h, tags) && Validated(tags, tagMatches) && distro in tags.entry[OPENSTACK]
      && c in h.parent && c != OPENSTACK
      ==> Agrees(h, tags, distro, c)
  }

  /**
    For every file that passes `validate`, every container gets the same tag both ways, or neither way gives it a tag.
  */
  ghost predicate AlwaysAgreesOrBothFail(h: Hierarchy, tagMatches: Pattern, distro: Distro)
    requires Checked(h)
  {
    forall tags: KollaImageTags, c ::
      Overrides(h, tags) && Validated(tags, tagMatches) && c in h.parent && c != OPENSTACK
      ==> Agrees(h, tags, distro, c)
  }

  lemma AgreesOnNames(h: Hierarchy, tags: KollaImageTags, distro: Distro, c: Name)
    requires Checked(h) && Overrides(h, tags) && c in h.parent
    ensures var x, s := ExceptionHops(), Tagged(tags, distro);
            Agrees(h, tags, distro, c) <==>
            ToOption(Lookup(tags, Walk(x, Names(h), tags.entry.Keys, s, c), distro))
            == ToOption(Lookup(tags, Resolve(x, s, c), distro))
  {
    DeployTagWalks(h, tags, distro, c);
    GetTagResolves(tags, distro, c);
  }

  lemma NoShadowAgrees(h: Hierarchy, tags: KollaImageTags, distro: Distro, c: Name)
    requires Checked(h) && Overrides(h, tags) && c in h.parent && c != OPENSTACK
    requires NoShadowedException(ExceptionHops(), Names(h))
    requires distro in tags.entry[OPENSTACK] || NoShadowedDefault(ExceptionHops(), Names(h))
    ensures Agrees(h, tags, distro, c)
  {
    var x, n, s := ExceptionHops(), Names(h), Tagged(tags, distro);
    forall y | c !in x && y in n && y in x && ProperPrefix(y, c) ensures SameAncestors(x, n, y) {
      assert Extended(x, n, y, c);
    }
    AgreesOnNames(h, tags, distro, c);
    WalkResolves(x, n, tags.entry.Keys, s, c);
  }

  /** A tags file with the default and one other variable. */
  function TwoVars(n: Name, default: map<Distro, Tag>, own: map<Distro, Tag>): KollaImageTags
    requires n != OPENSTACK
  {
    TagVars([OPENSTACK, n], map[OPENSTACK := default, n := own])
  }

  /** Every name is a match of `[a-z0-9_]+`, as the names taken from Kolla Ansible's variables are. */
  ghost predicate PlainNames(h: Hierarchy) {
    forall n :: n in h.parent ==> n != "" && AllNameChars(n)
  }

  /** Every distro is supported and every tag matches its pattern. */
  ghost predicate GoodEntries(entries: map<Distro, Tag>, tagMatches: Pattern) {
    forall d :: d in entries ==> d in SUPPORTED_BASE_DISTROS && entries[d] != "" && tagMatches(d, entries[d])
  }

  lemma GoodNames(n: Name)
    requires n != "" && AllNameChars(n)
    ensures KeyMatches(n) && ':' !in n && '\'' !in n
    ensures KeyMatches(OPENSTACK) && ':' !in OPENSTACK && '\'' !in OPENSTACK
  {
    KeyWithoutSigns(n);
    assert AllNameChars(OPENSTACK);
    KeyWithoutSigns(OPENSTACK);
  }

  lemma GoodVars(tagMatches: Pattern, n: Name, default: map<Distro, Tag>, own: map<Distro, Tag>)
    requires n != OPENSTACK && n != "" && AllNameChars(n)
    requires GoodEntries(default, tagMatches) && GoodEntries(own, tagMatches)
    ensures Usable(TwoVars(n, default, own)) && Validated(TwoVars(n, default, own), tagMatches)
  {
    GoodNames(n);
  }

  /** A file of two variables with good entries passes `validate`, and overrides variables of the hierarchy. */
  lemma TwoVarsValidated(h: Hierarchy, tagMatches: Pattern, n: Name, default: map<Distro, Tag>, own: map<Distro, Tag>)
    requires PlainNames(h) && n in h.parent && n != OPENSTACK
    requires GoodEntries(default, tagMatches) && GoodEntries(own, tagMatches)
    ensures Overrides(h, TwoVars(n, default, own)) && Validated(TwoVars(n, default, own), tagMatches)
  {
    GoodVars(tagMatches, n, default, own);
  }

  lemma TwoVarsTagged(w: Name, distro: Distro, default: map<Distro, Tag>, b: Tag)
    requires w != OPENSTACK && (distro in default ==> default[distro] != b)
    ensures var tags := TwoVars(w, default, map[distro := b]);
            && tags.entry.Keys == {OPENSTACK, w}
            && Tagged(tags, distro) == (if distro in default then {OPENSTACK, w} else {w})
            && ToOption(Lookup(tags, OPENSTACK, distro)) != ToOption(Lookup(tags, w, distro)) == Some(b)
  {
  }

  /** With `a` as the default and `b` as the tag of `w`, the file passes `validate` and `c` gets different tags. */
  ghost predicate Differ(h: Hierarchy, tagMatches: Pattern, distro: Distro, a: Tag, b: Tag, c: Name, w: Name) {
    w != OPENSTACK && Checked(h) &&
    var tags := TwoVars(w, map[distro := a], map[distro := b]);
    Overrides(h, tags) && Validated(tags, tagMatches) && !Agrees(h, tags, distro, c)
  }

  /** A container resolved to one of two tagged variables by Ansible and to the other by the script. */
  lemma DifferentVarsDiffer(h: Hierarchy, tagMatches: Pattern, distro: Distro, a: Tag, b: Tag, c: Name, w: Name)
    requires Checked(h) && PlainNames(h) && TwoTags(tagMatches, distro, a, b)
    requires w in Names(h) && c in Names(h) && Distinguishes(ExceptionHops(), Names(h), w, c)
    ensures Differ(h, tagMatches, distro, a, b, c, w)
  {
    TwoVarsValidated(h, tagMatches, w, map[distro := a], map[distro := b]);
    TwoVarsTagged(w, distro, map[distro := a], b);
    AgreesOnNames(h, TwoVars(w, map[distro := a], map[distro := b]), distro, c);
  }

  lemma DistinguishedDiffer(h: Hierarchy, tagMatches: Pattern, distro: Distro, a: Tag, b: Tag)
    requires Checked(h) && PlainNames(h) && TwoTags(tagMatches, distro, a, b)
    ensures forall c, w :: c in Names(h) && w in Names(h) && Distinguishes(ExceptionHops(), Names(h), w, c)
              ==> Differ(h, tagMatches, distro, a, b, c, w)
  {
    forall c, w | c in Names(h) && w in Names(h) && Distinguishes(ExceptionHops(), Names(h), w, c)
      ensures Differ(h, tagMatches, distro, a, b, c, w)
    {
      DifferentVarsDiffer(h, tagMatches, distro, a, b, c, w);
    }
  }

  /** Where an exception is shadowed, two variables of which one is tagged, so that the other gets different tags. */
  lemma ShadowedVars(h: Hierarchy, tagMatches: Pattern, distro: Distro, a: Tag, b: Tag) returns (c: Name, w: Name)
    requires Checked(h) && PlainNames(h) && TwoTags(tagMatches, distro, a, b)
    ensures NoShadowedException(ExceptionHops(), Names(h))
            || (c in Names(h) && c != OPENSTACK && w != OPENSTACK && Differ(h, tagMatches, distro, a, b, c, w))
  {
    DistinguishedDiffer(h, tagMatches, distro, a, b);
    c, w := ShadowedNames(ExceptionHops(), Names(h), (c, w) => Differ(h, tagMatches, distro, a, b, c, w));
  }

  /** A shadowed exception container makes the two tags differ for some tags file that passes `validate`. */
  lemma ShadowedExceptionDiffers(h: Hierarchy, tagMatches: Pattern, distro: Distro, a: Tag, b: Tag)
    returns (tags: KollaImageTags, c: Name)
    requires Checked(h) && PlainNames(h) && TwoTags(tagMatches, distro, a, b)
    requires !NoShadowedException(ExceptionHops(), Names(h))
    ensures Overrides(h, tags) && Validated(tags, tagMatches) && distro in tags.entry[OPENSTACK] && c in h.parent
            && c != OPENSTACK
    ensures !Agrees(h, tags, distro, c)
  {
    var v, w := ShadowedVars(h, tagMatches, distro, a, b);
    tags, c := TwoVars(w, map[distro := a], map[distro := b]), v;
  }

  lemma DefaultlessDiffers(h: Hierarchy, tagMatches: Pattern, distro: Distro, b: Tag, w: Name, y: Name)
    requires Checked(h) && PlainNames(h) && w in h.parent && w != OPENSTACK && y in h.parent
    requires distro in SUPPORTED_BASE_DISTROS && b != "" && tagMatches(distro, b)
    requires var x := ExceptionHops();
             Walk(x, Names(h), {OPENSTACK, w}, {w}, y) == OPENSTACK && Resolve(x, {w}, y) == w
    ensures var tags := TwoVars(w, map[], map[distro := b]);
            Overrides(h, tags) && Validated(tags, tagMatches) && !Agrees(h, tags, distro, y)
  {
    TwoVarsValidated(h, tagMatches, w, map[], map[distro := b]);
    TwoVarsTagged(w, distro, map[], b);
    AgreesOnNames(h, TwoVars(w, map[], map[distro := b]), distro, y);
  }

  /** Without a default tag, a name cut from "openstack" is found by the script but not by Ansible. */
  lemma ShadowedDefaultDiffers(h: Hierarchy, tagMatches: Pattern, distro: Distro, a: Tag, b: Tag)
    returns (tags: KollaImageTags, c: Name)
    requires Checked(h) && PlainNames(h) && TwoTags(tagMatches, distro, a, b)
    requires !NoShadowedDefault(ExceptionHops(), Names(h))
    ensures Overrides(h, tags) && Validated(tags, tagMatches) && c in h.parent && c != OPENSTACK
            && !Agrees(h, tags, distro, c)
  {
    var y, w := ShadowedDefaultNames(ExceptionHops(), Names(h));
    tags, c := TwoVars(w, map[], map[distro := b]), y;
    DefaultlessDiffers(h, tagMatches, distro, b, w, y);
  }

  /** Deploy-time resolution is the script's resolution exactly when no exception container is shadowed. */
  lemma DeployAgreesIff(h: Hierarchy, tagMatches: Pattern, distro: Distro, a: Tag, b: Tag)
    requires Checked(h) && PlainNames(h) && TwoTags(tagMatches, distro, a, b)
    ensures AlwaysAgrees(h, tagMatches, distro) <==> NoShadowedException(ExceptionHops(), Names(h))
  {
    if NoShadowedException(ExceptionHops(), Names(h)) {
      forall tags: KollaImageTags, c | Overrides(h, tags) && distro in tags.entry[OPENSTACK] && c in h.parent
          && c != OPENSTACK
        ensures Agrees(h, tags, distro, c)
      {
        NoShadowAgrees(h, tags, distro, c);
      }
    } else {
      var tags, c := ShadowedExceptionDiffers(h, tagMatches, distro, a, b);
    }
  }

  /** The same for files whose default may lack the distro, where both ways must then fail together. */
  lemma DeployAgreesOrBothFailIff(h: Hierarchy, tagMatches: Pattern, distro: Distro, a: Tag, b: Tag)
    requires Checked(h) && PlainNames(h) && TwoTags(tagMatches, distro, a, b)
    ensures AlwaysAgreesOrBothFail(h, tagMatches, distro)
       <==> NoShadowedException(ExceptionHops(), Names(h)) && NoShadowedDefault(ExceptionHops(), Names(h))
  {
    var x, n := ExceptionHops(), Names(h);
    if !NoShadowedDefault(x, n) {
      var tags, c := ShadowedDefaultDiffers(h, tagMatches, distro, a, b);
    } else if !NoShadowedException(x, n) {
      var tags, c := ShadowedExceptionDiffers(h, tagMatches, distro, a, b);
    } else {
      forall tags: KollaImageTags, c | Overrides(h, tags) && c in h.parent && c != OPENSTACK
        ensures Agrees(h, tags, distro, c)
      {
        NoShadowAgrees(h, tags, distro, c);
      }
    }
  }
}

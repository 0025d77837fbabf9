/** Concrete inputs: tags that differ between Ansible and the script, and an override that matters below. */
module DeployExample {
  import opened Prelude
  import opened ParentSearch
  import opened KollaTags
  import opened TagValidation
  import opened TagHierarchy
  import opened Deployment
  import opened DeployAgreement
  import opened TagEdits

  const EXTENDED: Name := "tgtd_x"

  /** A container named after the exception container `tgtd`, which takes its tag from `iscsi`. */
  const EXAMPLE: Hierarchy :=
    RoleDefaults(["iscsi", "tgtd", EXTENDED], map["iscsi" := OPENSTACK, "tgtd" := "iscsi", EXTENDED := "tgtd"])

  ghost const EXAMPLE_NAMES: set<Name> := {OPENSTACK, "iscsi", "tgtd", EXTENDED}

  lemma ExampleHop()
    ensures "tgtd" in ExceptionHops() && ExceptionHops()["tgtd"] == "iscsi"
    ensures "iscsi" !in ExceptionHops() && EXTENDED !in ExceptionHops() && OPENSTACK !in ExceptionHops()
  {
  }

  lemma ExampleParents(x: Hops)
    requires "tgtd" in x && x["tgtd"] == "iscsi" && "iscsi" !in x && EXTENDED !in x
    ensures Parent(x, EXAMPLE_NAMES, "iscsi") == OPENSTACK
    ensures Parent(x, EXAMPLE_NAMES, "tgtd") == "iscsi"
    ensures Parent(x, EXAMPLE_NAMES, EXTENDED) == "tgtd"
  {
    assert EXTENDED[..4] == "tgtd";
    forall j | 0 < j <= 4 ensures !Candidate(EXAMPLE_NAMES, "iscsi"[..j]) { assert "iscsi"[..j][0] == 'i'; }
    NearestUnique(EXAMPLE_NAMES, "iscsi", 4, OPENSTACK);
    NearestUnique(EXAMPLE_NAMES, EXTENDED, 5, "tgtd");
  }

  lemma ParentsAccepted(h: Hierarchy)
    requires "" !in h.parent && forall n :: n in h.parent ==> h.parent[n] == Parent(ExceptionHops(), Names(h), n)
    ensures Checked(h)
  {
    CarriersOfAll(AsTags(h));
    forall e ensures !IsMismatch(h, FoundParent(h), e) {
      ParentTagNameIsParent(AsTags(h), None, e.n);
    }
  }

  /** Tags for `openstack` and `iscsi` only: the chain hops to `iscsi`, the search falls back to `openstack`. */
  lemma ExampleEnds(x: Hops)
    requires "tgtd" in x && x["tgtd"] == "iscsi" && "iscsi" !in x && EXTENDED !in x
    ensures Walk(x, EXAMPLE_NAMES, {OPENSTACK, "iscsi"}, {OPENSTACK, "iscsi"}, EXTENDED) == "iscsi"
    ensures Resolve(x, {OPENSTACK, "iscsi"}, EXTENDED) == OPENSTACK
  {
    var t := {OPENSTACK, "iscsi"};
    assert EXTENDED[..4] == "tgtd";
    WalkDown(x, EXAMPLE_NAMES, t, "tgtd", EXTENDED);
    WalkResolves(x, EXAMPLE_NAMES, t, t, "tgtd");
    forall j | 0 < j <= 5 ensures !Candidate(t, EXTENDED[..j]) { assert EXTENDED[..j][0] == 't'; }
    NearestUnique(t, EXTENDED, 5, OPENSTACK);
  }

  lemma ExampleChecked()
    ensures Checked(EXAMPLE) && PlainNames(EXAMPLE) && Names(EXAMPLE) == EXAMPLE_NAMES
  {
    assert Names(EXAMPLE) == EXAMPLE_NAMES;
    ExampleHop();
    ExampleParents(ExceptionHops());
    ParentsAccepted(EXAMPLE);
  }

  /** The two tags are those of the variables where the chain and the search end. */
  lemma TagsAtEnds(h: Hierarchy, tags: KollaImageTags, distro: Distro, c: Name, n: set<Name>, t: set<Name>,
                   s: set<Name>)
    requires Checked(h) && Overrides(h, tags) && c in h.parent
    requires n == Names(h) && t == tags.entry.Keys && s == Tagged(tags, distro)
    ensures DeployTag(h, tags, distro, c) == ToOption(Lookup(tags, Walk(ExceptionHops(), n, t, s, c), distro))
    ensures GetTag(tags, distro, c) == Lookup(tags, Resolve(ExceptionHops(), s, c), distro)
  {
    DeployTagWalks(h, tags, distro, c);
    GetTagResolves(tags, distro, c);
  }

  /** The hierarchy is accepted and the tags file passes `validate`, and still Ansible and the script disagree. */
  lemma AcceptedHierarchyDisagrees(tagMatches: Pattern, distro: Distro, a: Tag, b: Tag)
    requires TwoTags(tagMatches, distro, a, b)
    ensures var tags := TwoVars("iscsi", map[distro := a], map[distro := b]);
            && Checked(EXAMPLE) && Overrides(EXAMPLE, tags) && Validated(tags, tagMatches)
            && DeployTag(EXAMPLE, tags, distro, EXTENDED) == Some(b)
            && GetTag(tags, distro, EXTENDED) == Ok(a)
  {
    var tags := TwoVars("iscsi", map[distro := a], map[distro := b]);
    ExampleChecked();
    TwoVarsValidated(EXAMPLE, tagMatches, "iscsi", map[distro := a], map[distro := b]);
    TwoVarsTagged("iscsi", distro, map[distro := a], b);
    ExampleHop();
    ExampleEnds(ExceptionHops());
    TagsAtEnds(EXAMPLE, tags, distro, EXTENDED, EXAMPLE_NAMES, {OPENSTACK, "iscsi"}, {OPENSTACK, "iscsi"});
  }

  // -----------------------------------------------------------------------------------------------
  // Without a default tag
  // -----------------------------------------------------------------------------------------------

  const SENTINEL: Name := "redis_sentinel"

  /** A variable cut from "openstack", beside the exception container that falls back to `openstack`. */
  const CUT_EXAMPLE: Hierarchy := RoleDefaults(["open", SENTINEL], map["open" := OPENSTACK, SENTINEL := OPENSTACK])

  ghost const CUT_NAMES: set<Name> := {OPENSTACK, "open", SENTINEL}

  lemma CutHop()
    ensures SENTINEL in ExceptionHops() && ExceptionHops()[SENTINEL] == OPENSTACK && "open" !in ExceptionHops()
  {
  }

  lemma CutParents(x: Hops)
    requires SENTINEL in x && x[SENTINEL] == OPENSTACK && "open" !in x
    ensures Parent(x, CUT_NAMES, "open") == OPENSTACK && Parent(x, CUT_NAMES, SENTINEL) == OPENSTACK
  {
    forall j | 0 < j <= 3 ensures !Candidate(CUT_NAMES, "open"[..j]) {}
    NearestUnique(CUT_NAMES, "open", 3, OPENSTACK);
  }

  lemma CutChecked()
    ensures Checked(CUT_EXAMPLE) && PlainNames(CUT_EXAMPLE) && Names(CUT_EXAMPLE) == CUT_NAMES
  {
    assert Names(CUT_EXAMPLE) == CUT_NAMES;
    CutHop();
    CutParents(ExceptionHops());
    ParentsAccepted(CUT_EXAMPLE);
  }

  lemma CutEnds(x: Hops)
    requires SENTINEL in x && x[SENTINEL] == OPENSTACK
    ensures Walk(x, CUT_NAMES, {OPENSTACK, "open"}, {"open"}, SENTINEL) == OPENSTACK
            && Resolve(x, {"open"}, SENTINEL) == "open"
  {
    assert OPENSTACK[..4] == "open";
    DefaultWitness(x, CUT_NAMES, SENTINEL, "open");
  }

  /** With no default tag for the distro, the script finds a tag that Ansible does not. */
  lemma DefaultlessFileDisagrees(tagMatches: Pattern, distro: Distro, a: Tag, b: Tag)
    requires TwoTags(tagMatches, distro, a, b)
    ensures var tags := TwoVars("open", map[], map[distro := b]);
            && Checked(CUT_EXAMPLE) && Overrides(CUT_EXAMPLE, tags) && Validated(tags, tagMatches)
            && DeployTag(CUT_EXAMPLE, tags, distro, SENTINEL) == None
            && GetTag(tags, distro, SENTINEL) == Ok(b)
  {
    var tags := TwoVars("open", map[], map[distro := b]);
    CutChecked();
    TwoVarsValidated(CUT_EXAMPLE, tagMatches, "open", map[], map[distro := b]);
    TwoVarsTagged("open", distro, map[], b);
    CutHop();
    CutEnds(ExceptionHops());
    TagsAtEnds(CUT_EXAMPLE, tags, distro, SENTINEL, CUT_NAMES, {OPENSTACK, "open"}, {"open"});
  }

  // -----------------------------------------------------------------------------------------------
  // An override of an exception container
  // -----------------------------------------------------------------------------------------------

  const TGTD_VARS: set<Name> := {OPENSTACK, "iscsi", "tgtd"}

  /** The override of `tgtd` repeats the tag of its parent `iscsi`. */
  function TgtdTags(distro: Distro, a: Tag, b: Tag): KollaImageTags {
    TagVars([OPENSTACK, "iscsi", "tgtd"],
            map[OPENSTACK := map[distro := a], "iscsi" := map[distro := b], "tgtd" := map[distro := b]])
  }

  lemma TgtdParents(x: Hops)
    requires "tgtd" in x && x["tgtd"] == "iscsi" && EXTENDED !in x
    ensures Parent(x, TGTD_VARS, "tgtd") == "iscsi" && Above(TGTD_VARS, "tgtd") == OPENSTACK
    ensures Resolve(x, TGTD_VARS, EXTENDED) == "tgtd"
  {
    assert EXTENDED[..4] == "tgtd";
    forall j | 0 < j <= 3 ensures !Candidate(TGTD_VARS, "tgtd"[..j]) { assert |"tgtd"[..j]| == j; }
    NearestUnique(TGTD_VARS, "tgtd", 3, OPENSTACK);
    NearestUnique(TGTD_VARS, EXTENDED, 5, "tgtd");
  }

  lemma TgtdTagged(distro: Distro, a: Tag, b: Tag)
    requires a != "" && b != ""
    ensures Usable(TgtdTags(distro, a, b)) && Tagged(TgtdTags(distro, a, b), distro) == TGTD_VARS
    ensures TgtdTags(distro, a, b).entry["tgtd"] == map[distro := b]
    ensures Lookup(TgtdTags(distro, a, b), "iscsi", distro) == Ok(b)
            && Lookup(TgtdTags(distro, a, b), OPENSTACK, distro) == Ok(a)
  {
  }

  /** Dropping it leaves the tag of `tgtd` as it is, but changes that of a container named after it. */
  lemma DroppedOverrideMatters(distro: Distro, a: Tag, b: Tag)
    requires a != "" && b != "" && a != b
    ensures var tags := TgtdTags(distro, a, b);
            && ParentTag(tags, distro, "tgtd") == Ok(b) == GetTag(tags, distro, "tgtd")
            && GetTag(Without(tags, "tgtd", distro), distro, "tgtd") == Ok(b)
            && GetTag(tags, distro, EXTENDED) == Ok(b)
                && GetTag(Without(tags, "tgtd", distro), distro, EXTENDED) == Ok(a)
  {
    var tags := TgtdTags(distro, a, b);
    TgtdTagged(distro, a, b);
    ExampleHop();
    TgtdParents(ExceptionHops());
    ParentTagNameIsParent(tags, Some(distro), "tgtd");
    TagOfDropped(tags, distro, "tgtd");
    TagBelow(tags, distro, "tgtd", EXTENDED);
  }
}

/**
  The tag a container gets at deploy time: Kolla Ansible's role defaults, overridden by the printed
  lines, evaluated as a chain of defaults. It is the tag the script finds, exactly when no exception
  container of the hierarchy is shadowed.
*/
module Deployment {
  import opened Prelude
  import opened ParentSearch
  import opened KollaTags
  import opened TagValidation
  import opened TagVarLines
  import opened TagHierarchy

  /** The role defaults `<name>_tag: "{{ <parent>_tag }}"`, in file order. */
  datatype RoleDefaults = RoleDefaults(order: seq<Name>, parent: map<Name, Name>) {
    ghost predicate WellFormed() {
      NoDuplicates(order) && forall n :: n in order <==> n in parent
    }
  }

  type Hierarchy = h: RoleDefaults | h.WellFormed() witness RoleDefaults([], map[])

  ghost function Names(h: Hierarchy): set<Name> {
    h.parent.Keys + {OPENSTACK}
  }

  /** The hierarchy as a tags file with no tags, and the default added. */
  function AsTags(h: Hierarchy): (tags: KollaImageTags)
    ensures tags.entry.Keys == Names(h)
  {
    var order := if OPENSTACK in h.parent then h.order else h.order + [OPENSTACK];
    TagVars(order, map n | n in h.parent.Keys + {OPENSTACK} :: map[])
  }

  /** A name, the parent the script computes and the parent Kolla Ansible uses. */
  datatype Mismatch = Mismatch(n: Name, found: Result<Name, TagError>, expected: Name)

  /** The parent that the script finds for a name of the hierarchy. */
  function FoundParent(h: Hierarchy): Name -> Result<Name, TagError> {
    n => ParentTagName(AsTags(h), None, n)
  }

  ghost predicate IsMismatch(h: Hierarchy, found: Name -> Result<Name, TagError>, e: Mismatch) {
    e.n in h.parent && e.expected == h.parent[e.n] && e.found == found(e.n) != Ok(e.expected)
  }

  ghost predicate Accepted(h: Hierarchy) {
    forall e :: !IsMismatch(h, FoundParent(h), e)
  }

  /** The mismatches among the names of the hierarchy that are listed, in that order. */
  function Mismatches(h: Hierarchy, parentOf: Name -> Result<Name, TagError>, names: seq<Name>): seq<Mismatch>
    requires forall n :: n in names ==> n in h.parent
  {
    if names == [] then []
    else
      var last := names[|names| - 1];
      Mismatches(h, parentOf, names[..|names| - 1])
      + if parentOf(last) != Ok(h.parent[last]) then [Mismatch(last, parentOf(last), h.parent[last])] else []
  }

  /** The names whose parent is not the expected one, in file order. */
  method CompareParents(h: Hierarchy, parentOf: Name -> Result<Name, TagError>) returns (errors: seq<Mismatch>)
    ensures errors == Mismatches(h, parentOf, h.order)
    ensures forall e :: e in errors <==> IsMismatch(h, parentOf, e)
  {
    errors := [];
    for i := 0 to |h.order|
      invariant errors == Mismatches(h, parentOf, h.order[..i])
      invariant forall e :: e in errors <==> IsMismatch(h, parentOf, e) && e.n in h.order[..i]
    {
      assert h.order[..i + 1][..i] == h.order[..i];
      var n := h.order[i];
      assert n in h.order && h.order[..i + 1] == h.order[..i] + [n];
      if parentOf(n) != Ok(h.parent[n]) {
        errors := errors + [Mismatch(n, parentOf(n), h.parent[n])];
      }
    }
    assert h.order[..|h.order|] == h.order;
  }

  /** Reports exactly the names whose parents differ; the hierarchy is accepted when there are none. */
  method CheckHierarchy(h: Hierarchy) returns (errors: seq<Mismatch>)
    ensures errors == Mismatches(h, FoundParent(h), h.order)
    ensures forall e :: e in errors <==> IsMismatch(h, FoundParent(h), e)
    ensures errors == [] <==> Accepted(h)
  {
    errors := CompareParents(h, FoundParent(h));
    assert errors != [] ==> errors[0] in errors;
  }

  // -----------------------------------------------------------------------------------------------
  // Deploy-time evaluation
  // -----------------------------------------------------------------------------------------------

  /** A tag variable in Ansible: a role default or an override. */
  datatype VarDef = Inherit(parent: Name) | Override(v: TagVar)

  /** Overrides take precedence over role defaults. */
  function Defined(h: Hierarchy, lines: seq<string>): map<Name, VarDef> {
    var printed := ReadAll(ReadOverride, lines);
    map n | n in h.parent.Keys + printed.Keys :: if n in printed then Override(printed[n]) else Inherit(h.parent[n])
  }

  /** The variable whose value is used when this one has none of its own. */
  function Next(def: VarDef): Option<Name> {
    match def
    case Inherit(p) => Some(p)
    case Override(v) => v.fallback
  }

  ghost predicate Descending(x: Hops, defs: map<Name, VarDef>) {
    forall n :: n in defs && Next(defs[n]).Some? ==> Lower(x, Next(defs[n]).value, n)
  }

  /** The value of `<c>_tag`; None when it is undefined. The table `x` only shows that evaluation ends. */
  ghost function Evaluate(x: Hops, defs: map<Name, VarDef>, tags: TagVars, distro: Distro, c: Name): Option<Tag>
    requires Descending(x, defs)
    decreases Stage(x, c), |c|
  {
    if c !in defs then None
    else
      var own := if defs[c].Override? then Lookup(tags, defs[c].v.key, distro) else Err(KeyError(c));
      if own.Ok? then Some(own.value)
      else if Next(defs[c]).Some? then Evaluate(x, defs, tags, distro, Next(defs[c]).value)
      else None
  }

  /** The names with a tag for the distro. */
  ghost function Tagged(tags: KollaImageTags, distro: Distro): set<Name> {
    Carriers(tags, Some(distro))
  }

  function ToOption(r: Result<Tag, TagError>): Option<Tag> {
    match r
    case Ok(tag) => Some(tag)
    case Err(_) => None
  }

  /** The tags file only overrides variables of the hierarchy. */
  ghost predicate Overrides(h: Hierarchy, tags: TagVars) {
    Usable(tags) && tags.entry.Keys <= Names(h)
  }

  lemma CarriersOfAll(tags: KollaImageTags)
    ensures Carriers(tags, None) == tags.entry.Keys
  {
  }

  lemma FallbackIsParent(tags: KollaImageTags, n: Name)
    requires Keyed(tags)
    ensures Fallback(tags, n) == if n == OPENSTACK then None else Some(Parent(ExceptionHops(), tags.entry.Keys, n))
  {
    CarriersOfAll(tags);
    ParentTagNameIsParent(tags, None, n);
  }

  lemma AcceptedIsParent(h: Hierarchy, n: Name)
    requires Accepted(h) && "" !in h.parent && n in h.parent
    ensures h.parent[n] == Parent(ExceptionHops(), Names(h), n)
  {
    CarriersOfAll(AsTags(h));
    ParentTagNameIsParent(AsTags(h), None, n);
    assert !IsMismatch(h, FoundParent(h), Mismatch(n, FoundParent(h)(n), h.parent[n]));
  }

  /** The printed lines define the keys of the tags file, and role defaults define the other names. */
  lemma DefinedNames(h: Hierarchy, tags: KollaImageTags)
    requires Overrides(h, tags)
    ensures var defs := Defined(h, PrintAll(PrintLine, Vars(tags)));
            && defs.Keys == Names(h)
            && forall n :: n in defs ==>
                 defs[n] == if n in tags.entry then Override(TagVar(n, n, Fallback(tags, n))) else Inherit(h.parent[n])
  {
    ReadAllVars(tags);
  }

  /** Each variable of the tags file falls back to its parent in the file, any other to its parent in the hierarchy. */
  ghost predicate Linked(x: Hops, n: set<Name>, t: set<Name>, defs: map<Name, VarDef>) {
    && defs.Keys == n && t <= n
    && forall c :: c in n ==>
         defs[c] == if c !in t then Inherit(Parent(x, n, c))
                    else Override(TagVar(c, c, if c == OPENSTACK then None else Some(Parent(x, t, c))))
  }

  lemma LinkedDescends(x: Hops, n: set<Name>, t: set<Name>, defs: map<Name, VarDef>)
    requires Linked(x, n, t, defs) && OPENSTACK in t
    ensures Descending(x, defs)
  {
    forall c | c in defs && Next(defs[c]).Some? ensures Lower(x, Next(defs[c]).value, c) {
      ParentLower(x, if c in t then t else n, c);
    }
  }

  /** A parent is a candidate or the default. */
  lemma ParentIn(x: Hops, s: set<Name>, c: Name)
    requires OPENSTACK in s
    ensures Parent(x, s, c) in s
  {
  }

  /** Evaluation yields the tag of the variable where the chain stops. */
  lemma {:induction false} EvaluateWalks(x: Hops, n: set<Name>, tags: TagVars, distro: Distro, defs: map<Name, VarDef>,
                                         c: Name)
    requires Linked(x, n, tags.entry.Keys, defs) && OPENSTACK in tags.entry && c in n
    requires Descending(x, defs)
    ensures var s := Carriers(tags, Some(distro));
            Evaluate(x, defs, tags, distro, c) == ToOption(Lookup(tags, Walk(x, n, tags.entry.Keys, s, c), distro))
    decreases Stage(x, c), |c|
  {
    var t, s := tags.entry.Keys, Carriers(tags, Some(distro));
    if c !in s && c != OPENSTACK {
      var m := if c in t then t else n;
      ParentLower(x, m, c);
      ParentIn(x, m, c);
      EvaluateWalks(x, n, tags, distro, defs, Parent(x, m, c));
    }
  }

  lemma DefinedLinked(h: Hierarchy, tags: KollaImageTags)
    requires Overrides(h, tags) && Accepted(h) && "" !in h.parent
    ensures Linked(ExceptionHops(), Names(h), tags.entry.Keys, Defined(h, PrintAll(PrintLine, Vars(tags))))
  {
    var defs := Defined(h, PrintAll(PrintLine, Vars(tags)));
    DefinedNames(h, tags);
    forall c | c in Names(h)
      ensures defs[c] == if c !in tags.entry then Inherit(Parent(ExceptionHops(), Names(h), c))
                         else Override(TagVar(c, c, if c == OPENSTACK then None
                                                 else Some(Parent(ExceptionHops(), tags.entry.Keys, c))))
    {
      if c in tags.entry { FallbackIsParent(tags, c); } else { AcceptedIsParent(h, c); }
    }
  }

  /** The script's tag for a container is the tag of the variable its search finds. */
  lemma GetTagResolves(tags: KollaImageTags, distro: Distro, c: Name)
    requires Usable(tags)
    ensures GetTag(tags, distro, c) == Lookup(tags, Resolve(ExceptionHops(), Tagged(tags, distro), c), distro)
  {
    ParentTagNameIsParent(tags, Some(distro), c);
  }

  /** The tag that Ansible deploys the container `c` with, once the printed lines are in place. */
  ghost function DeployTag(h: Hierarchy, tags: KollaImageTags, distro: Distro, c: Name): Option<Tag>
    requires Overrides(h, tags) && Accepted(h) && "" !in h.parent
  {
    var x, defs := ExceptionHops(), Defined(h, PrintAll(PrintLine, Vars(tags)));
    DefinedLinked(h, tags);
    LinkedDescends(x, Names(h), tags.entry.Keys, defs);
    Evaluate(x, defs, tags, distro, c)
  }

  lemma DeployTagWalks(h: Hierarchy, tags: KollaImageTags, distro: Distro, c: Name)
    requires Overrides(h, tags) && Accepted(h) && "" !in h.parent && c in h.parent
    ensures DeployTag(h, tags, distro, c)
         == ToOption(Lookup(tags, Walk(ExceptionHops(), Names(h), tags.entry.Keys, Tagged(tags, distro), c), distro))
  {
    var x, defs := ExceptionHops(), Defined(h, PrintAll(PrintLine, Vars(tags)));
    DefinedLinked(h, tags);
    LinkedDescends(x, Names(h), tags.entry.Keys, defs);
    EvaluateWalks(x, Names(h), tags, distro, defs, c);
  }
}

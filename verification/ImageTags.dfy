/** The tags of each image (`get_tags`) and the Pulp repositories and distributions built from them. */
module ImageTags {
  import opened Prelude
  import opened ParentSearch
  import opened KollaTags

  type Image = string

  /** A distro and an image to visit. */
  type Visit = (Distro, Image)

  /** The image is built for the distro. */
  predicate Builds(unbuildable: map<Distro, seq<Image>>, visit: Visit) {
    visit.0 in unbuildable && visit.1 !in unbuildable[visit.0]
  }

  /** A container of the image deploys the tag on the distro. */
  ghost predicate Deploys(tags: KollaImageTags, visit: Visit, tag: Tag) {
    exists c :: c in GetContainers(visit.1) && GetTag(tags, visit.0, c) == Ok(tag)
  }

  /** The visit raises: no such distro, or a container without a tag. */
  ghost predicate Fails(tags: KollaImageTags, unbuildable: map<Distro, seq<Image>>, visit: Visit) {
    || visit.0 !in unbuildable
    || (Builds(unbuildable, visit) && exists c :: c in GetContainers(visit.1) && GetTag(tags, visit.0, c).Err?)
  }

  /** After the visits: a list of distinct tags for each image built, holding exactly the tags deployed. */
  ghost predicate ExactTags(tags: KollaImageTags, unbuildable: map<Distro, seq<Image>>, visits: seq<Visit>,
                            m: map<Image, seq<Tag>>) {
    && (forall i :: i in m <==> exists d :: (d, i) in visits && Builds(unbuildable, (d, i)))
    && (forall i :: i in m ==> NoDuplicates(m[i]))
    && (forall i, tag :: i in m ==>
          (tag in m[i] <==> exists d :: (d, i) in visits && Builds(unbuildable, (d, i)) && Deploys(tags, (d, i), tag)))
  }

  // -----------------------------------------------------------------------------------------------
  // In order
  // -----------------------------------------------------------------------------------------------

  /**
    The tags of the containers that are not in the list yet are added to its end; the first container without
    a tag raises.
  */
  function AddTags(containers: seq<Name>, tagOf: Name -> Result<Tag, TagError>, known: seq<Tag>)
    : Result<seq<Tag>, TagError>
  {
    if containers == [] then Ok(known)
    else
      var before, tag := AddTags(containers[..|containers| - 1], tagOf, known), tagOf(containers[|containers| - 1]);
      if before.Err? then before
      else if tag.Err? then Err(tag.error)
      else if tag.value in before.value then before
      else Ok(before.value + [tag.value])
  }

  /** One visit. */
  function Visited(tags: KollaImageTags, unbuildable: map<Distro, seq<Image>>, m: map<Image, seq<Tag>>, visit: Visit)
    : Result<map<Image, seq<Tag>>, TagError>
  {
    if visit.0 !in unbuildable then Err(KeyError(visit.0))
    else if visit.1 in unbuildable[visit.0] then Ok(m)
    else
      var known := if visit.1 in m then m[visit.1] else [];
      var list := AddTags(GetContainers(visit.1), c => GetTag(tags, visit.0, c), known);
      if list.Err? then Err(list.error) else Ok(m[visit.1 := list.value])
  }

  /** The visits in order, up to the first one that raises. */
  function Gather(tags: KollaImageTags, unbuildable: map<Distro, seq<Image>>, visits: seq<Visit>)
    : Result<map<Image, seq<Tag>>, TagError>
  {
    if visits == [] then Ok(map[])
    else
      var before := Gather(tags, unbuildable, visits[..|visits| - 1]);
      if before.Err? then before else Visited(tags, unbuildable, before.value, visits[|visits| - 1])
  }

  function DistroVisits(distro: Distro, images: seq<Image>): (visits: seq<Visit>)
    ensures |visits| == |images| && forall k :: 0 <= k < |visits| ==> visits[k] == (distro, images[k])
    ensures forall v :: v in visits <==> v.0 == distro && v.1 in images
  {
    var visits := seq(|images|, i requires 0 <= i < |images| => (distro, images[i]));
    assert forall k :: 0 <= k < |images| ==> visits[k] == (distro, images[k]);
    visits
  }

  /** Every image of the first distro, then every image of the second, and so on. */
  function Visits(distros: seq<Distro>, images: seq<Image>): (visits: seq<Visit>)
    ensures forall v :: v in visits <==> v.0 in distros && v.1 in images
  {
    if distros == [] then []
    else
      var init, last := distros[..|distros| - 1], distros[|distros| - 1];
      assert distros == init + [last];
      Visits(init, images) + DistroVisits(last, images)
  }

  lemma {:induction false} GatherStops(tags: KollaImageTags, unbuildable: map<Distro, seq<Image>>, a: seq<Visit>,
                                       b: seq<Visit>)
    requires Gather(tags, unbuildable, a).Err?
    ensures Gather(tags, unbuildable, a + b) == Gather(tags, unbuildable, a)
  {
    if b == [] {
      assert a + b == a;
    } else {
      assert (a + b)[..|a + b| - 1] == a + b[..|b| - 1];
      GatherStops(tags, unbuildable, a, b[..|b| - 1]);
    }
  }

  lemma GatherNext(tags: KollaImageTags, unbuildable: map<Distro, seq<Image>>, a: seq<Visit>, visit: Visit)
    requires Gather(tags, unbuildable, a).Ok?
    ensures Gather(tags, unbuildable, a + [visit])
            == Visited(tags, unbuildable, Gather(tags, unbuildable, a).value, visit)
  {
    assert (a + [visit])[..|a|] == a;
  }

  lemma {:induction false} AddTagsStops(containers: seq<Name>, tagOf: Name -> Result<Tag, TagError>, known: seq<Tag>,
                                        k: nat)
    requires k <= |containers| && AddTags(containers[..k], tagOf, known).Err?
    ensures AddTags(containers, tagOf, known) == AddTags(containers[..k], tagOf, known)
  {
    if k == |containers| {
      assert containers[..k] == containers;
    } else {
      var init := containers[..|containers| - 1];
      assert init[..k] == containers[..k];
      AddTagsStops(init, tagOf, known, k);
    }
  }

  method AddContainerTags(containers: seq<Name>, tagOf: Name -> Result<Tag, TagError>, known: seq<Tag>)
    returns (r: Result<seq<Tag>, TagError>)
    ensures r == AddTags(containers, tagOf, known)
  {
    var list := known;
    for k := 0 to |containers|
      invariant AddTags(containers[..k], tagOf, known) == Ok(list)
    {
      assert containers[..k + 1][..k] == containers[..k];
      var tag := tagOf(containers[k]);
      if tag.Err? {
        AddTagsStops(containers, tagOf, known, k + 1);
        return Err(tag.error);
      }
      if tag.value !in list {
        list := list + [tag.value];
      }
    }
    assert containers[..|containers|] == containers;
    r := Ok(list);
  }

  method VisitImage(tags: KollaImageTags, unbuildable: map<Distro, seq<Image>>, distro: Distro, image: Image,
                    m: map<Image, seq<Tag>>)
    returns (r: Result<map<Image, seq<Tag>>, TagError>)
    ensures r == Visited(tags, unbuildable, m, (distro, image))
  {
    if distro !in unbuildable {
      return Err(KeyError(distro));
    }
    if image in unbuildable[distro] {
      return Ok(m);
    }
    var known := if image in m then m[image] else [];
    var list := AddContainerTags(GetContainers(image), c => GetTag(tags, distro, c), known);
    if list.Err? {
      return Err(list.error);
    }
    // Every image has a container, so the loop over them always sets the list.
    r := Ok(m[image := list.value]);
  }

  lemma AroundVisit<T>(before: seq<T>, visits: seq<T>, k: nat)
    requires k < |visits|
    ensures before + visits[..k + 1] == before + visits[..k] + [visits[k]]
    ensures before + visits == before + visits[..k] + [visits[k]] + visits[k + 1..]
  {
  }

  /** Visit `k` of these, after the visits made before; an error is final. */
  lemma VisitNext(tags: KollaImageTags, unbuildable: map<Distro, seq<Image>>, before: seq<Visit>, visits: seq<Visit>,
                  k: nat)
    requires k < |visits| && Gather(tags, unbuildable, before + visits[..k]).Ok?
    ensures var next := Visited(tags, unbuildable, Gather(tags, unbuildable, before + visits[..k]).value, visits[k]);
            && Gather(tags, unbuildable, before + visits[..k + 1]) == next
            && (next.Err? ==> Gather(tags, unbuildable, before + visits) == next)
  {
    var done := before + visits[..k];
    GatherNext(tags, unbuildable, done, visits[k]);
    AroundVisit(before, visits, k);
    if Gather(tags, unbuildable, done + [visits[k]]).Err? {
      GatherStops(tags, unbuildable, done + [visits[k]], visits[k + 1..]);
    }
  }

  /** The images of one distro, after the visits made before. */
  method AddDistroTags(tags: KollaImageTags, unbuildable: map<Distro, seq<Image>>, images: seq<Image>, distro: Distro,
                       ghost before: seq<Visit>, m: map<Image, seq<Tag>>)
    returns (r: Result<map<Image, seq<Tag>>, TagError>)
    requires Gather(tags, unbuildable, before) == Ok(m)
    ensures r == Gather(tags, unbuildable, before + DistroVisits(distro, images))
  {
    var imageTags := m;
    ghost var visits := DistroVisits(distro, images);
    assert before + visits[..0] == before;
    for k := 0 to |images|
      invariant Gather(tags, unbuildable, before + visits[..k]) == Ok(imageTags)
    {
      VisitNext(tags, unbuildable, before, visits, k);
      var next := VisitImage(tags, unbuildable, distro, images[k], imageTags);
      if next.Err? {
        return next;
      }
      imageTags := next.value;
    }
    assert visits[..|images|] == visits;
    r := Ok(imageTags);
  }

  lemma VisitsNext(distros: seq<Distro>, images: seq<Image>, k: nat)
    requires k < |distros|
    ensures Visits(distros[..k + 1], images) == Visits(distros[..k], images) + DistroVisits(distros[k], images)
  {
    assert distros[..k + 1][..k] == distros[..k];
  }

  lemma {:induction false} VisitsStop(tags: KollaImageTags, unbuildable: map<Distro, seq<Image>>, distros: seq<Distro>,
                                      images: seq<Image>, k: nat)
    requires k <= |distros| && Gather(tags, unbuildable, Visits(distros[..k], images)).Err?
    ensures Gather(tags, unbuildable, Visits(distros, images))
            == Gather(tags, unbuildable, Visits(distros[..k], images))
  {
    if k == |distros| {
      assert distros[..k] == distros;
    } else {
      var init := distros[..|distros| - 1];
      assert init[..k] == distros[..k];
      VisitsStop(tags, unbuildable, init, images, k);
      GatherStops(tags, unbuildable, Visits(init, images), DistroVisits(distros[|distros| - 1], images));
    }
  }

  /**
    The tags of every image in the order they are met; raises exactly when some visit does, with the error of the
    first.
  */
  method GetTags(distros: seq<Distro>, images: seq<Image>, unbuildable: map<Distro, seq<Image>>, tags: KollaImageTags)
    returns (r: Result<map<Image, seq<Tag>>, TagError>)
    ensures r == Gather(tags, unbuildable, Visits(distros, images))
    ensures r.Err? <==> exists v :: v in Visits(distros, images) && Fails(tags, unbuildable, v)
    ensures r.Ok? ==> ExactTags(tags, unbuildable, Visits(distros, images), r.value)
  {
    var imageTags: map<Image, seq<Tag>> := map[];
    GatherExact(tags, unbuildable, Visits(distros, images));
    for k := 0 to |distros|
      invariant Gather(tags, unbuildable, Visits(distros[..k], images)) == Ok(imageTags)
    {
      VisitsNext(distros, images, k);
      var next := AddDistroTags(tags, unbuildable, images, distros[k], Visits(distros[..k], images), imageTags);
      if next.Err? {
        VisitsStop(tags, unbuildable, distros, images, k + 1);
        return next;
      }
      imageTags := next.value;
    }
    assert distros[..|distros|] == distros;
    r := Ok(imageTags);
  }

  // -----------------------------------------------------------------------------------------------
  // Exactly the tags deployed
  // -----------------------------------------------------------------------------------------------

  /** The list keeps what it had, gains the tags of the containers and no others, and stays without duplicates. */
  lemma {:induction false} AddTagsExact(containers: seq<Name>, tagOf: Name -> Result<Tag, TagError>, known: seq<Tag>)
    requires NoDuplicates(known)
    ensures var r := AddTags(containers, tagOf, known);
            && (r.Err? <==> exists c :: c in containers && tagOf(c).Err?)
            && (r.Ok? ==> NoDuplicates(r.value) && known <= r.value)
            && (r.Ok? ==> forall tag ::
                  tag in r.value <==> tag in known || exists c :: c in containers && tagOf(c) == Ok(tag))
  {
    if containers != [] {
      var init, last := containers[..|containers| - 1], containers[|containers| - 1];
      assert containers == init + [last];
      AddTagsExact(init, tagOf, known);
    }
  }

  /** One more visit: the image's list gains the tags it deploys, and the other lists stay. */
  lemma ExactTagsStep(tags: KollaImageTags, unbuildable: map<Distro, seq<Image>>, visits: seq<Visit>,
                      m: map<Image, seq<Tag>>, visit: Visit, list: seq<Tag>)
    requires ExactTags(tags, unbuildable, visits, m) && Builds(unbuildable, visit) && NoDuplicates(list)
    requires forall tag :: tag in list <==> (visit.1 in m && tag in m[visit.1]) || Deploys(tags, visit, tag)
    ensures ExactTags(tags, unbuildable, visits + [visit], m[visit.1 := list])
  {
    var m', visits' := m[visit.1 := list], visits + [visit];
    forall i ensures i in m' <==> exists d :: (d, i) in visits' && Builds(unbuildable, (d, i)) {
      if i == visit.1 { assert (visit.0, i) in visits'; }
      if i in m {
        var d :| (d, i) in visits && Builds(unbuildable, (d, i));
        assert (d, i) in visits';
      }
    }
    forall i, tag | i in m'
      ensures tag in m'[i] <==>
              exists d :: (d, i) in visits' && Builds(unbuildable, (d, i)) && Deploys(tags, (d, i), tag)
    {
      if tag in m'[i] {
        if i == visit.1 && Deploys(tags, visit, tag) {
          assert (visit.0, i) in visits';
        } else {
          var d :| (d, i) in visits && Builds(unbuildable, (d, i)) && Deploys(tags, (d, i), tag);
          assert (d, i) in visits';
        }
      }
      if d :| (d, i) in visits' && Builds(unbuildable, (d, i)) && Deploys(tags, (d, i), tag) {
        if (d, i) != visit { assert (d, i) in visits; }
      }
    }
  }

  lemma ExactTagsSkip(tags: KollaImageTags, unbuildable: map<Distro, seq<Image>>, visits: seq<Visit>,
                      m: map<Image, seq<Tag>>, visit: Visit)
    requires ExactTags(tags, unbuildable, visits, m) && !Builds(unbuildable, visit)
    ensures ExactTags(tags, unbuildable, visits + [visit], m)
  {
    assert forall d, i ::
        (d, i) in visits + [visit] && Builds(unbuildable, (d, i)) <==> (d, i) in visits && Builds(unbuildable, (d, i));
  }

  lemma VisitedExact(tags: KollaImageTags, unbuildable: map<Distro, seq<Image>>, visits: seq<Visit>,
                     m: map<Image, seq<Tag>>, visit: Visit)
    requires ExactTags(tags, unbuildable, visits, m)
    ensures var r := Visited(tags, unbuildable, m, visit);
            (r.Err? <==> Fails(tags, unbuildable, visit))
            && (r.Ok? ==> ExactTags(tags, unbuildable, visits + [visit], r.value))
  {
    if Builds(unbuildable, visit) {
      var known := if visit.1 in m then m[visit.1] else [];
      var tagOf := c => GetTag(tags, visit.0, c);
      AddTagsExact(GetContainers(visit.1), tagOf, known);
      var list := AddTags(GetContainers(visit.1), tagOf, known);
      if list.Ok? {
        ExactTagsStep(tags, unbuildable, visits, m, visit, list.value);
      }
    } else if visit.0 in unbuildable {
      ExactTagsSkip(tags, unbuildable, visits, m, visit);
    }
  }

  /** Without an error, every visit gave each of the image's containers a tag. */
  lemma VisitedTag(tags: KollaImageTags, unbuildable: map<Distro, seq<Image>>, visits: seq<Visit>, visit: Visit,
                   c: Name)
    requires Gather(tags, unbuildable, visits).Ok? && visit in visits
    requires visit.0 in unbuildable && visit.1 !in unbuildable[visit.0] && c in GetContainers(visit.1)
    ensures var m := Gather(tags, unbuildable, visits).value;
            GetTag(tags, visit.0, c).Ok? && visit.1 in m && GetTag(tags, visit.0, c).value in m[visit.1]
  {
    GatherExact(tags, unbuildable, visits);
    assert !Fails(tags, unbuildable, visit);
    assert Deploys(tags, visit, GetTag(tags, visit.0, c).value);
    assert (visit.0, visit.1) in visits;
  }

  /** The list of an image holds the tag of the container named after it, with underscores for its dashes. */
  lemma UnderscoredTagListed(tags: KollaImageTags, unbuildable: map<Distro, seq<Image>>, visits: seq<Visit>,
                             distro: Distro, image: Image, c: Name)
    requires Gather(tags, unbuildable, visits).Ok? && (distro, image) in visits
    requires distro in unbuildable && image !in unbuildable[distro]
    requires image !in IMAGE_TO_CONTAINERS_EXCEPTIONS && IsUnderscored(image, c)
    ensures var m := Gather(tags, unbuildable, visits).value;
            image in m && exists tag :: GetTag(tags, distro, c) == Ok(tag) && tag in m[image]
  {
    DefaultContainer(image);
    VisitedTag(tags, unbuildable, visits, (distro, image), c);
  }

  /** Distros come first: image `j` of distro `k` is visited after all images of the distros before. */
  lemma {:induction false} VisitsAt(distros: seq<Distro>, images: seq<Image>, k: nat, j: nat)
    requires k < |distros| && j < |images|
    ensures Visits(distros[..k], images) + DistroVisits(distros[k], images) <= Visits(distros, images)
    ensures DistroVisits(distros[k], images)[j] == (distros[k], images[j])
  {
    if k == |distros| - 1 {
      assert distros[..k] == distros[..|distros| - 1];
    } else {
      var init := distros[..|distros| - 1];
      assert init[..k] == distros[..k];
      VisitsAt(init, images, k, j);
    }
  }

  /** What is gathered: exactly the tags deployed, or an error exactly when some visit raises. */
  lemma {:induction false} GatherExact(tags: KollaImageTags, unbuildable: map<Distro, seq<Image>>, visits: seq<Visit>)
    ensures var r := Gather(tags, unbuildable, visits);
            && (r.Err? <==> exists v :: v in visits && Fails(tags, unbuildable, v))
            && (r.Ok? ==> ExactTags(tags, unbuildable, visits, r.value))
  {
    if visits != [] {
      var init, last := visits[..|visits| - 1], visits[|visits| - 1];
      assert visits == init + [last];
      GatherExact(tags, unbuildable, init);
      var before := Gather(tags, unbuildable, init);
      if before.Ok? {
        VisitedExact(tags, unbuildable, init, before.value, last);
      }
    }
  }
}

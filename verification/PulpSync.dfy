/**
  The container repositories and distributions of `pulp.yml`. The tags synced for an image include the
  tag that every container of the image is deployed with.
*/
module PulpSync {
  import opened Prelude
  import opened ParentSearch
  import opened KollaTags
  import opened TagValidation
  import opened TagHierarchy
  import opened Deployment
  import opened DeployAgreement
  import opened ImageTags

  datatype Repository = Repository(name: string, includeTags: seq<Tag>)

  datatype Distribution = Distribution(name: string, repository: string, basePath: string)

  /** A template fails on an undefined dictionary entry. */
  datatype TemplateError = Undefined(key: string)

  /** What is not dropped, in order. */
  function Kept<T(==)>(s: seq<T>, dropped: seq<T>): seq<T> {
    if s == [] then []
    else Kept(s[..|s| - 1], dropped) + if s[|s| - 1] in dropped then [] else [s[|s| - 1]]
  }

  lemma KeptAppend<T>(s: seq<T>, x: T, dropped: seq<T>)
    ensures Kept(s + [x], dropped) == Kept(s, dropped) + if x in dropped then [] else [x]
  {
    assert (s + [x])[..|s|] == s;
  }

  /** Elements are kept one by one, in their order. */
  lemma {:induction false} KeptConcat<T>(a: seq<T>, b: seq<T>, dropped: seq<T>)
    ensures Kept(a + b, dropped) == Kept(a, dropped) + Kept(b, dropped)
  {
    if b == [] {
      assert a + b == a;
    } else {
      var init, last := b[..|b| - 1], b[|b| - 1];
      KeptConcat(a, init, dropped);
      KeptAppend(a + init, last, dropped);
      assert a + b == a + init + [last];
    }
  }

  lemma {:induction false} KeptMember<T>(s: seq<T>, dropped: seq<T>, x: T)
    ensures x in Kept(s, dropped) <==> x in s && x !in dropped
  {
    if s != [] {
      KeptMember(s[..|s| - 1], dropped, x);
      assert s == s[..|s| - 1] + [s[|s| - 1]];
    }
  }

  /** The images that the templates go over for the distro. */
  function BuiltOn(images: seq<Image>, unbuildable: map<Distro, seq<Image>>, distro: Distro): seq<Image> {
    if distro in unbuildable then Kept(images, unbuildable[distro]) else []
  }

  /** The template fails at the image: the distro has no list of unbuildable images, or the built image has no tags. */
  predicate Undefines(unbuildable: map<Distro, seq<Image>>, distro: Distro, imageTags: map<Image, seq<Tag>>,
                      image: Image) {
    distro !in unbuildable || (image !in unbuildable[distro] && image !in imageTags)
  }

  /** `stackhpc_pulp_repository_container_repos_kolla` */
  method ContainerRepos(namespace: string, images: seq<Image>, unbuildable: map<Distro, seq<Image>>, distro: Distro,
                        imageTags: map<Image, seq<Tag>>) returns (r: Result<seq<Repository>, TemplateError>)
    ensures r.Err? <==> exists i :: i in images && Undefines(unbuildable, distro, imageTags, i)
    ensures r.Ok? ==> var built := BuiltOn(images, unbuildable, distro);
              |r.value| == |built| &&
              forall k :: 0 <= k < |built| ==>
                built[k] in imageTags && r.value[k] == Repository(namespace + "/" + built[k], imageTags[built[k]])
  {
    var repos := [];
    for k := 0 to |images|
      invariant forall i :: i in images[..k] ==> !Undefines(unbuildable, distro, imageTags, i)
      invariant var built := BuiltOn(images[..k], unbuildable, distro);
                |repos| == |built| &&
                forall j :: 0 <= j < |built| ==>
                  built[j] in imageTags && repos[j] == Repository(namespace + "/" + built[j], imageTags[built[j]])
    {
      var image := images[k];
      assert images[..k + 1][..k] == images[..k] && images[..k + 1] == images[..k] + [image] && image in images;
      if distro !in unbuildable {
        return Err(Undefined(distro));
      }
      if image !in unbuildable[distro] {
        if image !in imageTags {
          return Err(Undefined(image));
        }
        repos := repos + [Repository(namespace + "/" + image, imageTags[image])];
      }
    }
    assert images[..|images|] == images;
    r := Ok(repos);
  }

  /** `stackhpc_pulp_distribution_container_kolla`: one distribution for each built image, of its own repository. */
  method ContainerDistributions(namespace: string, images: seq<Image>, unbuildable: map<Distro, seq<Image>>,
                                distro: Distro)
    returns (r: Result<seq<Distribution>, TemplateError>)
    ensures r.Err? <==> images != [] && distro !in unbuildable
    ensures r.Ok? ==> var built := BuiltOn(images, unbuildable, distro);
              |r.value| == |built| &&
              forall k :: 0 <= k < |built| ==>
                var name := namespace + "/" + built[k]; r.value[k] == Distribution(name, name, name)
  {
    var distributions := [];
    for k := 0 to |images|
      invariant k > 0 ==> distro in unbuildable
      invariant var built := BuiltOn(images[..k], unbuildable, distro);
                |distributions| == |built| &&
                forall j :: 0 <= j < |built| ==>
                  var name := namespace + "/" + built[j]; distributions[j] == Distribution(name, name, name)
    {
      var image := images[k];
      assert images[..k + 1][..k] == images[..k];
      if distro !in unbuildable {
        return Err(Undefined(distro));
      }
      if image !in unbuildable[distro] {
        var name := namespace + "/" + image;
        distributions := distributions + [Distribution(name, name, name)];
      }
    }
    assert images[..|images|] == images;
    r := Ok(distributions);
  }

  /** The templates filter the list of images and look at one of the distros whose tags were listed. */
  ghost predicate SyncInputs(distros: seq<Distro>, images: seq<Image>, filtered: seq<Image>, distro: Distro) {
    distro in distros && forall i :: i in filtered ==> i in images
  }

  /** Some container of the image deploys the tag on a distro that is listed and builds the image. */
  ghost predicate DeployedSomewhere(tags: KollaImageTags, unbuildable: map<Distro, seq<Image>>, distros: seq<Distro>,
                                    image: Image, tag: Tag) {
    exists d :: d in distros && Builds(unbuildable, (d, image)) && Deploys(tags, (d, image), tag)
  }

  /** The repository of the image, with exactly the tags that are deployed, each once. */
  ghost predicate SyncsDeployed(tags: KollaImageTags, unbuildable: map<Distro, seq<Image>>, distros: seq<Distro>,
                                namespace: string, image: Image, repo: Repository) {
    && repo.name == namespace + "/" + image && NoDuplicates(repo.includeTags)
    && forall tag :: tag in repo.includeTags <==> DeployedSomewhere(tags, unbuildable, distros, image, tag)
  }

  lemma ListedIsDeployed(tags: KollaImageTags, unbuildable: map<Distro, seq<Image>>, distros: seq<Distro>,
                         images: seq<Image>, m: map<Image, seq<Tag>>, namespace: string, image: Image)
    requires ExactTags(tags, unbuildable, Visits(distros, images), m) && image in m && image in images
    ensures SyncsDeployed(tags, unbuildable, distros, namespace, image,
                          Repository(namespace + "/" + image, m[image]))
  {
    forall tag ensures tag in m[image] <==> DeployedSomewhere(tags, unbuildable, distros, image, tag) {
      if d :| d in distros && Builds(unbuildable, (d, image)) && Deploys(tags, (d, image), tag) {
        assert (d, image) in Visits(distros, images);
      }
    }
  }

  /** A listed distro that builds the image gives it a list of tags. */
  lemma BuiltIsListed(tags: KollaImageTags, unbuildable: map<Distro, seq<Image>>, distros: seq<Distro>,
                      images: seq<Image>, m: map<Image, seq<Tag>>, distro: Distro, image: Image)
    requires ExactTags(tags, unbuildable, Visits(distros, images), m) && distro in distros && image in images
    requires forall v :: v in Visits(distros, images) ==> !Fails(tags, unbuildable, v)
    ensures !Undefines(unbuildable, distro, m, image)
  {
    assert (distro, image) in Visits(distros, images);
  }

  /**
    From the tags file to the repositories: the lookups in the template never fail, so that an error is one that
    `get_tags` raises, and every image built for the distro is synced with exactly the tags that are deployed.
  */
  method SyncRepositories(namespace: string, distros: seq<Distro>, images: seq<Image>,
                          unbuildable: map<Distro, seq<Image>>, tags: KollaImageTags, filtered: seq<Image>,
                          distro: Distro)
    returns (r: Result<seq<Repository>, TagError>)
    requires SyncInputs(distros, images, filtered, distro)
    ensures r.Err? <==> exists v :: v in Visits(distros, images) && Fails(tags, unbuildable, v)
    ensures r.Ok? ==> var built := BuiltOn(filtered, unbuildable, distro);
              |r.value| == |built| &&
              forall k :: 0 <= k < |built| ==>
                SyncsDeployed(tags, unbuildable, distros, namespace, built[k], r.value[k])
  {
    var imageTags := GetTags(distros, images, unbuildable, tags);
    if imageTags.Err? {
      return Err(imageTags.error);
    }
    ghost var m := imageTags.value;
    forall i | i in filtered ensures !Undefines(unbuildable, distro, m, i) {
      BuiltIsListed(tags, unbuildable, distros, images, m, distro, i);
    }
    var repos := ContainerRepos(namespace, filtered, unbuildable, distro, imageTags.value);
    if repos.Err? {
      assert false;
    }
    ghost var built := BuiltOn(filtered, unbuildable, distro);
    forall k | 0 <= k < |built| ensures SyncsDeployed(tags, unbuildable, distros, namespace, built[k], repos.value[k]) {
      KeptMember(filtered, unbuildable[distro], built[k]);
      ListedIsDeployed(tags, unbuildable, distros, images, m, namespace, built[k]);
    }
    r := Ok(repos.value);
  }

  /** With a default tag for the distro, every container has a tag. */
  lemma TagFound(tags: KollaImageTags, distro: Distro, c: Name)
    requires Usable(tags) && distro in tags.entry[OPENSTACK]
    ensures GetTag(tags, distro, c).Ok?
  {
    GetTagResolves(tags, distro, c);
    ResolveTagged(ExceptionHops(), Tagged(tags, distro), c);
  }

  lemma ResolveTagged(x: Hops, s: set<Name>, c: Name)
    requires OPENSTACK in s
    ensures Resolve(x, s, c) in s
  {
  }

  lemma TagListed(tags: KollaImageTags, unbuildable: map<Distro, seq<Image>>, distros: seq<Distro>, images: seq<Image>,
                  m: map<Image, seq<Tag>>, visit: Visit, c: Name)
    requires ExactTags(tags, unbuildable, Visits(distros, images), m) && visit in Visits(distros, images)
             && Builds(unbuildable, visit)
    requires c in GetContainers(visit.1) && GetTag(tags, visit.0, c).Ok?
    ensures visit.1 in m && GetTag(tags, visit.0, c).value in m[visit.1]
  {
    assert Deploys(tags, visit, GetTag(tags, visit.0, c).value);
    assert (visit.0, visit.1) in Visits(distros, images);
  }

  /** The tags synced for an image include what every container of the image deploys on the distro. */
  lemma SyncCoversDeployment(distros: seq<Distro>, images: seq<Image>, unbuildable: map<Distro, seq<Image>>,
                             tags: KollaImageTags, m: map<Image, seq<Tag>>, filtered: seq<Image>, distro: Distro,
                             image: Image, h: Hierarchy, c: Name)
    requires ExactTags(tags, unbuildable, Visits(distros, images), m) && SyncInputs(distros, images, filtered, distro)
    requires image in filtered && Builds(unbuildable, (distro, image))
    requires Checked(h) && Overrides(h, tags) && NoShadowedException(ExceptionHops(), Names(h))
    requires distro in tags.entry[OPENSTACK]
    requires c in GetContainers(image) && c in h.parent && c != OPENSTACK
    ensures image in m && DeployTag(h, tags, distro, c).Some? && DeployTag(h, tags, distro, c).value in m[image]
  {
    NoShadowAgrees(h, tags, distro, c);
    TagFound(tags, distro, c);
    TagListed(tags, unbuildable, distros, images, m, (distro, image), c);
  }
}

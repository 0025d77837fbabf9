/**
  The tag-variable resolver of `tools/kolla-images.py`: the two exception tables, the search for a
  container's parent variable and the tag a container deploys.
*/
module KollaTags {
  import opened ParentSearch
  import opened Prelude
  import opened StableSort

  type Distro = string
  type Tag = string

  /** Why a lookup raises: the first element of an empty list, or a missing dictionary key. */
  datatype TagError = IndexError | KeyError(key: string)

  const IMAGE_TO_CONTAINERS_EXCEPTIONS: map<string, seq<Name>> := map[
    "dnsmasq" := ["ironic_dnsmasq"],
    "haproxy" := ["glance_tls_proxy", "haproxy", "neutron_tls_proxy"],
    "httpd" := ["ironic_http", "keystone_httpd", "letsencrypt_webserver"],
    "mariadb-server" := ["mariadb", "mariabackup"],
    "neutron-mlnx-agent" := ["neutron_eswitchd", "neutron_mlnx_agent"],
    "neutron-metadata-agent" := ["neutron_metadata_agent", "neutron_ovn_metadata_agent"],
    "nova-conductor" := ["nova_super_conductor", "nova_conductor"],
    "openvswitch-db-server" := ["openvswitch_db"],
    "ovn-nb-db-server" := ["ovn_nb_db"],
    "ovn-sb-db-server" := ["ovn_sb_db"],
    "prometheus-server" := ["prometheus_server"],
    "valkey-server" := ["valkey"]
  ]

  const CONTAINER_TO_PREFIX_VAR_EXCEPTIONS: map<Name, Name> := map[
    "glance_tls_proxy" := "haproxy",
    "hacluster_pacemaker_remote" := "hacluster",
    "heat_api_cfn" := "heat",
    "ironic_neutron_agent" := "neutron",
    "ironic_pxe_filter" := "ironic",
    "neutron_eswitchd" := "neutron_mlnx_agent",
    "neutron_tls_proxy" := "haproxy",
    "nova_compute_ironic" := "nova",
    "ovn_sb_db_relay" := "ovn",
    "redis_sentinel" := "openstack",
    "swift_object_expirer" := "swift",
    "tgtd" := "iscsi"
  ]

  /** A Python dictionary of tag variables: its keys in insertion order, and the value of each key. */
  datatype TagVars = TagVars(order: seq<Name>, entry: map<Name, map<Distro, Tag>>) {
    ghost predicate WellFormed() {
      NoDuplicates(order) && forall n :: n in order <==> n in entry
    }
  }

  type KollaImageTags = tags: TagVars | tags.WellFormed() witness TagVars([], map[])

  predicate IsException(c: Name) {
    c in CONTAINER_TO_PREFIX_VAR_EXCEPTIONS
  }

  /** The name whose prefixes are searched for the container's parent. */
  function PrefixVar(c: Name): Name {
    if IsException(c) then CONTAINER_TO_PREFIX_VAR_EXCEPTIONS[c] else c
  }

  /** The variable has an entry for the distro; without a distro, being a key is enough. */
  predicate Carries(tags: TagVars, distro: Option<Distro>, n: Name) {
    n in tags.entry && (distro.None? || distro.value in tags.entry[n])
  }

  function TagKey(tags: TagVars, distro: Option<Distro>, prefixVar: Name, n: Name): int {
    if n == OPENSTACK then 0
    else if ProperPrefix(n, prefixVar) && Carries(tags, distro, n) then -|n|
    else 1
  }

  function ParentTagName(tags: KollaImageTags, distro: Option<Distro>, c: Name): (r: Result<Name, TagError>)
  {
    var p := PrefixVar(c);
    if IsException(c) && Carries(tags, distro, p) then Ok(p)
    else
      var names := Sort(tags.order, n => TagKey(tags, distro, p, n));
      if names == [] then Err(IndexError) else Ok(names[0])
  }

  function ParentTag(tags: KollaImageTags, distro: Distro, c: Name): Result<Tag, TagError> {
    match ParentTagName(tags, Some(distro), c)
    case Err(e) => Err(e)
    case Ok(n) => Lookup(tags, n, distro)
  }

  /** `kolla_image_tags[n][distro]`. */
  function Lookup(tags: TagVars, n: Name, distro: Distro): Result<Tag, TagError> {
    if n !in tags.entry then Err(KeyError(n))
    else if distro !in tags.entry[n] then Err(KeyError(distro))
    else Ok(tags.entry[n][distro])
  }

  /** The container's own tag unless it is missing or empty, else its parent's. */
  function GetTag(tags: KollaImageTags, distro: Distro, c: Name): Result<Tag, TagError> {
    if c in tags.entry && distro in tags.entry[c] && tags.entry[c][distro] != "" then Ok(tags.entry[c][distro])
    else ParentTag(tags, distro, c)
  }

  function Underscored(image: string): Name {
    seq(|image|, i requires 0 <= i < |image| => if image[i] == '-' then '_' else image[i])
  }

  /** The containers that use the image; there is always one. */
  function GetContainers(image: string): (containers: seq<Name>)
    ensures containers != []
  {
    if image in IMAGE_TO_CONTAINERS_EXCEPTIONS then IMAGE_TO_CONTAINERS_EXCEPTIONS[image]
    else [Underscored(image)]
  }

  // -----------------------------------------------------------------------------------------------
  // The containers of an image
  // -----------------------------------------------------------------------------------------------

  /** The name has the image's characters, and an underscore for each dash. */
  ghost predicate IsUnderscored(image: string, c: Name) {
    |c| == |image| && forall i :: 0 <= i < |c| ==> if image[i] == '-' then c[i] == '_' else c[i] == image[i]
  }

  /** An image outside the table has one container, named after it. */
  lemma DefaultContainer(image: string)
    requires image !in IMAGE_TO_CONTAINERS_EXCEPTIONS
    ensures exists c :: GetContainers(image) == [c] && IsUnderscored(image, c)
    ensures forall c :: IsUnderscored(image, c) ==> GetContainers(image) == [c]
  {
    var u := Underscored(image);
    assert GetContainers(image) == [u] && IsUnderscored(image, u);
    forall c | IsUnderscored(image, c) ensures c == u {
      assert forall i :: 0 <= i < |c| ==> c[i] == u[i];
    }
  }

  lemma ListedContainers(image: string)
    ensures image in IMAGE_TO_CONTAINERS_EXCEPTIONS ==> GetContainers(image) == IMAGE_TO_CONTAINERS_EXCEPTIONS[image]
    ensures GetContainers("haproxy") == ["glance_tls_proxy", "haproxy", "neutron_tls_proxy"]
    ensures GetContainers("valkey-server") == ["valkey"]
  {
  }

  /** `ironic-neutron-agent` is used by a container whose tag comes from `neutron`. */
  lemma IronicNeutronAgent()
    ensures GetContainers("ironic-neutron-agent") == ["ironic_neutron_agent"]
    ensures IsException("ironic_neutron_agent") && PrefixVar("ironic_neutron_agent") == "neutron"
  {
    NotListed();
    AgentUnderscored();
    OnlyContainer("ironic-neutron-agent", "ironic_neutron_agent");
    AgentHops();
  }

  lemma OnlyContainer(image: string, c: Name)
    requires image !in IMAGE_TO_CONTAINERS_EXCEPTIONS && IsUnderscored(image, c)
    ensures GetContainers(image) == [c]
  {
    DefaultContainer(image);
  }

  lemma AgentHops()
    ensures IsException("ironic_neutron_agent") && PrefixVar("ironic_neutron_agent") == "neutron"
  {
  }

  lemma NotListed()
    ensures "ironic-neutron-agent" !in IMAGE_TO_CONTAINERS_EXCEPTIONS
  {
  }

  lemma AgentUnderscored()
    ensures IsUnderscored("ironic-neutron-agent", "ironic_neutron_agent")
  {
  }

  lemma ListedWithoutDash(image: string, c: Name)
    requires image in IMAGE_TO_CONTAINERS_EXCEPTIONS && c in IMAGE_TO_CONTAINERS_EXCEPTIONS[image]
    ensures '-' !in c
  {
  }

  /** No container has a dash in its name. */
  lemma NoDash(image: string, c: Name)
    requires c in GetContainers(image)
    ensures '-' !in c
  {
    if image in IMAGE_TO_CONTAINERS_EXCEPTIONS {
      ListedWithoutDash(image, c);
    }
  }

  // -----------------------------------------------------------------------------------------------
  // The exception table
  // -----------------------------------------------------------------------------------------------

  lemma ExceptionTableFacts(y: Name, z: Name)
    requires IsException(y) && IsException(z)
    ensures !(y <= PrefixVar(z)) && !(y <= OPENSTACK)
    ensures y <= z ==> y == z
  {
    var w := PrefixVar(z);
    assert |y| <= |w| ==> y[0] != w[0] || y[8] != w[8];
    assert |y| <= |OPENSTACK| ==> y[0] != OPENSTACK[0];
    if y <= z {
      assert y[0] == z[0] && y[1] == z[1];
      assert |y| > 8 ==> y[7] == z[7] && y[8] == z[8];
    }
  }

  lemma ExceptionTableSound()
    ensures Sound(CONTAINER_TO_PREFIX_VAR_EXCEPTIONS)
  {
    var x := CONTAINER_TO_PREFIX_VAR_EXCEPTIONS;
    forall y, z | y in x && z in x
      ensures x[z] != "" && !(y <= x[z]) && !(y <= OPENSTACK) && (y <= z ==> y == z)
    {
      ExceptionTableFacts(y, z);
    }
  }

  ghost function ExceptionHops(): Hops {
    ExceptionTableSound();
    CONTAINER_TO_PREFIX_VAR_EXCEPTIONS
  }

  // -----------------------------------------------------------------------------------------------
  // The parent search without a sort
  // -----------------------------------------------------------------------------------------------

  /** The variables the search may return for the distro. */
  ghost function Carriers(tags: TagVars, distro: Option<Distro>): set<Name> {
    set n | n in tags.entry && (distro.Some? ==> distro.value in tags.entry[n])
  }

  /** What validation guarantees of the keys: the default is there and no key is empty. */
  ghost predicate Keyed(tags: TagVars) {
    OPENSTACK in tags.entry && "" !in tags.entry
  }

  /** Sorting the keys by `tag_key` and taking the first finds the longest matching prefix. */
  lemma SortedHeadIsAbove(tags: KollaImageTags, distro: Option<Distro>, p: Name)
    requires Keyed(tags)
    ensures tags.order != []
    ensures Sort(tags.order, n => TagKey(tags, distro, p, n))[0] == Above(Carriers(tags, distro), p)
  {
    var s, key := Carriers(tags, distro), n => TagKey(tags, distro, p, n);
    assert OPENSTACK in tags.order;
    var i := SortHead(tags.order, key);
    var head := tags.order[i];
    var z := Above(s, p);
    assert z in tags.order;
    var j :| 0 <= j < |tags.order| && tags.order[j] == z;
    assert TagKey(tags, distro, p, head) == key(head) <= key(tags.order[j]) == TagKey(tags, distro, p, z);
    assert head in tags.entry && head != "";
    if head != OPENSTACK && ProperPrefix(head, p) {
      assert head == p[..|head|];
    }
  }

  lemma ParentTagNameIsParent(tags: KollaImageTags, distro: Option<Distro>, c: Name)
    requires Keyed(tags)
    ensures ParentTagName(tags, distro, c) == Ok(Parent(ExceptionHops(), Carriers(tags, distro), c))
  {
    SortedHeadIsAbove(tags, distro, PrefixVar(c));
  }
}

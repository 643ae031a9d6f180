/** The VPC resource, the VPC data source and the Elastic IP of src/aws/network/vpc/mod.rs. */
module Vpcs {
  import opened Wrappers
  import opened Hcl
  import opened Fields
  import Cidr

  // ---------------------------------------------------------------------------
  // aws_vpc

  /** `Vpc`. */
  datatype Vpc = Vpc(
    name: string,
    cidrBlock: Cidr.Block,
    instanceTenancy: Option<string>,
    enableDnsHostnames: Option<bool>,
    enableDnsSupport: Option<bool>,
    enableClassiclink: Option<bool>,
    enableClassiclinkDnsSupport: Option<bool>,
    assignGeneratedIpv6CidrBlock: Option<bool>,
    tags: Option<map<string, string>>)

  /** `Vpc::resource_name`: the Terraform address `aws_vpc.<name>`. */
  function ResourceName(v: Vpc): (r: string)
    ensures |r| == 8 + |v.name|
    ensures r[..8] == "aws_vpc." && r[8..] == v.name
  {
    "aws_vpc." + v.name
  }

  /** The attribute keys of a VPC block, in the order they are appended. */
  const VpcKeys: seq<string> := [
    "cidr_block", "instance_tenancy", "enable_dns_hostnames", "enable_dns_support",
    "enable_classiclink", "enable_classiclink_dns_support",
    "assign_generated_ipv6_cidr_block", "tags"]

  /** The attributes the compiler may append, one slot each, in its order. */
  function VpcSlots(v: Vpc): (slots: seq<Slot>)
    ensures |slots| == 8
  {
    [ Slot("cidr_block", Some(Str(Cidr.Display(v.cidrBlock)))),
      StrSlot("instance_tenancy", v.instanceTenancy),
      BoolSlot("enable_dns_hostnames", v.enableDnsHostnames),
      BoolSlot("enable_dns_support", v.enableDnsSupport),
      BoolSlot("enable_classiclink", v.enableClassiclink),
      BoolSlot("enable_classiclink_dns_support", v.enableClassiclinkDnsSupport),
      BoolSlot("assign_generated_ipv6_cidr_block", v.assignGeneratedIpv6CidrBlock),
      TagsSlot(v.tags) ]
  }

  lemma VpcKeysDistinct()
    ensures Distinct(VpcKeys)
  {
  }

  lemma VpcSlotKeys(v: Vpc)
    ensures SlotKeys(VpcSlots(v)) == VpcKeys
  {
  }

  /** What `From<Vpc> for Block` yields: the filled slots, in order, and no nested blocks. */
  function VpcBlock(v: Vpc): Block {
    Block("resource", ["aws_vpc", v.name], Emitted(VpcSlots(v)), [])
  }

  /**
   * A VPC compiles to an `aws_vpc` resource labelled by its name, whose first
   * attribute is its CIDR block in `a.b.c.d/p` form, whose optional
   * attributes appear exactly when set, with the field's value, in source
   * order and once each, and which nests no blocks.
   */
  lemma VpcBlockShape(v: Vpc)
    ensures var r := VpcBlock(v);
      && r.blockType == "resource" && r.labels == ["aws_vpc", v.name]
      && r.blocks == []
      && |r.attrs| >= 1
      && r.attrs[0] == ("cidr_block", Str(Cidr.Display(v.cidrBlock)))
      && Get(r.attrs, "instance_tenancy") == OptStr(v.instanceTenancy)
      && Get(r.attrs, "enable_dns_hostnames") == OptBool(v.enableDnsHostnames)
      && Get(r.attrs, "enable_dns_support") == OptBool(v.enableDnsSupport)
      && Get(r.attrs, "enable_classiclink") == OptBool(v.enableClassiclink)
      && Get(r.attrs, "enable_classiclink_dns_support") == OptBool(v.enableClassiclinkDnsSupport)
      && Get(r.attrs, "assign_generated_ipv6_cidr_block") == OptBool(v.assignGeneratedIpv6CidrBlock)
      && Get(r.attrs, "tags") == OptTags(v.tags)
      && Subsequence(Keys(r.attrs), VpcKeys) && Distinct(Keys(r.attrs))
  {
    var slots := VpcSlots(v);
    VpcSlotKeys(v);
    VpcKeysDistinct();
    assert slots[0] == Slot("cidr_block", Some(Str(Cidr.Display(v.cidrBlock))));
    assert slots[1] == StrSlot("instance_tenancy", v.instanceTenancy);
    assert slots[2] == BoolSlot("enable_dns_hostnames", v.enableDnsHostnames);
    assert slots[3] == BoolSlot("enable_dns_support", v.enableDnsSupport);
    assert slots[4] == BoolSlot("enable_classiclink", v.enableClassiclink);
    assert slots[5] == BoolSlot("enable_classiclink_dns_support", v.enableClassiclinkDnsSupport);
    assert slots[6] == BoolSlot("assign_generated_ipv6_cidr_block", v.assignGeneratedIpv6CidrBlock);
    assert slots[7] == TagsSlot(v.tags);
    SlotValue(slots, VpcKeys, 1);
    SlotValue(slots, VpcKeys, 2);
    SlotValue(slots, VpcKeys, 3);
    SlotValue(slots, VpcKeys, 4);
    SlotValue(slots, VpcKeys, 5);
    SlotValue(slots, VpcKeys, 6);
    SlotValue(slots, VpcKeys, 7);
    SlotOrder(slots, VpcKeys);
    EmittedLeading(slots, 1);
  }

  /** `From<Vpc> for Block`. */
  method CompileVpc(v: Vpc) returns (r: Block)
    ensures r == VpcBlock(v)
  {
    ghost var slots := VpcSlots(v);
    var block := NewBuilder("resource")
      .AddLabel("aws_vpc")
      .AddLabel(v.name)
      .AddAttribute("cidr_block", Str(Cidr.Display(v.cidrBlock)));
    assert block.attrs == EmittedUpTo(slots, 1);
    assert slots[1] == StrSlot("instance_tenancy", v.instanceTenancy);
    block := AppendSlot(block, StrSlot("instance_tenancy", v.instanceTenancy));
    assert block.attrs == EmittedUpTo(slots, 2);
    assert slots[2] == BoolSlot("enable_dns_hostnames", v.enableDnsHostnames);
    block := AppendSlot(block, BoolSlot("enable_dns_hostnames", v.enableDnsHostnames));
    assert block.attrs == EmittedUpTo(slots, 3);
    assert slots[3] == BoolSlot("enable_dns_support", v.enableDnsSupport);
    block := AppendSlot(block, BoolSlot("enable_dns_support", v.enableDnsSupport));
    assert block.attrs == EmittedUpTo(slots, 4);
    assert slots[4] == BoolSlot("enable_classiclink", v.enableClassiclink);
    block := AppendSlot(block, BoolSlot("enable_classiclink", v.enableClassiclink));
    assert block.attrs == EmittedUpTo(slots, 5);
    assert slots[5] == BoolSlot("enable_classiclink_dns_support", v.enableClassiclinkDnsSupport);
    block := AppendSlot(block, BoolSlot("enable_classiclink_dns_support", v.enableClassiclinkDnsSupport));
    assert block.attrs == EmittedUpTo(slots, 6);
    assert slots[6] == BoolSlot("assign_generated_ipv6_cidr_block", v.assignGeneratedIpv6CidrBlock);
    block := AppendSlot(block, BoolSlot("assign_generated_ipv6_cidr_block", v.assignGeneratedIpv6CidrBlock));
    assert block.attrs == EmittedUpTo(slots, 7);
    assert slots[7] == TagsSlot(v.tags);
    block := AppendSlot(block, TagsSlot(v.tags));
    assert block.attrs == EmittedUpTo(slots, 8);
    EmittedUpToAll(slots);
    r := block.Build();
  }

  // ---------------------------------------------------------------------------
  // data "aws_vpc"

  /** `VpcDataSource`. */
  datatype VpcDataSource = VpcDataSource(
    id: Option<string>,
    cidrBlock: Option<string>,
    ownerId: Option<string>,
    enableDnsHostnames: Option<bool>,
    enableDnsSupport: Option<bool>,
    tags: Option<map<string, string>>,
    filter: Option<seq<Filter>>)

  /** The attribute keys of a VPC data source block, in the order they are appended. */
  const VpcDataSourceKeys: seq<string> := [
    "id", "cidr_block", "owner_id", "enable_dns_hostnames", "enable_dns_support",
    "tags"]

  /** The attributes the compiler may append, one slot each, in its order. */
  function VpcDataSourceSlots(d: VpcDataSource): (slots: seq<Slot>)
    ensures |slots| == 6
  {
    [ StrSlot("id", d.id),
      StrSlot("cidr_block", d.cidrBlock),
      StrSlot("owner_id", d.ownerId),
      BoolSlot("enable_dns_hostnames", d.enableDnsHostnames),
      BoolSlot("enable_dns_support", d.enableDnsSupport),
      TagsSlot(d.tags) ]
  }

  lemma VpcDataSourceKeysDistinct()
    ensures Distinct(VpcDataSourceKeys)
  {
  }

  lemma VpcDataSourceSlotKeys(d: VpcDataSource)
    ensures SlotKeys(VpcDataSourceSlots(d)) == VpcDataSourceKeys
  {
  }

  /** What `From<VpcDataSource> for Block` yields: the filled slots, then one `filter` block per filter. */
  function VpcDataSourceBlock(d: VpcDataSource): Block {
    Block("data", ["aws_vpc", d.id.GetOr("vpc")], Emitted(VpcDataSourceSlots(d)), FilterBlocks(d.filter))
  }

  /**
   * A VPC data source compiles to a `data "aws_vpc"` block labelled by its
   * id, or `vpc` without one; each attribute appears exactly when set, in
   * source order and once each; the nested blocks are the filters, one
   * `filter` block per filter, in order, and none without filters.
   */
  lemma VpcDataSourceBlockShape(d: VpcDataSource)
    ensures var r := VpcDataSourceBlock(d);
      && r.blockType == "data" && r.labels == ["aws_vpc", if d.id.Some? then d.id.value else "vpc"]
      && r.blocks == FilterBlocks(d.filter)
      && Get(r.attrs, "id") == OptStr(d.id)
      && Get(r.attrs, "cidr_block") == OptStr(d.cidrBlock)
      && Get(r.attrs, "owner_id") == OptStr(d.ownerId)
      && Get(r.attrs, "enable_dns_hostnames") == OptBool(d.enableDnsHostnames)
      && Get(r.attrs, "enable_dns_support") == OptBool(d.enableDnsSupport)
      && Get(r.attrs, "tags") == OptTags(d.tags)
      && Subsequence(Keys(r.attrs), VpcDataSourceKeys) && Distinct(Keys(r.attrs))
      && (d.filter.None? ==> r.blocks == [])
      && (d.filter.Some? ==>
           |r.blocks| == |d.filter.value| && forall i | 0 <= i < |r.blocks| :: FilterOf(r.blocks[i]) == Some(d.filter.value[i]))
  {
    var slots := VpcDataSourceSlots(d);
    VpcDataSourceSlotKeys(d);
    VpcDataSourceKeysDistinct();
    assert slots[0] == StrSlot("id", d.id);
    assert slots[1] == StrSlot("cidr_block", d.cidrBlock);
    assert slots[2] == StrSlot("owner_id", d.ownerId);
    assert slots[3] == BoolSlot("enable_dns_hostnames", d.enableDnsHostnames);
    assert slots[4] == BoolSlot("enable_dns_support", d.enableDnsSupport);
    assert slots[5] == TagsSlot(d.tags);
    SlotValue(slots, VpcDataSourceKeys, 0);
    SlotValue(slots, VpcDataSourceKeys, 1);
    SlotValue(slots, VpcDataSourceKeys, 2);
    SlotValue(slots, VpcDataSourceKeys, 3);
    SlotValue(slots, VpcDataSourceKeys, 4);
    SlotValue(slots, VpcDataSourceKeys, 5);
    SlotOrder(slots, VpcDataSourceKeys);
  }

  /** `From<VpcDataSource> for Block`. */
  method CompileVpcDataSource(d: VpcDataSource) returns (r: Block)
    ensures r == VpcDataSourceBlock(d)
  {
    ghost var slots := VpcDataSourceSlots(d);
    var block := NewBuilder("data")
      .AddLabel("aws_vpc")
      .AddLabel(d.id.GetOr("vpc"));
    assert slots[0] == StrSlot("id", d.id);
    block := AppendSlot(block, StrSlot("id", d.id));
    assert block.attrs == EmittedUpTo(slots, 1);
    assert slots[1] == StrSlot("cidr_block", d.cidrBlock);
    block := AppendSlot(block, StrSlot("cidr_block", d.cidrBlock));
    assert block.attrs == EmittedUpTo(slots, 2);
    assert slots[2] == StrSlot("owner_id", d.ownerId);
    block := AppendSlot(block, StrSlot("owner_id", d.ownerId));
    assert block.attrs == EmittedUpTo(slots, 3);
    assert slots[3] == BoolSlot("enable_dns_hostnames", d.enableDnsHostnames);
    block := AppendSlot(block, BoolSlot("enable_dns_hostnames", d.enableDnsHostnames));
    assert block.attrs == EmittedUpTo(slots, 4);
    assert slots[4] == BoolSlot("enable_dns_support", d.enableDnsSupport);
    block := AppendSlot(block, BoolSlot("enable_dns_support", d.enableDnsSupport));
    assert block.attrs == EmittedUpTo(slots, 5);
    assert slots[5] == TagsSlot(d.tags);
    block := AppendSlot(block, TagsSlot(d.tags));
    assert block.attrs == EmittedUpTo(slots, 6);
    EmittedUpToAll(slots);
    if d.filter.Some? {
      block := block.AddBlocks(FilterBlocks(d.filter));
    }
    r := block.Build();
  }

  /** A data source with nothing set is a bare `data "aws_vpc" "vpc"` block. */
  lemma EmptyVpcDataSource()
    ensures VpcDataSourceBlock(VpcDataSource(None, None, None, None, None, None, None))
      == Block("data", ["aws_vpc", "vpc"], [], [])
  {
    EmittedNone(VpcDataSourceSlots(VpcDataSource(None, None, None, None, None, None, None)));
  }

  // ---------------------------------------------------------------------------
  // aws_eip

  /** `ElasticIp`. */
  datatype ElasticIp = ElasticIp(
    name: string,
    domain: Option<string>,
    instance: Option<string>,
    networkInterface: Option<string>,
    publicIpv4Pool: Option<string>,
    customerOwnedIpv4Pool: Option<string>,
    associateWithPrivateIp: Option<string>,
    address: Option<string>,
    tags: Option<map<string, string>>)

  /** The attribute keys of an Elastic IP block, in the order they are appended. */
  const ElasticIpKeys: seq<string> := [
    "domain", "instance", "network_interface", "public_ipv4_pool",
    "customer_owned_ipv4_pool", "associate_with_private_ip", "address", "tags"]

  /** The attributes the compiler may append, one slot each, in its order. */
  function ElasticIpSlots(e: ElasticIp): (slots: seq<Slot>)
    ensures |slots| == 8
  {
    [ StrSlot("domain", e.domain),
      StrSlot("instance", e.instance),
      StrSlot("network_interface", e.networkInterface),
      StrSlot("public_ipv4_pool", e.publicIpv4Pool),
      StrSlot("customer_owned_ipv4_pool", e.customerOwnedIpv4Pool),
      StrSlot("associate_with_private_ip", e.associateWithPrivateIp),
      StrSlot("address", e.address),
      TagsSlot(e.tags) ]
  }

  lemma ElasticIpKeysDistinct()
    ensures Distinct(ElasticIpKeys)
  {
  }

  lemma ElasticIpSlotKeys(e: ElasticIp)
    ensures SlotKeys(ElasticIpSlots(e)) == ElasticIpKeys
  {
  }

  /** What `From<ElasticIp> for Block` yields: the filled slots, in order, and no nested blocks. */
  function ElasticIpBlock(e: ElasticIp): Block {
    Block("resource", ["aws_eip", e.name], Emitted(ElasticIpSlots(e)), [])
  }

  /**
   * An Elastic IP compiles to an `aws_eip` resource labelled by its name,
   * each of whose attributes appears exactly when set, in source order and
   * once each; it nests no blocks.
   */
  lemma ElasticIpBlockShape(e: ElasticIp)
    ensures var r := ElasticIpBlock(e);
      && r.blockType == "resource" && r.labels == ["aws_eip", e.name]
      && r.blocks == []
      && Get(r.attrs, "domain") == OptStr(e.domain)
      && Get(r.attrs, "instance") == OptStr(e.instance)
      && Get(r.attrs, "network_interface") == OptStr(e.networkInterface)
      && Get(r.attrs, "public_ipv4_pool") == OptStr(e.publicIpv4Pool)
      && Get(r.attrs, "customer_owned_ipv4_pool") == OptStr(e.customerOwnedIpv4Pool)
      && Get(r.attrs, "associate_with_private_ip") == OptStr(e.associateWithPrivateIp)
      && Get(r.attrs, "address") == OptStr(e.address)
      && Get(r.attrs, "tags") == OptTags(e.tags)
      && Subsequence(Keys(r.attrs), ElasticIpKeys) && Distinct(Keys(r.attrs))
  {
    var slots := ElasticIpSlots(e);
    ElasticIpSlotKeys(e);
    ElasticIpKeysDistinct();
    assert slots[0] == StrSlot("domain", e.domain);
    assert slots[1] == StrSlot("instance", e.instance);
    assert slots[2] == StrSlot("network_interface", e.networkInterface);
    assert slots[3] == StrSlot("public_ipv4_pool", e.publicIpv4Pool);
    assert slots[4] == StrSlot("customer_owned_ipv4_pool", e.customerOwnedIpv4Pool);
    assert slots[5] == StrSlot("associate_with_private_ip", e.associateWithPrivateIp);
    assert slots[6] == StrSlot("address", e.address);
    assert slots[7] == TagsSlot(e.tags);
    SlotValue(slots, ElasticIpKeys, 0);
    SlotValue(slots, ElasticIpKeys, 1);
    SlotValue(slots, ElasticIpKeys, 2);
    SlotValue(slots, ElasticIpKeys, 3);
    SlotValue(slots, ElasticIpKeys, 4);
    SlotValue(slots, ElasticIpKeys, 5);
    SlotValue(slots, ElasticIpKeys, 6);
    SlotValue(slots, ElasticIpKeys, 7);
    SlotOrder(slots, ElasticIpKeys);
  }

  /** `From<ElasticIp> for Block`. */
  method CompileElasticIp(e: ElasticIp) returns (r: Block)
    ensures r == ElasticIpBlock(e)
  {
    ghost var slots := ElasticIpSlots(e);
    var block := NewBuilder("resource")
      .AddLabel("aws_eip")
      .AddLabel(e.name);
    assert slots[0] == StrSlot("domain", e.domain);
    block := AppendSlot(block, StrSlot("domain", e.domain));
    assert block.attrs == EmittedUpTo(slots, 1);
    assert slots[1] == StrSlot("instance", e.instance);
    block := AppendSlot(block, StrSlot("instance", e.instance));
    assert block.attrs == EmittedUpTo(slots, 2);
    assert slots[2] == StrSlot("network_interface", e.networkInterface);
    block := AppendSlot(block, StrSlot("network_interface", e.networkInterface));
    assert block.attrs == EmittedUpTo(slots, 3);
    assert slots[3] == StrSlot("public_ipv4_pool", e.publicIpv4Pool);
    block := AppendSlot(block, StrSlot("public_ipv4_pool", e.publicIpv4Pool));
    assert block.attrs == EmittedUpTo(slots, 4);
    assert slots[4] == StrSlot("customer_owned_ipv4_pool", e.customerOwnedIpv4Pool);
    block := AppendSlot(block, StrSlot("customer_owned_ipv4_pool", e.customerOwnedIpv4Pool));
    assert block.attrs == EmittedUpTo(slots, 5);
    assert slots[5] == StrSlot("associate_with_private_ip", e.associateWithPrivateIp);
    block := AppendSlot(block, StrSlot("associate_with_private_ip", e.associateWithPrivateIp));
    assert block.attrs == EmittedUpTo(slots, 6);
    assert slots[6] == StrSlot("address", e.address);
    block := AppendSlot(block, StrSlot("address", e.address));
    assert block.attrs == EmittedUpTo(slots, 7);
    assert slots[7] == TagsSlot(e.tags);
    block := AppendSlot(block, TagsSlot(e.tags));
    assert block.attrs == EmittedUpTo(slots, 8);
    EmittedUpToAll(slots);
    r := block.Build();
  }

  /** An Elastic IP with nothing but a name has no attributes at all. */
  lemma BareElasticIp(name: string)
    ensures ElasticIpBlock(ElasticIp(name, None, None, None, None, None, None, None, None))
      == Block("resource", ["aws_eip", name], [], [])
  {
    EmittedNone(ElasticIpSlots(ElasticIp(name, None, None, None, None, None, None, None, None)));
  }
}

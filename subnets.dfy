/** The subnet resource of src/aws/network/subnet.rs. */
module Subnets {
  import opened Wrappers
  import opened Hcl
  import opened Fields
  import Cidr
  import Vpcs
  import AvailabilityZones

  /** `Subnet`: the VPC it belongs to is held by reference in the source, by value here. */
  datatype Subnet = Subnet(
    name: string,
    vpc: Vpcs.Vpc,
    cidrBlock: Cidr.Block,
    availabilityZone: Option<AvailabilityZones.AvailabilityZone>,
    assignIpv6AddressOnCreation: Option<bool>,
    ipv6CidrBlock: Option<string>,
    mapPublicIpOnLaunch: Option<bool>,
    tags: Option<map<string, string>>)

  /**
   * The interpolation `${aws_vpc.<name>.id}` a subnet uses for its VPC: the
   * VPC's resource name wrapped in `${` and `.id}`.
   */
  function VpcIdReference(v: Vpcs.Vpc): (r: string)
    ensures r == "${aws_vpc." + v.name + ".id}"
  {
    "${" + Vpcs.ResourceName(v) + ".id}"
  }

  /** Two VPCs get the same reference exactly when they have the same name. */
  lemma VpcIdReferenceInjective(v: Vpcs.Vpc, w: Vpcs.Vpc)
    ensures VpcIdReference(v) == VpcIdReference(w) <==> v.name == w.name
  {
    if VpcIdReference(v) == VpcIdReference(w) {
      var r := VpcIdReference(v);
      assert v.name == r[10..|r| - 4];
    }
  }

  /** An optional availability zone as the attribute value it yields, if any. */
  function ZoneValue(z: Option<AvailabilityZones.AvailabilityZone>): (v: Option<Expr>)
    ensures v.Some? <==> z.Some?
    ensures v.Some? ==> v.value == Str(AvailabilityZones.ToString(z.value))
  {
    if z.Some? then Some(Str(AvailabilityZones.ToString(z.value))) else None
  }

  /** The attribute keys of a subnet block, in the order they are appended. */
  const SubnetKeys: seq<string> := [
    "vpc_id", "cidr_block", "availability_zone", "assign_ipv6_address_on_creation",
    "ipv6_cidr_block", "map_public_ip_on_launch", "tags"]

  /** The attributes the compiler may append, one slot each, in its order. */
  function SubnetSlots(s: Subnet): (slots: seq<Slot>)
    ensures |slots| == 7
  {
    [ Slot("vpc_id", Some(Str(VpcIdReference(s.vpc)))),
      Slot("cidr_block", Some(Str(Cidr.Display(s.cidrBlock)))),
      Slot("availability_zone", ZoneValue(s.availabilityZone)),
      BoolSlot("assign_ipv6_address_on_creation", s.assignIpv6AddressOnCreation),
      StrSlot("ipv6_cidr_block", s.ipv6CidrBlock),
      BoolSlot("map_public_ip_on_launch", s.mapPublicIpOnLaunch),
      TagsSlot(s.tags) ]
  }

  lemma SubnetKeysDistinct()
    ensures Distinct(SubnetKeys)
  {
  }

  lemma SubnetSlotKeys(s: Subnet)
    ensures SlotKeys(SubnetSlots(s)) == SubnetKeys
  {
  }

  /** What `From<Subnet> for Block` yields: the filled slots, in order, and no nested blocks. */
  function SubnetBlock(s: Subnet): Block {
    Block("resource", ["aws_subnet", s.name], Emitted(SubnetSlots(s)), [])
  }

  /**
   * A subnet compiles to an `aws_subnet` resource labelled by its name,
   * whose first attribute references its VPC's `id`, whose second is its
   * CIDR block in `a.b.c.d/p` form, whose optional attributes appear exactly
   * when set, in source order and once each, and which nests no blocks.
   */
  lemma SubnetBlockShape(s: Subnet)
    ensures var r := SubnetBlock(s);
      && r.blockType == "resource" && r.labels == ["aws_subnet", s.name]
      && r.blocks == []
      && |r.attrs| >= 2
      && r.attrs[0] == ("vpc_id", Str(VpcIdReference(s.vpc)))
      && r.attrs[1] == ("cidr_block", Str(Cidr.Display(s.cidrBlock)))
      && Get(r.attrs, "availability_zone") == ZoneValue(s.availabilityZone)
      && Get(r.attrs, "assign_ipv6_address_on_creation") == OptBool(s.assignIpv6AddressOnCreation)
      && Get(r.attrs, "ipv6_cidr_block") == OptStr(s.ipv6CidrBlock)
      && Get(r.attrs, "map_public_ip_on_launch") == OptBool(s.mapPublicIpOnLaunch)
      && Get(r.attrs, "tags") == OptTags(s.tags)
      && Subsequence(Keys(r.attrs), SubnetKeys) && Distinct(Keys(r.attrs))
  {
    var slots := SubnetSlots(s);
    SubnetSlotKeys(s);
    SubnetKeysDistinct();
    assert slots[0] == Slot("vpc_id", Some(Str(VpcIdReference(s.vpc))));
    assert slots[1] == Slot("cidr_block", Some(Str(Cidr.Display(s.cidrBlock))));
    assert slots[2] == Slot("availability_zone", ZoneValue(s.availabilityZone));
    assert slots[3] == BoolSlot("assign_ipv6_address_on_creation", s.assignIpv6AddressOnCreation);
    assert slots[4] == StrSlot("ipv6_cidr_block", s.ipv6CidrBlock);
    assert slots[5] == BoolSlot("map_public_ip_on_launch", s.mapPublicIpOnLaunch);
    assert slots[6] == TagsSlot(s.tags);
    SlotValue(slots, SubnetKeys, 2);
    SlotValue(slots, SubnetKeys, 3);
    SlotValue(slots, SubnetKeys, 4);
    SlotValue(slots, SubnetKeys, 5);
    SlotValue(slots, SubnetKeys, 6);
    SlotOrder(slots, SubnetKeys);
    EmittedLeading(slots, 2);
  }

  /** `From<Subnet> for Block`. */
  method CompileSubnet(s: Subnet) returns (r: Block)
    ensures r == SubnetBlock(s)
  {
    ghost var slots := SubnetSlots(s);
    var block := NewBuilder("resource")
      .AddLabel("aws_subnet")
      .AddLabel(s.name)
      .AddAttribute("vpc_id", Str("${" + Vpcs.ResourceName(s.vpc) + ".id}"))
      .AddAttribute("cidr_block", Str(Cidr.Display(s.cidrBlock)));
    assert block.attrs == EmittedUpTo(slots, 2);
    assert slots[2] == Slot("availability_zone", ZoneValue(s.availabilityZone));
    block := AppendSlot(block, Slot("availability_zone", ZoneValue(s.availabilityZone)));
    assert block.attrs == EmittedUpTo(slots, 3);
    assert slots[3] == BoolSlot("assign_ipv6_address_on_creation", s.assignIpv6AddressOnCreation);
    block := AppendSlot(block, BoolSlot("assign_ipv6_address_on_creation", s.assignIpv6AddressOnCreation));
    assert block.attrs == EmittedUpTo(slots, 4);
    assert slots[4] == StrSlot("ipv6_cidr_block", s.ipv6CidrBlock);
    block := AppendSlot(block, StrSlot("ipv6_cidr_block", s.ipv6CidrBlock));
    assert block.attrs == EmittedUpTo(slots, 5);
    assert slots[5] == BoolSlot("map_public_ip_on_launch", s.mapPublicIpOnLaunch);
    block := AppendSlot(block, BoolSlot("map_public_ip_on_launch", s.mapPublicIpOnLaunch));
    assert block.attrs == EmittedUpTo(slots, 6);
    assert slots[6] == TagsSlot(s.tags);
    block := AppendSlot(block, TagsSlot(s.tags));
    assert block.attrs == EmittedUpTo(slots, 7);
    EmittedUpToAll(slots);
    r := block.Build();
  }
}

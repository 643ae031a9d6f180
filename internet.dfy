/** The internet gateway resource and data source of src/aws/network/gateway/internet.rs. */
module InternetGateways {
  import opened Wrappers
  import opened Hcl
  import opened Fields
  import Vpcs
  import Subnets

  // ---------------------------------------------------------------------------
  // aws_internet_gateway

  /** `Internet`: the VPC it is attached to is held by reference in the source, by value here. */
  datatype Internet = Internet(
    name: string,
    vpc: Vpcs.Vpc,
    tags: Option<map<string, string>>)

  /** The attribute keys of an internet gateway block, in the order they are appended. */
  const InternetKeys: seq<string> := ["vpc_id", "tags"]

  /** The attributes the compiler may append, one slot each, in its order. */
  function InternetSlots(g: Internet): (slots: seq<Slot>)
    ensures |slots| == 2
  {
    [ Slot("vpc_id", Some(Str("${aws_vpc." + g.vpc.name + ".id}"))),
      TagsSlot(g.tags) ]
  }

  lemma InternetKeysDistinct()
    ensures Distinct(InternetKeys)
  {
  }

  lemma InternetSlotKeys(g: Internet)
    ensures SlotKeys(InternetSlots(g)) == InternetKeys
  {
  }

  /** What `From<Internet> for Block` yields: the filled slots, in order, and no nested blocks. */
  function InternetBlock(g: Internet): Block {
    Block("resource", ["aws_internet_gateway", g.name], Emitted(InternetSlots(g)), [])
  }

  /**
   * An internet gateway compiles to an `aws_internet_gateway` resource
   * labelled by its name, whose first attribute references its VPC's `id`,
   * whose only other attribute is `tags`, present exactly when set, and
   * which nests no blocks.
   */
  lemma InternetBlockShape(g: Internet)
    ensures var r := InternetBlock(g);
      && r.blockType == "resource" && r.labels == ["aws_internet_gateway", g.name]
      && r.blocks == []
      && |r.attrs| >= 1
      && r.attrs[0] == ("vpc_id", Str("${aws_vpc." + g.vpc.name + ".id}"))
      && Get(r.attrs, "tags") == OptTags(g.tags)
      && Subsequence(Keys(r.attrs), InternetKeys) && Distinct(Keys(r.attrs))
  {
    var slots := InternetSlots(g);
    InternetSlotKeys(g);
    InternetKeysDistinct();
    assert slots[0] == Slot("vpc_id", Some(Str("${aws_vpc." + g.vpc.name + ".id}")));
    assert slots[1] == TagsSlot(g.tags);
    SlotValue(slots, InternetKeys, 1);
    SlotOrder(slots, InternetKeys);
    EmittedLeading(slots, 1);
  }

  /** `From<Internet> for Block`. */
  method CompileInternet(g: Internet) returns (r: Block)
    ensures r == InternetBlock(g)
  {
    ghost var slots := InternetSlots(g);
    var block := NewBuilder("resource")
      .AddLabel("aws_internet_gateway")
      .AddLabel(g.name)
      .AddAttribute("vpc_id", Str("${aws_vpc." + g.vpc.name + ".id}"));
    assert block.attrs == EmittedUpTo(slots, 1);
    assert slots[1] == TagsSlot(g.tags);
    block := AppendSlot(block, TagsSlot(g.tags));
    assert block.attrs == EmittedUpTo(slots, 2);
    EmittedUpToAll(slots);
    r := block.Build();
  }

  /**
   * The gateway spells its VPC reference out by hand, the subnet builds it
   * from `resource_name`: both give the same string, so a gateway and a
   * subnet of one VPC point at the same `id`.
   */
  lemma GatewayAndSubnetAgree(g: Internet, s: Subnets.Subnet)
    requires s.vpc == g.vpc
    ensures Get(InternetBlock(g).attrs, "vpc_id") == Get(Subnets.SubnetBlock(s).attrs, "vpc_id")
    ensures Get(InternetBlock(g).attrs, "vpc_id") == Some(Str(Subnets.VpcIdReference(g.vpc)))
  {
    InternetBlockShape(g);
    Subnets.SubnetBlockShape(s);
    var r := InternetBlock(g);
    assert Get(r.attrs, "vpc_id") == Some(r.attrs[0].1);
    var t := Subnets.SubnetBlock(s);
    assert Get(t.attrs, "vpc_id") == Some(t.attrs[0].1);
  }

  /** A gateway without tags has exactly one attribute, its VPC reference. */
  lemma UntaggedInternet(name: string, vpc: Vpcs.Vpc)
    ensures InternetBlock(Internet(name, vpc, None)).attrs == [("vpc_id", Str("${aws_vpc." + vpc.name + ".id}"))]
  {
    var slots := InternetSlots(Internet(name, vpc, None));
    assert Emitted(slots) == Piece(slots[0]) + Emitted(slots[1..]);
    EmittedNone(slots[1..]);
  }

  // ---------------------------------------------------------------------------
  // data "aws_internet_gateway"

  /** `InternetDataSource`. */
  datatype InternetDataSource = InternetDataSource(
    name: string,
    internetGatewayId: Option<string>,
    filter: Option<seq<Filter>>,
    tags: Option<map<string, string>>)

  /** The attribute keys of an internet gateway data source block, in the order they are appended. */
  const InternetDataSourceKeys: seq<string> := ["internet_gateway_id", "tags"]

  /** The attributes the compiler may append, one slot each, in its order. */
  function InternetDataSourceSlots(d: InternetDataSource): (slots: seq<Slot>)
    ensures |slots| == 2
  {
    [ StrSlot("internet_gateway_id", d.internetGatewayId),
      TagsSlot(d.tags) ]
  }

  lemma InternetDataSourceKeysDistinct()
    ensures Distinct(InternetDataSourceKeys)
  {
  }

  lemma InternetDataSourceSlotKeys(d: InternetDataSource)
    ensures SlotKeys(InternetDataSourceSlots(d)) == InternetDataSourceKeys
  {
  }

  /** What `From<InternetDataSource> for Block` yields: the filled slots, then one `filter` block per filter. */
  function InternetDataSourceBlock(d: InternetDataSource): Block {
    Block("data", ["aws_internet_gateway", d.name], Emitted(InternetDataSourceSlots(d)), FilterBlocks(d.filter))
  }

  /**
   * An internet gateway data source compiles to a `data
   * "aws_internet_gateway"` block labelled by its name (whatever its id),
   * whose `internet_gateway_id` and `tags` appear exactly when set, in that
   * order and once each, and whose nested blocks are its filters, one
   * `filter` block per filter, in order, and none without filters.
   */
  lemma InternetDataSourceBlockShape(d: InternetDataSource)
    ensures var r := InternetDataSourceBlock(d);
      && r.blockType == "data" && r.labels == ["aws_internet_gateway", d.name]
      && r.blocks == FilterBlocks(d.filter)
      && Get(r.attrs, "internet_gateway_id") == OptStr(d.internetGatewayId)
      && Get(r.attrs, "tags") == OptTags(d.tags)
      && Subsequence(Keys(r.attrs), InternetDataSourceKeys) && Distinct(Keys(r.attrs))
      && (d.filter.None? ==> r.blocks == [])
      && (d.filter.Some? ==>
           |r.blocks| == |d.filter.value| && forall i | 0 <= i < |r.blocks| :: FilterOf(r.blocks[i]) == Some(d.filter.value[i]))
  {
    var slots := InternetDataSourceSlots(d);
    InternetDataSourceSlotKeys(d);
    InternetDataSourceKeysDistinct();
    assert slots[0] == StrSlot("internet_gateway_id", d.internetGatewayId);
    assert slots[1] == TagsSlot(d.tags);
    SlotValue(slots, InternetDataSourceKeys, 0);
    SlotValue(slots, InternetDataSourceKeys, 1);
    SlotOrder(slots, InternetDataSourceKeys);
  }

  /** `From<InternetDataSource> for Block`. */
  method CompileInternetDataSource(d: InternetDataSource) returns (r: Block)
    ensures r == InternetDataSourceBlock(d)
  {
    ghost var slots := InternetDataSourceSlots(d);
    var block := NewBuilder("data")
      .AddLabel("aws_internet_gateway")
      .AddLabel(d.name);
    assert slots[0] == StrSlot("internet_gateway_id", d.internetGatewayId);
    block := AppendSlot(block, StrSlot("internet_gateway_id", d.internetGatewayId));
    assert block.attrs == EmittedUpTo(slots, 1);
    assert slots[1] == TagsSlot(d.tags);
    block := AppendSlot(block, TagsSlot(d.tags));
    assert block.attrs == EmittedUpTo(slots, 2);
    EmittedUpToAll(slots);
    if d.filter.Some? {
      block := block.AddBlocks(FilterBlocks(d.filter));
    }
    r := block.Build();
  }
}

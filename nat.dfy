/** The NAT gateway resource and data source of src/aws/network/gateway/nat.rs. */
module NatGateways {
  import opened Wrappers
  import opened Hcl
  import opened Fields
  import Vpcs
  import Subnets

  // ---------------------------------------------------------------------------
  // aws_nat_gateway

  /**
   * `NAT`: the VPC, the subnet and the Elastic IP are held by reference in
   * the source, by value here.
   */
  datatype Nat = Nat(
    id: Option<string>,
    vpc: Vpcs.Vpc,
    subnet: Subnets.Subnet,
    elasticIp: Vpcs.ElasticIp,
    connectivityType: Option<string>,
    tags: Option<map<string, string>>,
    state: Option<string>)

  /** The attribute keys of a NAT gateway block, in the order they are appended. */
  const NatKeys: seq<string> := ["subnet_id", "allocation_id", "connectivity_type", "state", "tags"]

  /** The attributes the compiler may append, one slot each, in its order. */
  function NatSlots(n: Nat): (slots: seq<Slot>)
    ensures |slots| == 5
  {
    [ Slot("subnet_id", Some(Str("${aws_subnet." + n.subnet.name + ".id}"))),
      Slot("allocation_id", Some(Str("${aws_eip." + n.elasticIp.name + ".id}"))),
      StrSlot("connectivity_type", n.connectivityType),
      StrSlot("state", n.state),
      TagsSlot(n.tags) ]
  }

  lemma NatKeysDistinct()
    ensures Distinct(NatKeys)
  {
  }

  lemma NatSlotKeys(n: Nat)
    ensures SlotKeys(NatSlots(n)) == NatKeys
  {
  }

  /** What `From<NAT> for Block` yields: the filled slots, in order, and no nested blocks. */
  function NatBlock(n: Nat): Block {
    Block("resource", ["aws_nat_gateway", n.id.GetOr("nat")], Emitted(NatSlots(n)), [])
  }

  /**
   * A NAT gateway compiles to an `aws_nat_gateway` resource labelled by its
   * id, or `nat` without one; its first two attributes reference its
   * subnet's and its Elastic IP's `id`; `connectivity_type`, `state` and
   * `tags` follow exactly when set, in that order and once each; the id
   * and the VPC never appear as attributes, and no blocks are nested.
   */
  lemma NatBlockShape(n: Nat)
    ensures var r := NatBlock(n);
      && r.blockType == "resource" && r.labels == ["aws_nat_gateway", if n.id.Some? then n.id.value else "nat"]
      && r.blocks == []
      && |r.attrs| >= 2
      && r.attrs[0] == ("subnet_id", Str("${aws_subnet." + n.subnet.name + ".id}"))
      && r.attrs[1] == ("allocation_id", Str("${aws_eip." + n.elasticIp.name + ".id}"))
      && Get(r.attrs, "connectivity_type") == OptStr(n.connectivityType)
      && Get(r.attrs, "state") == OptStr(n.state)
      && Get(r.attrs, "tags") == OptTags(n.tags)
      && Subsequence(Keys(r.attrs), NatKeys) && Distinct(Keys(r.attrs))
      && Get(r.attrs, "id") == None && Get(r.attrs, "vpc_id") == None
  {
    var slots := NatSlots(n);
    NatSlotKeys(n);
    NatKeysDistinct();
    assert slots[0] == Slot("subnet_id", Some(Str("${aws_subnet." + n.subnet.name + ".id}")));
    assert slots[1] == Slot("allocation_id", Some(Str("${aws_eip." + n.elasticIp.name + ".id}")));
    assert slots[2] == StrSlot("connectivity_type", n.connectivityType);
    assert slots[3] == StrSlot("state", n.state);
    assert slots[4] == TagsSlot(n.tags);
    SlotValue(slots, NatKeys, 2);
    SlotValue(slots, NatKeys, 3);
    SlotValue(slots, NatKeys, 4);
    SlotOrder(slots, NatKeys);
    EmittedLeading(slots, 2);
    EmittedMissing(slots, "id");
    EmittedMissing(slots, "vpc_id");
  }

  /** `From<NAT> for Block`. */
  method CompileNat(n: Nat) returns (r: Block)
    ensures r == NatBlock(n)
  {
    ghost var slots := NatSlots(n);
    var block := NewBuilder("resource")
      .AddLabel("aws_nat_gateway")
      .AddLabel(n.id.GetOr("nat"))
      .AddAttribute("subnet_id", Str("${aws_subnet." + n.subnet.name + ".id}"))
      .AddAttribute("allocation_id", Str("${aws_eip." + n.elasticIp.name + ".id}"));
    assert block.attrs == EmittedUpTo(slots, 2);
    assert slots[2] == StrSlot("connectivity_type", n.connectivityType);
    block := AppendSlot(block, StrSlot("connectivity_type", n.connectivityType));
    assert block.attrs == EmittedUpTo(slots, 3);
    assert slots[3] == StrSlot("state", n.state);
    block := AppendSlot(block, StrSlot("state", n.state));
    assert block.attrs == EmittedUpTo(slots, 4);
    assert slots[4] == TagsSlot(n.tags);
    block := AppendSlot(block, TagsSlot(n.tags));
    assert block.attrs == EmittedUpTo(slots, 5);
    EmittedUpToAll(slots);
    r := block.Build();
  }

  /**
   * Of the referenced records only the subnet's and the Elastic IP's names
   * matter: the VPC and every other field of the subnet and the Elastic IP
   * leave the block unchanged.
   */
  lemma NatReferencesOnlyNames(n: Nat, m: Nat)
    requires n.id == m.id && n.connectivityType == m.connectivityType
    requires n.tags == m.tags && n.state == m.state
    requires n.subnet.name == m.subnet.name && n.elasticIp.name == m.elasticIp.name
    ensures NatBlock(n) == NatBlock(m)
  {
    assert NatSlots(n) == NatSlots(m);
  }

  // ---------------------------------------------------------------------------
  // data "aws_nat_gateway"

  /** `NATDataSource`. */
  datatype NatDataSource = NatDataSource(
    filter: Option<seq<Filter>>,
    id: Option<string>,
    state: Option<string>,
    subnetId: Option<string>,
    tags: Option<map<string, string>>,
    vpcId: Option<string>)

  /** The attribute keys of a NAT gateway data source block, in the order they are appended. */
  const NatDataSourceKeys: seq<string> := ["id", "vpc_id", "state", "tags"]

  /** The attributes the compiler may append, one slot each, in its order. */
  function NatDataSourceSlots(d: NatDataSource): (slots: seq<Slot>)
    ensures |slots| == 4
  {
    [ StrSlot("id", d.id),
      StrSlot("vpc_id", d.vpcId),
      StrSlot("state", d.state),
      TagsSlot(d.tags) ]
  }

  lemma NatDataSourceKeysDistinct()
    ensures Distinct(NatDataSourceKeys)
  {
  }

  lemma NatDataSourceSlotKeys(d: NatDataSource)
    ensures SlotKeys(NatDataSourceSlots(d)) == NatDataSourceKeys
  {
  }

  /** What `From<NATDataSource> for Block` yields: the filled slots, then one `filter` block per filter. */
  function NatDataSourceBlock(d: NatDataSource): Block {
    Block("data", ["aws_nat_gateway", d.id.GetOr("nat")], Emitted(NatDataSourceSlots(d)), FilterBlocks(d.filter))
  }

  /**
   * A NAT gateway data source compiles to a `data "aws_nat_gateway"` block
   * labelled by its id, or `nat` without one, whose `id`, `vpc_id`, `state`
   * and `tags` appear exactly when set, in that order and once each, which
   * never carries a `subnet_id`, and whose nested blocks are its filters,
   * one `filter` block per filter, in order, and none without filters.
   */
  lemma NatDataSourceBlockShape(d: NatDataSource)
    ensures var r := NatDataSourceBlock(d);
      && r.blockType == "data" && r.labels == ["aws_nat_gateway", if d.id.Some? then d.id.value else "nat"]
      && r.blocks == FilterBlocks(d.filter)
      && Get(r.attrs, "id") == OptStr(d.id)
      && Get(r.attrs, "vpc_id") == OptStr(d.vpcId)
      && Get(r.attrs, "state") == OptStr(d.state)
      && Get(r.attrs, "tags") == OptTags(d.tags)
      && Subsequence(Keys(r.attrs), NatDataSourceKeys) && Distinct(Keys(r.attrs))
      && Get(r.attrs, "subnet_id") == None
      && (d.filter.None? ==> r.blocks == [])
      && (d.filter.Some? ==>
           |r.blocks| == |d.filter.value| && forall i | 0 <= i < |r.blocks| :: FilterOf(r.blocks[i]) == Some(d.filter.value[i]))
  {
    var slots := NatDataSourceSlots(d);
    NatDataSourceSlotKeys(d);
    NatDataSourceKeysDistinct();
    assert slots[0] == StrSlot("id", d.id);
    assert slots[1] == StrSlot("vpc_id", d.vpcId);
    assert slots[2] == StrSlot("state", d.state);
    assert slots[3] == TagsSlot(d.tags);
    SlotValue(slots, NatDataSourceKeys, 0);
    SlotValue(slots, NatDataSourceKeys, 1);
    SlotValue(slots, NatDataSourceKeys, 2);
    SlotValue(slots, NatDataSourceKeys, 3);
    SlotOrder(slots, NatDataSourceKeys);
    EmittedMissing(slots, "subnet_id");
  }

  /** `From<NATDataSource> for Block`. */
  method CompileNatDataSource(d: NatDataSource) returns (r: Block)
    ensures r == NatDataSourceBlock(d)
  {
    ghost var slots := NatDataSourceSlots(d);
    var block := NewBuilder("data")
      .AddLabel("aws_nat_gateway")
      .AddLabel(d.id.GetOr("nat"));
    assert slots[0] == StrSlot("id", d.id);
    block := AppendSlot(block, StrSlot("id", d.id));
    assert block.attrs == EmittedUpTo(slots, 1);
    assert slots[1] == StrSlot("vpc_id", d.vpcId);
    block := AppendSlot(block, StrSlot("vpc_id", d.vpcId));
    assert block.attrs == EmittedUpTo(slots, 2);
    assert slots[2] == StrSlot("state", d.state);
    block := AppendSlot(block, StrSlot("state", d.state));
    assert block.attrs == EmittedUpTo(slots, 3);
    assert slots[3] == TagsSlot(d.tags);
    block := AppendSlot(block, TagsSlot(d.tags));
    assert block.attrs == EmittedUpTo(slots, 4);
    EmittedUpToAll(slots);
    if d.filter.Some? {
      block := block.AddBlocks(FilterBlocks(d.filter));
    }
    r := block.Build();
  }

  /** The data source's `subnet_id` field has no effect on the block. */
  lemma NatDataSourceIgnoresSubnetId(d: NatDataSource, subnetId: Option<string>)
    ensures NatDataSourceBlock(d.(subnetId := subnetId)) == NatDataSourceBlock(d)
  {
    assert NatDataSourceSlots(d.(subnetId := subnetId)) == NatDataSourceSlots(d);
  }
}

/** The EKS cluster resource of src/aws/eks.rs. */
module Eks {
  import opened Wrappers
  import opened Hcl
  import opened Fields
  import Vpcs
  import Subnets

  /** `iam::Role`, of which the compiler reads only the ARN. */
  datatype Role = Role(arn: string)

  /** `EncryptionConfig`. */
  datatype EncryptionConfig = EncryptionConfig(kmsKeyArn: string)

  /**
   * `Cluster`: the VPC, the subnets and the role are held by reference in
   * the source, by value here.
   */
  datatype Cluster = Cluster(
    name: string,
    vpc: Vpcs.Vpc,
    subnetIds: seq<Subnets.Subnet>,
    version: Option<string>,
    role: Role,
    kubernetesVersion: Option<string>,
    enabledClusterLogTypes: Option<seq<string>>,
    endpointPrivateAccess: Option<bool>,
    endpointPublicAccess: Option<bool>,
    encryptionConfig: Option<EncryptionConfig>,
    tags: Option<map<string, string>>)

  /** The interpolation `${aws_subnet.<name>.id}` that references a subnet's id. */
  function SubnetReference(s: Subnets.Subnet): (r: string)
    ensures |r| == |s.name| + 17
    ensures r[..13] == "${aws_subnet." && r[13..|r| - 4] == s.name && r[|r| - 4..] == ".id}"
  {
    "${aws_subnet." + s.name + ".id}"
  }

  /** The `subnet_ids` array: one subnet reference per subnet, in the cluster's order. */
  function SubnetIdArray(subnets: seq<Subnets.Subnet>): (e: Expr)
    ensures e.Arr? && |e.items| == |subnets|
    ensures forall i | 0 <= i < |subnets| :: e.items[i] == Str(SubnetReference(subnets[i]))
  {
    Arr(seq(|subnets|, i requires 0 <= i < |subnets| => Str(SubnetReference(subnets[i]))))
  }

  /** The subnets' names can be read back off the `subnet_ids` array, in order. */
  lemma SubnetIdArrayNames(subnets: seq<Subnets.Subnet>, i: nat)
    requires i < |subnets|
    ensures var e := SubnetIdArray(subnets).items[i];
      e.Str? && e.text[13..|e.text| - 4] == subnets[i].name
  {
  }

  /** The `vpc_config` block: a single `subnet_ids` attribute and nothing nested. */
  function VpcConfigBlock(subnets: seq<Subnets.Subnet>): (b: Block)
    ensures b.blockType == "vpc_config" && b.labels == [] && b.blocks == []
    ensures b.attrs == [("subnet_ids", SubnetIdArray(subnets))]
  {
    Block("vpc_config", [], [("subnet_ids", SubnetIdArray(subnets))], [])
  }

  /** The `encryption_config` block: one nested `provider` block carrying the key ARN. */
  function EncryptionBlock(e: EncryptionConfig): (b: Block)
    ensures b.blockType == "encryption_config" && b.labels == [] && b.attrs == [] && |b.blocks| == 1
    ensures b.blocks[0] == Block("provider", [], [("key_arn", Str(e.kmsKeyArn))], [])
  {
    Block("encryption_config", [], [], [Block("provider", [], [("key_arn", Str(e.kmsKeyArn))], [])])
  }

  /** The encryption blocks of a cluster: one when encryption is configured, else none. */
  function EncryptionBlocks(e: Option<EncryptionConfig>): (bs: seq<Block>)
    ensures e.None? <==> bs == []
    ensures e.Some? ==> bs == [EncryptionBlock(e.value)]
  {
    if e.Some? then [EncryptionBlock(e.value)] else []
  }

  /** An optional list of strings as the array value it yields, if any. */
  function OptStrings(field: Option<seq<string>>): (v: Option<Expr>)
    ensures v.Some? <==> field.Some?
    ensures v.Some? ==> v.value == StringArray(field.value)
    ensures v.Some? ==> v.value.Arr? && StringsOf(v.value.items) == field.value
  {
    if field.Some? then StringArrayRoundTrip(field.value); Some(StringArray(field.value)) else None
  }

  /** The attribute keys of a cluster block, in the order they are appended. */
  const ClusterKeys: seq<string> := [
    "name", "role_arn", "version", "kubernetes_version", "enabled_cluster_log_types",
    "endpoint_private_access", "endpoint_public_access", "tags"]

  /** The attributes the compiler may append, one slot each, in its order. */
  function ClusterSlots(c: Cluster): (slots: seq<Slot>)
    ensures |slots| == 8
  {
    [ Slot("name", Some(Str(c.name))),
      Slot("role_arn", Some(Str(c.role.arn))),
      StrSlot("version", c.version),
      StrSlot("kubernetes_version", c.kubernetesVersion),
      Slot("enabled_cluster_log_types", OptStrings(c.enabledClusterLogTypes)),
      BoolSlot("endpoint_private_access", c.endpointPrivateAccess),
      BoolSlot("endpoint_public_access", c.endpointPublicAccess),
      TagsSlot(c.tags) ]
  }

  lemma ClusterKeysDistinct()
    ensures Distinct(ClusterKeys)
  {
  }

  lemma ClusterSlotKeys(c: Cluster)
    ensures SlotKeys(ClusterSlots(c)) == ClusterKeys
  {
  }

  /** What `From<Cluster> for Block` yields: the filled slots, then the `vpc_config` block and, when configured, the `encryption_config` block. */
  function ClusterBlock(c: Cluster): Block {
    Block("resource", ["aws_eks_cluster", c.name], Emitted(ClusterSlots(c)), [VpcConfigBlock(c.subnetIds)] + EncryptionBlocks(c.encryptionConfig))
  }

  /**
   * A cluster compiles to an `aws_eks_cluster` resource labelled by its
   * name, whose first attributes are its name and its role's ARN, whose
   * optional attributes appear exactly when set, in source order and once
   * each; its first nested block is always `vpc_config`, and an
   * `encryption_config` block follows exactly when encryption is configured.
   */
  lemma ClusterBlockShape(c: Cluster)
    ensures var r := ClusterBlock(c);
      && r.blockType == "resource" && r.labels == ["aws_eks_cluster", c.name]
      && r.blocks == [VpcConfigBlock(c.subnetIds)] + EncryptionBlocks(c.encryptionConfig)
      && |r.attrs| >= 2
      && r.attrs[0] == ("name", Str(c.name))
      && r.attrs[1] == ("role_arn", Str(c.role.arn))
      && Get(r.attrs, "version") == OptStr(c.version)
      && Get(r.attrs, "kubernetes_version") == OptStr(c.kubernetesVersion)
      && Get(r.attrs, "enabled_cluster_log_types") == OptStrings(c.enabledClusterLogTypes)
      && Get(r.attrs, "endpoint_private_access") == OptBool(c.endpointPrivateAccess)
      && Get(r.attrs, "endpoint_public_access") == OptBool(c.endpointPublicAccess)
      && Get(r.attrs, "tags") == OptTags(c.tags)
      && Subsequence(Keys(r.attrs), ClusterKeys) && Distinct(Keys(r.attrs))
  {
    var slots := ClusterSlots(c);
    ClusterSlotKeys(c);
    ClusterKeysDistinct();
    assert slots[0] == Slot("name", Some(Str(c.name)));
    assert slots[1] == Slot("role_arn", Some(Str(c.role.arn)));
    assert slots[2] == StrSlot("version", c.version);
    assert slots[3] == StrSlot("kubernetes_version", c.kubernetesVersion);
    assert slots[4] == Slot("enabled_cluster_log_types", OptStrings(c.enabledClusterLogTypes));
    assert slots[5] == BoolSlot("endpoint_private_access", c.endpointPrivateAccess);
    assert slots[6] == BoolSlot("endpoint_public_access", c.endpointPublicAccess);
    assert slots[7] == TagsSlot(c.tags);
    SlotValue(slots, ClusterKeys, 2);
    SlotValue(slots, ClusterKeys, 3);
    SlotValue(slots, ClusterKeys, 4);
    SlotValue(slots, ClusterKeys, 5);
    SlotValue(slots, ClusterKeys, 6);
    SlotValue(slots, ClusterKeys, 7);
    SlotOrder(slots, ClusterKeys);
    EmittedLeading(slots, 2);
  }

  /** `From<Cluster> for Block`. */
  method CompileCluster(c: Cluster) returns (r: Block)
    ensures r == ClusterBlock(c)
  {
    ghost var slots := ClusterSlots(c);
    var block := NewBuilder("resource")
      .AddLabel("aws_eks_cluster")
      .AddLabel(c.name)
      .AddAttribute("name", Str(c.name))
      .AddAttribute("role_arn", Str(c.role.arn));
    var vpcConfig := NewBuilder("vpc_config")
      .AddAttribute("subnet_ids", SubnetIdArray(c.subnetIds))
      .Build();
    assert vpcConfig == VpcConfigBlock(c.subnetIds);
    block := block.AddBlock(vpcConfig);
    assert block.attrs == EmittedUpTo(slots, 2);
    assert slots[2] == StrSlot("version", c.version);
    block := AppendSlot(block, StrSlot("version", c.version));
    assert block.attrs == EmittedUpTo(slots, 3);
    assert slots[3] == StrSlot("kubernetes_version", c.kubernetesVersion);
    block := AppendSlot(block, StrSlot("kubernetes_version", c.kubernetesVersion));
    assert block.attrs == EmittedUpTo(slots, 4);
    assert slots[4] == Slot("enabled_cluster_log_types", OptStrings(c.enabledClusterLogTypes));
    block := AppendSlot(block, Slot("enabled_cluster_log_types", OptStrings(c.enabledClusterLogTypes)));
    assert block.attrs == EmittedUpTo(slots, 5);
    assert slots[5] == BoolSlot("endpoint_private_access", c.endpointPrivateAccess);
    block := AppendSlot(block, BoolSlot("endpoint_private_access", c.endpointPrivateAccess));
    assert block.attrs == EmittedUpTo(slots, 6);
    assert slots[6] == BoolSlot("endpoint_public_access", c.endpointPublicAccess);
    block := AppendSlot(block, BoolSlot("endpoint_public_access", c.endpointPublicAccess));
    assert block.attrs == EmittedUpTo(slots, 7);
    if c.encryptionConfig.Some? {
      var provider := NewBuilder("provider")
        .AddAttribute("key_arn", Str(c.encryptionConfig.value.kmsKeyArn))
        .Build();
      assert provider.attrs == [("key_arn", Str(c.encryptionConfig.value.kmsKeyArn))];
      var encryption := NewBuilder("encryption_config").AddBlock(provider).Build();
      assert encryption.blocks == [provider];
      assert encryption == EncryptionBlock(c.encryptionConfig.value);
      block := block.AddBlock(encryption);
    }
    assert block.blocks == [VpcConfigBlock(c.subnetIds)] + EncryptionBlocks(c.encryptionConfig);
    assert slots[7] == TagsSlot(c.tags);
    block := AppendSlot(block, TagsSlot(c.tags));
    assert block.attrs == EmittedUpTo(slots, 8);
    EmittedUpToAll(slots);
    r := block.Build();
  }

  /**
   * The nested blocks of a cluster: `vpc_config` always comes first, and an
   * `encryption_config` block follows exactly when encryption is configured.
   */
  lemma ClusterNestedBlocks(c: Cluster)
    ensures var bs := ClusterBlock(c).blocks;
      && |bs| == (if c.encryptionConfig.Some? then 2 else 1)
      && bs[0] == VpcConfigBlock(c.subnetIds)
      && (c.encryptionConfig.Some? ==> bs[1] == EncryptionBlock(c.encryptionConfig.value))
  {
  }

  /** The cluster's VPC contributes nothing to the block. */
  lemma ClusterIgnoresVpc(c: Cluster, v: Vpcs.Vpc)
    ensures ClusterBlock(c.(vpc := v)) == ClusterBlock(c)
  {
    var d := c.(vpc := v);
    assert d.name == c.name && d.role == c.role && d.subnetIds == c.subnetIds && d.tags == c.tags;
    assert ClusterSlots(d) == ClusterSlots(c);
  }
}

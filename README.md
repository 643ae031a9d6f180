# nexus7 AWS infrastructure compilers in Dafny

This project models the AWS part of nexus7. nexus7 describes cloud
infrastructure as Rust values and turns each value into an HCL block for
Terraform. The model covers three pieces:

- **CIDR blocks** (`Cidr`, from `src/aws/network/cidr.rs`).
  - A block is an IPv4 address and a prefix length.
  - `new` rejects prefix lengths above 32.
  - The network and broadcast addresses come from masks built with checked shifts.
  - `contains` tests whether an address lies between them.
  - The display form is `a.b.c.d/p`.
  - Addresses are their `u32` values. Bitwise AND and OR are defined exactly on naturals.
  - Each mask is proved to clear or set exactly the host bits.
  - Network address, broadcast address and containment are therefore characterised by
    division by `2^(32 - prefix)`.
- **Resource compilers** (`Vpcs`, `Subnets`, `InternetGateways`, `NatGateways`, `Eks`,
  `Storage`, `Provider`).
  - Each compiler is the `From<...> for Block` conversion of one resource.
  - The provider block has no optional fields. It is a single function whose contract gives
    the whole block.
  - Every other compiler is an imperative `method` that drives the block builder the way the Rust code does.
    - It adds labels, attributes and nested blocks in the source's own order.
    - Each optional field is one `if let Some(..)` step.
    - That order is not always "fixed first, optional next, blocks last":
      - a bucket's optional name label and `bucket` attribute come before its always-present `acl`;
      - a bucket ACL's policy block is added before `expected_bucket_owner`;
      - a cluster's `vpc_config` block is added right after `role_arn`.
    - Attributes and nested blocks are kept apart; see "Attribute/block interleaving" under "## Left out".
  - Each method is proved equal to a declarative block function.
  - A shape lemma per block states what that function means:
    - its block type and labels;
    - the value of each attribute by key (present exactly when the field is set);
    - that the keys appear once each and in source order;
    - what the nested blocks are.
  - `Fields` holds the conversions the Rust code repeats inline in every compiler, with
    their round trips:
    - tags map to an object expression;
    - string lists map to an array;
    - data-source filters map to `filter` blocks.
  - `Hcl` models the part of the `hcl` crate that the compilers use: expressions, blocks
    and the builder.
- **Enum tables** (`AvailabilityZones`, `Regions`, and the canned ACL options in
  `Storage`).
  - Each table's strings are proved distinct, so the rendering can be reversed.

## Model

| member | source | states |
|---|---|---|
| Cidr.New | src/aws/network/cidr.rs:11-19 | succeeds exactly when the prefix length is at most 32, keeping address and prefix; otherwise fails with the fixed message |
| Cidr.Octets | src/aws/network/cidr.rs:57-61 | an address has four octets, and rebuilding an address from them gives the address back (the octets are what `Display` writes) |
| Cidr.OctetsOfIpv4 | src/aws/network/cidr.rs:57-61 | splitting the address built from four octets gives back those octets |
| Cidr.NetworkAddress | src/aws/network/cidr.rs:29-38 | the network address has all host bits clear and the same network bits as the block's address (a prefix of 0 gives 0.0.0.0) |
| Cidr.BroadcastAddress | src/aws/network/cidr.rs:40-47 | the broadcast address has all host bits set and the same network bits as the block's address (a prefix of 32 gives the address itself) |
| Cidr.Contains | src/aws/network/cidr.rs:49-54 | an address is contained exactly when its network bits equal the block's network bits |
| Cidr.NetworkMask | src/aws/network/cidr.rs:33-36 | ANDing with `u32::MAX << (32 - p)` clears exactly the low `32 - p` bits |
| Cidr.BroadcastMask | src/aws/network/cidr.rs:44-45 | ORing with `u32::MAX >> p` sets exactly the low `32 - p` bits |
| Cidr.ShlMax | src/aws/network/cidr.rs:33-35 | `u32::MAX` shifted left by k (mod 2^32) is `2^32 - 2^k` |
| Cidr.ShrMax | src/aws/network/cidr.rs:44 | `u32::MAX` shifted right by p is `2^(32-p) - 1` |
| Cidr.NetworkAddressValue | src/aws/network/cidr.rs:29-38 | the network address is the address rounded down to a multiple of the block size |
| Cidr.BroadcastAddressValue | src/aws/network/cidr.rs:40-47 | the broadcast address is the network address plus the block size minus one |
| Cidr.AddressWithinBlock | src/aws/network/cidr.rs:49-54 | network <= address <= broadcast, and the block contains all three |
| Cidr.ZeroPrefixContainsAll | src/aws/network/cidr.rs:170-179 | a /0 block spans 0.0.0.0 to 255.255.255.255 and contains every address |
| Cidr.FullPrefixContainsOnlyAddress | src/aws/network/cidr.rs:181-190 | a /32 block's network and broadcast addresses are its address, and it contains exactly that address |
| Cidr.BlockExamples | src/aws/network/cidr.rs:87-109 | prefix 33 is rejected and 16 accepted (24 also for 255.255.255.255); the network address of 192.168.1.100/24 is 192.168.1.0 and the broadcast of 192.168.0.0/24 is 192.168.0.255 |
| Cidr.PrefixExamples | src/aws/network/cidr.rs:192-220 | network and broadcast addresses of 192.168.0.0/16, 10.0.0.0/8 and 172.16.0.0/12 are the source's expected pairs |
| Cidr.ContainsExamples | src/aws/network/cidr.rs:74-79 | 192.168.1.0/24 contains 192.168.1.255, and (cidr.rs:124-127) 192.168.0.0/24 does not contain 192.168.1.1 |
| Cidr.ContainsEdgeExamples | src/aws/network/cidr.rs:147-153 | 10.0.0.0/31 contains 10.0.0.0 and 10.0.0.1 but not 10.0.0.2 |
| Cidr.ContainsRangeExamples | src/aws/network/cidr.rs:161-168 | 10.0.0.0/8 contains 10.0.0.0, 10.128.0.0 and 10.255.255.255 but not 11.0.0.0 |
| Cidr.ContainsPrefixExamples | src/aws/network/cidr.rs:222-256 | the source's containment cases for a /16, an /8 and a /12 hold, including 192.169.0.0 lying outside 192.168.0.0/16 |
| Cidr.Decimal | src/aws/network/cidr.rs:57-61 | a number's decimal rendering is a non-empty digit string |
| Cidr.DecimalRoundTrip | src/aws/network/cidr.rs:57-61 | parsing the decimal rendering gives back the number |
| Cidr.DottedDecimal | src/aws/network/cidr.rs:59 | an address renders as 7 to 15 characters of digits and dots, starting and ending with a digit |
| Cidr.Display | src/aws/network/cidr.rs:57-61 | the display holds exactly one slash, and the digits after it read back as the prefix length; `DisplayInjective` and `DisplayClassA/B/C` pin the rest |
| Cidr.DisplayInjective | src/aws/network/cidr.rs:57-61 | two blocks with the same display are the same block |
| Cidr.DisplayClassA | src/aws/network/cidr.rs:129-133 | 10.0.0.0 displays as `10.0.0.0/16` and `10.0.0.0/8` |
| Cidr.DisplayClassB | src/aws/network/cidr.rs:135-139 | 172.16.0.0/16 displays as `172.16.0.0/16` |
| Cidr.DisplayClassC | src/aws/network/cidr.rs:141-145 | 192.168.0.0 displays as `192.168.0.0/24` and `192.168.0.0/16` |
| Hcl.Keys | src/aws/network/vpc/mod.rs:43-95 | a reading aid for the shape lemmas, not a model of this code: the keys of a block's attributes, one per attribute, in append order |
| Hcl.Get | src/aws/network/vpc/mod.rs:43-95 | a reading aid for the shape lemmas, not a model of this code: an attribute lookup finds a value exactly when the key is present, and the pair found is one of the attributes |
| Fields.OptStr | src/aws/network/vpc/mod.rs:50-52 | an optional string field gives a string attribute exactly when it is set |
| Fields.OptBool | src/aws/network/vpc/mod.rs:54-59 | an optional flag gives a boolean attribute exactly when it is set |
| Fields.OptTags | src/aws/network/vpc/mod.rs:85-92 | optional tags give an attribute exactly when set, and it is exactly the tags object (`TagsExpr`), from which the map reads back |
| Fields.TagsExpr | src/aws/network/vpc/mod.rs:85-91 | the tags object has the same keys as the tag map, each mapped to its string value |
| Fields.TagsRoundTrip | src/aws/network/vpc/mod.rs:85-91 | reading the tags back from the object gives the original map |
| Fields.EmptyTags | src/aws/storage/s3.rs:310-323 | an empty tag map gives an empty object |
| Fields.StringArray | src/aws/network/vpc/mod.rs:167-181 | a string list becomes an array of as many string expressions, in order |
| Fields.StringArrayRoundTrip | src/aws/network/vpc/mod.rs:167-181 | reading the strings back from the array gives the original list |
| Fields.FilterRoundTrip | src/aws/network/vpc/mod.rs:167-181 | a filter block's attributes are exactly `name = Str(name)` then `values = StringArray(values)`, with no nested blocks, and the filter can be read back from it |
| Fields.FilterBlocks | src/aws/network/vpc/mod.rs:167-183 | no filters give no blocks; otherwise exactly one `filter` block per filter, in order, each reading back as its filter |
| Fields.FilterBlocksRoundTrip | src/aws/network/vpc/mod.rs:167-183 | every filter reads back from its own block |
| Fields.AppendSlot | src/aws/network/vpc/mod.rs:50-52 | an `if let Some(v)` append adds the attribute when the field is set and leaves the builder unchanged otherwise |
| Fields.SlotValue | src/aws/network/vpc/mod.rs:43-95 | when the appended keys are distinct, looking up a key gives that field's value, or nothing when the field is unset |
| Fields.SlotOrder | src/aws/network/vpc/mod.rs:43-95 | the emitted keys keep the append order and never repeat |
| Fields.EmittedMissing | src/aws/network/gateway/nat.rs:103-150 | a key the compiler never appends is absent from the block |
| Fields.EmittedNone | src/aws/network/vpc/mod.rs:43-95 | with every optional field unset, nothing is appended |
| Fields.EmittedLeading | src/aws/network/vpc/mod.rs:44-48 | the unconditional attributes come first, in their order |
| AvailabilityZones.ToString | src/aws/availability_zone.rs:17-23 | each zone's name is ten characters: `us-east-1` followed by one zone letter `a` to `c` |
| AvailabilityZones.Display | src/aws/availability_zone.rs:10-14 | `Display` writes exactly what `to_string` gives |
| AvailabilityZones.ZoneNames | src/aws/availability_zone.rs:17-23 | the three zones render as us-east-1a, us-east-1b and us-east-1c |
| AvailabilityZones.ZoneNamesDistinct | src/aws/availability_zone.rs:10-23 | distinct zones render differently, and `Display` agrees with `to_string` |
| Regions.Display | src/aws/region.rs:10-17 | `UsWest2` renders as exactly `us-west-2` and `UsEast1` as exactly `us-east-1` (each in both directions) |
| Regions.ToExpression | src/aws/region.rs:19-23 | a region becomes the string expression of its display |
| Regions.RegionNames | src/aws/region.rs:10-17 | the two regions render as `us-west-2` and `us-east-1`, which differ |
| Provider.ProviderBlock | src/aws/provider.rs:8-14 | the provider compiles to `provider "aws"` with the single attribute `region` set to the region's name |
| Storage.AclName | src/aws/storage/s3.rs:33-45 | every canned ACL renders as a name from which that ACL reads back |
| Storage.AclNameRoundTrip | src/aws/storage/s3.rs:33-45 | a canned ACL can be recovered from its name, and distinct ACLs have distinct names |
| Storage.PolicyType | src/aws/storage/s3.rs:79-90 | the policy block's `type` is `access_control_policy` or `acl` |
| Storage.PolicyTypesDistinct | src/aws/storage/s3.rs:79-90 | the two policy variants give different `type` values |
| Storage.AclValue | src/aws/storage/s3.rs:72-74 | the ACL attribute is present exactly when an ACL is set, holding its name |
| Storage.PolicyBlock | src/aws/storage/s3.rs:77-92 | the nested block is `access_control_policy`, unlabelled, without nested blocks; its only attribute is `type = "access_control_policy"` exactly for that variant and `type = "acl"` exactly for the ACL variant |
| Storage.PolicyBlocks | src/aws/storage/s3.rs:76-93 | no policy gives no nested block; a policy gives exactly its `access_control_policy` block |
| Storage.BucketAclBlockShape | src/aws/storage/s3.rs:65-104 | a bucket ACL compiles to `resource "aws_s3_bucket_acl" <bucket>` with `bucket` first, `acl` and `expected_bucket_owner` exactly when set, keys in order and once each, and the policy as its only possible nested block |
| Storage.CompileBucketAcl | src/aws/storage/s3.rs:65-104 | the builder sequence yields exactly the bucket ACL block characterised above |
| Storage.EffectiveAcl | src/aws/storage/s3.rs:151-157 | a bucket's ACL is the one it names, else `private` |
| Storage.BucketLabels | src/aws/storage/s3.rs:143-149 | a bucket's labels are `aws_s3_bucket`, followed by its name when it has one |
| Storage.BucketBlockShape | src/aws/storage/s3.rs:141-183 | a bucket compiles to an `aws_s3_bucket` resource whose second label and `bucket` attribute appear exactly when named, whose `acl` is always present (default `private`), whose other attributes appear exactly when set, in order and once each, with no nested blocks |
| Storage.CompileBucket | src/aws/storage/s3.rs:141-183 | the builder sequence yields exactly the bucket block characterised above |
| Storage.DefaultBucket | src/aws/storage/s3.rs:446-464 | a bucket with every field unset compiles to an unnamed bucket whose only attribute is `acl = "private"` |
| Vpcs.ResourceName | src/aws/network/vpc/mod.rs:38-40 | the resource name is `aws_vpc.` followed by the VPC's name |
| Vpcs.VpcBlockShape | src/aws/network/vpc/mod.rs:43-95 | a VPC compiles to `resource "aws_vpc" <name>` with `cidr_block` first (the CIDR's display), each optional attribute exactly when set, keys in order and once each, no nested blocks |
| Vpcs.CompileVpc | src/aws/network/vpc/mod.rs:43-95 | the builder sequence yields exactly the VPC block characterised above |
| Vpcs.VpcDataSourceBlockShape | src/aws/network/vpc/mod.rs:128-187 | a VPC data source compiles to `data "aws_vpc" <id or "vpc">` with each attribute exactly when set, in order and once each, and one `filter` block per filter |
| Vpcs.CompileVpcDataSource | src/aws/network/vpc/mod.rs:128-187 | the builder sequence yields exactly the VPC data-source block characterised above |
| Vpcs.EmptyVpcDataSource | src/aws/network/vpc/mod.rs:128-187 | a data source with nothing set is a bare `data "aws_vpc" "vpc"` block |
| Vpcs.ElasticIpBlockShape | src/aws/network/vpc/mod.rs:212-264 | an Elastic IP compiles to `resource "aws_eip" <name>` with each optional attribute exactly when set, in order and once each, no nested blocks |
| Vpcs.CompileElasticIp | src/aws/network/vpc/mod.rs:212-264 | the builder sequence yields exactly the Elastic IP block characterised above |
| Vpcs.BareElasticIp | src/aws/network/vpc/mod.rs:212-264 | an Elastic IP with only a name has no attributes |
| Subnets.VpcIdReference | src/aws/network/subnet.rs:39-42 | the subnet's `vpc_id` is the interpolation `${aws_vpc.<vpc name>.id}` |
| Subnets.VpcIdReferenceInjective | src/aws/network/subnet.rs:39-42 | two VPC references are equal exactly when the VPC names are |
| Subnets.ZoneValue | src/aws/network/subnet.rs:48-50 | the availability zone attribute is present exactly when a zone is set, holding the zone's name |
| Subnets.SubnetBlockShape | src/aws/network/subnet.rs:34-79 | a subnet compiles to `resource "aws_subnet" <name>` with `vpc_id` then `cidr_block` first, each optional attribute exactly when set, keys in order and once each |
| Subnets.CompileSubnet | src/aws/network/subnet.rs:34-79 | the builder sequence yields exactly the subnet block characterised above |
| InternetGateways.InternetBlockShape | src/aws/network/gateway/internet.rs:16-40 | an internet gateway compiles to `resource "aws_internet_gateway" <name>` with the VPC reference as `vpc_id` and `tags` exactly when set |
| InternetGateways.CompileInternet | src/aws/network/gateway/internet.rs:16-40 | the builder sequence yields exactly the gateway block characterised above |
| InternetGateways.GatewayAndSubnetAgree | src/aws/network/gateway/internet.rs:21-24 | a gateway and a subnet in the same VPC carry the same `vpc_id` reference |
| InternetGateways.UntaggedInternet | src/aws/network/gateway/internet.rs:16-40 | an untagged gateway's only attribute is its `vpc_id` |
| InternetGateways.InternetDataSourceBlockShape | src/aws/network/gateway/internet.rs:64-103 | the data source compiles to `data "aws_internet_gateway" <name>` with `internet_gateway_id` and `tags` exactly when set, and one `filter` block per filter |
| InternetGateways.CompileInternetDataSource | src/aws/network/gateway/internet.rs:64-103 | the builder sequence yields exactly the data-source block characterised above |
| NatGateways.NatBlockShape | src/aws/network/gateway/nat.rs:32-73 | a NAT gateway compiles to `resource "aws_nat_gateway" <id or "nat">` with `subnet_id` and `allocation_id` references first, optional attributes exactly when set, and neither `id` nor `vpc_id` ever emitted |
| NatGateways.CompileNat | src/aws/network/gateway/nat.rs:32-73 | the builder sequence yields exactly the NAT gateway block characterised above |
| NatGateways.NatReferencesOnlyNames | src/aws/network/gateway/nat.rs:32-73 | the block depends on the subnet and the Elastic IP only through their names, and not on the VPC |
| NatGateways.NatDataSourceBlockShape | src/aws/network/gateway/nat.rs:103-150 | the NAT data source compiles to `data "aws_nat_gateway" <id or "nat">` with `id`, `vpc_id`, `state`, `tags` exactly when set, never `subnet_id`, and one `filter` block per filter |
| NatGateways.CompileNatDataSource | src/aws/network/gateway/nat.rs:103-150 | the builder sequence yields exactly the NAT data-source block characterised above |
| NatGateways.NatDataSourceIgnoresSubnetId | src/aws/network/gateway/nat.rs:103-150 | the data source's `subnet_id` field has no effect on the block |
| Eks.SubnetReference | src/aws/eks.rs:49-62 | a subnet reference is `${aws_subnet.<subnet name>.id}` |
| Eks.SubnetIdArray | src/aws/eks.rs:49-62 | `subnet_ids` is an array with one reference per subnet, in order |
| Eks.SubnetIdArrayNames | src/aws/eks.rs:49-62 | the i-th element of `subnet_ids` names the i-th subnet |
| Eks.VpcConfigBlock | src/aws/eks.rs:49-62 | the `vpc_config` block holds only the `subnet_ids` attribute |
| Eks.EncryptionBlock | src/aws/eks.rs:99-111 | the `encryption_config` block nests exactly one `provider` block holding `key_arn` |
| Eks.EncryptionBlocks | src/aws/eks.rs:99-111 | no encryption config gives no block; one gives its `encryption_config` block |
| Eks.OptStrings | src/aws/eks.rs:73-83 | the log types attribute is present exactly when set, and is exactly the string array of those types (`StringArray`), which reads back as them |
| Eks.ClusterBlockShape | src/aws/eks.rs:41-124 | a cluster compiles to `resource "aws_eks_cluster" <name>` with `name` and `role_arn` first, each optional attribute exactly when set, keys in order and once each, and nested blocks `vpc_config` then the optional `encryption_config` |
| Eks.CompileCluster | src/aws/eks.rs:41-124 | the builder sequence yields exactly the cluster block characterised above |
| Eks.ClusterNestedBlocks | src/aws/eks.rs:41-124 | the first nested block is always `vpc_config`, and a second exists exactly when encryption is configured |
| Eks.ClusterIgnoresVpc | src/aws/eks.rs:41-124 | the cluster's `vpc` field has no effect on the block |

## Left out
- `Filter`: the three identical `Filter` structs of src/aws/network/vpc/mod.rs, src/aws/network/gateway/internet.rs and src/aws/network/gateway/nat.rs are one `Fields.Filter`. They have the same fields and are converted by the same code.
- Text rendering: `hcl::to_string` and the formatting of HCL text are not modelled. Blocks are compared as values.
- Attribute/block interleaving: the `hcl` crate keeps one body in which attributes and blocks interleave. The model keeps two sequences, each in append order. No compiler's result depends on the interleaving except through rendering.
- Hash map order: tag maps are `map<string, string>`. `HashMap` iteration order, and so the textual order of tags, is not modelled.
- `serde`: derives are not modelled. The `ACL` enum at src/aws/storage/s3.rs:6-12 is used only through `serde`, so it is not modelled.
- `iam::Role`: the IAM role type is not part of this model. A cluster's role is represented by its ARN alone.
- `Ipv4Addr`: addresses are their `u32` values. Parsing address text is left out because no core function parses text.
- `Block::address` and `Block::prefix_length` (src/aws/network/cidr.rs:21-27): these getters are the datatype's fields `address` and `prefixLength`.
- Documented constraints: doc comments on resource fields state value constraints, for example tenancy values. The Rust code does not check them, and neither does the model.
- Unused expression variants: `Expression` variants that no compiler produces are omitted.
- Borrowed references: the Rust structs borrow their `Vpc` and `Subnet`. The model holds them by value, so lifetimes and aliasing are not modelled.
- Stale tests: some tests exercise fields that are not in the structs, such as `subnet_id` as a plain string and `allocation_id` in the NAT test at src/aws/network/gateway/nat.rs:157-190. These tests are not modelled; the model follows the `From` implementations.

/** The S3 bucket and bucket-ACL resources of src/aws/storage/s3.rs. */
module Storage {
  import opened Wrappers
  import opened Hcl
  import opened Fields

  /** `ACLOptions`: the canned ACLs. */
  datatype AclOption =
    | Private
    | PublicRead
    | PublicReadWrite
    | AuthenticatedRead
    | LogDeliveryWrite
    | BucketOwnerRead
    | BucketOwnerFullControl

  /** `Display for ACLOptions`: the canned ACL's name, from which the ACL can be read back. */
  function AclName(a: AclOption): (s: string)
    ensures AclOf(s) == Some(a)
  {
    match a
    case Private => "private"
    case PublicRead => "public-read"
    case PublicReadWrite => "public-read-write"
    case AuthenticatedRead => "authenticated-read"
    case LogDeliveryWrite => "log-delivery-write"
    case BucketOwnerRead => "bucket-owner-read"
    case BucketOwnerFullControl => "bucket-owner-full-control"
  }

  /** Reads a canned ACL's name back. */
  function AclOf(s: string): Option<AclOption> {
    if s == "private" then Some(Private)
    else if s == "public-read" then Some(PublicRead)
    else if s == "public-read-write" then Some(PublicReadWrite)
    else if s == "authenticated-read" then Some(AuthenticatedRead)
    else if s == "log-delivery-write" then Some(LogDeliveryWrite)
    else if s == "bucket-owner-read" then Some(BucketOwnerRead)
    else if s == "bucket-owner-full-control" then Some(BucketOwnerFullControl)
    else None
  }

  /** Every canned ACL is named by a string of its own, so no two share a name. */
  lemma AclNameRoundTrip(a: AclOption, b: AclOption)
    ensures AclOf(AclName(a)) == Some(a)
    ensures AclName(a) == AclName(b) <==> a == b
  {
    assert AclOf(AclName(b)) == Some(b);
  }

  /** `AccessControlPolicy`: the two kinds an ACL's policy block can carry. */
  datatype AccessControlPolicy = AccessControlPolicy | Acl

  /** The `type` string each kind of policy writes. */
  function PolicyType(p: AccessControlPolicy): (s: string)
    ensures s == "access_control_policy" || s == "acl"
  {
    match p
    case AccessControlPolicy => "access_control_policy"
    case Acl => "acl"
  }

  lemma PolicyTypesDistinct(p: AccessControlPolicy, q: AccessControlPolicy)
    ensures PolicyType(p) == PolicyType(q) <==> p == q
  {
    if PolicyType(p) == PolicyType(q) {
      assert |PolicyType(p)| == |PolicyType(q)|;
    }
  }

  /** The nested `access_control_policy` block: one `type` attribute, nothing else. */
  function PolicyBlock(p: AccessControlPolicy): (b: Block)
    ensures b.blockType == "access_control_policy" && b.labels == [] && b.blocks == []
    ensures p == AccessControlPolicy <==> b.attrs == [("type", Str("access_control_policy"))]
    ensures p == Acl <==> b.attrs == [("type", Str("acl"))]
  {
    Block("access_control_policy", [], [("type", Str(PolicyType(p)))], [])
  }

  // ---------------------------------------------------------------------------
  // aws_s3_bucket_acl

  /** `BucketACL`. */
  datatype BucketAcl = BucketAcl(
    acl: Option<AclOption>,
    accessControlPolicy: Option<AccessControlPolicy>,
    bucket: string,
    expectedBucketOwner: Option<string>)

  /** An optional canned ACL as the `acl` value it yields, if any. */
  function AclValue(acl: Option<AclOption>): (v: Option<Expr>)
    ensures v.Some? <==> acl.Some?
    ensures v.Some? ==> v.value == Str(AclName(acl.value))
  {
    if acl.Some? then Some(Str(AclName(acl.value))) else None
  }

  /** The nested policy blocks of an ACL: one when a policy is set, else none. */
  function PolicyBlocks(p: Option<AccessControlPolicy>): (bs: seq<Block>)
    ensures p.None? <==> bs == []
    ensures p.Some? ==> bs == [PolicyBlock(p.value)]
  {
    if p.Some? then [PolicyBlock(p.value)] else []
  }

  /** The attribute keys of an ACL block, in the order they are appended. */
  const BucketAclKeys: seq<string> := ["bucket", "acl", "expected_bucket_owner"]

  /** The attributes the compiler may append, one slot each, in its order. */
  function BucketAclSlots(x: BucketAcl): (slots: seq<Slot>)
    ensures |slots| == 3
  {
    [ Slot("bucket", Some(Str(x.bucket))),
      Slot("acl", AclValue(x.acl)),
      StrSlot("expected_bucket_owner", x.expectedBucketOwner) ]
  }

  lemma BucketAclKeysDistinct()
    ensures Distinct(BucketAclKeys)
  {
  }

  lemma BucketAclSlotKeys(x: BucketAcl)
    ensures SlotKeys(BucketAclSlots(x)) == BucketAclKeys
  {
  }

  /** What `From<BucketACL> for Block` yields: the filled slots, and the policy block when a policy is set. */
  function BucketAclBlock(x: BucketAcl): Block {
    Block("resource", ["aws_s3_bucket_acl", x.bucket], Emitted(BucketAclSlots(x)), PolicyBlocks(x.accessControlPolicy))
  }

  /**
   * An ACL compiles to an `aws_s3_bucket_acl` resource labelled by the
   * bucket, whose first attribute is the bucket, whose `acl` (the canned
   * ACL's name) and `expected_bucket_owner` appear exactly when set, in that
   * order and once each, and which nests one `access_control_policy` block,
   * carrying the policy's type, exactly when a policy is set.
   */
  lemma BucketAclBlockShape(x: BucketAcl)
    ensures var r := BucketAclBlock(x);
      && r.blockType == "resource" && r.labels == ["aws_s3_bucket_acl", x.bucket]
      && r.blocks == (if x.accessControlPolicy.Some? then [PolicyBlock(x.accessControlPolicy.value)] else [])
      && |r.attrs| >= 1
      && r.attrs[0] == ("bucket", Str(x.bucket))
      && Get(r.attrs, "acl") == AclValue(x.acl)
      && Get(r.attrs, "expected_bucket_owner") == OptStr(x.expectedBucketOwner)
      && Subsequence(Keys(r.attrs), BucketAclKeys) && Distinct(Keys(r.attrs))
  {
    var slots := BucketAclSlots(x);
    BucketAclSlotKeys(x);
    BucketAclKeysDistinct();
    assert slots[0] == Slot("bucket", Some(Str(x.bucket)));
    assert slots[1] == Slot("acl", AclValue(x.acl));
    assert slots[2] == StrSlot("expected_bucket_owner", x.expectedBucketOwner);
    SlotValue(slots, BucketAclKeys, 1);
    SlotValue(slots, BucketAclKeys, 2);
    SlotOrder(slots, BucketAclKeys);
    EmittedLeading(slots, 1);
  }

  /** `From<BucketACL> for Block`. */
  method CompileBucketAcl(x: BucketAcl) returns (r: Block)
    ensures r == BucketAclBlock(x)
  {
    ghost var slots := BucketAclSlots(x);
    var block := NewBuilder("resource")
      .AddLabel("aws_s3_bucket_acl")
      .AddLabel(x.bucket)
      .AddAttribute("bucket", Str(x.bucket));
    assert block.attrs == EmittedUpTo(slots, 1);
    assert slots[1] == Slot("acl", AclValue(x.acl));
    block := AppendSlot(block, Slot("acl", AclValue(x.acl)));
    assert block.attrs == EmittedUpTo(slots, 2);
    if x.accessControlPolicy.Some? {
      var acp := NewBuilder("access_control_policy");
      match x.accessControlPolicy.value {
        case AccessControlPolicy =>
          acp := acp.AddAttribute("type", Str("access_control_policy"));
        case Acl =>
          acp := acp.AddAttribute("type", Str("acl"));
      }
      assert acp.Build() == PolicyBlock(x.accessControlPolicy.value);
      block := block.AddBlock(acp.Build());
    }
    assert slots[2] == StrSlot("expected_bucket_owner", x.expectedBucketOwner);
    block := AppendSlot(block, StrSlot("expected_bucket_owner", x.expectedBucketOwner));
    assert block.attrs == EmittedUpTo(slots, 3);
    EmittedUpToAll(slots);
    r := block.Build();
  }

  // ---------------------------------------------------------------------------
  // aws_s3_bucket

  /** `Bucket`. */
  datatype Bucket = Bucket(
    name: Option<string>,
    acl: Option<AclOption>,
    prefix: Option<string>,
    forceDestroy: Option<bool>,
    objectLockEnabled: Option<bool>,
    tags: Option<map<string, string>>)

  /** The canned ACL a bucket is given: the one it names, else `private`. */
  function EffectiveAcl(acl: Option<AclOption>): (a: AclOption)
    ensures acl.Some? ==> a == acl.value
    ensures acl.None? ==> a == Private
  {
    if acl.Some? then acl.value else Private
  }

  /** A bucket's labels: the resource type, then its name when it has one. */
  function BucketLabels(name: Option<string>): (ls: seq<string>)
    ensures |ls| == if name.Some? then 2 else 1
    ensures ls[0] == "aws_s3_bucket" && (name.Some? ==> ls[1] == name.value)
  {
    if name.Some? then ["aws_s3_bucket", name.value] else ["aws_s3_bucket"]
  }

  /** The attribute keys of a bucket block, in the order they are appended. */
  const BucketKeys: seq<string> := ["bucket", "acl", "bucket_prefix", "force_destroy", "object_lock_enabled", "tags"]

  /** The attributes the compiler may append, one slot each, in its order. */
  function BucketSlots(x: Bucket): (slots: seq<Slot>)
    ensures |slots| == 6
  {
    [ StrSlot("bucket", x.name),
      Slot("acl", Some(Str(AclName(EffectiveAcl(x.acl))))),
      StrSlot("bucket_prefix", x.prefix),
      BoolSlot("force_destroy", x.forceDestroy),
      BoolSlot("object_lock_enabled", x.objectLockEnabled),
      TagsSlot(x.tags) ]
  }

  lemma BucketKeysDistinct()
    ensures Distinct(BucketKeys)
  {
  }

  lemma BucketSlotKeys(x: Bucket)
    ensures SlotKeys(BucketSlots(x)) == BucketKeys
  {
  }

  /** What `From<Bucket> for Block` yields: the filled slots, in order, and no nested blocks. */
  function BucketBlock(x: Bucket): Block {
    Block("resource", BucketLabels(x.name), Emitted(BucketSlots(x)), [])
  }

  /**
   * A bucket compiles to an `aws_s3_bucket` resource whose second label and
   * `bucket` attribute both appear exactly when the bucket is named, whose
   * `acl` is always present (the named canned ACL, else `private`), whose
   * other attributes appear exactly when set, in source order and once
   * each, and which nests no blocks.
   */
  lemma BucketBlockShape(x: Bucket)
    ensures var r := BucketBlock(x);
      && r.blockType == "resource" && r.labels == (if x.name.Some? then ["aws_s3_bucket", x.name.value] else ["aws_s3_bucket"])
      && r.blocks == []
      && Get(r.attrs, "bucket") == OptStr(x.name)
      && Get(r.attrs, "acl") == Some(Str(AclName(EffectiveAcl(x.acl))))
      && Get(r.attrs, "bucket_prefix") == OptStr(x.prefix)
      && Get(r.attrs, "force_destroy") == OptBool(x.forceDestroy)
      && Get(r.attrs, "object_lock_enabled") == OptBool(x.objectLockEnabled)
      && Get(r.attrs, "tags") == OptTags(x.tags)
      && Subsequence(Keys(r.attrs), BucketKeys) && Distinct(Keys(r.attrs))
  {
    var slots := BucketSlots(x);
    BucketSlotKeys(x);
    BucketKeysDistinct();
    assert slots[0] == StrSlot("bucket", x.name);
    assert slots[1] == Slot("acl", Some(Str(AclName(EffectiveAcl(x.acl)))));
    assert slots[2] == StrSlot("bucket_prefix", x.prefix);
    assert slots[3] == BoolSlot("force_destroy", x.forceDestroy);
    assert slots[4] == BoolSlot("object_lock_enabled", x.objectLockEnabled);
    assert slots[5] == TagsSlot(x.tags);
    SlotValue(slots, BucketKeys, 0);
    SlotValue(slots, BucketKeys, 1);
    SlotValue(slots, BucketKeys, 2);
    SlotValue(slots, BucketKeys, 3);
    SlotValue(slots, BucketKeys, 4);
    SlotValue(slots, BucketKeys, 5);
    SlotOrder(slots, BucketKeys);
  }

  /** `From<Bucket> for Block`. */
  method CompileBucket(x: Bucket) returns (r: Block)
    ensures r == BucketBlock(x)
  {
    ghost var slots := BucketSlots(x);
    var block := NewBuilder("resource").AddLabel("aws_s3_bucket");
    assert slots[0] == StrSlot("bucket", x.name);
    if x.name.Some? {
      block := block
        .AddLabel(x.name.value)
        .AddAttribute("bucket", Str(x.name.value));
    }
    assert block.attrs == EmittedUpTo(slots, 1);
    assert slots[1] == Slot("acl", Some(Str(AclName(EffectiveAcl(x.acl)))));
    match x.acl {
      case Some(a) =>
        block := block.AddAttribute("acl", Str(AclName(a)));
      case None =>
        block := block.AddAttribute("acl", Str(AclName(Private)));
    }
    assert block.attrs == EmittedUpTo(slots, 2);
    assert slots[2] == StrSlot("bucket_prefix", x.prefix);
    block := AppendSlot(block, StrSlot("bucket_prefix", x.prefix));
    assert block.attrs == EmittedUpTo(slots, 3);
    assert slots[3] == BoolSlot("force_destroy", x.forceDestroy);
    block := AppendSlot(block, BoolSlot("force_destroy", x.forceDestroy));
    assert block.attrs == EmittedUpTo(slots, 4);
    assert slots[4] == BoolSlot("object_lock_enabled", x.objectLockEnabled);
    block := AppendSlot(block, BoolSlot("object_lock_enabled", x.objectLockEnabled));
    assert block.attrs == EmittedUpTo(slots, 5);
    assert slots[5] == TagsSlot(x.tags);
    block := AppendSlot(block, TagsSlot(x.tags));
    assert block.attrs == EmittedUpTo(slots, 6);
    EmittedUpToAll(slots);
    r := block.Build();
  }

  /**
   * A bucket with nothing set compiles to an unnamed `aws_s3_bucket` whose
   * only attribute is `acl = "private"`.
   */
  lemma DefaultBucket()
    ensures BucketBlock(Bucket(None, None, None, None, None, None))
      == Block("resource", ["aws_s3_bucket"], [("acl", Str("private"))], [])
  {
    var x := Bucket(None, None, None, None, None, None);
    var slots := BucketSlots(x);
    assert slots == [slots[0]] + [slots[1]] + slots[2..];
    EmittedNone(slots[2..]);
    assert Emitted(slots) == Piece(slots[0]) + Emitted(slots[1..]);
    assert Emitted(slots[1..]) == Piece(slots[1]) + Emitted(slots[2..]);
  }
}

/** The provider block of src/aws/provider.rs. */
module Provider {
  import opened Hcl
  import Regions

  /** `AwsProvider`: the region the provider targets. */
  datatype AwsProvider = AwsProvider(region: Regions.Region)

  /**
   * `From<AwsProvider> for Block`: a `provider "aws"` block with the region
   * as its one attribute and no nested blocks.
   */
  function ProviderBlock(p: AwsProvider): (b: Block)
    ensures b.blockType == "provider" && b.labels == ["aws"] && b.blocks == []
    ensures b.attrs == [("region", Str(Regions.Display(p.region)))]
  {
    NewBuilder("provider")
      .AddLabel("aws")
      .AddAttribute("region", Regions.ToExpression(p.region))
      .Build()
  }
}

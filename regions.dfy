/** The regions of src/aws/region.rs, their names and their HCL expressions. */
module Regions {
  import Hcl

  /** `Region`. */
  datatype Region = UsWest2 | UsEast1

  /** `Display for Region`: the region's name. */
  function Display(r: Region): (s: string)
    ensures r == UsWest2 <==> s == "us-west-2"
    ensures r == UsEast1 <==> s == "us-east-1"
  {
    match r
    case UsWest2 => "us-west-2"
    case UsEast1 => "us-east-1"
  }

  /** `From<Region> for Expression`: a string expression of the region's name. */
  function ToExpression(r: Region): (e: Hcl.Expr)
    ensures e == Hcl.Str(Display(r))
  {
    Hcl.Str(Display(r))
  }

  /** The two regions render differently, and each expression carries the name. */
  lemma RegionNames(a: Region, b: Region)
    ensures Display(a) == Display(b) <==> a == b
    ensures Display(UsWest2) == "us-west-2" && Display(UsEast1) == "us-east-1"
    ensures ToExpression(a) == Hcl.Str(Display(a))
  {
    if Display(a) == Display(b) {
      assert Display(a)[3] == Display(b)[3];
    }
  }
}

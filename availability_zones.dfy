/** The availability zones of src/aws/availability_zone.rs and their names. */
module AvailabilityZones {
  /** `AvailabilityZone`: the three zones of us-east-1 the source knows. */
  datatype AvailabilityZone = UsEast1a | UsEast1b | UsEast1c

  /**
   * `AvailabilityZone::to_string`: the zone's name, `us-east-1` followed by
   * one zone letter from `a` to `c`.
   */
  function ToString(z: AvailabilityZone): (s: string)
    ensures |s| == 10 && s[..9] == "us-east-1" && 'a' <= s[9] <= 'c'
  {
    match z
    case UsEast1a => "us-east-1a"
    case UsEast1b => "us-east-1b"
    case UsEast1c => "us-east-1c"
  }

  /** `Display for AvailabilityZone`, which writes `to_string`. */
  function Display(z: AvailabilityZone): (s: string)
    ensures s == ToString(z)
  {
    ToString(z)
  }

  /** Each zone has its own name, told apart by the last letter, and `Display` agrees with `to_string`. */
  lemma ZoneNamesDistinct(a: AvailabilityZone, b: AvailabilityZone)
    ensures ToString(a) == ToString(b) <==> a == b
    ensures Display(a) == ToString(a)
  {
    if ToString(a) == ToString(b) {
      assert ToString(a)[9] == ToString(b)[9];
    }
  }

  lemma ZoneNames()
    ensures ToString(UsEast1a) == "us-east-1a"
    ensures ToString(UsEast1b) == "us-east-1b"
    ensures ToString(UsEast1c) == "us-east-1c"
  {
  }
}

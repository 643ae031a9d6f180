/**
 * IPv4 CIDR blocks (src/aws/network/cidr.rs): an address together with a
 * prefix length, the network and broadcast addresses it spans, membership,
 * and the `a.b.c.d/p` notation of section 3.1 of RFC 4632.
 *
 * An `Ipv4Addr` is modelled by its numeric value, `u32::from(addr)`, which is
 * exactly what the source computes with.  The masks are computed as the
 * source computes them, with `u32` shifts and bitwise `&` / `|`; those are
 * defined here bit by bit on naturals, so every mask is exact.
 */
module Cidr {
  import opened Wrappers

  /** Rust's `u8`. */
  type U8 = n: nat | n < 256

  /** Rust's `u32`, and the numeric (big-endian) value of an `Ipv4Addr`. */
  type U32 = n: nat | n < 0x1_0000_0000

  /** The prefix lengths a `Block` can hold once `New` has accepted them. */
  type PrefixLength = n: nat | n <= 32

  const Two32: nat := 0x1_0000_0000
  const U32Max: U32 := 0xFFFF_FFFF

  /** The message of the one error `New` reports. */
  const InvalidPrefix: string := "Prefix length must be between 0 and 32"

  /** `cidr::Block`: the address is kept as given, host bits included. */
  datatype Block = Block(address: U32, prefixLength: PrefixLength)

  /** `Ipv4Addr::new(a, b, c, d)`: the address whose octets, most significant first, are a, b, c, d. */
  function Ipv4(a: U8, b: U8, c: U8, d: U8): U32 {
    a * 0x100_0000 + b * 0x1_0000 + c * 0x100 + d
  }

  /**
   * `Ipv4Addr::octets`: the four bytes of the address, most significant first;
   * rebuilding an address from them gives the address back.
   */
  function Octets(addr: U32): (r: seq<U8>)
    ensures |r| == 4 && Ipv4(r[0], r[1], r[2], r[3]) == addr
  {
    var hi, mid, lo := addr / 0x100_0000, addr / 0x1_0000, addr / 0x100;
    assert addr == lo * 0x100 + addr % 0x100;
    assert lo == mid * 0x100 + lo % 0x100;
    assert mid == hi * 0x100 + mid % 0x100;
    DivOfDiv(addr, 0x100, 0x100);
    DivOfDiv(addr, 0x1_0000, 0x100);
    [hi, mid % 0x100, lo % 0x100, addr % 0x100]
  }

  lemma OctetsOfIpv4(a: U8, b: U8, c: U8, d: U8)
    ensures Octets(Ipv4(a, b, c, d)) == [a, b, c, d]
  {
    var x := Ipv4(a, b, c, d);
    DivModUnique(x, 0x100_0000, a, b * 0x1_0000 + c * 0x100 + d);
    DivModUnique(x, 0x1_0000, a * 0x100 + b, c * 0x100 + d);
    DivModUnique(a * 0x100 + b, 0x100, a, b);
    DivModUnique(x, 0x100, a * 0x1_0000 + b * 0x100 + c, d);
    DivModUnique(a * 0x1_0000 + b * 0x100 + c, 0x100, a * 0x100 + b, c);
  }

  // ---------------------------------------------------------------------------
  // Construction

  /**
   * `Block::new`: refuses a prefix length above 32; otherwise stores the
   * address and the prefix length unchanged.
   */
  function New(address: U32, prefixLength: U8): (r: Result<Block, string>)
    ensures r.Ok? <==> prefixLength <= 32
    ensures r.Ok? ==> r.value.address == address && r.value.prefixLength == prefixLength
    ensures r.Err? ==> r.error == InvalidPrefix
  {
    if prefixLength > 32 then Err(InvalidPrefix) else Ok(Block(address, prefixLength))
  }

  // ---------------------------------------------------------------------------
  // u32 arithmetic, bit by bit

  function Pow2(k: nat): (r: nat)
    ensures r >= 1
  {
    if k == 0 then 1 else 2 * Pow2(k - 1)
  }

  /** Bitwise `&` of two naturals. */
  function BitAnd(x: nat, y: nat): (r: nat)
    ensures r <= x
    decreases x
  {
    if x == 0 || y == 0 then 0
    else 2 * BitAnd(x / 2, y / 2) + (if x % 2 == 1 && y % 2 == 1 then 1 else 0)
  }

  /** Bitwise `|` of two naturals. */
  function BitOr(x: nat, y: nat): nat
    decreases x + y
  {
    if x == 0 then y
    else if y == 0 then x
    else 2 * BitOr(x / 2, y / 2) + (if x % 2 == 1 || y % 2 == 1 then 1 else 0)
  }

  /** `x << k` on `u32` (k below 32): the bits shifted past bit 31 are lost. */
  function Shl(x: U32, k: nat): U32
    requires k < 32
  {
    (x * Pow2(k)) % Two32
  }

  /** `x >> k` on `u32` (k below 32). */
  function Shr(x: U32, k: nat): U32
    requires k < 32
  {
    var m := Pow2(k);
    DivIsSmaller(x, m);
    x / m
  }

  /** `u32::checked_shl`: `None` when the amount is not below the width. */
  function CheckedShl(x: U32, k: nat): Option<U32> {
    if k < 32 then Some(Shl(x, k)) else None
  }

  /** `u32::checked_shr`: `None` when the amount is not below the width. */
  function CheckedShr(x: U32, k: nat): Option<U32> {
    if k < 32 then Some(Shr(x, k)) else None
  }

  // ---------------------------------------------------------------------------
  // Network, broadcast, membership

  /** The number of host bits, the ones a prefix of this length leaves free. */
  function HostBits(b: Block): nat {
    32 - b.prefixLength
  }

  /**
   * `Block::network_address`: 0.0.0.0 for prefix 0, otherwise the address
   * masked with `u32::MAX << (32 - p)`.  Its network part is the address's
   * and all its host bits are clear.
   */
  function NetworkAddress(b: Block): (n: U32)
    ensures n % Pow2(HostBits(b)) == 0
    ensures n / Pow2(HostBits(b)) == b.address / Pow2(HostBits(b))
  {
    if b.prefixLength == 0 then
      Pow2Constants();
      DivModUnique(b.address, Two32, 0, b.address);
      0
    else
      var mask := CheckedShl(U32Max, 32 - b.prefixLength).GetOr(0);
      NetworkMask(b.address, HostBits(b));
      BitAnd(b.address, mask)
  }

  /**
   * `Block::broadcast_address`: the address itself for prefix 32, otherwise
   * the address or-ed with `u32::MAX >> p`.  Its network part is the
   * address's and all its host bits are set.
   */
  function BroadcastAddress(b: Block): (r: U32)
    ensures r % Pow2(HostBits(b)) == Pow2(HostBits(b)) - 1
    ensures r / Pow2(HostBits(b)) == b.address / Pow2(HostBits(b))
  {
    if b.prefixLength == 32 then
      b.address
    else
      var mask := CheckedShr(U32Max, b.prefixLength).GetOr(0);
      BroadcastMask(b.address, b.prefixLength);
      BitOr(b.address, mask)
  }

  /**
   * `Block::contains`: the unsigned range check between the network and the
   * broadcast address.  It holds exactly when `ip` agrees with the block's
   * address on the leading prefix-length bits.
   */
  function Contains(b: Block, ip: U32): (r: bool)
    ensures r <==> ip / Pow2(HostBits(b)) == b.address / Pow2(HostBits(b))
  {
    var network := NetworkAddress(b);
    var broadcast := BroadcastAddress(b);
    var p, q := Pow2(HostBits(b)), b.address / Pow2(HostBits(b));
    DivMod(network, p);
    DivMod(broadcast, p);
    DivRange(ip, p, q);
    ip >= network && ip <= broadcast
  }

  /** Every valid block spans network <= address <= broadcast and contains all three. */
  lemma AddressWithinBlock(b: Block)
    ensures NetworkAddress(b) <= b.address <= BroadcastAddress(b)
    ensures Contains(b, NetworkAddress(b)) && Contains(b, BroadcastAddress(b)) && Contains(b, b.address)
  {
    assert Contains(b, b.address);
  }

  /** A /0 block contains every address. */
  lemma ZeroPrefixContainsAll(addr: U32, ip: U32)
    ensures Contains(Block(addr, 0), ip)
    ensures NetworkAddress(Block(addr, 0)) == 0 && BroadcastAddress(Block(addr, 0)) == U32Max
  {
    Pow2Constants();
    DivModUnique(ip, Two32, 0, ip);
    DivModUnique(addr, Two32, 0, addr);
    var r := BroadcastAddress(Block(addr, 0));
    DivModUnique(r, Two32, 0, r);
  }

  /** A /32 block contains its address and nothing else. */
  lemma FullPrefixContainsOnlyAddress(addr: U32, ip: U32)
    ensures Contains(Block(addr, 32), ip) <==> ip == addr
    ensures NetworkAddress(Block(addr, 32)) == addr == BroadcastAddress(Block(addr, 32))
  {
  }

  // ---------------------------------------------------------------------------
  // Display

  predicate IsDigit(c: char) {
    '0' <= c <= '9'
  }

  predicate AllDigits(s: string) {
    forall i | 0 <= i < |s| :: IsDigit(s[i])
  }

  function DigitChar(d: nat): (c: char)
    requires d < 10
    ensures IsDigit(c)
  {
    ('0' as int + d) as char
  }

  function DigitValue(c: char): nat
    requires IsDigit(c)
  {
    c as int - '0' as int
  }

  /** The decimal notation of a natural number, without leading zeros (Rust's `{}`). */
  function Decimal(n: nat): (s: string)
    ensures 1 <= |s| && AllDigits(s)
    decreases n
  {
    if n < 10 then [DigitChar(n)] else Decimal(n / 10) + [DigitChar(n % 10)]
  }

  /** Reads a string of digits as a decimal number; the inverse of `Decimal`. */
  function ParseDecimal(s: string): nat
    requires AllDigits(s)
    decreases |s|
  {
    if s == [] then 0 else 10 * ParseDecimal(s[..|s| - 1]) + DigitValue(s[|s| - 1])
  }

  lemma {:induction false} DecimalRoundTrip(n: nat)
    ensures ParseDecimal(Decimal(n)) == n
    decreases n
  {
    if n >= 10 {
      DecimalRoundTrip(n / 10);
      var s := Decimal(n);
      assert s[..|s| - 1] == Decimal(n / 10);
    }
  }

  /** An octet takes one to three digits. */
  lemma OctetDigits(n: nat)
    requires n < 256
    ensures 1 <= |Decimal(n)| <= 3
  {
    if n >= 10 {
      assert |Decimal(n)| == |Decimal(n / 10)| + 1;
      if n >= 100 {
        assert |Decimal(n / 10)| == |Decimal(n / 100)| + 1;
      }
    }
  }

  /**
   * `Ipv4Addr`'s `Display`: the four octets in decimal, separated by dots.
   * The text is 7 to 15 characters of digits and dots, starting and ending with a digit.
   */
  function DottedDecimal(addr: U32): (s: string)
    ensures 7 <= |s| <= 15
    ensures forall i | 0 <= i < |s| :: IsDigit(s[i]) || s[i] == '.'
    ensures IsDigit(s[0]) && IsDigit(s[|s| - 1])
  {
    var o := Octets(addr);
    OctetDigits(o[0]);
    OctetDigits(o[1]);
    OctetDigits(o[2]);
    OctetDigits(o[3]);
    Decimal(o[0]) + "." + Decimal(o[1]) + "." + Decimal(o[2]) + "." + Decimal(o[3])
  }

  /**
   * `Display for Block`: `{address}/{prefix_length}`. The text holds a single
   * slash, and the digits after it read back as the prefix length.
   */
  function Display(b: Block): (s: string)
    ensures var p := Decimal(b.prefixLength);
      && |p| < |s| && s[|s| - |p| - 1] == '/'
      && (forall i | 0 <= i < |s| - |p| - 1 :: s[i] != '/')
      && AllDigits(s[|s| - |p|..]) && ParseDecimal(s[|s| - |p|..]) == b.prefixLength
  {
    var d, p := DottedDecimal(b.address), Decimal(b.prefixLength);
    DecimalRoundTrip(b.prefixLength);
    var s := d + "/" + p;
    assert s[|s| - |p|..] == p;
    s
  }

  /** The notation read as a numeral followed by a separator and the rest, four times over. */
  lemma DisplayParts(b: Block)
    ensures var o := Octets(b.address);
      Display(b) == Decimal(o[0]) + "." + (Decimal(o[1]) + "." + (Decimal(o[2]) + "." + (Decimal(o[3]) + "/" + Decimal(b.prefixLength))))
  {
  }

  /** Distinct blocks never render alike: the notation identifies the block. */
  lemma DisplayInjective(b1: Block, b2: Block)
    requires Display(b1) == Display(b2)
    ensures b1 == b2
  {
    var o, u := Octets(b1.address), Octets(b2.address);
    var tail1 := Decimal(o[3]) + "/" + Decimal(b1.prefixLength);
    var tail2 := Decimal(u[3]) + "/" + Decimal(b2.prefixLength);
    var mid1 := Decimal(o[2]) + "." + tail1;
    var mid2 := Decimal(u[2]) + "." + tail2;
    var rest1 := Decimal(o[1]) + "." + mid1;
    var rest2 := Decimal(u[1]) + "." + mid2;
    DisplayParts(b1);
    DisplayParts(b2);
    SplitAtSeparator(o[0], u[0], '.', rest1, rest2);
    SplitAtSeparator(o[1], u[1], '.', mid1, mid2);
    SplitAtSeparator(o[2], u[2], '.', tail1, tail2);
    SplitAtSeparator(o[3], u[3], '/', Decimal(b1.prefixLength), Decimal(b2.prefixLength));
    DecimalRoundTrip(b1.prefixLength);
    DecimalRoundTrip(b2.prefixLength);
  }

  /** The decimal forms of the prefix lengths the class examples use. */
  lemma PrefixDigits()
    ensures Decimal(8) == "8" && Decimal(16) == "16" && Decimal(24) == "24"
  {
    assert Decimal(16) == Decimal(1) + [DigitChar(6)];
    assert Decimal(24) == Decimal(2) + [DigitChar(4)];
  }

  /** The source's examples of the notation for the class A network 10.0.0.0. */
  lemma DisplayClassA()
    ensures Display(Block(Ipv4(10, 0, 0, 0), 16)) == "10.0.0.0/16"
    ensures Display(Block(Ipv4(10, 0, 0, 0), 8)) == "10.0.0.0/8"
  {
    DottedClassA();
    PrefixDigits();
  }

  lemma DottedClassA()
    ensures DottedDecimal(Ipv4(10, 0, 0, 0)) == "10.0.0.0"
  {
    OctetsOfIpv4(10, 0, 0, 0);
    assert Decimal(10) == "10" && Decimal(0) == "0";
  }

  /** The source's example of the notation for the class B network 172.16.0.0. */
  lemma DisplayClassB()
    ensures Display(Block(Ipv4(172, 16, 0, 0), 16)) == "172.16.0.0/16"
  {
    DottedClassB();
    PrefixDigits();
  }

  lemma DottedClassB()
    ensures DottedDecimal(Ipv4(172, 16, 0, 0)) == "172.16.0.0"
  {
    OctetsOfIpv4(172, 16, 0, 0);
    assert Decimal(172) == "172" by {
      assert Decimal(17) == "17";
    }
    assert Decimal(16) == "16" && Decimal(0) == "0";
  }

  /** The source's examples of the notation for the class C network 192.168.0.0. */
  lemma DisplayClassC()
    ensures Display(Block(Ipv4(192, 168, 0, 0), 24)) == "192.168.0.0/24"
    ensures Display(Block(Ipv4(192, 168, 0, 0), 16)) == "192.168.0.0/16"
  {
    DottedClassC();
    PrefixDigits();
  }

  lemma DottedClassC()
    ensures DottedDecimal(Ipv4(192, 168, 0, 0)) == "192.168.0.0"
  {
    OctetsOfIpv4(192, 168, 0, 0);
    assert Decimal(192) == "192" by {
      assert Decimal(19) == "19";
    }
    assert Decimal(168) == "168" by {
      assert Decimal(16) == "16";
    }
    assert Decimal(0) == "0";
  }

  /** The network address in closed form: the address with its host bits cleared. */
  lemma NetworkAddressValue(b: Block)
    ensures NetworkAddress(b) == (b.address / Pow2(HostBits(b))) * Pow2(HostBits(b))
  {
    DivMod(NetworkAddress(b), Pow2(HostBits(b)));
  }

  /** The broadcast address in closed form: the address with its host bits set. */
  lemma BroadcastAddressValue(b: Block)
    ensures BroadcastAddress(b) == (b.address / Pow2(HostBits(b))) * Pow2(HostBits(b)) + Pow2(HostBits(b)) - 1
  {
    DivMod(BroadcastAddress(b), Pow2(HostBits(b)));
  }

  /** The source's examples of `new`, `network_address` and `broadcast_address`. */
  lemma BlockExamples()
    ensures New(Ipv4(192, 168, 0, 0), 33) == Err(InvalidPrefix)
    ensures New(Ipv4(192, 168, 0, 0), 16).Ok? && New(Ipv4(255, 255, 255, 255), 24).Ok?
    ensures NetworkAddress(Block(Ipv4(192, 168, 1, 100), 24)) == Ipv4(192, 168, 1, 0)
    ensures BroadcastAddress(Block(Ipv4(192, 168, 0, 0), 24)) == Ipv4(192, 168, 0, 255)
  {
    Pow2Constants();
    NetworkAddressValue(Block(Ipv4(192, 168, 1, 100), 24));
    BroadcastAddressValue(Block(Ipv4(192, 168, 0, 0), 24));
    DivModUnique(Ipv4(192, 168, 1, 100), 0x100, 12625921, 100);
    DivModUnique(Ipv4(192, 168, 0, 0), 0x100, 12625920, 0);
  }

  /** The source's network and broadcast addresses for a /16, an /8 and a /12. */
  lemma PrefixExamples()
    ensures NetworkAddress(Block(Ipv4(192, 168, 0, 0), 16)) == Ipv4(192, 168, 0, 0)
    ensures BroadcastAddress(Block(Ipv4(192, 168, 0, 0), 16)) == Ipv4(192, 168, 255, 255)
    ensures NetworkAddress(Block(Ipv4(10, 0, 0, 0), 8)) == Ipv4(10, 0, 0, 0)
    ensures BroadcastAddress(Block(Ipv4(10, 0, 0, 0), 8)) == Ipv4(10, 255, 255, 255)
    ensures NetworkAddress(Block(Ipv4(172, 16, 0, 0), 12)) == Ipv4(172, 16, 0, 0)
    ensures BroadcastAddress(Block(Ipv4(172, 16, 0, 0), 12)) == Ipv4(172, 31, 255, 255)
  {
    Pow2Constants();
    assert Pow2(20) == 0x10_0000 by {
      Pow2Add(16, 4);
      assert Pow2(4) == 16;
    }
    NetworkAddressValue(Block(Ipv4(192, 168, 0, 0), 16));
    BroadcastAddressValue(Block(Ipv4(192, 168, 0, 0), 16));
    NetworkAddressValue(Block(Ipv4(10, 0, 0, 0), 8));
    BroadcastAddressValue(Block(Ipv4(10, 0, 0, 0), 8));
    NetworkAddressValue(Block(Ipv4(172, 16, 0, 0), 12));
    BroadcastAddressValue(Block(Ipv4(172, 16, 0, 0), 12));
    DivModUnique(Ipv4(192, 168, 0, 0), 0x1_0000, 49320, 0);
    DivModUnique(Ipv4(10, 0, 0, 0), 0x100_0000, 10, 0);
    DivModUnique(Ipv4(172, 16, 0, 0), 0x10_0000, 2753, 0);
  }

  /** The source's examples of `contains` for the /24 blocks 192.168.0.0 and 192.168.1.0. */
  lemma ContainsExamples()
    ensures !Contains(Block(Ipv4(192, 168, 0, 0), 24), Ipv4(192, 168, 1, 1))
    ensures Contains(Block(Ipv4(192, 168, 1, 0), 24), Ipv4(192, 168, 1, 255))
  {
    Pow2Constants();
    DivModUnique(Ipv4(192, 168, 0, 0), 0x100, 12625920, 0);
    DivModUnique(Ipv4(192, 168, 1, 1), 0x100, 12625921, 1);
    DivModUnique(Ipv4(192, 168, 1, 0), 0x100, 12625921, 0);
    DivModUnique(Ipv4(192, 168, 1, 255), 0x100, 12625921, 255);
  }

  /** The source's edge cases of `contains`: a /31 holds exactly its two addresses. */
  lemma ContainsEdgeExamples()
    ensures Contains(Block(Ipv4(10, 0, 0, 0), 31), Ipv4(10, 0, 0, 0))
    ensures Contains(Block(Ipv4(10, 0, 0, 0), 31), Ipv4(10, 0, 0, 1))
    ensures !Contains(Block(Ipv4(10, 0, 0, 0), 31), Ipv4(10, 0, 0, 2))
  {
    assert Pow2(1) == 2;
    DivModUnique(Ipv4(10, 0, 0, 0), 2, 83886080, 0);
    DivModUnique(Ipv4(10, 0, 0, 1), 2, 83886080, 1);
    DivModUnique(Ipv4(10, 0, 0, 2), 2, 83886081, 0);
  }

  /** The source's examples of `contains` at the ends of a /8 and just past it. */
  lemma ContainsRangeExamples()
    ensures Contains(Block(Ipv4(10, 0, 0, 0), 8), Ipv4(10, 0, 0, 0))
    ensures Contains(Block(Ipv4(10, 0, 0, 0), 8), Ipv4(10, 128, 0, 0))
    ensures Contains(Block(Ipv4(10, 0, 0, 0), 8), Ipv4(10, 255, 255, 255))
    ensures !Contains(Block(Ipv4(10, 0, 0, 0), 8), Ipv4(11, 0, 0, 0))
  {
    Pow2Constants();
    DivModUnique(Ipv4(10, 0, 0, 0), 0x100_0000, 10, 0);
    DivModUnique(Ipv4(10, 128, 0, 0), 0x100_0000, 10, 0x80_0000);
    DivModUnique(Ipv4(10, 255, 255, 255), 0x100_0000, 10, 0xFF_FFFF);
    DivModUnique(Ipv4(11, 0, 0, 0), 0x100_0000, 11, 0);
  }

  /** The source's examples of `contains` for a /16, an /8 and a /12. */
  lemma ContainsPrefixExamples()
    ensures Contains(Block(Ipv4(192, 168, 0, 0), 16), Ipv4(192, 168, 100, 100))
    ensures Contains(Block(Ipv4(10, 0, 0, 0), 8), Ipv4(10, 255, 255, 255))
    ensures Contains(Block(Ipv4(172, 16, 0, 0), 12), Ipv4(172, 31, 255, 255))
    ensures !Contains(Block(Ipv4(192, 168, 0, 0), 16), Ipv4(192, 169, 0, 0))
  {
    Pow2Constants();
    assert Pow2(20) == 0x10_0000 by {
      Pow2Add(16, 4);
      assert Pow2(4) == 16;
    }
    DivModUnique(Ipv4(192, 168, 0, 0), 0x1_0000, 49320, 0);
    DivModUnique(Ipv4(192, 168, 100, 100), 0x1_0000, 49320, 0x6464);
    DivModUnique(Ipv4(10, 0, 0, 0), 0x100_0000, 10, 0);
    DivModUnique(Ipv4(10, 255, 255, 255), 0x100_0000, 10, 0xFF_FFFF);
    DivModUnique(Ipv4(172, 16, 0, 0), 0x10_0000, 2753, 0);
    DivModUnique(Ipv4(172, 31, 255, 255), 0x10_0000, 2753, 0xF_FFFF);
    DivModUnique(Ipv4(192, 169, 0, 0), 0x1_0000, 49321, 0);
  }

  // ---------------------------------------------------------------------------
  // Arithmetic lemmas

  lemma {:induction false} Pow2Add(i: nat, j: nat)
    ensures Pow2(i + j) == Pow2(i) * Pow2(j)
  {
    if i > 0 {
      Pow2Add(i - 1, j);
    }
  }

  lemma Pow2Constants()
    ensures Pow2(8) == 0x100 && Pow2(16) == 0x1_0000 && Pow2(24) == 0x100_0000 && Pow2(32) == Two32
  {
    assert Pow2(4) == 16 by {
      assert Pow2(2) == 4;
    }
    Pow2Add(4, 4);
    Pow2Add(8, 8);
    Pow2Add(16, 8);
    Pow2Add(16, 16);
  }

  lemma MulPredecessor(a: int, b: int)
    ensures (a - 1) * b == a * b - b
  {
  }

  lemma MulAtLeast(a: int, m: int)
    requires a >= 1 && m > 0
    ensures a * m >= m
  {
    assert a * m == (a - 1) * m + m;
  }

  lemma DivMod(x: int, m: int)
    requires m > 0
    ensures x == (x / m) * m + x % m && 0 <= x % m < m
  {
  }

  /** Euclidean division has one quotient and one remainder. */
  lemma DivModUnique(x: int, m: int, q: int, r: int)
    requires m > 0 && 0 <= r < m && x == q * m + r
    ensures x / m == q && x % m == r
  {
    var q', r' := x / m, x % m;
    assert x == q' * m + r';
    assert (q - q') * m == r' - r;
    if q > q' {
      MulAtLeast(q - q', m);
    } else if q < q' {
      MulAtLeast(q' - q, m);
    }
  }

  lemma DivIsSmaller(x: nat, m: nat)
    requires m >= 1
    ensures 0 <= x / m <= x
  {
    var q := x / m;
    assert x == q * m + x % m;
    if q > 0 {
      MulAtLeast(m, q);
    }
  }

  lemma DivOfDiv(x: nat, m: nat, k: nat)
    requires m > 0 && k > 0
    ensures (x / m) / k == x / (m * k)
  {
    var q := (x / m) / k;
    var r := (x / m) % k * m + x % m;
    assert x == q * (m * k) + r;
    assert r < m * k by {
      assert (x / m) % k * m <= (k - 1) * m;
    }
    DivModUnique(x, m * k, q, r);
  }

  /** `ip / m == q` exactly when `ip` lies in `[q * m, q * m + m)`. */
  lemma DivRange(ip: int, m: int, q: int)
    requires m > 0
    ensures ip / m == q <==> q * m <= ip <= q * m + m - 1
  {
    if q * m <= ip <= q * m + m - 1 {
      DivModUnique(ip, m, q, ip - q * m);
    }
  }

  /** `x % 2^k` peeled of its lowest bit. */
  lemma HalfMod(x: nat, k: nat)
    requires k >= 1
    ensures x % Pow2(k) == 2 * ((x / 2) % Pow2(k - 1)) + x % 2
  {
    var h := x / 2;
    var q := h / Pow2(k - 1);
    var r := 2 * (h % Pow2(k - 1)) + x % 2;
    assert x == q * Pow2(k) + r;
    DivModUnique(x, Pow2(k), q, r);
  }

  lemma {:induction false} AndAllOnes(x: nat, n: nat)
    requires x < Pow2(n)
    ensures BitAnd(x, Pow2(n) - 1) == x
  {
    if n > 0 && x > 0 {
      AndAllOnes(x / 2, n - 1);
    }
  }

  /** Masking with ones in bits k .. n-1 clears the k low bits. */
  lemma {:induction false} AndHighMask(x: nat, n: nat, k: nat, mask: nat)
    requires x < Pow2(n) && k <= n && mask + Pow2(k) == Pow2(n)
    ensures BitAnd(x, mask) == x - x % Pow2(k)
    decreases k
  {
    if k == 0 {
      AndAllOnes(x, n);
    } else if k == n {
      NoMask(x, n, mask);
    } else if x == 0 {
      DivModUnique(0, Pow2(k), 0, 0);
    } else {
      AndHighMaskHalves(x, n, k, mask);
      AndHighMask(x / 2, n - 1, k - 1, mask / 2);
      AndHighMaskStep(x, k, mask);
    }
  }

  /** A mask with no bits below 2^n keeps nothing of a number below 2^n. */
  lemma NoMask(x: nat, n: nat, mask: nat)
    requires x < Pow2(n) && mask + Pow2(n) == Pow2(n)
    ensures BitAnd(x, mask) == x - x % Pow2(n)
  {
    DivModUnique(x, Pow2(n), 0, x);
  }

  lemma AndHighMaskHalves(x: nat, n: nat, k: nat, mask: nat)
    requires 0 < k < n && x < Pow2(n) && mask + Pow2(k) == Pow2(n)
    ensures x / 2 < Pow2(n - 1) && mask / 2 + Pow2(k - 1) == Pow2(n - 1)
    ensures BitAnd(x, mask) == 2 * BitAnd(x / 2, mask / 2)
  {
    Pow2Monotone(k, n);
    assert mask % 2 == 0;
  }

  /** One bit of `AndHighMask`: the result for `x` from the result for `x / 2`. */
  lemma AndHighMaskStep(x: nat, k: nat, mask: nat)
    requires k >= 1
    requires BitAnd(x, mask) == 2 * BitAnd(x / 2, mask / 2)
    requires BitAnd(x / 2, mask / 2) == x / 2 - (x / 2) % Pow2(k - 1)
    ensures BitAnd(x, mask) == x - x % Pow2(k)
  {
    HalfMod(x, k);
    ClearLowArith(x, x / 2, x % 2, x % Pow2(k), (x / 2) % Pow2(k - 1), BitAnd(x, mask), BitAnd(x / 2, mask / 2));
  }

  /** The linear step that closes `AndHighMaskStep`. */
  lemma ClearLowArith(x: int, h: int, b: int, xm: int, hm: int, andx: int, andh: int)
    requires x == 2 * h + b && xm == 2 * hm + b
    requires andx == 2 * andh && andh == h - hm
    ensures andx == x - xm
  {
  }

  /** Or-ing with ones in the j low bits sets exactly those bits. */
  lemma {:induction false} OrLowMask(x: nat, j: nat)
    ensures BitOr(x, Pow2(j) - 1) == x - x % Pow2(j) + Pow2(j) - 1
    decreases j
  {
    if j == 0 {
      DivModUnique(x, 1, x, 0);
    } else if x == 0 {
      DivModUnique(0, Pow2(j), 0, 0);
    } else {
      OrLowMask(x / 2, j - 1);
      OrLowMaskStep(x, j);
    }
  }

  /** One bit of `OrLowMask`: the result for `x` from the result for `x / 2`. */
  lemma OrLowMaskStep(x: nat, j: nat)
    requires x > 0 && j >= 1
    requires BitOr(x / 2, Pow2(j - 1) - 1) == x / 2 - (x / 2) % Pow2(j - 1) + Pow2(j - 1) - 1
    ensures BitOr(x, Pow2(j) - 1) == x - x % Pow2(j) + Pow2(j) - 1
  {
    var h, low := x / 2, Pow2(j - 1);
    OrOddMask(x, j);
    HalfMod(x, j);
    LowMaskArith(x, h, x % 2, low, Pow2(j), x % Pow2(j), h % low, BitOr(x, Pow2(j) - 1), BitOr(h, low - 1));
  }

  /** Or-ing a positive number with a mask of j >= 1 low ones: the low bit is set, the rest recurses. */
  lemma OrOddMask(x: nat, j: nat)
    requires x > 0 && j >= 1
    ensures BitOr(x, Pow2(j) - 1) == 2 * BitOr(x / 2, Pow2(j - 1) - 1) + 1
  {
    var mask := Pow2(j) - 1;
    assert mask % 2 == 1 && mask / 2 == Pow2(j - 1) - 1;
  }

  /** The linear step that closes `OrLowMask`. */
  lemma LowMaskArith(x: int, h: int, b: int, low: int, p: int, xm: int, hm: int, orx: int, orh: int)
    requires x == 2 * h + b && p == 2 * low && xm == 2 * hm + b
    requires orx == 2 * orh + 1 && orh == h - hm + low - 1
    ensures orx == x - xm + p - 1
  {
  }

  lemma {:induction false} BitOrBound(x: nat, y: nat, n: nat)
    requires x < Pow2(n) && y < Pow2(n)
    ensures BitOr(x, y) < Pow2(n)
    decreases n
  {
    if n > 0 && x > 0 && y > 0 {
      BitOrBound(x / 2, y / 2, n - 1);
    }
  }

  lemma {:induction false} Pow2Monotone(i: nat, j: nat)
    requires i < j
    ensures Pow2(i) < Pow2(j)
    decreases j
  {
    if i < j - 1 {
      Pow2Monotone(i, j - 1);
    }
  }

  /** `u32::MAX << k == 2^32 - 2^k` for k below 32. */
  lemma ShlMax(k: nat)
    requires k < 32
    ensures Shl(U32Max, k) == Two32 - Pow2(k)
  {
    Pow2Constants();
    Pow2Monotone(k, 32);
    DivModUnique(U32Max * Pow2(k), Two32, Pow2(k) - 1, Two32 - Pow2(k));
  }

  /** `u32::MAX >> p == 2^(32 - p) - 1` for p below 32. */
  lemma ShrMax(p: nat)
    requires p < 32
    ensures Shr(U32Max, p) == Pow2(32 - p) - 1
  {
    var high, low := Pow2(32 - p), Pow2(p);
    Pow2Constants();
    Pow2Add(32 - p, p);
    assert high * low == Two32;
    MulPredecessor(high, low);
    DivModUnique(U32Max, low, high - 1, low - 1);
  }

  lemma NetworkMask(x: U32, k: nat)
    requires 0 <= k < 32
    ensures BitAnd(x, Shl(U32Max, k)) % Pow2(k) == 0
    ensures BitAnd(x, Shl(U32Max, k)) / Pow2(k) == x / Pow2(k)
  {
    Pow2Constants();
    ShlMax(k);
    AndHighMask(x, 32, k, Shl(U32Max, k));
    ClearedLow(x, Pow2(k), BitAnd(x, Shl(U32Max, k)));
  }

  lemma BroadcastMask(x: U32, p: nat)
    requires p < 32
    ensures BitOr(x, Shr(U32Max, p)) < Two32
    ensures BitOr(x, Shr(U32Max, p)) % Pow2(32 - p) == Pow2(32 - p) - 1
    ensures BitOr(x, Shr(U32Max, p)) / Pow2(32 - p) == x / Pow2(32 - p)
  {
    Pow2Constants();
    ShrMax(p);
    BitOrBound(x, Shr(U32Max, p), 32);
    OrLowMask(x, 32 - p);
    SetLow(x, Pow2(32 - p), BitOr(x, Shr(U32Max, p)));
  }

  /** Clearing the remainder keeps the quotient and leaves no remainder. */
  lemma ClearedLow(x: int, m: int, v: int)
    requires m > 0 && v == x - x % m
    ensures v % m == 0 && v / m == x / m
  {
    DivMod(x, m);
    DivModUnique(v, m, x / m, 0);
  }

  /** Filling the remainder with ones keeps the quotient and leaves `m - 1`. */
  lemma SetLow(x: int, m: int, v: int)
    requires m > 0 && v == x - x % m + m - 1
    ensures v % m == m - 1 && v / m == x / m
  {
    DivMod(x, m);
    DivModUnique(v, m, x / m, m - 1);
  }

  /** Two decimal numerals each followed by the same non-digit separate the same way. */
  lemma SplitAtSeparator(m: nat, n: nat, c: char, x: string, y: string)
    requires !IsDigit(c)
    requires Decimal(m) + [c] + x == Decimal(n) + [c] + y
    ensures m == n && x == y
  {
    var s, t := Decimal(m), Decimal(n);
    var w := s + [c] + x;
    assert w == t + [c] + y;
    FirstNonDigitUnique(w, |s|, |t|);
    assert s == w[..|s|] && t == w[..|t|];
    DecimalRoundTrip(m);
    DecimalRoundTrip(n);
    assert x == w[|s| + 1..] && y == w[|t| + 1..];
  }

  lemma FirstNonDigitUnique(w: string, i: nat, j: nat)
    requires i < |w| && j < |w|
    requires (forall k | 0 <= k < i :: IsDigit(w[k])) && !IsDigit(w[i])
    requires (forall k | 0 <= k < j :: IsDigit(w[k])) && !IsDigit(w[j])
    ensures i == j
  {
  }
}

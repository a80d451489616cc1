/**
 Address masking and the two validators of LAN subnets. Addresses are numbers of
 32 or 128 bits. The code builds masks with shifts and bitwise operators; their
 meaning on numbers is defined bit by bit and proved from there.
 */
module Cidr {

  // ---------------------------------------------------------------------
  // Bits of numbers
  // ---------------------------------------------------------------------

  function Pow2(n: nat): (p: nat)
    ensures p >= 1
  {
    if n == 0 then 1 else 2 * Pow2(n - 1)
  }

  lemma Pow2Constants()
    ensures Pow2(8) == 256 && Pow2(10) == 1024 && Pow2(12) == 4096 && Pow2(16) == 0x1_0000
  {
    assert Pow2(4) == 16;
    assert Pow2(14) == 4 * Pow2(12);
  }

  /** Shift right: drop the lowest `n` bits. */
  function Shr(x: nat, n: nat): nat {
    if n == 0 then x else Shr(x / 2, n - 1)
  }

  /** Shift left without loss. */
  function Shl(x: nat, n: nat): nat {
    if n == 0 then x else 2 * Shl(x, n - 1)
  }

  /** The lowest `n` bits: what a register of that width keeps. */
  function Low(x: nat, n: nat): nat {
    if n == 0 then 0 else x % 2 + 2 * Low(x / 2, n - 1)
  }

  /** All ones, `!0`, in `n` bits. */
  function Ones(n: nat): nat {
    if n == 0 then 0 else 1 + 2 * Ones(n - 1)
  }

  /** Bitwise and. */
  function And(a: nat, b: nat): nat {
    if a == 0 || b == 0 then 0
    else (if a % 2 == 1 && b % 2 == 1 then 1 else 0) + 2 * And(a / 2, b / 2)
  }

  lemma {:induction false} ShrShr(x: nat, a: nat, b: nat)
    ensures Shr(Shr(x, a), b) == Shr(x, a + b)
  {
    if a > 0 {
      ShrShr(x / 2, a - 1, b);
    }
  }

  lemma {:induction false} ShlShl(x: nat, a: nat, b: nat)
    ensures Shl(Shl(x, a), b) == Shl(x, a + b)
  {
    if b > 0 {
      ShlShl(x, a, b - 1);
    }
  }

  /** Shifting left and then right. */
  lemma {:induction false} ShrShl(x: nat, a: nat, b: nat)
    ensures Shr(Shl(x, a), b) == if b <= a then Shl(x, a - b) else Shr(x, b - a)
  {
    if a > 0 && b > 0 {
      assert Shl(x, a) / 2 == Shl(x, a - 1);
      ShrShl(x, a - 1, b - 1);
    }
  }

  lemma {:induction false} ShrFits(x: nat, n: nat, bits: nat)
    requires x < Pow2(bits) && n <= bits
    ensures Shr(x, n) < Pow2(bits - n)
  {
    if n > 0 {
      ShrFits(x / 2, n - 1, bits - 1);
    }
  }

  lemma {:induction false} ShlBounds(x: nat, n: nat)
    ensures Shl(Shr(x, n), n) <= x
  {
    if n > 0 {
      ShlBounds(x / 2, n - 1);
    }
  }

  /** Shifts by constants are divisions and multiplications by constants. */
  lemma ShrConstant(x: nat)
    ensures Shr(x, 1) == x / 2 && Shr(x, 2) == x / 4 && Shr(x, 3) == x / 8
    ensures Shr(x, 4) == x / 16 && Shr(x, 6) == x / 64 && Shr(x, 8) == x / 256
  {
    assert forall y: nat :: Shr(y, 1) == y / 2;
    ShrShr(x, 1, 1);
    ShrShr(x, 2, 1);
    ShrShr(x, 3, 1);
    ShrShr(x, 4, 1);
    ShrShr(x, 5, 1);
    ShrShr(x, 6, 1);
    ShrShr(x, 7, 1);
  }

  lemma ShlConstant(x: nat)
    ensures Shl(x, 1) == 2 * x && Shl(x, 2) == 4 * x && Shl(x, 4) == 16 * x && Shl(x, 6) == 64 * x
  {
    assert Shl(x, 1) == 2 * x;
    assert Shl(x, 3) == 8 * x;
    assert Shl(x, 5) == 32 * x;
  }

  lemma ShlDivisible(x: nat, n: nat)
    ensures 1 <= n ==> Shl(x, n) % 2 == 0
    ensures 2 <= n ==> Shl(x, n) % 4 == 0
    ensures 4 <= n ==> Shl(x, n) % 16 == 0
  {
    if 2 <= n {
      assert Shl(x, n) == 4 * Shl(x, n - 2);
    }
    if 4 <= n {
      assert Shl(x, n - 2) == 4 * Shl(x, n - 4);
    }
  }

  // ---------------------------------------------------------------------
  // Masking
  // ---------------------------------------------------------------------

  /** The network mask `!0 << (bits - prefix)`, with the special case for 0. */
  function NetMask(prefix: nat, bits: nat): nat
    requires prefix <= bits
  {
    if prefix == 0 then 0 else Low(Shl(Ones(bits), bits - prefix), bits)
  }

  /** Zero the host bits, as both masking routines do it. */
  function Masked(addr: nat, prefix: nat, bits: nat): nat
    requires prefix <= bits
  {
    And(addr, NetMask(prefix, bits))
  }

  /** The IPv6 routine leaves the address alone for a prefix of 128 or more. */
  function MaskIpv6(addr: nat, prefix: nat): nat {
    if prefix >= 128 then addr else Masked(addr, prefix, 128)
  }

  /** The leading `prefix` bits of an address. */
  function Network(addr: nat, prefix: nat, bits: nat): nat
    requires prefix <= bits
  {
    Shr(addr, bits - prefix)
  }

  lemma {:induction false} AndLowOnes(a: nat, wide: nat, bits: nat)
    requires a < Pow2(bits) && bits <= wide
    ensures And(a, Low(Ones(wide), bits)) == a
  {
    if bits > 0 && a > 0 {
      AndLowOnes(a / 2, wide - 1, bits - 1);
    }
  }

  /** And with ones shifted left clears exactly the vacated bits. */
  lemma {:induction false} AndShiftedOnes(a: nat, host: nat, wide: nat, bits: nat)
    requires a < Pow2(bits) && host <= bits <= wide
    ensures And(a, Low(Shl(Ones(wide), host), bits)) == Shl(Shr(a, host), host)
    decreases host
  {
    if host == 0 {
      AndLowOnes(a, wide, bits);
    } else {
      var y := Shl(Ones(wide), host - 1);
      assert Low(2 * y, bits) == 2 * Low(y, bits - 1);
      AndShiftedOnes(a / 2, host - 1, wide, bits - 1);
      if a == 0 || Low(y, bits - 1) == 0 {
        assert And(a / 2, Low(y, bits - 1)) == 0;
      }
    }
  }

  lemma {:induction false} ShrAll(x: nat, bits: nat)
    requires x < Pow2(bits)
    ensures Shr(x, bits) == 0
  {
    if bits > 0 {
      ShrAll(x / 2, bits - 1);
    }
  }

  lemma {:induction false} ShlZero(n: nat)
    ensures Shl(0, n) == 0
  {
    if n > 0 {
      ShlZero(n - 1);
    }
  }

  /** The shift-and-mask form keeps the leading bits and zeroes the rest. */
  lemma MaskedIsNetwork(addr: nat, prefix: nat, bits: nat)
    requires prefix <= bits && addr < Pow2(bits)
    ensures Masked(addr, prefix, bits) == Shl(Network(addr, prefix, bits), bits - prefix)
  {
    if prefix == 0 {
      ShrAll(addr, bits);
      ShlZero(bits);
    } else {
      AndShiftedOnes(addr, bits - prefix, bits, bits);
    }
  }

  lemma MaskIpv6IsMasked(addr: nat, prefix: nat)
    requires addr < Pow2(128)
    ensures MaskIpv6(addr, prefix) == Masked(addr, if prefix < 128 then prefix else 128, 128)
  {
    MaskedIsNetwork(addr, 128, 128);
  }

  /** The network contains the address: masking changes no leading bit. */
  lemma MaskKeepsNetwork(addr: nat, prefix: nat, bits: nat)
    requires prefix <= bits && addr < Pow2(bits)
    ensures Masked(addr, prefix, bits) <= addr
    ensures Network(Masked(addr, prefix, bits), prefix, bits) == Network(addr, prefix, bits)
  {
    MaskedIsNetwork(addr, prefix, bits);
    ShlBounds(addr, bits - prefix);
    ShrShl(Shr(addr, bits - prefix), bits - prefix, bits - prefix);
  }

  /** Masking twice is masking with the shorter prefix; with equal prefixes it is idempotent. */
  lemma NestedMasks(addr: nat, p: nat, q: nat, bits: nat)
    requires p <= bits && q <= bits && addr < Pow2(bits)
    ensures Masked(Masked(addr, p, bits), q, bits) == Masked(addr, if p < q then p else q, bits)
  {
    var m, n := Masked(addr, p, bits), Network(addr, p, bits);
    var g, h := bits - q, bits - p;
    MaskKeepsNetwork(addr, p, bits);
    MaskedIsNetwork(addr, p, bits);
    MaskedIsNetwork(addr, q, bits);
    MaskedIsNetwork(m, q, bits);
    ShrShl(n, h, g);
    if q <= p {
      ShrShr(addr, h, g - h);
    } else {
      ShlShl(n, h - g, g);
    }
  }

  /** Two addresses that agree on a longer prefix agree on a shorter one. */
  lemma NetworkCoarsens(x: nat, y: nat, p: nat, q: nat, bits: nat)
    requires p <= q <= bits && Network(x, q, bits) == Network(y, q, bits)
    ensures Network(x, p, bits) == Network(y, p, bits)
  {
    ShrShr(x, bits - q, q - p);
    ShrShr(y, bits - q, q - p);
  }

  // ---------------------------------------------------------------------
  // Subnets
  // ---------------------------------------------------------------------

  /** A subnet in CIDR notation; the address may still have host bits. */
  datatype Cidr = Cidr(addr: nat, prefix: nat)

  predicate WellFormed(c: Cidr, bits: nat) {
    c.addr < Pow2(bits) && c.prefix <= bits
  }

  predicate Contains(c: Cidr, x: nat, bits: nat)
    requires c.prefix <= bits
  {
    Network(x, c.prefix, bits) == Network(c.addr, c.prefix, bits)
  }

  /** The address has no host bits: it is what a masking routine returns. */
  predicate IsMasked(c: Cidr, bits: nat)
    requires c.prefix <= bits
  {
    Masked(c.addr, c.prefix, bits) == c.addr
  }

  /** A masked address is its network, shifted back into place. */
  lemma MaskedMeansShifted(c: Cidr, bits: nat, drop: nat)
    requires WellFormed(c, bits) && IsMasked(c, bits) && drop <= bits - c.prefix
    ensures Shr(c.addr, drop) == Shl(Network(c.addr, c.prefix, bits), bits - c.prefix - drop)
  {
    MaskedIsNetwork(c.addr, c.prefix, bits);
    ShrShl(Network(c.addr, c.prefix, bits), bits - c.prefix, drop);
  }

  /** So its last non-host bits are still there, and every bit below them is zero. */
  lemma MaskedDivides(c: Cidr, bits: nat, drop: nat)
    requires WellFormed(c, bits) && IsMasked(c, bits) && drop <= bits - c.prefix
    ensures 1 <= bits - c.prefix - drop ==> Shr(c.addr, drop) % 2 == 0
    ensures 2 <= bits - c.prefix - drop ==> Shr(c.addr, drop) % 4 == 0
    ensures 4 <= bits - c.prefix - drop ==> Shr(c.addr, drop) % 16 == 0
  {
    MaskedMeansShifted(c, bits, drop);
    ShlDivisible(Network(c.addr, c.prefix, bits), bits - c.prefix - drop);
  }

  /** Agreeing on `p` bits with a subnet address puts every member of the subnet at that prefix. */
  lemma MembersShare(c: Cidr, x: nat, p: nat, bits: nat)
    requires c.prefix <= bits && p <= c.prefix && Contains(c, x, bits)
    ensures Network(x, p, bits) == Network(c.addr, p, bits)
  {
    NetworkCoarsens(x, c.addr, p, c.prefix, bits);
  }

  /** The address whose leading `p` bits are `n`, when it lies in the subnet. */
  lemma OutsiderContained(c: Cidr, n: nat, p: nat, bits: nat)
    requires 1 <= p <= bits && c.prefix < p
    requires n / 2 == Network(c.addr, p, bits) / 2
    ensures Contains(c, Shl(n, bits - p), bits)
    ensures Network(Shl(n, bits - p), p, bits) == n
  {
    var x := Shl(n, bits - p);
    ShrShl(n, bits - p, bits - p);
    ShrShr(x, bits - p, 1);
    ShrShr(c.addr, bits - p, 1);
    assert Shr(Network(x, p, bits), 1) == n / 2 && Shr(Network(c.addr, p, bits), 1) == n / 2;
    NetworkCoarsens(x, c.addr, c.prefix, p - 1, bits);
  }

  lemma {:induction false} ShlFits(n: nat, places: nat, bits: nat)
    requires n < Pow2(bits)
    ensures Shl(n, places) < Pow2(bits + places)
  {
    if places > 0 {
      ShlFits(n, places - 1, bits);
    }
  }

  // ---------------------------------------------------------------------
  // IPv4: private and link-local subnets
  // ---------------------------------------------------------------------

  function Octet(addr: nat, i: nat, bits: nat): nat
    requires 8 * (i + 1) <= bits
  {
    Shr(addr, bits - 8 * (i + 1)) % 256
  }

  predicate IsPrivateV4(a: nat) {
    || Octet(a, 0, 32) == 10
    || (Octet(a, 0, 32) == 172 && 16 <= Octet(a, 1, 32) <= 31)
    || (Octet(a, 0, 32) == 192 && Octet(a, 1, 32) == 168)
  }

  predicate IsLinkLocalV4(a: nat) {
    Octet(a, 0, 32) == 169 && Octet(a, 1, 32) == 254
  }

  /** `is_valid_private_cidr` on a parsed subnet: it looks at the base address only. */
  predicate IsValidPrivateCidr(c: Cidr) {
    8 <= c.prefix <= 32 && (IsPrivateV4(c.addr) || IsLinkLocalV4(c.addr))
  }

  /** The first two octets of an address, as one number. */
  lemma LeadingBits(a: nat)
    requires a < Pow2(32)
    ensures Network(a, 16, 32) < 0x1_0000
    ensures Network(a, 8, 32) == Network(a, 16, 32) / 256 == Octet(a, 0, 32)
    ensures Network(a, 12, 32) == Network(a, 16, 32) / 16
    ensures Octet(a, 1, 32) == Network(a, 16, 32) % 256
  {
    var top := Shr(a, 16);
    ShrFits(a, 16, 32);
    Pow2Constants();
    ShrShr(a, 16, 8);
    ShrShr(a, 16, 4);
    ShrConstant(top);
  }

  /** The four ranges, by leading bits: 10/8, 172.16/12, 192.168/16, 169.254/16. */
  lemma RangesByPrefix(a: nat)
    requires a < Pow2(32)
    ensures IsPrivateV4(a) || IsLinkLocalV4(a) <==>
            || Network(a, 8, 32) == 0x0A
            || Network(a, 12, 32) == 0xAC1
            || Network(a, 16, 32) == 0xC0A8
            || Network(a, 16, 32) == 0xA9FE
  {
    LeadingBits(a);
  }

  /** 10.0.0.0/8, 172.16.0.0/12, 192.168.0.0/16 and 169.254.0.0/16. */
  const TEN := Cidr(Shl(10, 24), 8)
  const ONE_SEVEN_TWO := Cidr(Shl(0xAC1, 20), 12)
  const ONE_NINE_TWO := Cidr(Shl(0xC0A8, 16), 16)
  const LINK_LOCAL_V4 := Cidr(Shl(0xA9FE, 16), 16)

  predicate InPrivateRange(a: nat) {
    || Contains(TEN, a, 32) || Contains(ONE_SEVEN_TWO, a, 32)
    || Contains(ONE_NINE_TWO, a, 32) || Contains(LINK_LOCAL_V4, a, 32)
  }

  /** Exactly which IPv4 subnets are accepted. */
  lemma AcceptedV4Iff(c: Cidr)
    requires c.addr < Pow2(32)
    ensures IsValidPrivateCidr(c) <==> 8 <= c.prefix <= 32 && InPrivateRange(c.addr)
  {
    ShrShl(10, 24, 24);
    ShrShl(0xAC1, 20, 20);
    ShrShl(0xC0A8, 16, 16);
    ShrShl(0xA9FE, 16, 16);
    RangesByPrefix(c.addr);
  }

  /** The prefix length from which on the range of the base address covers the subnet. */
  function NeededPrefixV4(a: nat): nat {
    if Network(a, 8, 32) == 0x0A then 8
    else if Network(a, 12, 32) == 0xAC1 then 12
    else 16
  }

  ghost predicate OnlyPrivateV4(c: Cidr)
    requires c.prefix <= 32
  {
    forall x: nat :: x < Pow2(32) && Contains(c, x, 32) ==> IsPrivateV4(x) || IsLinkLocalV4(x)
  }

  /** An address just outside the range of `a` that a too short prefix lets in. */
  function OutsiderV4(a: nat): nat {
    if Network(a, 12, 32) == 0xAC1 then Shl(0xAC0, 20)
    else if Network(a, 16, 32) == 0xC0A8 then Shl(0xC0A9, 16)
    else Shl(0xA9FF, 16)
  }

  lemma OutsiderV4IsPublic(a: nat)
    ensures OutsiderV4(a) < Pow2(32) && !IsPrivateV4(OutsiderV4(a)) && !IsLinkLocalV4(OutsiderV4(a))
  {
    Pow2Constants();
    ShlFits(0xAC0, 20, 12);
    ShlFits(0xC0A9, 16, 16);
    ShlFits(0xA9FF, 16, 16);
    ShrShl(0xAC0, 20, 20);
    ShrShl(0xC0A9, 16, 16);
    ShrShl(0xA9FF, 16, 16);
    LeadingBits(OutsiderV4(a));
    RangesByPrefix(OutsiderV4(a));
  }

  lemma LongPrefixStaysPrivate(c: Cidr, x: nat)
    requires WellFormed(c, 32) && IsValidPrivateCidr(c) && c.prefix >= NeededPrefixV4(c.addr)
    requires x < Pow2(32) && Contains(c, x, 32)
    ensures IsPrivateV4(x) || IsLinkLocalV4(x)
  {
    RangesByPrefix(c.addr);
    MembersShare(c, x, NeededPrefixV4(c.addr), 32);
    RangesByPrefix(x);
  }

  lemma ShortPrefixReachesOut(c: Cidr)
    requires WellFormed(c, 32) && IsValidPrivateCidr(c) && c.prefix < NeededPrefixV4(c.addr)
    ensures Contains(c, OutsiderV4(c.addr), 32)
  {
    RangesByPrefix(c.addr);
    if NeededPrefixV4(c.addr) == 12 {
      OutsiderContained(c, 0xAC0, 12, 32);
    } else if Network(c.addr, 16, 32) == 0xC0A8 {
      LeadingBits(c.addr);
      OutsiderContained(c, 0xC0A9, 16, 32);
    } else {
      LeadingBits(c.addr);
      OutsiderContained(c, 0xA9FF, 16, 32);
    }
  }

  /**
   Which accepted IPv4 subnets hold private and link-local addresses only: exactly
   those at least as long as the range of their base address.
   */
  lemma AcceptedV4PrivateIff(c: Cidr)
    requires WellFormed(c, 32) && IsValidPrivateCidr(c)
    ensures OnlyPrivateV4(c) <==> c.prefix >= NeededPrefixV4(c.addr)
  {
    if c.prefix >= NeededPrefixV4(c.addr) {
      forall x: nat | x < Pow2(32) && Contains(c, x, 32) ensures IsPrivateV4(x) || IsLinkLocalV4(x) {
        LongPrefixStaysPrivate(c, x);
      }
    } else {
      ShortPrefixReachesOut(c);
      OutsiderV4IsPublic(c.addr);
    }
  }

  /**
   For the subnets that interface detection produces, whose address is masked, what
   is left to go wrong is exactly 192.168.0.0 with prefix 13 to 15, and
   169.254.0.0/15.
   */
  lemma DetectedV4PrivateIff(c: Cidr)
    requires WellFormed(c, 32) && IsMasked(c, 32) && IsValidPrivateCidr(c)
    ensures OnlyPrivateV4(c) <==>
            !(Network(c.addr, 16, 32) == 0xC0A8 && 13 <= c.prefix <= 15) &&
            !(Network(c.addr, 16, 32) == 0xA9FE && c.prefix == 15)
  {
    AcceptedV4PrivateIff(c);
    NetworkV4Cases(c.addr);
    if c.prefix <= 12 {
      MaskedDivides(c, 32, 20);
    }
    if c.prefix <= 16 {
      MaskedDivides(c, 32, 16);
    }
  }

  /** The three leading prefixes of an accepted base address exclude one another. */
  lemma NetworkV4Cases(a: nat)
    requires a < Pow2(32) && (IsPrivateV4(a) || IsLinkLocalV4(a))
    ensures var n := Network(a, 16, 32);
            || (Network(a, 8, 32) == 0x0A && n != 0xC0A8 && n != 0xA9FE)
            || (Network(a, 12, 32) == 0xAC1 && Network(a, 8, 32) != 0x0A && n != 0xC0A8 && n != 0xA9FE)
            || (n in {0xC0A8, 0xA9FE} && Network(a, 8, 32) != 0x0A && Network(a, 12, 32) != 0xAC1)
  {
    RangesByPrefix(a);
    LeadingBits(a);
  }

  /** One such subnet: 192.168.0.0/13 is accepted, masked, and reaches 192.175.255.255. */
  lemma WideLanAccepted()
    ensures var c := Cidr(Shl(0xC0A8, 16), 13);
            WellFormed(c, 32) && IsMasked(c, 32) && IsValidPrivateCidr(c) && !OnlyPrivateV4(c)
  {
    var a := Shl(0xC0A8, 16);
    var c := Cidr(a, 13);
    Pow2Constants();
    ShlFits(0xC0A8, 16, 16);
    ShrShl(0xC0A8, 16, 16);
    LeadingBits(a);
    RangesByPrefix(a);
    ShrShl(0xC0A8, 16, 19);
    ShrConstant(0xC0A8);
    ShlShl(0x1815, 3, 16);
    assert Shl(0x1815, 3) == 0xC0A8;
    MaskedIsNetwork(a, 13, 32);
    DetectedV4PrivateIff(c);
  }

  // ---------------------------------------------------------------------
  // IPv6: unique-local and link-local subnets
  // ---------------------------------------------------------------------

  predicate IsUlaV6(a: nat) {
    And(Octet(a, 0, 128), 0xfe) == 0xfc
  }

  predicate IsLinkLocalV6(a: nat) {
    Octet(a, 0, 128) == 0xfe && And(Octet(a, 1, 128), 0xc0) == 0x80
  }

  /** `is_valid_private_cidr_v6` on a parsed subnet. */
  predicate IsValidPrivateCidrV6(c: Cidr) {
    7 <= c.prefix <= 128 && (IsUlaV6(c.addr) || IsLinkLocalV6(c.addr))
  }

  /** The octet tests with `&` say which leading bits an octet has. */
  lemma OctetTests(o: nat)
    requires o < 256
    ensures And(o, 0xfe) == 0xfc <==> o / 2 == 0x7e
    ensures And(o, 0xc0) == 0x80 <==> o / 64 == 2
  {
    Pow2Constants();
    AndShiftedOnes(o, 1, 8, 8);
    AndShiftedOnes(o, 6, 8, 8);
    MaskConstants();
    ShrConstant(o);
    ShlConstant(Shr(o, 1));
    ShlConstant(Shr(o, 6));
  }

  lemma MaskConstants()
    ensures Low(Shl(Ones(8), 1), 8) == 0xfe
    ensures Low(Shl(Ones(8), 6), 8) == 0xc0
  {
    assert Ones(4) == 15;
    assert Ones(8) == 255;
    ShlConstant(255);
    LowOfShifted();
  }

  lemma LowOfShifted()
    ensures Low(510, 8) == 0xfe && Low(16320, 8) == 0xc0
  {
    assert Low(31, 4) == 15;
    assert Low(127, 6) == 63;
    assert Low(255, 7) == 127;
    assert Low(1020, 4) == 12;
    assert Low(4080, 6) == 48;
  }

  /** The first two octets of an IPv6 address, and its prefixes of 7 and 10 bits. */
  lemma LeadingBitsV6(a: nat)
    requires a < Pow2(128)
    ensures var top := Shr(a, 112);
            && top < 0x1_0000 && Octet(a, 0, 128) == top / 256 && Octet(a, 1, 128) == top % 256
            && Network(a, 7, 128) == top / 512 && Network(a, 10, 128) == top / 64
  {
    var top := Shr(a, 112);
    ShrFits(a, 112, 128);
    Pow2Constants();
    ShrShr(a, 112, 8);
    ShrShr(a, 112, 6);
    ShrShr(a, 120, 1);
    ShrConstant(top);
    ShrConstant(Shr(a, 120));
  }

  /** Fixed leading bits of two octets, octet by octet or of both together. */
  lemma TwoOctets(top: nat)
    requires top < 0x1_0000
    ensures top / 256 / 2 == 0x7e <==> top / 512 == 0x7e
    ensures top / 256 == 0xfe && top % 256 / 64 == 2 <==> top / 64 == 0x3fa
  {
  }

  lemma RangesByPrefixV6(a: nat)
    requires a < Pow2(128)
    ensures IsUlaV6(a) <==> Network(a, 7, 128) == 0x7e
    ensures IsLinkLocalV6(a) <==> Network(a, 10, 128) == 0x3fa
  {
    LeadingBitsV6(a);
    TwoOctets(Shr(a, 112));
    OctetTests(Octet(a, 0, 128));
    OctetTests(Octet(a, 1, 128));
  }

  /** fc00::/7 and fe80::/10. */
  const UNIQUE_LOCAL := Cidr(Shl(0x7e, 121), 7)
  const LINK_LOCAL_V6 := Cidr(Shl(0x3fa, 118), 10)

  lemma LinkLocalBits(x: nat)
    ensures Contains(LINK_LOCAL_V6, x, 128) <==> Shr(x, 118) == 0x3fa
  {
    ShrShl(0x3fa, 118, 118);
  }

  /** Exactly which IPv6 subnets are accepted. */
  lemma AcceptedV6Iff(c: Cidr)
    requires c.addr < Pow2(128)
    ensures IsValidPrivateCidrV6(c) <==>
            7 <= c.prefix <= 128 && (Contains(UNIQUE_LOCAL, c.addr, 128) || Contains(LINK_LOCAL_V6, c.addr, 128))
  {
    ShrShl(0x7e, 121, 121);
    ShrShl(0x3fa, 118, 118);
    RangesByPrefixV6(c.addr);
  }

  ghost predicate OnlyLocalV6(c: Cidr)
    requires c.prefix <= 128
  {
    forall x: nat :: x < Pow2(128) && Contains(c, x, 128) ==> IsUlaV6(x) || IsLinkLocalV6(x)
  }

  /** fec0:: lies next to the link-local range, and is neither. */
  lemma OutsiderV6IsGlobal()
    ensures Shl(0x3fb, 118) < Pow2(128)
    ensures !IsUlaV6(Shl(0x3fb, 118)) && !IsLinkLocalV6(Shl(0x3fb, 118))
  {
    var x := Shl(0x3fb, 118);
    Pow2Constants();
    ShlFits(0x3fb, 118, 10);
    ShrShl(0x3fb, 118, 118);
    ShrShr(x, 118, 3);
    ShrConstant(0x3fb);
    RangesByPrefixV6(x);
  }

  /** An accepted unique-local subnet stays within fc00::/7, whatever its prefix. */
  lemma UlaStaysUla(c: Cidr, x: nat)
    requires WellFormed(c, 128) && IsValidPrivateCidrV6(c) && IsUlaV6(c.addr)
    requires x < Pow2(128) && Contains(c, x, 128)
    ensures IsUlaV6(x)
  {
    RangesByPrefixV6(c.addr);
    RangesByPrefixV6(x);
    MembersShare(c, x, 7, 128);
  }

  /** Which accepted IPv6 subnets stay local: all but link-local ones shorter than /10. */
  lemma AcceptedV6LocalIff(c: Cidr)
    requires WellFormed(c, 128) && IsValidPrivateCidrV6(c)
    ensures OnlyLocalV6(c) <==> IsUlaV6(c.addr) || c.prefix >= 10
  {
    RangesByPrefixV6(c.addr);
    if IsUlaV6(c.addr) || c.prefix >= 10 {
      forall x: nat | x < Pow2(128) && Contains(c, x, 128) ensures IsUlaV6(x) || IsLinkLocalV6(x) {
        RangesByPrefixV6(x);
        MembersShare(c, x, if IsUlaV6(c.addr) then 7 else 10, 128);
      }
    } else {
      OutsiderContained(c, 0x3fb, 10, 128);
      OutsiderV6IsGlobal();
    }
  }

  /** For masked subnets, what is left to go wrong is exactly fe80::/9. */
  lemma DetectedV6LocalIff(c: Cidr)
    requires WellFormed(c, 128) && IsMasked(c, 128) && IsValidPrivateCidrV6(c)
    ensures OnlyLocalV6(c) <==> !(IsLinkLocalV6(c.addr) && c.prefix == 9)
  {
    AcceptedV6LocalIff(c);
    RangesByPrefixV6(c.addr);
    if c.prefix <= 10 {
      MaskedDivides(c, 128, 118);
    }
    ShrShr(c.addr, 118, 3);
    ShrConstant(Shr(c.addr, 118));
  }

  /** That one: fe80::/9 is accepted and masked, and reaches fec0::. */
  lemma WideLinkLocalAccepted()
    ensures var c := Cidr(Shl(0x1fd, 119), 9);
            WellFormed(c, 128) && IsMasked(c, 128) && IsValidPrivateCidrV6(c) && !OnlyLocalV6(c)
  {
    var a := Shl(0x1fd, 119);
    var c := Cidr(a, 9);
    Pow2Constants();
    assert Pow2(9) == 512;
    ShlFits(0x1fd, 119, 9);
    ShrShl(0x1fd, 119, 118);
    assert Shl(0x1fd, 1) == 0x3fa;
    ShrShl(0x1fd, 119, 119);
    MaskedIsNetwork(a, 9, 128);
    RangesByPrefixV6(a);
    DetectedV6LocalIff(c);
  }
}

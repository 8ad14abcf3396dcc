/** The handler's test for the untrusted network, on addresses as a little-endian host loads them. */
module PrefixTest {
  predicate IsPrefixLen(len: nat) {
    len == 0 || len == 8 || len == 16 || len == 24
  }

  /** `(1 << len) - 1`: on a little-endian host, the first `len` bits of the address. */
  function Mask(len: nat): bv32
    requires IsPrefixLen(len)
  {
    if len == 0 then ((1 as bv32) << 0) - 1
    else if len == 8 then ((1 as bv32) << 8) - 1
    else if len == 16 then ((1 as bv32) << 16) - 1
    else ((1 as bv32) << 24) - 1
  }

  /** What `start` stores as the netmask: only the bits that the network address has. */
  function StoredMask(net: bv32, mask: bv32): bv32 {
    net & mask
  }

  /** The handler's test, with the mask that `start` stored. */
  predicate Passes(ip: bv32, netmask: bv32, net: bv32) {
    ip & netmask == net
  }

  predicate Counted(ip: bv32, net: bv32, mask: bv32) {
    Passes(ip, StoredMask(net, mask), net)
  }

  predicate SameByte(x: bv32, y: bv32, shift: nat)
    requires shift < 32
  {
    (x >> shift) & 0xff == (y >> shift) & 0xff
  }

  /** CIDR membership, section 3.1 of RFC 4632: the first `len` bits, that is, whole bytes in network order, agree. */
  predicate InCidr(ip: bv32, net: bv32, len: nat)
    requires IsPrefixLen(len)
  {
    && (len >= 8 ==> SameByte(ip, net, 0))
    && (len >= 16 ==> SameByte(ip, net, 8))
    && (len >= 24 ==> SameByte(ip, net, 16))
  }

  /** Every set bit of the network address is set. */
  predicate HasAllBits(ip: bv32, net: bv32) {
    ip & net == net
  }

  predicate NoHostBits(net: bv32, mask: bv32) {
    net & mask == net
  }

  /** The two addresses have the same bits under the mask. */
  predicate Agree(x: bv32, y: bv32, mask: bv32) {
    x & mask == y & mask
  }

  lemma MaskValues()
    ensures Mask(0) == 0 && Mask(8) == 0xff && Mask(16) == 0xffff && Mask(24) == 0xff_ffff
  {
  }

  lemma LowTwoBytes(x: bv32, y: bv32)
    ensures x & 0xff == y & 0xff && (x >> 8) & 0xff == (y >> 8) & 0xff <==> x & 0xffff == y & 0xffff
  {
  }

  lemma ThirdByte(x: bv32, y: bv32)
    ensures x & 0xffff == y & 0xffff && (x >> 16) & 0xff == (y >> 16) & 0xff <==> x & 0xff_ffff == y & 0xff_ffff
  {
  }

  lemma FirstBytes(ip: bv32, net: bv32)
    ensures SameByte(ip, net, 0) <==> Agree(ip, net, 0xff)
  {
  }

  lemma TwoBytes(ip: bv32, net: bv32)
    ensures SameByte(ip, net, 0) && SameByte(ip, net, 8) <==> Agree(ip, net, 0xffff)
  {
    LowTwoBytes(ip, net);
  }

  lemma ThreeBytes(ip: bv32, net: bv32)
    ensures Agree(ip, net, 0xffff) && SameByte(ip, net, 16) <==> Agree(ip, net, 0xff_ffff)
  {
    ThirdByte(ip, net);
  }

  lemma NoBits(ip: bv32, net: bv32)
    ensures Agree(ip, net, 0)
  {
  }

  lemma CidrIsMasked(ip: bv32, net: bv32, len: nat)
    requires IsPrefixLen(len)
    ensures InCidr(ip, net, len) <==> Agree(ip, net, Mask(len))
  {
    hide Mask, Agree, SameByte;
    MaskValues();
    if len == 0 {
      NoBits(ip, net);
    } else if len == 8 {
      FirstBytes(ip, net);
    } else if len == 16 {
      TwoBytes(ip, net);
    } else {
      TwoBytes(ip, net);
      ThreeBytes(ip, net);
    }
  }

  /** The test asks for every set bit of the network address. */
  lemma CountedMeaning(ip: bv32, net: bv32, mask: bv32)
    requires NoHostBits(net, mask)
    ensures Counted(ip, net, mask) <==> HasAllBits(ip, net)
  {
  }

  lemma SubMask(ip: bv32, net: bv32, mask: bv32)
    requires net & mask == net && ip & mask == net & mask
    ensures ip & net == net
  {
  }

  lemma AgreementHasAllBits(ip: bv32, net: bv32, mask: bv32)
    requires NoHostBits(net, mask) && Agree(ip, net, mask)
    ensures HasAllBits(ip, net)
  {
    SubMask(ip, net, mask);
  }

  lemma MemberIsCounted(ip: bv32, net: bv32, len: nat)
    requires IsPrefixLen(len) && NoHostBits(net, Mask(len)) && InCidr(ip, net, len)
    ensures Counted(ip, net, Mask(len))
  {
    CidrIsMasked(ip, net, len);
    hide *;
    CountedMeaning(ip, net, Mask(len));
    AgreementHasAllBits(ip, net, Mask(len));
  }

  lemma AndCommutes(x: bv32, y: bv32)
    ensures x & y == y & x && x & x == x
  {
  }

  /** The mask itself passes, and it agrees with the network only if it is the network. */
  lemma MaskIsCounted(net: bv32, mask: bv32)
    requires NoHostBits(net, mask)
    ensures Counted(mask, net, mask)
    ensures Agree(mask, net, mask) <==> mask == net
  {
    AndCommutes(mask, net);
  }

  lemma CountedByWholeMask(ip: bv32, mask: bv32)
    ensures NoHostBits(mask, mask) && (Counted(ip, mask, mask) <==> Agree(ip, mask, mask))
  {
    MaskOfItself(mask);
    CountedMeaning(ip, mask, mask);
    AgreeMeaning(ip, mask);
    hide *;
  }

  lemma MaskOfItself(mask: bv32)
    ensures NoHostBits(mask, mask)
  {
  }

  lemma AgreeMeaning(ip: bv32, mask: bv32)
    ensures Agree(ip, mask, mask) <==> HasAllBits(ip, mask)
  {
    AndCommutes(mask, mask);
  }

  lemma BitsOutsideMask(ip: bv32, net: bv32, mask: bv32)
    requires ip & (net & mask) == net
    ensures net & mask == net
  {
  }

  /** With host bits in the configured address, no packet ever passes. */
  lemma HostBitsBlockTest(ip: bv32, net: bv32, mask: bv32)
    requires !NoHostBits(net, mask)
    ensures !Counted(ip, net, mask)
  {
    if Counted(ip, net, mask) {
      BitsOutsideMask(ip, net, mask);
    }
  }

  /** With the network 192.168.0.0/24 of the shipped configuration, a packet from 192.168.1.5 is counted too. */
  lemma ShippedNetworkOvercounts()
    ensures NoHostBits(0x0000_a8c0, Mask(24))
    ensures Counted(0x0501_a8c0, 0x0000_a8c0, Mask(24)) && !InCidr(0x0501_a8c0, 0x0000_a8c0, 24)
  {
    MaskValues();
  }

  /** The test agrees with the prefix for all sources if and only if the prefix bits are all ones. */
  lemma ExactIff(net: bv32, len: nat)
    requires IsPrefixLen(len) && NoHostBits(net, Mask(len))
    ensures (forall ip: bv32 :: Counted(ip, net, Mask(len)) <==> InCidr(ip, net, len)) <==> net == Mask(len)
  {
    hide *;
    var m := Mask(len);
    MaskIsCounted(net, m);
    CidrIsMasked(m, net, len);
    if net == m {
      forall ip: bv32 ensures Counted(ip, net, m) <==> InCidr(ip, net, len) {
        CidrIsMasked(ip, net, len);
        CountedByWholeMask(ip, m);
      }
    }
  }
}

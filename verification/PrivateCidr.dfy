/**
 The CIDR test of the whitelist: the network and broadcast addresses must lie
 in the same private range of section 3 of RFC 1918. Addresses are 32-bit
 words, so the mask arithmetic is the machine's.
 */
module PrivateCidr {

  datatype Block = Ten | OneSevenTwo | OneNineTwo | NotPrivate

  function Octet0(ip: bv32): bv32 { ip >> 24 }

  function Octet1(ip: bv32): bv32 { (ip >> 16) & 0xFF }

  function PrivateBlock(ip: bv32): Block {
    var a, b := Octet0(ip), Octet1(ip);
    if a == 10 then Ten
    else if a == 172 && 16 <= b <= 31 then OneSevenTwo
    else if a == 192 && b == 168 then OneNineTwo
    else NotPrivate
  }

  function Mask(prefix: bv32): bv32
    requires prefix <= 32
  {
    if prefix == 0 then 0 else 0xFFFF_FFFF << (32 - prefix)
  }

  /** The validator's test, on the network and broadcast addresses only. */
  predicate EndsInside(address: bv32, mask: bv32) {
    var network := address & mask;
    var broadcast := network | !mask;
    PrivateBlock(network) != NotPrivate && PrivateBlock(network) == PrivateBlock(broadcast)
  }

  predicate WhitelistOk(address: bv32, prefix: bv32) {
    prefix <= 32 && EndsInside(address, Mask(prefix))
  }

  /** One private range holds every address that agrees with `address` on the mask bits. */
  ghost predicate HoldsBlock(block: Block, address: bv32, mask: bv32) {
    block != NotPrivate && forall x: bv32 :: x & mask == address & mask ==> PrivateBlock(x) == block
  }

  lemma ShiftOneLess(n: bv32)
    requires n < 31
    ensures 0xFFFF_FFFF as bv32 << n == (0xFFFF_FFFF as bv32 << (n + 1)) | (1 as bv32 << n)
  {
  }

  /** The mask sets the leading bits one by one: the next bit joins the first `prefix` bits. */
  lemma MaskGrows(prefix: bv32)
    requires prefix < 32
    ensures Mask(0) == 0
    ensures Mask(prefix + 1) == Mask(prefix) | (1 as bv32 << (31 - prefix))
  {
    if prefix > 0 {
      ShiftOneLess(31 - prefix);
    }
  }

  // ------------------------------------------------------------------ proof

  /** The private ranges are intervals of addresses. */
  lemma BlocksAreIntervals(ip: bv32)
    ensures PrivateBlock(ip) == Ten <==> 0x0A00_0000 <= ip <= 0x0AFF_FFFF
    ensures PrivateBlock(ip) == OneSevenTwo <==> 0xAC10_0000 <= ip <= 0xAC1F_FFFF
    ensures PrivateBlock(ip) == OneNineTwo <==> 0xC0A8_0000 <= ip <= 0xC0A8_FFFF
  {
  }

  lemma MaskedBounds(x: bv32, mask: bv32)
    ensures x & mask <= x <= (x & mask) | !mask
  {
  }

  lemma EndsAgree(address: bv32, mask: bv32)
    ensures (address & mask) & mask == address & mask
    ensures ((address & mask) | !mask) & mask == address & mask
  {
  }

  lemma SameBlockBetween(lo: bv32, x: bv32, hi: bv32)
    requires lo <= x <= hi && PrivateBlock(lo) == PrivateBlock(hi) != NotPrivate
    ensures PrivateBlock(x) == PrivateBlock(lo)
  {
    BlocksAreIntervals(lo);
    BlocksAreIntervals(x);
    BlocksAreIntervals(hi);
  }

  lemma EndsHoldBlock(address: bv32, mask: bv32, lo: bv32, hi: bv32)
    requires lo == address & mask && hi == lo | !mask
    requires PrivateBlock(lo) == PrivateBlock(hi) != NotPrivate
    ensures HoldsBlock(PrivateBlock(lo), address, mask)
  {
    forall x: bv32 | x & mask == address & mask
      ensures PrivateBlock(x) == PrivateBlock(lo)
    {
      MaskedBounds(x, mask);
      SameBlockBetween(lo, x, hi);
    }
  }

  lemma HeldBlockHasEnds(block: Block, address: bv32, mask: bv32)
    requires HoldsBlock(block, address, mask)
    ensures PrivateBlock(address & mask) == block == PrivateBlock((address & mask) | !mask)
  {
    EndsAgree(address, mask);
  }

  /**
   Testing two addresses is testing all of them: the whitelist is accepted
   exactly when one private range holds every address of the block.
   */
  lemma EndsInsideIffAllInside(address: bv32, mask: bv32)
    ensures EndsInside(address, mask) <==> exists block :: HoldsBlock(block, address, mask)
  {
    if EndsInside(address, mask) {
      EndsHoldBlock(address, mask, address & mask, (address & mask) | !mask);
    } else {
      forall block
        ensures !HoldsBlock(block, address, mask)
      {
        if HoldsBlock(block, address, mask) { HeldBlockHasEnds(block, address, mask); }
      }
    }
  }

  lemma WhitelistOkIffAllInside(address: bv32, prefix: bv32)
    requires prefix <= 32
    ensures WhitelistOk(address, prefix) <==> exists block :: HoldsBlock(block, address, Mask(prefix))
  {
    EndsInsideIffAllInside(address, Mask(prefix));
  }
}

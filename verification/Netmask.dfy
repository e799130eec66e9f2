/** Prefix lengths of dotted netmasks (section 3.1 of RFC 4632), for words of any width. */
module Netmask {

  function Pow2(n: nat): (p: nat)
    ensures p > 0
  {
    if n == 0 then 1 else 2 * Pow2(n - 1)
  }

  /** The number of one bits before the first zero bit of a word of the given width. */
  function LeadingOnes(mask: nat, width: nat): nat {
    if width == 0 || mask < Pow2(width - 1) then 0
    else 1 + LeadingOnes(mask - Pow2(width - 1), width - 1)
  }

  function SetBits(mask: nat, width: nat): nat {
    if width == 0 then 0
    else if mask < Pow2(width - 1) then SetBits(mask, width - 1)
    else 1 + SetBits(mask - Pow2(width - 1), width - 1)
  }

  /** k one bits, then zero bits. */
  function PrefixMask(k: nat, width: nat): (m: nat)
    requires k <= width
  {
    PowGrows(width - k, width);
    Pow2(width) - Pow2(width - k)
  }

  lemma {:induction false} PowGrows(a: nat, b: nat)
    requires a <= b
    ensures Pow2(a) <= Pow2(b)
    decreases b
  {
    if a < b {
      PowGrows(a, b - 1);
    }
  }

  function BitLength(n: nat): nat {
    if n == 0 then 0 else 1 + BitLength(n / 2)
  }

  lemma {:induction false} BitLengthTop(n: nat, width: nat)
    requires width > 0 && Pow2(width - 1) <= n < Pow2(width)
    ensures BitLength(n) == width
    decreases width
  {
    if width > 1 {
      BitLengthTop(n / 2, width - 1);
    }
  }

  /** The complement of a word with k leading ones has its top bit just below them. */
  lemma {:induction false} ComplementLength(mask: nat, width: nat)
    requires mask < Pow2(width)
    ensures LeadingOnes(mask, width) + BitLength(Pow2(width) - 1 - mask) == width
  {
    if width > 0 {
      if mask < Pow2(width - 1) {
        BitLengthTop(Pow2(width) - 1 - mask, width);
      } else {
        ComplementLength(mask - Pow2(width - 1), width - 1);
      }
    }
  }

  /** Flip the word and shift it away, counting down from its width. */
  method CountSetBits(mask: nat) returns (r: nat)
    requires mask < Pow2(32)
    ensures r == LeadingOnes(mask, 32)
  {
    ComplementLength(mask, 32);
    var bits: nat := Pow2(32) - 1 - mask;
    r := 32;
    while bits != 0
      invariant r == LeadingOnes(mask, 32) + BitLength(bits)
      decreases bits
    {
      bits := bits / 2;
      r := r - 1;
    }
  }

  lemma {:induction false} LeadingAtMostSet(mask: nat, width: nat)
    ensures LeadingOnes(mask, width) <= SetBits(mask, width) && LeadingOnes(mask, width) <= width
  {
    if width > 0 && mask >= Pow2(width - 1) {
      LeadingAtMostSet(mask - Pow2(width - 1), width - 1);
    }
  }

  lemma {:induction false} NoSetBits(mask: nat, width: nat)
    requires mask < Pow2(width)
    ensures SetBits(mask, width) == 0 <==> mask == 0
  {
    if width > 0 && mask < Pow2(width - 1) {
      NoSetBits(mask, width - 1);
    }
  }

  /** The result is the number of set bits exactly for contiguous masks. */
  lemma {:induction false} ContiguousIff(mask: nat, width: nat)
    requires mask < Pow2(width)
    ensures LeadingOnes(mask, width) <= width
    ensures LeadingOnes(mask, width) == SetBits(mask, width)
            <==> mask == PrefixMask(LeadingOnes(mask, width), width)
  {
    LeadingAtMostSet(mask, width);
    if width > 0 {
      if mask < Pow2(width - 1) {
        NoSetBits(mask, width);
      } else {
        LeadingAtMostSet(mask - Pow2(width - 1), width - 1);
        ContiguousIff(mask - Pow2(width - 1), width - 1);
      }
    }
  }

  /** Prefix length to mask and back. */
  lemma {:induction false} PrefixRoundTrip(k: nat, width: nat)
    requires k <= width
    ensures PrefixMask(k, width) < Pow2(width) && LeadingOnes(PrefixMask(k, width), width) == k
  {
    if k > 0 {
      PrefixRoundTrip(k - 1, width - 1);
      PowGrows(width - k, width - 1);
    }
  }
}

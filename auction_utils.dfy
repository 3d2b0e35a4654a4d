/**
 * The shared helpers of the auction program: proportional amounts, the NFT
 * test on a mint, and pause-flag lookup. The raffle and gumball programs call
 * helpers of the same names and are modelled with these definitions.
 */
module AuctionUtils {
  import opened Common

  /** 2 to the power `n`; the place value of bit `n`. */
  function Pow2(n: nat): (r: nat)
    ensures r >= 1
  {
    if n == 0 then 1 else 2 * Pow2(n - 1)
  }

  /**
   * `get_pct_amount`: amount * pct / base with a checked u64 product and a
   * checked division; either failure is the Overflow error (None).
   * The result is the floor of the exact proportion.
   */
  function GetPctAmount(amount: U64, pct: U64, base: U64): (r: Option<U64>)
    ensures r.Some? <==> amount * pct <= U64_MAX && base > 0
    ensures r.Some? ==> r.value * base <= amount * pct < (r.value + 1) * base
  {
    if amount * pct > U64_MAX || base == 0 then None
    else
      var q := (amount * pct) / base;
      DivBounds(amount * pct, base);
      Some(q)
  }

  /** Euclidean division of naturals brackets the dividend and never grows it. */
  lemma DivBounds(x: nat, d: nat)
    requires d > 0
    ensures (x / d) * d <= x < (x / d + 1) * d
    ensures x / d <= x
  {
    var q, m := x / d, x % d;
    assert x == q * d + m && 0 <= m < d;
    assert (q + 1) * d == q * d + d;
    MulMonotone(1, d, q);
    assert q <= d * q;
  }

  /**
   * A proportion of at most the whole never exceeds the amount, and the
   * complement `amount - part` is what remains: splitting an amount into a
   * fee and the rest loses and creates nothing.
   */
  lemma {:induction false} PctAmountAtMostAmount(amount: U64, pct: U64, base: U64)
    requires pct <= base
    requires GetPctAmount(amount, pct, base).Some?
    ensures GetPctAmount(amount, pct, base).value <= amount
  {
    var q := GetPctAmount(amount, pct, base).value;
    if q > amount {
      calc {
        q * base;
      >= { MulMonotone(amount + 1, q, base); }
        (amount + 1) * base;
      == amount * base + base;
      >= { MulMonotone(pct, base, amount); }
        pct * amount + base;
      >  amount * pct;
      }
    }
  }

  /** A total divided into a fee and what remains of it. */
  datatype FeeSplit = FeeSplit(fee: U64, rest: U64)

  /**
   * The commission split both completion paths make: the fee is
   * `get_pct_amount(amount, pct, base)` and the rest is `amount - fee` by a
   * checked subtraction; either failure is the Overflow error (None). The
   * split succeeds exactly when the product fits in u64, the base is
   * non-zero and the fee does not exceed the amount, which is always the
   * case for a rate of at most the whole; the two parts add up to the
   * amount and the fee is the floor of the exact proportion.
   */
  function SplitFee(amount: U64, pct: U64, base: U64): (r: Option<FeeSplit>)
    ensures r.Some? <==> amount * pct <= U64_MAX && base > 0 && amount * pct < (amount + 1) * base
    ensures r.Some? ==> r.value.fee + r.value.rest == amount
    ensures r.Some? ==> r.value.fee * base <= amount * pct < (r.value.fee + 1) * base
    ensures amount * pct <= U64_MAX && 0 < base && pct <= base ==> r.Some?
  {
    var f := GetPctAmount(amount, pct, base);
    if f.None? then None
    else
      FeeAtMostAmountIff(amount, pct, base, f.value);
      assert pct <= base ==> f.value <= amount by {
        if pct <= base {
          PctAmountAtMostAmount(amount, pct, base);
        }
      }
      if f.value > amount then None else Some(FeeSplit(f.value, amount - f.value))
  }

  /** A floor quotient q of x by base is at most an amount exactly when x lies below the amount's next multiple of base. */
  lemma FeeAtMostAmountIff(amount: nat, pct: nat, base: nat, q: nat)
    requires base > 0
    requires q * base <= amount * pct < (q + 1) * base
    ensures q <= amount <==> amount * pct < (amount + 1) * base
  {
    if q <= amount {
      MulMonotone(q + 1, amount + 1, base);
    } else {
      MulMonotone(amount + 1, q, base);
    }
  }

  lemma MulMonotone(a: nat, b: nat, c: nat)
    requires a <= b
    ensures a * c <= b * c
  {
  }

  /** The part of a mint account these programs read. */
  datatype Mint = Mint(decimals: U8, supply: U64)

  /** `validate_nft`: a mint is accepted as an NFT iff it has no decimals and a supply of exactly one. */
  predicate ValidateNft(mint: Mint)
  {
    mint.decimals == 0 && mint.supply == 1
  }

  /**
   * `is_paused`: whether bit `index` of the u8 pause flags is set, computed
   * with the source's shift-and-mask on 8-bit values. The source's
   * `1u8 << index` is only defined for indices below 8; every caller passes
   * one of the pause-bit constants, which all are.
   */
  function IsPaused(pauseFlags: U8, index: nat): (r: bool)
    requires index < 8
    ensures r <==> (pauseFlags / Pow2(index)) % 2 == 1
  {
    var mask: bv8 := 1 << index;
    var active := (pauseFlags as bv8) & mask != 0;
    BitTest(pauseFlags, index);
    active
  }

  lemma BitTest(flags: U8, index: nat)
    requires index < 8
    ensures ((flags as bv8) & ((1 as bv8) << index) != 0) <==> (flags / Pow2(index)) % 2 == 1
  {
    assert Pow2(1) == 2 && Pow2(2) == 4 && Pow2(3) == 8 && Pow2(4) == 16;
    assert Pow2(5) == 32 && Pow2(6) == 64 && Pow2(7) == 128;
  }

  /** No function is paused while the flags are all clear. */
  lemma NothingPausedWhenClear(index: nat)
    requires index < 8
    ensures !IsPaused(0, index)
  {
  }
}

/**
 * The raffle program's helpers: the duplicate-winner test, the per-wallet
 * ticket cap, the minimum per-wallet percentage, and the validation of a
 * winners' share list.
 */
module RaffleUtils {
  import opened Common
  import opened RaffleErrors

  /** Shares are percentages; a valid share list sums to exactly this. */
  const TOTAL_PCT: int := 100

  // ---------------------------------------------------------------------
  // Duplicate keys
  // ---------------------------------------------------------------------

  /** Some key occurs at two different positions of the list. */
  ghost predicate HasDuplicates(list: seq<Pubkey>)
  {
    exists i, j :: 0 <= i < j < |list| && list[i] == list[j]
  }

  /** `has_duplicate_pubkeys`: the nested scan over all pairs i < j, stopping at the first equal pair. */
  method HasDuplicatePubkeys(list: seq<Pubkey>) returns (found: bool)
    ensures found <==> HasDuplicates(list)
    ensures |list| <= 1 ==> !found
  {
    var i := 0;
    while i < |list|
      invariant 0 <= i <= |list|
      invariant forall a, b :: 0 <= a < i && a < b < |list| ==> list[a] != list[b]
    {
      var j := i + 1;
      while j < |list|
        invariant i + 1 <= j <= |list|
        invariant forall b :: i < b < j ==> list[i] != list[b]
      {
        if list[i] == list[j] {
          return true;
        }
        j := j + 1;
      }
      i := i + 1;
    }
    return false;
  }

  // ---------------------------------------------------------------------
  // Share lists
  // ---------------------------------------------------------------------

  /** The exact (unbounded) sum of a list of shares. */
  function Sum(s: seq<U8>): nat
  {
    if s == [] then 0 else Sum(s[..|s| - 1]) + s[|s| - 1]
  }

  /**
   * The u8 sum `iter().sum()` of the source, accumulated from the left. Rust
   * aborts on u8 overflow; the model returns None, and a share list whose
   * sum overflows is rejected.
   */
  function SumU8(s: seq<U8>): (r: Option<U8>)
    ensures r.Some? <==> Sum(s) <= U8_MAX
    ensures r.Some? ==> r.value == Sum(s)
  {
    if s == [] then Some(0)
    else
      match SumU8(s[..|s| - 1])
      case None => None
      case Some(acc) =>
        if acc + s[|s| - 1] > U8_MAX then None else Some(acc + s[|s| - 1])
  }

  /** Each share is at most the one before it. */
  predicate NonIncreasing(s: seq<U8>)
  {
    forall k :: 0 < k < |s| ==> s[k] <= s[k - 1]
  }

  /** What the program demands of a winners' share list: shares ranked from the largest down, summing to 100%. */
  predicate ValidWinShares(s: seq<U8>)
  {
    Sum(s) == TOTAL_PCT && NonIncreasing(s)
  }

  /**
   * `is_descending_order_and_sum_100` (called as `validate_win_shares`): the
   * sum test first, then the scan of adjacent pairs, stopping at the first
   * increase.
   */
  method IsDescendingOrderAndSum100(winShares: seq<U8>) returns (ok: bool)
    ensures ok <==> ValidWinShares(winShares)
  {
    var total := SumU8(winShares);
    if total.None? || total.value != TOTAL_PCT {
      return false;
    }
    if |winShares| <= 1 {
      return true;
    }
    var i := 1;
    while i < |winShares|
      invariant 1 <= i <= |winShares|
      invariant forall k :: 0 < k < i ==> winShares[k] <= winShares[k - 1]
    {
      if winShares[i] > winShares[i - 1] {
        return false;
      }
      i := i + 1;
    }
    return true;
  }

  /**
   * The edges of the share rule: the empty list is rejected (it sums to 0),
   * the single share [100] is accepted, and zero shares are not refused, so
   * a ranked list ending in 0 that sums to 100 passes.
   */
  lemma ShareRuleEdges()
    ensures !ValidWinShares([])
    ensures ValidWinShares([100])
    ensures ValidWinShares([60, 40, 0])
  {
    assert [60, 40, 0][..2] == [60, 40];
    assert [60, 40][..1] == [60];
    assert [60][..0] == [];
  }

  /** Adjacent ordering gives the ordering of every pair: an earlier winner's share is never smaller than a later one's. */
  lemma {:induction false} NonIncreasingPairwise(s: seq<U8>, i: nat, j: nat)
    requires NonIncreasing(s)
    requires i <= j < |s|
    ensures s[j] <= s[i]
    decreases j - i
  {
    if i < j {
      NonIncreasingPairwise(s, i, j - 1);
    }
  }

  /** A prefix of a share list never sums to more than the whole list. */
  lemma {:induction false} PrefixSumAtMostSum(s: seq<U8>, k: nat)
    requires k <= |s|
    ensures Sum(s[..k]) <= Sum(s)
    decreases |s| - k
  {
    if k < |s| {
      PrefixSumAtMostSum(s, k + 1);
      assert s[..k + 1][..k] == s[..k];
    } else {
      assert s[..k] == s;
    }
  }

  /** Extending a prefix by one element adds that element to its sum. */
  lemma PrefixSumStep(s: seq<U8>, k: nat)
    requires k < |s|
    ensures Sum(s[..k + 1]) == Sum(s[..k]) + s[k]
  {
    assert s[..k + 1][..k] == s[..k];
  }

  // ---------------------------------------------------------------------
  // Per-wallet caps
  // ---------------------------------------------------------------------

  /**
   * `calculate_max_tickets`: the number of tickets one wallet may hold, the
   * ceiling of total * pct / 100 computed in u32 and cast back to u16 (the
   * cast keeps the low 16 bits), and never less than one. A zero percentage
   * is the InvalidMaxPerWalletPct error. For percentages up to 100 the cap
   * is exactly the ceiling (floored at one) and never exceeds the total.
   */
  function CalculateMaxTickets(totalTickets: U16, maxPerWalletPct: U8): (r: Result<U16, RaffleError>)
    ensures r.Err? <==> maxPerWalletPct == 0
    ensures r.Err? ==> r.error == InvalidMaxPerWalletPct
    ensures r.Ok? ==> r.value >= 1
    ensures r.Ok? && maxPerWalletPct <= TOTAL_PCT ==>
      r.value * 100 >= totalTickets * maxPerWalletPct &&
      (r.value == 1 || (r.value - 1) * 100 < totalTickets * maxPerWalletPct)
    ensures r.Ok? && maxPerWalletPct <= TOTAL_PCT && totalTickets >= 1 ==> r.value <= totalTickets
  {
    if maxPerWalletPct == 0 then Err(InvalidMaxPerWalletPct)
    else
      // Both u32 steps fit: 65535 * 255 + 99 < 2^32.
      var product := totalTickets * maxPerWalletPct;
      var numerator := product + 99;
      var maxTickets := (numerator / 100) % 0x1_0000;
      var cap := if maxTickets < 1 then 1 else maxTickets;
      CapFacts(totalTickets, maxPerWalletPct, cap);
      Ok(cap)
  }

  lemma CapFacts(total: U16, pct: U8, cap: int)
    requires pct > 0
    requires var c := ((total * pct + 99) / 100) % 0x1_0000; cap == if c < 1 then 1 else c
    ensures total * pct + 99 <= U32_MAX
    ensures pct <= TOTAL_PCT ==>
      cap * 100 >= total * pct && (cap == 1 || (cap - 1) * 100 < total * pct)
    ensures pct <= TOTAL_PCT && total >= 1 ==> cap <= total
  {
    MulBound(total, U16_MAX, pct, U8_MAX);
    if pct <= TOTAL_PCT {
      CeilingCap(total, pct);
    }
  }

  lemma MulBound(a: nat, amax: nat, b: nat, bmax: nat)
    requires a <= amax && b <= bmax
    ensures a * b <= amax * bmax
  {
    assert a * b <= amax * b;
    assert amax * b <= amax * bmax;
  }

  /** For pct up to 100 the u16 cast keeps the whole ceiling, which lies between total*pct/100 and total. */
  lemma CeilingCap(total: U16, pct: U8)
    requires 0 < pct <= TOTAL_PCT
    ensures var c := (total * pct + 99) / 100;
      c < 0x1_0000 && c * 100 >= total * pct && (c == 0 || (c - 1) * 100 < total * pct) &&
      (total >= 1 ==> c <= total)
  {
    var x := total * pct;
    MulBound(total, total, pct, 100);
    assert x <= total * 100;
    var c := (x + 99) / 100;
    assert c * 100 <= x + 99 < c * 100 + 100;
  }

  /**
   * The minimum per-wallet percentage `(TOTAL_PCT as u16 + total - 1) / total`:
   * the smallest percentage that still lets one wallet buy a ticket,
   * ceil(100 / total). The u16 addition overflows above 65435 tickets and
   * the division fails for zero tickets; both abort (None).
   */
  function MinPerWalletPct(totalTickets: U16): (r: Option<U8>)
    ensures r.Some? <==> 1 <= totalTickets && TOTAL_PCT + totalTickets <= U16_MAX
    ensures r.Some? ==> r.value * totalTickets >= TOTAL_PCT && (r.value - 1) * totalTickets < TOTAL_PCT
    ensures r.Some? ==> 1 <= r.value <= TOTAL_PCT
  {
    if totalTickets == 0 || TOTAL_PCT + totalTickets > U16_MAX then None
    else
      var m := (TOTAL_PCT + totalTickets - 1) / totalTickets;
      CeilingOfHundred(totalTickets);
      Some(m)
  }

  lemma CeilingOfHundred(t: nat)
    requires t >= 1
    ensures var m := (TOTAL_PCT + t - 1) / t;
      m * t >= TOTAL_PCT && (m - 1) * t < TOTAL_PCT && 1 <= m <= TOTAL_PCT
  {
    var n := TOTAL_PCT + t - 1;
    var m := n / t;
    assert m * t <= n < m * t + t;
    assert (m - 1) * t == m * t - t;
    if m > TOTAL_PCT {
      assert m * t >= (TOTAL_PCT + 1) * t by { MulBound(TOTAL_PCT + 1, m, t, t); }
    }
  }

  /** With a percentage of at least ceil(100 / total), the cap is reached by the ceiling itself, not by the floor of one. */
  lemma CapReachesOneTicket(totalTickets: U16, pct: U8)
    requires MinPerWalletPct(totalTickets).Some?
    requires MinPerWalletPct(totalTickets).value <= pct <= TOTAL_PCT
    ensures CalculateMaxTickets(totalTickets, pct).Ok?
    ensures totalTickets * pct >= TOTAL_PCT
  {
    var m := MinPerWalletPct(totalTickets).value;
    MulBound(m, pct, totalTickets, totalTickets);
  }
}

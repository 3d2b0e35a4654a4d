/**
 * The raffle program's records (config, raffle, buyer), its constants, the
 * accounts that hold its value, and the on-chain store the instructions
 * update: one config record, raffle records keyed by id, buyer records
 * keyed by (raffle id, user), and the ledger.
 */
module RaffleStates {
  import opened Common
  import opened RaffleUtils
  import opened AuctionUtils

  const FEE_MANTISSA: int := 10_000
  const MAX_PER_WALLET_PCT: int := 40
  const MAX_WINNERS_COUNT: int := 10

  /** A pause-flag bit index. */
  type PauseBit = i: nat | i < 8

  /**
   * Values the raffle instructions use that the raffle constants file does
   * not define: the pause-bit index of each pausable instruction and the
   * ticket and wallet bounds of `update_raffle_ticketing`.
   */
  datatype RaffleParams = RaffleParams(
    activateRafflePause: PauseBit,
    buyTicketPause: PauseBit,
    announceWinnerPause: PauseBit,
    buyerClaimPrizePause: PauseBit,
    claimAmountBackPause: PauseBit,
    cancelRafflePause: PauseBit,
    updateRafflePause: PauseBit,
    minimumTickets: U16,
    maximumTickets: U16,
    maximumWalletPct: U8)

  datatype RaffleConfig = RaffleConfig(
    raffleOwner: Pubkey,
    raffleAdmin: Pubkey,
    creationFeeLamports: U64,
    ticketFeeBps: U16,
    minimumRafflePeriod: U32,
    maximumRafflePeriod: U32,
    minimumTickets: U16,
    maximumTickets: U16,
    maximumWinnersCount: U8,
    raffleCount: U32,
    pauseFlags: U8,
    maximumWalletPct: U8)

  /** The raffle lifecycle; the source's `None` variant is called Uninitialized here. */
  datatype RaffleState = Uninitialized | Initialized | Active | Cancelled | SuccessEnded | FailedEnded

  datatype PrizeType = Nft | Spl | Sol

  datatype Raffle = Raffle(
    raffleId: U32,
    creator: Pubkey,
    startTime: I64,
    endTime: I64,
    totalTickets: U16,
    ticketsSold: U16,
    ticketPrice: U64,
    ticketMint: Option<Pubkey>,
    ticketEscrow: Option<Holder>,
    maxPerWalletPct: U8,
    prizeType: PrizeType,
    prizeAmount: U64,
    prizeMint: Option<Pubkey>,
    prizeEscrow: Option<Holder>,
    numWinners: U8,
    winShares: seq<U8>,
    winners: seq<Pubkey>,
    isWinClaimed: seq<bool>,
    status: RaffleState,
    isUniqueWinners: bool,
    claimablePrizeBack: U64,
    claimableTicketAmount: U64)

  datatype Buyer = Buyer(raffleId: U32, user: Pubkey, tickets: U16)

  /** A buyer record as `init_if_needed` creates it: all zero. */
  const FRESH_BUYER: Buyer := Buyer(0, DEFAULT_PUBKEY, 0)

  // ---------------------------------------------------------------------
  // Accounts holding value
  // ---------------------------------------------------------------------

  /** Where the payments for a raffle's tickets are kept: the raffle's own lamports for SOL tickets, its ticket escrow otherwise. */
  function TicketVault(id: nat, ticketMint: Option<Pubkey>): Holder
  {
    InstanceVault(id, ticketMint)
  }

  /** Where a raffle's prize is held: its own lamports for a SOL prize, its escrow for the prize mint otherwise. */
  function PrizeVault(r: Raffle, id: nat): Holder
    requires r.prizeType == Sol || r.prizeMint.Some?
  {
    if r.prizeType == Sol then InstanceLamports(id) else InstanceEscrow(id, r.prizeMint.value)
  }

  /** Where a wallet receives a raffle's prize: its lamports for a SOL prize, its token account for the prize mint otherwise. */
  function PrizeRecipient(r: Raffle, key: Pubkey): Holder
    requires r.prizeType == Sol || r.prizeMint.Some?
  {
    if r.prizeType == Sol then WalletLamports(key) else WalletTokens(key, r.prizeMint.value)
  }

  // ---------------------------------------------------------------------
  // Prize arithmetic
  // ---------------------------------------------------------------------

  /** What one winner slot with a given share is paid: floor(prize * share / 100). */
  function Payout(prize: nat, share: nat): nat
  {
    prize * share / TOTAL_PCT
  }

  /** What the winner slots with the given shares are paid together. */
  function Payouts(prize: nat, shares: seq<U8>): nat
  {
    if shares == [] then 0 else Payouts(prize, shares[..|shares| - 1]) + Payout(prize, shares[|shares| - 1])
  }

  /** Rounding one payout down never pays more than the exact proportion. */
  lemma PayoutAtMostProportion(prize: nat, share: nat)
    ensures Payout(prize, share) * TOTAL_PCT <= prize * share
  {
    DivBounds(prize * share, TOTAL_PCT);
  }

  /** Rounding each payout down never pays more than the exact proportion of the shares' sum. */
  lemma {:induction false} PayoutsAtMostProportion(prize: nat, shares: seq<U8>)
    ensures Payouts(prize, shares) * TOTAL_PCT <= prize * Sum(shares)
    decreases |shares|
  {
    if shares != [] {
      var init, last := shares[..|shares| - 1], shares[|shares| - 1];
      PayoutsAtMostProportion(prize, init);
      PayoutAtMostProportion(prize, last);
      assert prize * Sum(shares) == prize * Sum(init) + prize * last;
    }
  }

  /**
   * Prize conservation: whatever prefix of the slots is filled, the payouts
   * of the filled slots and the creator's prize-back for the unfilled
   * shares together never exceed the prize.
   */
  lemma {:induction false} PrizeConservation(prize: nat, shares: seq<U8>, k: nat)
    requires ValidWinShares(shares)
    requires k <= |shares|
    ensures Payouts(prize, shares[..k]) + prize * (TOTAL_PCT - Sum(shares[..k])) / TOTAL_PCT <= prize
  {
    var filled := Sum(shares[..k]);
    PrefixSumAtMostSum(shares, k);
    PayoutsAtMostProportion(prize, shares[..k]);
    var left: nat := TOTAL_PCT - filled;
    PayoutAtMostProportion(prize, left);
    ShareSplit(Payouts(prize, shares[..k]), Payout(prize, left), prize, filled);
  }

  /** Two amounts bounded by complementary percentages of the prize add up to at most the prize. */
  lemma ShareSplit(paid: nat, back: nat, prize: nat, filled: nat)
    requires filled <= TOTAL_PCT
    requires paid * TOTAL_PCT <= prize * filled
    requires back * TOTAL_PCT <= prize * (TOTAL_PCT - filled)
    ensures paid + back <= prize
  {
    calc {
      (paid + back) * TOTAL_PCT;
      == paid * TOTAL_PCT + back * TOTAL_PCT;
      <= prize * filled + prize * (TOTAL_PCT - filled);
      == { SplitProduct(prize, filled, TOTAL_PCT - filled); }
      prize * TOTAL_PCT;
    }
  }

  /** Distributivity, kept apart so the solver meets it as a single fact. */
  lemma SplitProduct(a: nat, b: nat, c: nat)
    ensures a * b + a * c == a * (b + c)
  {
  }

  // ---------------------------------------------------------------------
  // Invariants
  // ---------------------------------------------------------------------

  ghost predicate ConfigValid(c: RaffleConfig)
  {
    c.minimumRafflePeriod > 0 && c.maximumRafflePeriod > c.minimumRafflePeriod && c.raffleCount >= 1
  }

  ghost predicate Unclaimed(s: seq<bool>)
  {
    forall i :: 0 <= i < |s| ==> !s[i]
  }

  function Min(a: int, b: int): int { if a <= b then a else b }

  /** The per-wallet cap of a raffle holds for a ticket count. */
  ghost predicate WithinWalletCap(tickets: nat, r: Raffle)
  {
    var cap := CalculateMaxTickets(r.totalTickets, r.maxPerWalletPct);
    cap.Ok? && tickets <= cap.value
  }

  /** What every raffle record kept in the store satisfies. */
  ghost predicate RaffleValid(id: nat, r: Raffle)
  {
    && r.raffleId == id
    && r.status != Uninitialized
    // tickets
    && r.ticketsSold <= r.totalTickets
    && r.maxPerWalletPct >= 1
    && (r.ticketMint.None? <==> r.ticketEscrow.None?)
    && (r.ticketMint.Some? ==> r.ticketEscrow == Some(InstanceEscrow(id, r.ticketMint.value)))
    // winners and shares
    && 1 <= r.numWinners <= r.totalTickets
    && |r.winShares| == r.numWinners && ValidWinShares(r.winShares)
    && |r.isWinClaimed| == r.numWinners
    && |r.winners| <= r.numWinners
    // prize
    && r.prizeAmount >= r.numWinners
    && (r.prizeType == Nft ==> r.numWinners == 1 && r.prizeAmount == 1)
    && (r.prizeType == Sol <==> r.prizeMint.None?)
    && (r.prizeMint.None? <==> r.prizeEscrow.None?)
    && (r.prizeMint.Some? ==> r.prizeEscrow == Some(InstanceEscrow(id, r.prizeMint.value)))
    && r.claimablePrizeBack <= r.prizeAmount
    // lifecycle
    && ((r.status == Initialized || r.status == Active) ==>
          r.claimablePrizeBack == 0 && r.claimableTicketAmount == 0 && Unclaimed(r.isWinClaimed))
    && (r.status == FailedEnded ==> r.ticketsSold == 0)
    && (r.status == SuccessEnded ==>
          r.ticketsSold >= 1 && |r.winners| == Min(r.ticketsSold, r.numWinners))
    && (r.status == SuccessEnded && r.isUniqueWinners ==> !HasDuplicates(r.winners))
    && (r.status == SuccessEnded && r.prizeType != Nft ==>
          Payouts(r.prizeAmount, r.winShares[..|r.winners|]) + r.claimablePrizeBack <= r.prizeAmount)
  }

  /** A buyer record is keyed by (raffle id, user), holds tickets only once stamped, and stays within the raffle's supply and wallet caps. */
  ghost predicate BuyerValid(key: (nat, Pubkey), b: Buyer, raffles: map<nat, Raffle>, raffleCount: nat)
  {
    && key.0 < raffleCount
    && (b.tickets > 0 ==> b.raffleId == key.0 && b.user == key.1)
    && (key.0 in raffles ==>
          b.tickets <= raffles[key.0].ticketsSold &&
          (b.tickets > 0 ==> WithinWalletCap(b.tickets, raffles[key.0])))
  }

  /** The ticket-sale fields the buyer invariant depends on. */
  ghost predicate SameTicketing(a: Raffle, b: Raffle)
  {
    a.ticketsSold == b.ticketsSold && a.totalTickets == b.totalTickets && a.maxPerWalletPct == b.maxPerWalletPct
  }

  /** The invariant of the whole raffle store. */
  ghost predicate StateValid(c: RaffleConfig, raffles: map<nat, Raffle>, buyers: map<(nat, Pubkey), Buyer>)
  {
    && ConfigValid(c)
    && (forall id :: id in raffles ==> id < c.raffleCount && RaffleValid(id, raffles[id]))
    && (forall k :: k in buyers ==> BuyerValid(k, buyers[k], raffles, c.raffleCount))
  }

  /** Replacing one raffle record by a valid one with the same ticket sales keeps the store valid. */
  lemma RaffleUpdateKeepsValid(c: RaffleConfig, raffles: map<nat, Raffle>, buyers: map<(nat, Pubkey), Buyer>,
                               id: nat, r: Raffle)
    requires StateValid(c, raffles, buyers)
    requires id in raffles && RaffleValid(id, r) && SameTicketing(raffles[id], r)
    ensures StateValid(c, raffles[id := r], buyers)
  {
    var raffles' := raffles[id := r];
    forall k | k in buyers
      ensures BuyerValid(k, buyers[k], raffles', c.raffleCount)
    {
      assert BuyerValid(k, buyers[k], raffles, c.raffleCount);
    }
  }

  /**
   * Replacing the record of a raffle that has sold nothing by a valid one
   * that has sold nothing keeps the store valid, whatever its ticketing:
   * every buyer record of that raffle holds no tickets.
   */
  lemma UnsoldUpdateKeepsValid(c: RaffleConfig, raffles: map<nat, Raffle>, buyers: map<(nat, Pubkey), Buyer>,
                               id: nat, r: Raffle)
    requires StateValid(c, raffles, buyers)
    requires id in raffles && raffles[id].ticketsSold == 0
    requires RaffleValid(id, r) && r.ticketsSold == 0
    ensures StateValid(c, raffles[id := r], buyers)
  {
    var raffles' := raffles[id := r];
    forall k | k in buyers
      ensures BuyerValid(k, buyers[k], raffles', c.raffleCount)
    {
      assert BuyerValid(k, buyers[k], raffles, c.raffleCount);
    }
  }

  class RaffleStore {
    const params: RaffleParams
    var config: RaffleConfig
    var raffles: map<nat, Raffle>
    var buyers: map<(nat, Pubkey), Buyer>
    var ledger: Ledger

    ghost predicate Valid()
      reads this
    {
      StateValid(config, raffles, buyers)
    }

    /** A deployment whose config account has been initialised and that holds no raffles yet. */
    constructor (params: RaffleParams, config: RaffleConfig, ledger: Ledger)
      ensures this.params == params && this.config == config && this.ledger == ledger
      ensures raffles == map[] && buyers == map[]
      ensures Valid() <==> ConfigValid(config)
    {
      this.params := params;
      this.config := config;
      this.raffles := map[];
      this.buyers := map[];
      this.ledger := ledger;
    }

    /** The buyer record at a key, as `init_if_needed` presents it: a fresh one when absent. */
    function BuyerAt(key: (nat, Pubkey)): Buyer
      reads this
    {
      if key in buyers then buyers[key] else FRESH_BUYER
    }
  }
}

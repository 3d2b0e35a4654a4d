/**
 * The auction program's records (config, auction), its constants, the
 * accounts that hold an auction's value, and the on-chain store the
 * instructions update: one config record, auction records keyed by id, and
 * the ledger.
 */
module AuctionStates {
  import opened Common
  import opened AuctionErrors

  /** The basis of basis-point arithmetic: 10000 is 100.00%. */
  const FEE_MANTISSA: int := 10_000

  // Pause-flag bit of each pausable instruction.
  const CREATE_AUCTION_PAUSE: nat := 0
  const CANCEL_AUCTION_PAUSE: nat := 1
  const COMPLETE_AUCTION_PAUSE: nat := 2
  const PLACE_BID_PAUSE: nat := 3
  const START_AUCTION_PAUSE: nat := 4
  const UPDATE_AUCTION_PAUSE: nat := 5

  datatype AuctionConfig = AuctionConfig(
    auctionOwner: Pubkey,
    auctionAdmin: Pubkey,
    creationFeeLamports: U64,
    commissionBps: U16,
    minimumAuctionPeriod: U32,
    maximumAuctionPeriod: U32,
    minimumTimeExtension: U32,
    maximumTimeExtension: U32,
    auctionCount: U32,
    pauseFlags: U8)

  /** The auction lifecycle; the source's `None` variant is called Uninitialized here. */
  datatype AuctionState = Uninitialized | Initialized | Active | Cancelled | CompletedSuccessfully | CompletedFailed

  datatype Auction = Auction(
    auctionId: U32,
    creator: Pubkey,
    prizeMint: Pubkey,
    startTime: I64,
    endTime: I64,
    bidMint: Option<Pubkey>,
    baseBid: U64,
    minIncrement: U64,
    timeExtension: U32,
    highestBidAmount: U64,
    highestBidder: Pubkey,
    hasAnyBid: bool,
    status: AuctionState)

  // ---------------------------------------------------------------------
  // Accounts holding an auction's value
  // ---------------------------------------------------------------------

  /** The auction's token account for its prize mint, which holds the NFT. */
  function PrizeEscrow(a: Auction, id: nat): Holder
  {
    InstanceEscrow(id, a.prizeMint)
  }

  /** Where the bids are held: the auction account's own lamports for SOL bids, its escrow for the bid mint otherwise. */
  function BidVault(a: Auction, id: nat): Holder
  {
    InstanceVault(id, a.bidMint)
  }

  /**
   * What an auction owes out of an account it holds: the prize token out of
   * its prize escrow, and the standing highest bid, once there is one, out
   * of its bid vault (both, should the two accounts be one).
   */
  function Owed(a: Auction, id: nat, h: Holder): nat
  {
    (if h == PrizeEscrow(a, id) then 1 else 0) + (if a.hasAnyBid && h == BidVault(a, id) then a.highestBidAmount else 0)
  }

  /** The auction's accounts hold what it owes: the prize is in escrow and the standing bid can be refunded or paid out. */
  ghost predicate Covered(l: Ledger, a: Auction, id: nat)
  {
    && Balance(l, PrizeEscrow(a, id)) >= Owed(a, id, PrizeEscrow(a, id))
    && Balance(l, BidVault(a, id)) >= Owed(a, id, BidVault(a, id))
  }

  /**
   * The prize going back to the creator, as completion without bids and
   * cancellation do it: one token of the supplied prize mint out of the
   * auction's escrow for that mint, which must hold it. No other instance's
   * account changes.
   */
  function ReturnPrize(id: nat, creator: Pubkey, prizeMint: Pubkey, l: Ledger): (res: Result<Ledger, AuctionError>)
    ensures res.Ok? <==> Balance(l, InstanceEscrow(id, prizeMint)) >= 1
    ensures res.Err? ==> res.error == InsufficientTokenBalance
    ensures res.Ok? ==>
      && Balance(res.value, InstanceEscrow(id, prizeMint)) == Balance(l, InstanceEscrow(id, prizeMint)) - 1
      && Balance(res.value, WalletTokens(creator, prizeMint)) == Balance(l, WalletTokens(creator, prizeMint)) + 1
      && SameInstanceBalances(l, res.value, id)
  {
    if Balance(l, InstanceEscrow(id, prizeMint)) < 1 then Err(InsufficientTokenBalance)
    else Ok(Move(l, InstanceEscrow(id, prizeMint), WalletTokens(creator, prizeMint), 1))
  }

  /** Closing an auction's record to its creator: every lamport the auction account holds goes to the creator's wallet. */
  function CloseToCreator(id: nat, creator: Pubkey, l: Ledger): (r: Ledger)
    ensures Balance(r, InstanceLamports(id)) == 0
    ensures Balance(r, WalletLamports(creator)) == Balance(l, WalletLamports(creator)) + Balance(l, InstanceLamports(id))
    ensures forall h :: h != InstanceLamports(id) && h != WalletLamports(creator) ==> Balance(r, h) == Balance(l, h)
    ensures SameInstanceBalances(l, r, id)
  {
    Sweep(l, InstanceLamports(id), WalletLamports(creator))
  }

  // ---------------------------------------------------------------------
  // Invariants
  // ---------------------------------------------------------------------

  ghost predicate ConfigValid(c: AuctionConfig)
  {
    && c.minimumAuctionPeriod > 0 && c.maximumAuctionPeriod > c.minimumAuctionPeriod
    && c.maximumTimeExtension > c.minimumTimeExtension
    && c.auctionCount >= 1
  }

  /**
   * What every auction record kept in the store satisfies. Completing or
   * cancelling an auction closes its record, so a stored auction is
   * Initialized or Active. Before the first bid the standing amount is the
   * base bid and the bidder the default key; once there is a bid the
   * auction is Active and the standing bid is at least one increment above
   * the base.
   */
  ghost predicate AuctionValid(id: nat, a: Auction)
  {
    && a.auctionId == id
    && (a.status == Initialized || a.status == Active)
    && a.minIncrement > 0
    && a.startTime <= a.endTime
    && (!a.hasAnyBid ==> a.highestBidAmount == a.baseBid && a.highestBidder == DEFAULT_PUBKEY)
    && (a.hasAnyBid ==>
          a.status == Active && a.highestBidAmount >= a.baseBid + a.minIncrement)
  }

  /** The invariant of the whole auction store: a valid config, and every auction valid, below the counter, and covered by the ledger. */
  ghost predicate StateValid(c: AuctionConfig, auctions: map<nat, Auction>, l: Ledger)
  {
    && ConfigValid(c)
    && (forall id :: id in auctions ==> id < c.auctionCount && AuctionValid(id, auctions[id]) && Covered(l, auctions[id], id))
  }

  /**
   * Storing a valid, covered auction under an id below the counter keeps the
   * store valid, provided the ledger changed on that auction's accounts only
   * and the counter did not go down.
   */
  lemma PutKeepsValid(c: AuctionConfig, c': AuctionConfig, auctions: map<nat, Auction>, l: Ledger, l': Ledger,
                      id: nat, a: Auction)
    requires StateValid(c, auctions, l)
    requires ConfigValid(c') && c'.auctionCount >= c.auctionCount && id < c'.auctionCount
    requires SameInstanceBalances(l, l', id)
    requires AuctionValid(id, a) && Covered(l', a, id)
    ensures StateValid(c', auctions[id := a], l')
  {
    forall j | j in auctions && j != id
      ensures Covered(l', auctions[j], j)
    {
      OtherCovered(l, l', auctions[j], j, id);
    }
  }

  /** Removing an auction's record keeps the store valid, provided the ledger changed on that auction's accounts only. */
  lemma RemoveKeepsValid(c: AuctionConfig, auctions: map<nat, Auction>, l: Ledger, l': Ledger, id: nat)
    requires StateValid(c, auctions, l)
    requires SameInstanceBalances(l, l', id)
    ensures StateValid(c, auctions - {id}, l')
  {
    forall j | j in auctions && j != id
      ensures Covered(l', auctions[j], j)
    {
      OtherCovered(l, l', auctions[j], j, id);
    }
  }

  /** An auction stays covered when the ledger changes on another instance's accounts only. */
  lemma OtherCovered(l: Ledger, l': Ledger, a: Auction, j: nat, id: nat)
    requires Covered(l, a, j) && j != id
    requires SameInstanceBalances(l, l', id)
    ensures Covered(l', a, j)
  {
    assert PrizeEscrow(a, j).owner == InstancePda(j);
    assert BidVault(a, j).owner == InstancePda(j);
  }

  class AuctionStore {
    var config: AuctionConfig
    var auctions: map<nat, Auction>
    var ledger: Ledger

    ghost predicate Valid()
      reads this
    {
      StateValid(config, auctions, ledger)
    }

    /** A deployment whose config account has been initialised and that holds no auctions yet. */
    constructor (config: AuctionConfig, ledger: Ledger)
      ensures this.config == config && this.ledger == ledger && auctions == map[]
      ensures Valid() <==> ConfigValid(config)
    {
      this.config := config;
      this.auctions := map[];
      this.ledger := ledger;
    }
  }
}

/**
 * `create_auction`: a creator puts one NFT up for auction. The terms are
 * validated against the config, the record is written at the current
 * counter value, the counter grows by one, the NFT moves into the auction's
 * prize escrow and the creation fee, when there is one, into the config
 * account.
 */
module AuctionCreate {
  import opened Common
  import opened AuctionUtils
  import opened AuctionErrors
  import opened AuctionStates

  /** The start time the auction gets: now when it starts immediately, the requested time otherwise. */
  function EffectiveStart(startTime: I64, startImmediately: bool, now: I64): I64
  {
    if startImmediately then now else startTime
  }

  /**
   * The term checks of `create_auction`, in source order, with the error
   * each one raises; the value is the effective start time. The checks pass
   * exactly when creating is not paused, the increment is positive, the
   * duration from the effective start to the end lies within the config's
   * period bounds, the time extension within its extension bounds, the
   * start is not in the past and the prize mint is an NFT.
   */
  function ValidateCreateAuction(c: AuctionConfig, startTime: I64, endTime: I64, startImmediately: bool,
                                 minIncrement: U64, timeExtension: U32, now: I64, prizeMintAccount: Mint)
    : (r: Result<I64, AuctionError>)
    ensures r.Ok? <==>
      && !IsPaused(c.pauseFlags, CREATE_AUCTION_PAUSE)
      && minIncrement > 0
      && var start := EffectiveStart(startTime, startImmediately, now);
      && c.minimumAuctionPeriod <= endTime - start <= c.maximumAuctionPeriod
      && c.minimumTimeExtension <= timeExtension <= c.maximumTimeExtension
      && start >= now
      && ValidateNft(prizeMintAccount)
    ensures r.Ok? ==> r.value == EffectiveStart(startTime, startImmediately, now)
    ensures IsPaused(c.pauseFlags, CREATE_AUCTION_PAUSE) ==> r == Err(FunctionPaused)
    ensures !IsPaused(c.pauseFlags, CREATE_AUCTION_PAUSE) && minIncrement == 0 ==> r == Err(InvalidZeroAmount)
  {
    if IsPaused(c.pauseFlags, CREATE_AUCTION_PAUSE) then Err(FunctionPaused)
    else if minIncrement == 0 then Err(InvalidZeroAmount)
    else
      var start := EffectiveStart(startTime, startImmediately, now);
      var duration := CheckedSubI64(endTime, start);
      if duration.None? then Err(StartTimeExceedEndTime)
      else if !(c.minimumAuctionPeriod <= duration.value <= c.maximumAuctionPeriod) then Err(InvalidAuctionPeriod)
      else if !(c.minimumTimeExtension <= timeExtension <= c.maximumTimeExtension) then Err(InvalidTimeExtension)
      else if start < now then Err(StartTimeInPast)
      else if !ValidateNft(prizeMintAccount) then Err(InvalidNFT)
      else Ok(start)
  }

  /** The deposits of a creation can be made: the creator holds the NFT, and the fee in lamports when there is one. */
  predicate CreationFunded(l: Ledger, creator: Pubkey, prizeMint: Pubkey, fee: U64)
  {
    Balance(l, WalletTokens(creator, prizeMint)) >= 1 && (fee > 0 ==> Balance(l, WalletLamports(creator)) >= fee)
  }

  /**
   * The deposits of a creation: one prize token from the creator into the
   * auction's prize escrow, then the creation fee, only when it is
   * positive, from the creator's lamports into the config account. No other
   * instance's account changes.
   */
  function FundAuction(l: Ledger, creator: Pubkey, id: nat, prizeMint: Pubkey, fee: U64): (r: Ledger)
    requires CreationFunded(l, creator, prizeMint, fee)
    ensures Balance(r, InstanceEscrow(id, prizeMint)) == Balance(l, InstanceEscrow(id, prizeMint)) + 1
    ensures Balance(r, WalletTokens(creator, prizeMint)) == Balance(l, WalletTokens(creator, prizeMint)) - 1
    ensures Balance(r, ConfigLamports()) == Balance(l, ConfigLamports()) + fee
    ensures Balance(r, WalletLamports(creator)) == Balance(l, WalletLamports(creator)) - fee
    ensures SameInstanceBalances(l, r, id)
  {
    var l1 := Move(l, WalletTokens(creator, prizeMint), InstanceEscrow(id, prizeMint), 1);
    if fee > 0 then Move(l1, WalletLamports(creator), ConfigLamports(), fee) else l1
  }

  /**
   * `create_auction`. Succeeds exactly when the admin co-signs, no auction
   * exists yet at the counter value, the terms pass `ValidateCreateAuction`,
   * the counter can grow, and the creator can make the deposits. Then the
   * new record carries the counter value as its id, the base bid as its
   * standing amount, the default key as its bidder, no bid, no bid mint
   * exactly for SOL bids, and status Active exactly when it starts
   * immediately; the counter grows by one and the ledger is as
   * `FundAuction` leaves it. Every check that fails leaves the store as it
   * was.
   */
  method CreateAuction(
    s: AuctionStore,
    admin: Pubkey,
    creator: Pubkey,
    startTime: I64,
    endTime: I64,
    startImmediately: bool,
    isBidMintSol: bool,
    baseBid: U64,
    minIncrement: U64,
    timeExtension: U32,
    now: I64,
    prizeMint: Pubkey,
    prizeMintAccount: Mint,
    bidMint: Pubkey) returns (r: Outcome<AuctionError>)
    modifies s`config, s`auctions, s`ledger
    ensures
      var c := old(s.config);
      r.Pass? <==>
        && admin == c.auctionAdmin
        && c.auctionCount !in old(s.auctions)
        && ValidateCreateAuction(c, startTime, endTime, startImmediately, minIncrement, timeExtension, now,
                                 prizeMintAccount).Ok?
        && c.auctionCount < U32_MAX
        && CreationFunded(old(s.ledger), creator, prizeMint, c.creationFeeLamports)
    ensures
      var c := old(s.config);
      var id := c.auctionCount;
      r.Pass? ==>
        && s.config == c.(auctionCount := id + 1)
        && s.auctions == old(s.auctions)[id := Auction(
             auctionId := id,
             creator := creator,
             prizeMint := prizeMint,
             startTime := EffectiveStart(startTime, startImmediately, now),
             endTime := endTime,
             bidMint := if isBidMintSol then None else Some(bidMint),
             baseBid := baseBid,
             minIncrement := minIncrement,
             timeExtension := timeExtension,
             highestBidAmount := baseBid,
             highestBidder := DEFAULT_PUBKEY,
             hasAnyBid := false,
             status := if startImmediately then Active else Initialized)]
        && s.ledger == FundAuction(old(s.ledger), creator, id, prizeMint, c.creationFeeLamports)
    ensures r.Fail? ==> s.config == old(s.config) && s.auctions == old(s.auctions) && s.ledger == old(s.ledger)
    ensures old(s.Valid()) ==> s.Valid()
  {
    var c := s.config;
    if admin != c.auctionAdmin {
      return Fail(InvalidAuctionAdmin);
    }
    if c.auctionCount in s.auctions {
      return Fail(AccountAlreadyInUse);
    }
    var v := ValidateCreateAuction(c, startTime, endTime, startImmediately, minIncrement, timeExtension, now,
                                   prizeMintAccount);
    if v.Err? {
      return Fail(v.error);
    }
    var id := c.auctionCount;
    var auction := Auction(
      auctionId := id,
      creator := creator,
      prizeMint := prizeMint,
      startTime := v.value,
      endTime := endTime,
      bidMint := if isBidMintSol then None else Some(bidMint),
      baseBid := baseBid,
      minIncrement := minIncrement,
      timeExtension := timeExtension,
      highestBidAmount := baseBid,
      highestBidder := DEFAULT_PUBKEY,
      hasAnyBid := false,
      status := if startImmediately then Active else Initialized);
    if id + 1 > U32_MAX {
      return Fail(Overflow);
    }
    var fee := c.creationFeeLamports;
    if Balance(s.ledger, WalletTokens(creator, prizeMint)) < 1 {
      return Fail(InsufficientTokenBalance);
    }
    if fee > 0 && Balance(s.ledger, WalletLamports(creator)) < fee {
      return Fail(InsufficientSolBalance);
    }
    var ledger := FundAuction(s.ledger, creator, id, prizeMint, fee);
    ghost var wasValid := s.Valid();
    ghost var auctions0, ledger0 := s.auctions, s.ledger;
    s.config := c.(auctionCount := id + 1);
    s.auctions := s.auctions[id := auction];
    s.ledger := ledger;
    if wasValid {
      assert Covered(ledger, auction, id);
      PutKeepsValid(c, s.config, auctions0, ledger0, ledger, id, auction);
    }
    return Pass;
  }
}

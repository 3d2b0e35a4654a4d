/** `start_auction`: an Initialized auction whose start time has come becomes Active. */
module AuctionStart {
  import opened Common
  import opened AuctionUtils
  import opened AuctionErrors
  import opened AuctionStates

  /**
   * Succeeds exactly when the admin co-signs, the auction exists under its
   * own id, starting is not paused, the auction is Initialized (so a second
   * start fails) and now is at or after its start time; then only its
   * status changes, to Active.
   */
  method StartAuction(s: AuctionStore, admin: Pubkey, auctionId: U32, now: I64) returns (r: Outcome<AuctionError>)
    modifies s`auctions
    ensures r.Pass? <==>
      && admin == s.config.auctionAdmin
      && auctionId in old(s.auctions)
      && old(s.auctions)[auctionId].auctionId == auctionId
      && !IsPaused(s.config.pauseFlags, START_AUCTION_PAUSE)
      && old(s.auctions)[auctionId].status == Initialized
      && now >= old(s.auctions)[auctionId].startTime
    ensures r.Pass? ==> s.auctions == old(s.auctions)[auctionId := old(s.auctions)[auctionId].(status := Active)]
    ensures (admin == s.config.auctionAdmin && auctionId in old(s.auctions) &&
             old(s.auctions)[auctionId].auctionId == auctionId && !IsPaused(s.config.pauseFlags, START_AUCTION_PAUSE) &&
             old(s.auctions)[auctionId].status != Initialized) ==> r == Fail(AuctionAlreadyStarted)
    ensures r.Fail? ==> s.auctions == old(s.auctions)
    ensures old(s.Valid()) ==> s.Valid()
  {
    if admin != s.config.auctionAdmin {
      return Fail(InvalidAuctionAdmin);
    }
    if auctionId !in s.auctions {
      return Fail(AccountNotInitialized);
    }
    var auction := s.auctions[auctionId];
    if auction.auctionId != auctionId {
      return Fail(InvalidAuctionId);
    }
    if IsPaused(s.config.pauseFlags, START_AUCTION_PAUSE) {
      return Fail(FunctionPaused);
    }
    if auction.status != Initialized {
      return Fail(AuctionAlreadyStarted);
    }
    if now < auction.startTime {
      return Fail(AuctionNotStarted);
    }
    var auction' := auction.(status := Active);
    ghost var wasValid := s.Valid();
    ghost var auctions0 := s.auctions;
    s.auctions := s.auctions[auctionId := auction'];
    if wasValid {
      PutKeepsValid(s.config, s.config, auctions0, s.ledger, s.ledger, auctionId, auction');
    }
    return Pass;
  }
}

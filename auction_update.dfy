/**
 * `update_auction`: the creator rewrites the terms of an auction that has
 * neither started nor received a bid.
 */
module AuctionUpdate {
  import opened Common
  import opened AuctionUtils
  import opened AuctionErrors
  import opened AuctionStates
  import AuctionCreate

  /**
   * The checks of the new terms, in source order, with the error each one
   * raises; the value is the effective start time. They pass exactly when
   * the start is not in the past, the duration lies within the config's
   * period bounds, the time extension within its extension bounds and the
   * increment is positive.
   */
  function ValidateNewTerms(c: AuctionConfig, startTime: I64, endTime: I64, startImmediately: bool,
                            minIncrement: U64, timeExtension: U32, now: I64): (r: Result<I64, AuctionError>)
    ensures r.Ok? <==>
      && var start := AuctionCreate.EffectiveStart(startTime, startImmediately, now);
      && start >= now
      && c.minimumAuctionPeriod <= endTime - start <= c.maximumAuctionPeriod
      && c.minimumTimeExtension <= timeExtension <= c.maximumTimeExtension
      && minIncrement > 0
    ensures r.Ok? ==> r.value == AuctionCreate.EffectiveStart(startTime, startImmediately, now)
    ensures AuctionCreate.EffectiveStart(startTime, startImmediately, now) < now ==> r == Err(StartTimeInPast)
  {
    var start := AuctionCreate.EffectiveStart(startTime, startImmediately, now);
    if start < now then Err(StartTimeInPast)
    else
      var duration := CheckedSubI64(endTime, start);
      if duration.None? then Err(StartTimeExceedEndTime)
      else if !(c.minimumAuctionPeriod <= duration.value <= c.maximumAuctionPeriod) then Err(InvalidAuctionPeriod)
      else if !(c.minimumTimeExtension <= timeExtension <= c.maximumTimeExtension) then Err(InvalidTimeExtension)
      else if minIncrement == 0 then Err(InvalidZeroAmount)
      else Ok(start)
  }

  /**
   * `update_auction`. Succeeds exactly when the admin co-signs, the auction
   * exists under its own id, the signer is its creator, updating is not
   * paused, the auction is Initialized, its current start time is still in
   * the future, it has no bid, and the new terms pass `ValidateNewTerms`.
   * Then start, end, base bid, increment and extension are rewritten and the
   * standing amount is reset to the new base bid; status, creator, bidder
   * and the bid flag keep their values.
   */
  method UpdateAuction(s: AuctionStore, admin: Pubkey, creator: Pubkey, auctionId: U32, startTime: I64, endTime: I64,
                       startImmediately: bool, baseBid: U64, minIncrement: U64, timeExtension: U32, now: I64)
    returns (r: Outcome<AuctionError>)
    modifies s`auctions
    ensures r.Pass? <==>
      && admin == s.config.auctionAdmin
      && auctionId in old(s.auctions)
      && var a := old(s.auctions)[auctionId];
      && a.auctionId == auctionId
      && creator == a.creator
      && !IsPaused(s.config.pauseFlags, UPDATE_AUCTION_PAUSE)
      && a.status == Initialized
      && a.startTime > now
      && !a.hasAnyBid
      && ValidateNewTerms(s.config, startTime, endTime, startImmediately, minIncrement, timeExtension, now).Ok?
    ensures r.Pass? ==>
      var a := old(s.auctions)[auctionId];
      s.auctions == old(s.auctions)[auctionId := a.(
        startTime := AuctionCreate.EffectiveStart(startTime, startImmediately, now),
        endTime := endTime,
        baseBid := baseBid,
        minIncrement := minIncrement,
        timeExtension := timeExtension,
        highestBidAmount := baseBid)]
    ensures r.Pass? ==>
      var a, a' := old(s.auctions)[auctionId], s.auctions[auctionId];
      a'.status == a.status && a'.creator == a.creator && a'.highestBidder == a.highestBidder &&
      a'.hasAnyBid == a.hasAnyBid && a'.highestBidAmount == a'.baseBid
    ensures r.Fail? ==> s.auctions == old(s.auctions)
    ensures old(s.Valid()) ==> s.Valid()
  {
    if admin != s.config.auctionAdmin {
      return Fail(InvalidAuctionAdmin);
    }
    if auctionId !in s.auctions {
      return Fail(AccountNotInitialized);
    }
    var a := s.auctions[auctionId];
    if a.auctionId != auctionId {
      return Fail(InvalidAuctionId);
    }
    if creator != a.creator {
      return Fail(InvalidCreator);
    }
    if IsPaused(s.config.pauseFlags, UPDATE_AUCTION_PAUSE) {
      return Fail(FunctionPaused);
    }
    if a.status != Initialized {
      return Fail(AuctionNotActive);
    }
    if a.startTime <= now {
      return Fail(AuctionAlreadyStarted);
    }
    if a.hasAnyBid {
      return Fail(AuctionHasBids);
    }
    var v := ValidateNewTerms(s.config, startTime, endTime, startImmediately, minIncrement, timeExtension, now);
    if v.Err? {
      return Fail(v.error);
    }
    var a' := a.(
      startTime := v.value,
      endTime := endTime,
      baseBid := baseBid,
      minIncrement := minIncrement,
      timeExtension := timeExtension,
      highestBidAmount := baseBid);
    ghost var wasValid := s.Valid();
    ghost var auctions0 := s.auctions;
    s.auctions := s.auctions[auctionId := a'];
    if wasValid {
      PutKeepsValid(s.config, s.config, auctions0, s.ledger, s.ledger, auctionId, a');
    }
    return Pass;
  }
}

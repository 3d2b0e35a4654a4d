/**
 * `complete_auction`: closing an auction after its end. Without a bid the
 * NFT returns to the creator; with one, the NFT goes to the winner and the
 * standing bid is split into the commission, paid to the config account,
 * and the creator's amount. Either way the auction record is then closed to
 * the creator, so the status the instruction writes is reported in its
 * result rather than kept.
 */
module AuctionComplete {
  import opened Common
  import opened AuctionUtils
  import opened AuctionErrors
  import opened AuctionStates

  /** What a completion reports: the final status written, the final price, and how it was divided. */
  datatype Completion = Completion(status: AuctionState, finalPrice: U64, feeAmount: U64, creatorAmount: U64)

  /** The insufficient-balance error of a transfer of the bid asset. */
  function BidShortfall(bidMint: Option<Pubkey>): AuctionError
  {
    if bidMint.None? then InsufficientSolBalance else InsufficientTokenBalance
  }

  /**
   * The value movements of a completion with a bid, in source order: the
   * supplied prize mint must be the auction's; one prize token goes from
   * the prize escrow to the supplied winner; for token bids the supplied
   * bid mint must be the auction's; then the fee goes from the bid vault to
   * the config account's fee account and the creator's amount to the
   * creator. Since fee and creator's amount add up to the standing bid,
   * this goes through exactly when the mints match and the auction's
   * accounts cover what it owes. When the bid and prize mints differ, the
   * winner gains exactly the NFT, the vault loses exactly the standing bid,
   * and the fee account and the creator gain exactly their parts.
   */
  function SettleTransfers(a: Auction, id: nat, creator: Pubkey, winner: Pubkey, prizeMint: Pubkey, bidMint: Pubkey,
                           split: FeeSplit, l: Ledger): (res: Result<Ledger, AuctionError>)
    requires a.hasAnyBid && split.fee + split.rest == a.highestBidAmount
    ensures res.Ok? <==>
      && prizeMint == a.prizeMint
      && (a.bidMint.Some? ==> bidMint == a.bidMint.value)
      && Covered(l, a, id)
    ensures res.Ok? ==> Balance(res.value, FeeVault(a.bidMint)) == Balance(l, FeeVault(a.bidMint)) + split.fee
    ensures res.Ok? && a.bidMint != Some(a.prizeMint) ==>
      && Balance(res.value, WalletTokens(winner, a.prizeMint)) == Balance(l, WalletTokens(winner, a.prizeMint)) + 1
      && Balance(res.value, PrizeEscrow(a, id)) == Balance(l, PrizeEscrow(a, id)) - 1
      && Balance(res.value, BidVault(a, id)) == Balance(l, BidVault(a, id)) - a.highestBidAmount
      && Balance(res.value, WalletAccount(creator, a.bidMint)) == Balance(l, WalletAccount(creator, a.bidMint)) + split.rest
    ensures res.Ok? ==> SameInstanceBalances(l, res.value, id)
  {
    if prizeMint != a.prizeMint then Err(InvalidPrizeMint)
    else
      var escrow := PrizeEscrow(a, id);
      if Balance(l, escrow) < 1 then Err(InsufficientTokenBalance)
      else
        var l1 := Move(l, escrow, WalletTokens(winner, a.prizeMint), 1);
        if a.bidMint.Some? && bidMint != a.bidMint.value then Err(InvalidBidMint)
        else
          var vault := BidVault(a, id);
          if Balance(l1, vault) < split.fee then Err(BidShortfall(a.bidMint))
          else
            var l2 := Move(l1, vault, FeeVault(a.bidMint), split.fee);
            if Balance(l2, vault) < split.rest then Err(BidShortfall(a.bidMint))
            else Ok(Move(l2, vault, WalletAccount(creator, a.bidMint), split.rest))
  }

  /** The checks and movements of a completion once the auction is known to be over: the no-bid return or the settlement. */
  function Completed(a: Auction, id: nat, bps: U16, creator: Pubkey, winner: Pubkey, prizeMint: Pubkey, bidMint: Pubkey,
                     l: Ledger): (res: Result<(Completion, Ledger), AuctionError>)
    ensures !a.hasAnyBid ==>
      (res.Ok? <==> ReturnPrize(id, creator, prizeMint, l).Ok?) &&
      (res.Ok? ==> res.value == (Completion(CompletedFailed, 0, 0, 0),
                                 CloseToCreator(id, creator, ReturnPrize(id, creator, prizeMint, l).value)))
    ensures a.hasAnyBid ==>
      var split := SplitFee(a.highestBidAmount, bps, FEE_MANTISSA);
      (res.Ok? <==> split.Some? && SettleTransfers(a, id, creator, winner, prizeMint, bidMint, split.value, l).Ok?) &&
      (res.Ok? ==> res.value == (Completion(CompletedSuccessfully, a.highestBidAmount, split.value.fee, split.value.rest),
                                 CloseToCreator(id, creator, SettleTransfers(a, id, creator, winner, prizeMint, bidMint, split.value, l).value)))
    ensures a.hasAnyBid && SplitFee(a.highestBidAmount, bps, FEE_MANTISSA).None? ==> res == Err(Overflow)
    ensures res.Ok? ==> SameInstanceBalances(l, res.value.1, id)
  {
    if !a.hasAnyBid then
      var returned := ReturnPrize(id, creator, prizeMint, l);
      if returned.Err? then Err(returned.error)
      else Ok((Completion(CompletedFailed, 0, 0, 0), CloseToCreator(id, creator, returned.value)))
    else
      var split := SplitFee(a.highestBidAmount, bps, FEE_MANTISSA);
      if split.None? then Err(Overflow)
      else
        var settled := SettleTransfers(a, id, creator, winner, prizeMint, bidMint, split.value, l);
        if settled.Err? then Err(settled.error)
        else Ok((Completion(CompletedSuccessfully, a.highestBidAmount, split.value.fee, split.value.rest),
                 CloseToCreator(id, creator, settled.value)))
  }

  /**
   * `complete_auction`. Succeeds exactly when the admin co-signs, the
   * auction exists under its own id, the named creator is its creator,
   * completing is not paused, the auction is Active, now is strictly after
   * its end, and `Completed` goes through. Then the record is gone, and:
   * without a bid, the reported status is CompletedFailed, nothing is paid
   * and no fee is taken; with a bid, the status is CompletedSuccessfully and
   * the fee and the creator's amount add up to the final price, the fee
   * being the floor of the commission rate applied to it. On a valid store
   * a completion of an over Active auction with its own prize mint (and bid
   * mint) and a commission rate of at most 100% whose product fits in u64
   * always goes through.
   */
  method CompleteAuction(s: AuctionStore, admin: Pubkey, creator: Pubkey, winner: Pubkey, auctionId: U32, now: I64,
                         prizeMint: Pubkey, bidMint: Pubkey) returns (r: Result<Completion, AuctionError>)
    modifies s`auctions, s`ledger
    ensures r.Ok? <==>
      && admin == s.config.auctionAdmin
      && auctionId in old(s.auctions)
      && var a := old(s.auctions)[auctionId];
      && a.auctionId == auctionId
      && creator == a.creator
      && !IsPaused(s.config.pauseFlags, COMPLETE_AUCTION_PAUSE)
      && a.status == Active
      && now > a.endTime
      && Completed(a, auctionId, s.config.commissionBps, creator, winner, prizeMint, bidMint, old(s.ledger)).Ok?
    ensures r.Ok? ==>
      var done := Completed(old(s.auctions)[auctionId], auctionId, s.config.commissionBps, creator, winner, prizeMint,
                            bidMint, old(s.ledger)).value;
      && s.auctions == old(s.auctions) - {auctionId as nat}
      && r.value == done.0
      && s.ledger == done.1
    ensures r.Ok? && !old(s.auctions)[auctionId].hasAnyBid ==>
      r.value.status == CompletedFailed && r.value.feeAmount == 0 && r.value.creatorAmount == 0
    ensures r.Ok? && old(s.auctions)[auctionId].hasAnyBid ==>
      && r.value.status == CompletedSuccessfully
      && r.value.finalPrice == old(s.auctions)[auctionId].highestBidAmount
      && r.value.feeAmount + r.value.creatorAmount == r.value.finalPrice
      && r.value.feeAmount * FEE_MANTISSA <= r.value.finalPrice * s.config.commissionBps
      && r.value.finalPrice * s.config.commissionBps < (r.value.feeAmount + 1) * FEE_MANTISSA
    ensures
      (&& old(s.Valid())
       && admin == s.config.auctionAdmin
       && auctionId in old(s.auctions)
       && var a := old(s.auctions)[auctionId];
       && creator == a.creator
       && !IsPaused(s.config.pauseFlags, COMPLETE_AUCTION_PAUSE)
       && a.status == Active
       && now > a.endTime
       && prizeMint == a.prizeMint
       && (a.hasAnyBid ==>
             && (a.bidMint.Some? ==> bidMint == a.bidMint.value)
             && a.highestBidAmount * s.config.commissionBps <= U64_MAX
             && s.config.commissionBps <= FEE_MANTISSA)) ==> r.Ok?
    ensures r.Err? ==> s.auctions == old(s.auctions) && s.ledger == old(s.ledger)
    ensures old(s.Valid()) ==> s.Valid()
  {
    if admin != s.config.auctionAdmin {
      return Err(InvalidAuctionAdmin);
    }
    if auctionId !in s.auctions {
      return Err(AccountNotInitialized);
    }
    var a := s.auctions[auctionId];
    if a.auctionId != auctionId {
      return Err(InvalidAuctionId);
    }
    if creator != a.creator {
      return Err(InvalidCreator);
    }
    if IsPaused(s.config.pauseFlags, COMPLETE_AUCTION_PAUSE) {
      return Err(FunctionPaused);
    }
    if a.status != Active {
      return Err(AuctionAlreadyCompleted);
    }
    if now <= a.endTime {
      return Err(AuctionNotStarted);
    }
    ghost var wasValid := s.Valid();
    var done := Completed(a, auctionId, s.config.commissionBps, creator, winner, prizeMint, bidMint, s.ledger);
    if done.Err? {
      if wasValid && prizeMint == a.prizeMint {
        assert Covered(s.ledger, a, auctionId);
        if !a.hasAnyBid {
          assert Owed(a, auctionId, PrizeEscrow(a, auctionId)) >= 1;
        }
      }
      return Err(done.error);
    }
    ghost var auctions0, ledger0 := s.auctions, s.ledger;
    s.auctions := s.auctions - {auctionId as nat};
    s.ledger := done.value.1;
    if wasValid {
      RemoveKeepsValid(s.config, auctions0, ledger0, s.ledger, auctionId);
    }
    return Ok(done.value.0);
  }
}

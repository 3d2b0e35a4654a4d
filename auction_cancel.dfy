/**
 * `cancel_auction`: the creator withdraws an auction nobody has bid on.
 * The NFT goes back, the prize escrow is closed, and the auction record is
 * closed to the creator; the Cancelled status it writes is therefore not
 * kept.
 */
module AuctionCancel {
  import opened Common
  import opened AuctionUtils
  import opened AuctionErrors
  import opened AuctionStates

  /**
   * The value movements of a cancellation, in source order: one token of
   * the supplied prize mint back to the creator, then closing the escrow,
   * which the token program refuses unless it is left empty, then closing
   * the auction account to the creator. The escrow and the auction account
   * end empty, and the creator gains the NFT.
   */
  function CancelTransfers(id: nat, creator: Pubkey, prizeMint: Pubkey, l: Ledger): (res: Result<Ledger, AuctionError>)
    ensures res.Ok? <==> Balance(l, InstanceEscrow(id, prizeMint)) == 1
    ensures res.Ok? ==>
      && Balance(res.value, InstanceEscrow(id, prizeMint)) == 0
      && Balance(res.value, InstanceLamports(id)) == 0
      && Balance(res.value, WalletTokens(creator, prizeMint)) == Balance(l, WalletTokens(creator, prizeMint)) + 1
      && Balance(res.value, WalletLamports(creator)) == Balance(l, WalletLamports(creator)) + Balance(l, InstanceLamports(id))
      && SameInstanceBalances(l, res.value, id)
  {
    var returned := ReturnPrize(id, creator, prizeMint, l);
    if returned.Err? then Err(returned.error)
    else if Balance(returned.value, InstanceEscrow(id, prizeMint)) != 0 then Err(CloseAccountFailed)
    else Ok(CloseToCreator(id, creator, returned.value))
  }

  /**
   * `cancel_auction`. Succeeds exactly when the admin co-signs, the auction
   * exists under its own id, the signer is its creator, cancelling is not
   * paused, the auction is Initialized or Active, nobody has bid, and
   * `CancelTransfers` goes through. Then the record is gone and the ledger
   * is as `CancelTransfers` leaves it.
   */
  method CancelAuction(s: AuctionStore, admin: Pubkey, creator: Pubkey, auctionId: U32, prizeMint: Pubkey)
    returns (r: Outcome<AuctionError>)
    modifies s`auctions, s`ledger
    ensures r.Pass? <==>
      && admin == s.config.auctionAdmin
      && auctionId in old(s.auctions)
      && var a := old(s.auctions)[auctionId];
      && a.auctionId == auctionId
      && creator == a.creator
      && !IsPaused(s.config.pauseFlags, CANCEL_AUCTION_PAUSE)
      && (a.status == Initialized || a.status == Active)
      && !a.hasAnyBid
      && CancelTransfers(auctionId, creator, prizeMint, old(s.ledger)).Ok?
    ensures r.Pass? ==>
      && s.auctions == old(s.auctions) - {auctionId as nat}
      && s.ledger == CancelTransfers(auctionId, creator, prizeMint, old(s.ledger)).value
    ensures (admin == s.config.auctionAdmin && auctionId in old(s.auctions) &&
             old(s.auctions)[auctionId].auctionId == auctionId && creator == old(s.auctions)[auctionId].creator &&
             !IsPaused(s.config.pauseFlags, CANCEL_AUCTION_PAUSE) && old(s.auctions)[auctionId].status == Active &&
             old(s.auctions)[auctionId].hasAnyBid) ==> r == Fail(AuctionHasBids)
    ensures r.Fail? ==> s.auctions == old(s.auctions) && s.ledger == old(s.ledger)
    ensures old(s.Valid()) ==> s.Valid()
  {
    if admin != s.config.auctionAdmin {
      return Fail(InvalidAuctionAdmin);
    }
    if auctionId !in s.auctions {
      return Fail(AccountNotInitialized);
    }
    var a := s.auctions[auctionId];
    if a.auctionId != auctionId {
      return Fail(InvalidAuctionId);
    }
    if creator != a.creator {
      return Fail(InvalidCreator);
    }
    if IsPaused(s.config.pauseFlags, CANCEL_AUCTION_PAUSE) {
      return Fail(FunctionPaused);
    }
    if !(a.status == Initialized || a.status == Active) {
      return Fail(AuctionAlreadyCompleted);
    }
    if a.hasAnyBid {
      return Fail(AuctionHasBids);
    }
    var ledger := CancelTransfers(auctionId, creator, prizeMint, s.ledger);
    if ledger.Err? {
      return Fail(ledger.error);
    }
    ghost var wasValid := s.Valid();
    ghost var auctions0, ledger0 := s.auctions, s.ledger;
    s.auctions := s.auctions - {auctionId as nat};
    s.ledger := ledger.value;
    if wasValid {
      RemoveKeepsValid(s.config, auctions0, ledger0, s.ledger, auctionId);
    }
    return Pass;
  }
}

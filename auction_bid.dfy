/**
 * `place_bid`: ascending bidding. A bid must beat the standing amount by at
 * least the increment; the bid is collected into the auction's bid vault,
 * the previous highest bidder is refunded, and the end time is pushed back
 * by the auction's time extension.
 */
module AuctionBid {
  import opened Common
  import opened AuctionUtils
  import opened AuctionErrors
  import opened AuctionStates

  /**
   * The value movements of a bid, in source order: the bid from the
   * bidder's account for the bid asset into the bid vault (for token bids
   * after checking the supplied bid mint), then, when there is a standing
   * bid, the refund of exactly the standing amount from the vault to the
   * previous highest bidder, whose supplied account must be theirs. The
   * vault nets the bid minus the refund; nothing else but the two wallets
   * changes. The vault's own balance check on the refund cannot fail, as the
   * vault has just received a bid at least as large.
   */
  function BidTransfers(a: Auction, id: nat, bidder: Pubkey, bidAmount: U64, bidMint: Pubkey, prevBidder: Pubkey,
                        l: Ledger): (res: Result<Ledger, AuctionError>)
    requires bidAmount >= a.highestBidAmount
    ensures res.Ok? <==>
      && (a.bidMint.Some? ==> bidMint == a.bidMint.value)
      && Balance(l, WalletAccount(bidder, a.bidMint)) >= bidAmount
      && (a.hasAnyBid ==> prevBidder == a.highestBidder)
    ensures res.Ok? ==>
      Balance(res.value, BidVault(a, id)) ==
        Balance(l, BidVault(a, id)) + bidAmount - (if a.hasAnyBid then a.highestBidAmount else 0)
    ensures res.Ok? && bidder != a.highestBidder ==>
      Balance(res.value, WalletAccount(bidder, a.bidMint)) == Balance(l, WalletAccount(bidder, a.bidMint)) - bidAmount
    ensures res.Ok? && a.hasAnyBid && bidder != a.highestBidder ==>
      Balance(res.value, WalletAccount(a.highestBidder, a.bidMint)) ==
        Balance(l, WalletAccount(a.highestBidder, a.bidMint)) + a.highestBidAmount
    ensures res.Ok? ==>
      forall h :: (h != BidVault(a, id) && h != WalletAccount(bidder, a.bidMint) &&
                   h != WalletAccount(a.highestBidder, a.bidMint)) ==> Balance(res.value, h) == Balance(l, h)
    ensures res.Ok? ==> SameInstanceBalances(l, res.value, id)
  {
    var vault := BidVault(a, id);
    var from := WalletAccount(bidder, a.bidMint);
    if a.bidMint.Some? && bidMint != a.bidMint.value then Err(InvalidBidMint)
    else if Balance(l, from) < bidAmount then
      Err(if a.bidMint.None? then InsufficientSolBalance else InsufficientTokenBalance)
    else
      var l1 := Move(l, from, vault, bidAmount);
      if !a.hasAnyBid then Ok(l1)
      else if prevBidder != a.highestBidder then Err(InvalidPreviousBidOwner)
      else Ok(Move(l1, vault, WalletAccount(a.highestBidder, a.bidMint), a.highestBidAmount))
  }

  /**
   * The value movements of `place_bid` as written. They are those of
   * `BidTransfers` except the SOL refund, which the source makes with a System
   * Program transfer paid by the auction account itself
   * (`SystemTransferAsWritten`). The System Program refuses that payer. Token
   * bids and a first SOL bid move value as `BidTransfers` does; any SOL bid
   * that must refund a standing bid fails.
   */
  function BidTransfersAsWritten(a: Auction, id: nat, bidder: Pubkey, bidAmount: U64, bidMint: Pubkey, prevBidder: Pubkey,
                                 l: Ledger): (res: Result<Ledger, AuctionError>)
    requires bidAmount >= a.highestBidAmount
    ensures a.bidMint.Some? || !a.hasAnyBid ==> res == BidTransfers(a, id, bidder, bidAmount, bidMint, prevBidder, l)
    ensures a.bidMint.None? && a.hasAnyBid ==> res.Err?
  {
    var vault := BidVault(a, id);
    var from := WalletAccount(bidder, a.bidMint);
    if a.bidMint.Some? && bidMint != a.bidMint.value then Err(InvalidBidMint)
    else if Balance(l, from) < bidAmount then
      Err(if a.bidMint.None? then InsufficientSolBalance else InsufficientTokenBalance)
    else
      var l1 := Move(l, from, vault, bidAmount);
      if !a.hasAnyBid then Ok(l1)
      else if prevBidder != a.highestBidder then Err(InvalidPreviousBidOwner)
      else if a.bidMint.None? then
        match SystemTransferAsWritten(l1, vault, WalletLamports(a.highestBidder), a.highestBidAmount)
        case Ok(l2) => Ok(l2)
        case Err(e) => Err(if e == InsufficientSol then InsufficientSolBalance else SolTransferFailed)
      else Ok(Move(l1, vault, WalletAccount(a.highestBidder, a.bidMint), a.highestBidAmount))
  }

  /**
   * Every second SOL bid that the corrected model accepts fails in the source
   * with SolTransferFailed. The refund's balance check passes, because the
   * vault has just received a bid at least as large as the standing one, but
   * the auction account cannot pay through the System Program.
   */
  lemma SecondSolBidFailsAsWritten(a: Auction, id: nat, bidder: Pubkey, bidAmount: U64, bidMint: Pubkey,
                                   prevBidder: Pubkey, l: Ledger)
    requires bidAmount >= a.highestBidAmount
    requires a.bidMint.None? && a.hasAnyBid
    requires BidTransfers(a, id, bidder, bidAmount, bidMint, prevBidder, l).Ok?
    ensures BidTransfersAsWritten(a, id, bidder, bidAmount, bidMint, prevBidder, l) == Err(SolTransferFailed)
  {
    var l1 := Move(l, WalletAccount(bidder, a.bidMint), BidVault(a, id), bidAmount);
    assert Balance(l1, BidVault(a, id)) >= a.highestBidAmount;
  }

  /** The record after an accepted bid: the bid stands, the bidder leads, and the end moves back by the extension. */
  function Outbid(a: Auction, bidder: Pubkey, bidAmount: U64): (b: Auction)
    requires a.endTime + a.timeExtension <= I64_MAX
    ensures b.highestBidAmount == bidAmount && b.highestBidder == bidder && b.hasAnyBid
    ensures b.endTime == a.endTime + a.timeExtension && b.endTime >= a.endTime
    ensures b.(highestBidAmount := a.highestBidAmount, highestBidder := a.highestBidder,
               hasAnyBid := a.hasAnyBid, endTime := a.endTime) == a
  {
    a.(highestBidAmount := bidAmount, highestBidder := bidder, hasAnyBid := true, endTime := a.endTime + a.timeExtension)
  }

  /**
   * `place_bid`. Succeeds exactly when the admin co-signs, the auction
   * exists under its own id, bidding is not paused, the auction is Active,
   * now is before its end, the bidder is not the current highest bidder,
   * the bid is at least the standing amount plus the increment (which must
   * fit in u64), the transfers of `BidTransfers` go through and the
   * extended end fits in i64. Then the bid stands, the bidder leads, the bid
   * flag is set and the end moves back by the extension; with a positive
   * increment, which every stored auction has, the standing amount strictly
   * rises.
   */
  method PlaceBid(s: AuctionStore, admin: Pubkey, bidder: Pubkey, auctionId: U32, bidAmount: U64, now: I64,
                  bidMint: Pubkey, prevBidder: Pubkey) returns (r: Outcome<AuctionError>)
    modifies s`auctions, s`ledger
    ensures r.Pass? <==>
      && admin == s.config.auctionAdmin
      && auctionId in old(s.auctions)
      && var a := old(s.auctions)[auctionId];
      && a.auctionId == auctionId
      && !IsPaused(s.config.pauseFlags, PLACE_BID_PAUSE)
      && a.status == Active
      && a.endTime > now
      && bidder != a.highestBidder
      && a.highestBidAmount + a.minIncrement <= U64_MAX
      && bidAmount >= a.highestBidAmount + a.minIncrement
      && BidTransfers(a, auctionId, bidder, bidAmount, bidMint, prevBidder, old(s.ledger)).Ok?
      && a.endTime + a.timeExtension <= I64_MAX
    ensures r.Pass? ==>
      var a := old(s.auctions)[auctionId];
      && s.auctions == old(s.auctions)[auctionId := Outbid(a, bidder, bidAmount)]
      && s.ledger == BidTransfers(a, auctionId, bidder, bidAmount, bidMint, prevBidder, old(s.ledger)).value
    ensures r.Pass? ==>
      var a, a' := old(s.auctions)[auctionId], s.auctions[auctionId];
      && a'.highestBidAmount == bidAmount && a'.highestBidder == bidder && a'.hasAnyBid
      && a'.endTime == a.endTime + a.timeExtension
      && (a.minIncrement > 0 ==> a'.highestBidAmount > a.highestBidAmount)
    ensures r.Fail? ==> s.auctions == old(s.auctions) && s.ledger == old(s.ledger)
    ensures old(s.Valid()) ==> s.Valid()
  {
    if admin != s.config.auctionAdmin {
      return Fail(InvalidAuctionAdmin);
    }
    if auctionId !in s.auctions {
      return Fail(AccountNotInitialized);
    }
    var a := s.auctions[auctionId];
    if a.auctionId != auctionId {
      return Fail(InvalidAuctionId);
    }
    if IsPaused(s.config.pauseFlags, PLACE_BID_PAUSE) {
      return Fail(FunctionPaused);
    }
    if a.status != Active {
      return Fail(AuctionNotActive);
    }
    if a.endTime <= now {
      return Fail(AuctionNotStarted);
    }
    if bidder == a.highestBidder {
      return Fail(CannotBidOwnHighBid);
    }
    if a.highestBidAmount + a.minIncrement > U64_MAX {
      return Fail(Overflow);
    }
    var minRequired := a.highestBidAmount + a.minIncrement;
    if bidAmount < minRequired {
      return Fail(BidTooLow);
    }
    var ledger := BidTransfers(a, auctionId, bidder, bidAmount, bidMint, prevBidder, s.ledger);
    if ledger.Err? {
      return Fail(ledger.error);
    }
    if a.endTime + a.timeExtension > I64_MAX {
      return Fail(Overflow);
    }
    var a' := Outbid(a, bidder, bidAmount);
    ghost var wasValid := s.Valid();
    ghost var auctions0, ledger0 := s.auctions, s.ledger;
    s.auctions := s.auctions[auctionId := a'];
    s.ledger := ledger.value;
    if wasValid {
      BidKeepsCovered(ledger0, ledger.value, a, auctionId, bidder, bidAmount, bidMint, prevBidder);
      PutKeepsValid(s.config, s.config, auctions0, ledger0, ledger.value, auctionId, a');
    }
    return Pass;
  }

  /** An accepted bid keeps the auction covered: the vault keeps the prize it may share and gains the new bid net of the refund. */
  lemma BidKeepsCovered(l: Ledger, l': Ledger, a: Auction, id: nat, bidder: Pubkey, bidAmount: U64, bidMint: Pubkey,
                        prevBidder: Pubkey)
    requires Covered(l, a, id)
    requires bidAmount >= a.highestBidAmount && a.endTime + a.timeExtension <= I64_MAX
    requires BidTransfers(a, id, bidder, bidAmount, bidMint, prevBidder, l) == Ok(l')
    ensures Covered(l', Outbid(a, bidder, bidAmount), id)
  {
    var a' := Outbid(a, bidder, bidAmount);
    var escrow, vault := PrizeEscrow(a, id), BidVault(a, id);
    assert PrizeEscrow(a', id) == escrow && BidVault(a', id) == vault;
    assert escrow != WalletAccount(bidder, a.bidMint) && escrow != WalletAccount(a.highestBidder, a.bidMint);
    if escrow != vault {
      assert Balance(l', escrow) == Balance(l, escrow);
    }
  }
}

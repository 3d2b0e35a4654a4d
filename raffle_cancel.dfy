/**
 * `cancel_raffle`: the creator withdraws a raffle that has sold nothing.
 * The prize goes back, the prize escrow is emptied and closed, and the
 * raffle account is closed to the creator, which hands over every lamport
 * it still holds, the creation fee included. The record then no longer
 * exists.
 */
module RaffleCancel {
  import opened Common
  import opened AuctionUtils
  import opened RaffleErrors
  import opened RaffleStates

  /** The token units a cancellation returns: the NFT, or the larger of the prize and the escrow's balance, so dust goes too. */
  function ReturnAmount(r: Raffle, escrowBalance: nat): (amount: nat)
    ensures r.prizeType == Nft ==> amount == 1
    ensures r.prizeType != Nft ==> amount >= r.prizeAmount && amount >= escrowBalance
    ensures r.prizeType != Nft ==> amount == r.prizeAmount || amount == escrowBalance
  {
    if r.prizeType == Nft then 1
    else if r.prizeAmount >= escrowBalance then r.prizeAmount else escrowBalance
  }

  /**
   * The value movements of a cancellation, in source order: for a SOL prize
   * the prize from the raffle account, which must hold strictly more; for a
   * token prize the return amount from the prize escrow, which must then be
   * empty to be closed; last, closing the raffle account sends its
   * remaining lamports to the creator. The raffle account and a token
   * prize's escrow end empty, and the creator's wallet receives every
   * lamport the raffle account held.
   */
  function CancelTransfers(r: Raffle, id: nat, creator: Pubkey, l: Ledger): (res: Result<Ledger, RaffleError>)
    ensures r.prizeType == Sol ==> (res.Ok? <==> Balance(l, InstanceLamports(id)) > r.prizeAmount)
    ensures r.prizeType != Sol ==>
      (res.Ok? <==>
        && r.prizeMint.Some?
        && var escrow := InstanceEscrow(id, r.prizeMint.value);
        && ReturnAmount(r, Balance(l, escrow)) > 0
        && Balance(l, escrow) == ReturnAmount(r, Balance(l, escrow)))
    ensures res.Ok? ==>
      && Balance(res.value, InstanceLamports(id)) == 0
      && Balance(res.value, WalletLamports(creator)) == Balance(l, WalletLamports(creator)) + Balance(l, InstanceLamports(id))
    ensures res.Ok? && r.prizeType != Sol ==>
      var escrow := InstanceEscrow(id, r.prizeMint.value);
      && Balance(res.value, escrow) == 0
      && Balance(res.value, WalletTokens(creator, r.prizeMint.value)) ==
           Balance(l, WalletTokens(creator, r.prizeMint.value)) + Balance(l, escrow)
  {
    var pda := InstanceLamports(id);
    var wallet := WalletLamports(creator);
    match r.prizeType
    case Sol =>
      if Balance(l, pda) <= r.prizeAmount then Err(InsufficientSolBalance)
      else
        var l1 := Move(l, pda, wallet, r.prizeAmount);
        Ok(Sweep(l1, pda, wallet))
    case _ =>
      if r.prizeMint.None? then Err(MissingPrizeMint)
      else
        var m := r.prizeMint.value;
        var escrow := InstanceEscrow(id, m);
        var amount := ReturnAmount(r, Balance(l, escrow));
        if amount == 0 then Err(InvalidZeroAmount)
        else if Balance(l, escrow) < amount then Err(InsufficientTokenBalance)
        else
          var l1 := Move(l, escrow, WalletTokens(creator, m), amount);
          if Balance(l1, escrow) != 0 then Err(CloseAccountFailed)
          else Ok(Sweep(l1, pda, wallet))
  }

  /**
   * `cancel_raffle`. Succeeds exactly when the admin co-signs, the raffle
   * exists under its own id, the signer is its creator, cancelling is not
   * paused, the raffle is Initialized or Active with no ticket sold, and
   * the transfers go through. Then the record is gone and the ledger is as
   * `CancelTransfers` leaves it.
   */
  method CancelRaffle(s: RaffleStore, admin: Pubkey, creator: Pubkey, raffleId: U32) returns (r: Outcome<RaffleError>)
    modifies s`raffles, s`ledger
    ensures r.Pass? <==>
      && admin == s.config.raffleAdmin
      && raffleId in old(s.raffles)
      && var raffle := old(s.raffles)[raffleId];
      && raffle.raffleId == raffleId
      && creator == raffle.creator
      && !IsPaused(s.config.pauseFlags, s.params.cancelRafflePause)
      && (raffle.status == Initialized || raffle.status == Active)
      && raffle.ticketsSold == 0
      && CancelTransfers(raffle, raffleId, creator, old(s.ledger)).Ok?
    ensures r.Pass? ==>
      && s.raffles == old(s.raffles) - {raffleId as nat}
      && s.ledger == CancelTransfers(old(s.raffles)[raffleId], raffleId, creator, old(s.ledger)).value
    ensures r.Fail? ==> s.raffles == old(s.raffles) && s.ledger == old(s.ledger)
    ensures old(s.Valid()) ==> s.Valid()
  {
    if admin != s.config.raffleAdmin {
      return Fail(InvalidRaffleAdmin);
    }
    if raffleId !in s.raffles {
      return Fail(AccountNotInitialized);
    }
    var raffle := s.raffles[raffleId];
    if raffle.raffleId != raffleId {
      return Fail(InvalidRaffleId);
    }
    if creator != raffle.creator {
      return Fail(InvalidCreator);
    }
    if IsPaused(s.config.pauseFlags, s.params.cancelRafflePause) {
      return Fail(FunctionPaused);
    }
    if !(raffle.status == Initialized || raffle.status == Active) {
      return Fail(InvalidRaffleStateForCancel);
    }
    if raffle.ticketsSold != 0 {
      return Fail(MoreThanOneTicketSolded);
    }
    var ledger := CancelTransfers(raffle, raffleId, creator, s.ledger);
    if ledger.Err? {
      return Fail(ledger.error);
    }
    ghost var wasValid := s.Valid();
    ghost var raffles0 := s.raffles;
    s.raffles := s.raffles - {raffleId as nat};
    s.ledger := ledger.value;
    if wasValid {
      RemoveKeepsValid(s.config, raffles0, s.buyers, raffleId);
    }
    return Pass;
  }

  /** Removing a raffle record keeps the store valid: buyer records only need their raffle id below the counter. */
  lemma RemoveKeepsValid(c: RaffleConfig, raffles: map<nat, Raffle>, buyers: map<(nat, Pubkey), Buyer>, id: nat)
    requires StateValid(c, raffles, buyers)
    ensures StateValid(c, raffles - {id}, buyers)
  {
    var raffles' := raffles - {id};
    forall k | k in buyers
      ensures BuyerValid(k, buyers[k], raffles', c.raffleCount)
    {
      assert BuyerValid(k, buyers[k], raffles, c.raffleCount);
    }
  }
}

/**
 * `claim_amount_back`: after a raffle ends, its creator takes back the
 * prize set aside for unfilled winner slots (or the whole prize of a
 * failed raffle) and the ticket revenue left after the fee; a token-ticket
 * escrow is emptied and closed. Both claimable amounts are then zero.
 */
module RaffleClaimBack {
  import opened Common
  import opened AuctionUtils
  import opened RaffleErrors
  import opened RaffleStates

  function Max(a: nat, b: nat): nat { if a >= b then a else b }

  /**
   * The ticket amount as the source computes it: the larger of the stored
   * claimable amount and the balance of the `ticket_escrow` account passed
   * in. For SOL tickets nothing ties that account to the raffle, so its
   * balance is whatever the caller chooses.
   */
  function TicketAmountAsWritten(r: Raffle, suppliedEscrowAmount: nat): (amount: nat)
    ensures amount >= r.claimableTicketAmount && amount >= suppliedEscrowAmount
    ensures amount == r.claimableTicketAmount || amount == suppliedEscrowAmount
  {
    Max(r.claimableTicketAmount, suppliedEscrowAmount)
  }

  /**
   * The ticket amount with the ticket escrow read only where the raffle has
   * one: for SOL tickets the stored claimable amount; for token tickets the
   * larger of it and the balance of the raffle's escrow for the ticket mint,
   * so that dust left in the escrow is swept with it.
   */
  function TicketAmountClaimable(r: Raffle, id: nat, l: Ledger): (amount: nat)
    ensures r.ticketMint.None? ==> amount == r.claimableTicketAmount
    ensures r.ticketMint.Some? ==>
      amount >= r.claimableTicketAmount && amount >= Balance(l, InstanceEscrow(id, r.ticketMint.value))
    ensures r.ticketMint.Some? ==>
      amount == r.claimableTicketAmount || amount == Balance(l, InstanceEscrow(id, r.ticketMint.value))
  {
    match r.ticketMint
    case None => r.claimableTicketAmount
    case Some(m) => Max(r.claimableTicketAmount, Balance(l, InstanceEscrow(id, m)))
  }

  /**
   * With the source's computation, the creator of a SOL-ticket raffle whose
   * amounts were already claimed can claim again: passing a token account
   * holding 9 as `ticket_escrow` makes the ticket amount 9 while nothing is
   * owed, and the raffle account, holding 10 lamports (a winner's unclaimed
   * SOL prize, say), passes the `>` balance check for it. The corrected
   * amount of that raffle is 0, so the claim is refused.
   */
  lemma TicketAmountAsWrittenOverpays(r: Raffle, l: Ledger)
    requires r.ticketMint.None? && r.claimableTicketAmount == 0 && r.claimablePrizeBack == 0
    requires Balance(l, InstanceLamports(r.raffleId)) == 10
    ensures TicketAmountAsWritten(r, 9) == 9
    ensures Balance(l, InstanceLamports(r.raffleId)) > TicketAmountAsWritten(r, 9)
    ensures TicketAmountClaimable(r, r.raffleId, l) == 0
  {
  }

  /**
   * The prize-back transfer: lamports from the raffle account, which must
   * hold strictly more than the amount, or, for a token prize, the NFT or
   * the amount from the raffle's prize escrow to the creator's token
   * account.
   */
  function PrizeBackTransfer(r: Raffle, id: nat, creator: Pubkey, l: Ledger): (res: Result<Ledger, RaffleError>)
    ensures res.Ok? <==>
      && (r.prizeType != Sol ==> r.prizeMint.Some?)
      && (r.prizeType == Sol ==> Balance(l, InstanceLamports(id)) > r.claimablePrizeBack)
      && (r.prizeType != Sol ==> Balance(l, PrizeVault(r, id)) >= PrizeBackAmount(r))
    ensures res.Ok? ==> res.value == Move(l, PrizeVault(r, id), PrizeRecipient(r, creator), PrizeBackAmount(r))
  {
    match r.prizeType
    case Sol =>
      if Balance(l, InstanceLamports(id)) <= r.claimablePrizeBack then Err(InsufficientSolBalance)
      else Ok(Move(l, InstanceLamports(id), WalletLamports(creator), r.claimablePrizeBack))
    case _ =>
      if r.prizeMint.None? then Err(MissingPrizeMint)
      else if Balance(l, InstanceEscrow(id, r.prizeMint.value)) < PrizeBackAmount(r) then Err(InsufficientTokenBalance)
      else Ok(Move(l, InstanceEscrow(id, r.prizeMint.value), WalletTokens(creator, r.prizeMint.value), PrizeBackAmount(r)))
  }

  /**
   * The prize units returned: the single NFT, or the claimable prize-back;
   * never more than the prize for a record whose prize-back and NFT amount
   * are within their bounds.
   */
  function PrizeBackAmount(r: Raffle): (n: nat)
    ensures r.prizeType == Nft ==> n == 1
    ensures r.prizeType != Nft ==> n == r.claimablePrizeBack
    ensures r.claimablePrizeBack <= r.prizeAmount && (r.prizeType == Nft ==> r.prizeAmount == 1) ==> n <= r.prizeAmount
  {
    if r.prizeType == Nft then 1 else r.claimablePrizeBack
  }

  /**
   * The ticket-revenue transfer: lamports from the raffle account, which
   * must hold strictly more than the amount, or tokens from the raffle's
   * ticket escrow to the creator's token account, after which the escrow,
   * now empty, is closed.
   */
  function TicketBackTransfer(r: Raffle, id: nat, creator: Pubkey, l: Ledger, amount: nat): (res: Result<Ledger, RaffleError>)
    ensures res.Ok? <==>
      if r.ticketMint.None? then Balance(l, InstanceLamports(id)) > amount
      else Balance(l, InstanceEscrow(id, r.ticketMint.value)) >= amount
    ensures res.Ok? ==> res.value == Move(l, TicketVault(id, r.ticketMint), WalletAccount(creator, r.ticketMint), amount)
  {
    match r.ticketMint
    case None =>
      if Balance(l, InstanceLamports(id)) <= amount then Err(InsufficientSolBalance)
      else Ok(Move(l, InstanceLamports(id), WalletLamports(creator), amount))
    case Some(m) =>
      if Balance(l, InstanceEscrow(id, m)) < amount then Err(InsufficientTokenBalance)
      // closing the emptied escrow moves only its rent, which the ledger does not track
      else Ok(Move(l, InstanceEscrow(id, m), WalletTokens(creator, m), amount))
  }

  /**
   * Both transfers of a claim, in source order: the prize-back when there is
   * one, then the ticket amount (computed before either transfer) when it
   * is positive. The claim goes through exactly when each transfer that is
   * due does, the second on the ledger the first leaves; the result is the
   * prize-back moved from the prize vault to the creator followed by the
   * ticket amount moved from the ticket vault to the creator.
   */
  function ClaimBackTransfers(r: Raffle, id: nat, creator: Pubkey, l: Ledger): (res: Result<Ledger, RaffleError>)
    ensures res.Ok? <==>
      var ticket := TicketAmountClaimable(r, id, l);
      && (r.claimablePrizeBack > 0 ==> PrizeBackTransfer(r, id, creator, l).Ok?)
      && (ticket > 0 ==>
            TicketBackTransfer(r, id, creator,
              if r.claimablePrizeBack == 0 then l else PrizeBackTransfer(r, id, creator, l).value, ticket).Ok?)
    ensures res.Ok? ==>
      var ticket := TicketAmountClaimable(r, id, l);
      var l1 := if r.claimablePrizeBack == 0 then l
                else Move(l, PrizeVault(r, id), PrizeRecipient(r, creator), PrizeBackAmount(r));
      res.value == if ticket == 0 then l1
                   else Move(l1, TicketVault(id, r.ticketMint), WalletAccount(creator, r.ticketMint), ticket)
    ensures r.claimablePrizeBack == 0 && TicketAmountClaimable(r, id, l) == 0 ==> res == Ok(l)
    ensures res.Ok? && r.ticketMint.Some? ==> Balance(res.value, InstanceEscrow(id, r.ticketMint.value)) == 0
  {
    var ticket := TicketAmountClaimable(r, id, l);
    var afterPrize := if r.claimablePrizeBack == 0 then Ok(l) else PrizeBackTransfer(r, id, creator, l);
    match afterPrize
    case Err(e) => Err(e)
    case Ok(l1) =>
      var res := if ticket == 0 then Ok(l1) else TicketBackTransfer(r, id, creator, l1, ticket);
      TicketEscrowEmptied(r, id, creator, l, l1, res);
      res
  }

  /**
   * A successful claim on a token-ticket raffle leaves its ticket escrow
   * empty: the amount taken is at least the escrow's balance before the
   * claim, and the prize-back transfer never adds to it.
   */
  lemma TicketEscrowEmptied(r: Raffle, id: nat, creator: Pubkey, l: Ledger, l1: Ledger, res: Result<Ledger, RaffleError>)
    requires r.claimablePrizeBack == 0 ==> l1 == l
    requires r.claimablePrizeBack > 0 ==> PrizeBackTransfer(r, id, creator, l) == Ok(l1)
    requires var ticket := TicketAmountClaimable(r, id, l);
      res == (if ticket == 0 then Ok(l1) else TicketBackTransfer(r, id, creator, l1, ticket))
    ensures res.Ok? && r.ticketMint.Some? ==> Balance(res.value, InstanceEscrow(id, r.ticketMint.value)) == 0
  {
    if res.Ok? && r.ticketMint.Some? {
      var escrow := InstanceEscrow(id, r.ticketMint.value);
      var ticket := TicketAmountClaimable(r, id, l);
      if r.claimablePrizeBack > 0 {
        assert Balance(l1, escrow) <= Balance(l, escrow);
      }
      if ticket > 0 {
        assert Balance(l1, escrow) == ticket;
      }
    }
  }

  /**
   * `claim_amount_back`, with the ticket amount read from the raffle's own
   * accounts. Succeeds exactly when the admin co-signs, the raffle exists
   * under its own id, the signer is its creator, claiming back is not
   * paused, the raffle has ended (successfully or not), something is owed,
   * and the transfers go through. Then both claimable amounts are zero and
   * a second claim is refused while nothing new is owed.
   */
  method ClaimAmountBack(s: RaffleStore, admin: Pubkey, creator: Pubkey, raffleId: U32) returns (r: Outcome<RaffleError>)
    modifies s`raffles, s`ledger
    ensures r.Pass? <==>
      && admin == s.config.raffleAdmin
      && raffleId in old(s.raffles)
      && var raffle := old(s.raffles)[raffleId];
      && raffle.raffleId == raffleId
      && creator == raffle.creator
      && !IsPaused(s.config.pauseFlags, s.params.claimAmountBackPause)
      && (raffle.status == FailedEnded || raffle.status == SuccessEnded)
      && (raffle.claimablePrizeBack > 0 || TicketAmountClaimable(raffle, raffleId, old(s.ledger)) > 0)
      && ClaimBackTransfers(raffle, raffleId, creator, old(s.ledger)).Ok?
    ensures r.Pass? ==>
      var raffle := old(s.raffles)[raffleId];
      && s.raffles == old(s.raffles)[raffleId := raffle.(claimablePrizeBack := 0, claimableTicketAmount := 0)]
      && s.ledger == ClaimBackTransfers(raffle, raffleId, creator, old(s.ledger)).value
      && TicketAmountClaimable(s.raffles[raffleId], raffleId, s.ledger) == 0
    ensures r.Fail? ==> s.raffles == old(s.raffles) && s.ledger == old(s.ledger)
    ensures old(s.Valid()) ==> s.Valid()
  {
    if admin != s.config.raffleAdmin {
      return Fail(InvalidRaffleAdmin);
    }
    if raffleId !in s.raffles {
      return Fail(AccountNotInitialized);
    }
    var raffle := s.raffles[raffleId];
    if raffle.raffleId != raffleId {
      return Fail(InvalidRaffleId);
    }
    if creator != raffle.creator {
      return Fail(InvalidCreator);
    }
    if IsPaused(s.config.pauseFlags, s.params.claimAmountBackPause) {
      return Fail(FunctionPaused);
    }
    if !(raffle.status == FailedEnded || raffle.status == SuccessEnded) {
      return Fail(RaffleNotEnded);
    }
    if raffle.claimablePrizeBack == 0 && TicketAmountClaimable(raffle, raffleId, s.ledger) == 0 {
      return Fail(InvalidZeroAmount);
    }
    var ledger := ClaimBackTransfers(raffle, raffleId, creator, s.ledger);
    if ledger.Err? {
      return Fail(ledger.error);
    }
    var raffle' := raffle.(claimablePrizeBack := 0, claimableTicketAmount := 0);
    ghost var wasValid := s.Valid();
    ghost var raffles0 := s.raffles;
    s.raffles := s.raffles[raffleId := raffle'];
    s.ledger := ledger.value;
    if wasValid {
      RaffleUpdateKeepsValid(s.config, raffles0, s.buyers, raffleId, raffle');
    }
    return Pass;
  }
}

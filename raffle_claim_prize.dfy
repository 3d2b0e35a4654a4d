/**
 * `buyer_claim_prize`: a winner of a SuccessEnded raffle takes the prize
 * of one winner slot: the slot's share of a SOL or SPL prize, or the NFT.
 * Each slot pays out once.
 */
module RaffleClaimPrize {
  import opened Common
  import opened AuctionUtils
  import opened RaffleErrors
  import opened RaffleUtils
  import opened RaffleStates

  /**
   * What slot `idx` pays: for an NFT the single token, which only slot 0 of
   * a one-winner raffle may take; otherwise the slot's share of the prize,
   * rounded down, with the Overflow error when the product does not fit in
   * u64. A slot that would pay nothing is refused.
   */
  function WinnerAmount(raffle: Raffle, idx: nat): (r: Result<U64, RaffleError>)
    requires idx < |raffle.winShares|
    ensures r.Ok? ==> r.value > 0
    ensures raffle.prizeType == Nft ==>
      (r.Ok? <==> raffle.numWinners == 1 && idx == 0) && (r.Ok? ==> r.value == 1)
    ensures raffle.prizeType != Nft ==>
      && (r.Ok? <==> raffle.prizeAmount * raffle.winShares[idx] <= U64_MAX && Payout(raffle.prizeAmount, raffle.winShares[idx]) > 0)
      && (r.Ok? ==> r.value == Payout(raffle.prizeAmount, raffle.winShares[idx]))
    ensures r.Err? ==> r.error in {InvalidWinnerIndex, Overflow, ZeroPrizeForWinner}
  {
    if raffle.prizeType == Nft then
      if raffle.numWinners != 1 || idx != 0 then Err(InvalidWinnerIndex) else Ok(1)
    else
      match GetPctAmount(raffle.prizeAmount, raffle.winShares[idx], TOTAL_PCT)
      case None => Err(Overflow)
      case Some(amount) => if amount == 0 then Err(ZeroPrizeForWinner) else Ok(amount)
  }

  /**
   * The prize-side checks of a claim, in source order: a token prize has its
   * mint and escrow recorded and the escrow is the raffle's account for the
   * mint; the slot's amount is due; the prize vault holds it. The result is
   * the amount to pay.
   */
  function PrizeClaimCheck(raffle: Raffle, id: nat, idx: nat, l: Ledger): (r: Result<U64, RaffleError>)
    requires idx < |raffle.winShares|
    ensures r.Ok? <==>
      && (raffle.prizeType != Sol ==>
            raffle.prizeMint.Some? && raffle.prizeEscrow == Some(InstanceEscrow(id, raffle.prizeMint.value)))
      && WinnerAmount(raffle, idx).Ok?
      && Balance(l, PrizeVault(raffle, id)) >= WinnerAmount(raffle, idx).value
    ensures r.Ok? ==> r.value == WinnerAmount(raffle, idx).value
  {
    if raffle.prizeType != Sol && raffle.prizeMint.None? then Err(MissingPrizeMint)
    else if raffle.prizeType != Sol && raffle.prizeEscrow.None? then Err(MissingPrizeEscrow)
    else if raffle.prizeType != Sol && raffle.prizeEscrow.value != InstanceEscrow(id, raffle.prizeMint.value) then
      Err(InvalidPrizeEscrow)
    else
      match WinnerAmount(raffle, idx)
      case Err(e) => Err(e)
      case Ok(amount) =>
        if Balance(l, PrizeVault(raffle, id)) < amount then
          Err(if raffle.prizeType == Sol then InsufficientSolBalance else InsufficientTokenBalance)
        else Ok(amount)
  }

  /**
   * `buyer_claim_prize`. Succeeds exactly when the admin co-signs, the raffle
   * exists under its own id, claiming is not paused, the raffle is
   * SuccessEnded, slot `idx` exists, belongs to the signing winner and is
   * unclaimed, and the prize checks pass. Then the slot is marked claimed
   * and its amount moves from the prize vault to the winner. A slot that
   * was claimed is refused from then on.
   */
  method BuyerClaimPrize(s: RaffleStore, admin: Pubkey, winner: Pubkey, raffleId: U32, idx: U8)
    returns (r: Outcome<RaffleError>)
    modifies s`raffles, s`ledger
    ensures r.Pass? <==>
      && admin == s.config.raffleAdmin
      && raffleId in old(s.raffles)
      && var raffle := old(s.raffles)[raffleId];
      && raffle.raffleId == raffleId
      && !IsPaused(s.config.pauseFlags, s.params.buyerClaimPrizePause)
      && raffle.status == SuccessEnded
      && idx < |raffle.winners|
      && raffle.winners[idx] == winner
      && idx < |raffle.isWinClaimed|
      && !raffle.isWinClaimed[idx]
      && idx < |raffle.winShares|
      && PrizeClaimCheck(raffle, raffleId, idx, old(s.ledger)).Ok?
    ensures r.Pass? ==>
      var raffle := old(s.raffles)[raffleId];
      var amount := WinnerAmount(raffle, idx).value;
      && s.raffles == old(s.raffles)[raffleId := raffle.(isWinClaimed := raffle.isWinClaimed[idx := true])]
      && s.ledger == Move(old(s.ledger), PrizeVault(raffle, raffleId), PrizeRecipient(raffle, winner), amount)
      && (raffle.prizeType != Nft ==> amount == Payout(raffle.prizeAmount, raffle.winShares[idx]))
    ensures (admin == s.config.raffleAdmin && raffleId in old(s.raffles) && old(s.raffles)[raffleId].raffleId == raffleId &&
             !IsPaused(s.config.pauseFlags, s.params.buyerClaimPrizePause) &&
             old(s.raffles)[raffleId].status == SuccessEnded &&
             idx < |old(s.raffles)[raffleId].winners| && old(s.raffles)[raffleId].winners[idx] == winner &&
             idx < |old(s.raffles)[raffleId].isWinClaimed| && old(s.raffles)[raffleId].isWinClaimed[idx])
            ==> r == Fail(PrizeAlreadyClaimed)
    ensures r.Fail? ==> s.raffles == old(s.raffles) && s.ledger == old(s.ledger)
    ensures old(s.Valid()) ==> s.Valid()
  {
    if admin != s.config.raffleAdmin {
      return Fail(InvalidRaffleAdmin);
    }
    if raffleId !in s.raffles {
      return Fail(AccountNotInitialized);
    }
    var raffle := s.raffles[raffleId];
    if raffle.raffleId != raffleId {
      return Fail(InvalidRaffleId);
    }
    if IsPaused(s.config.pauseFlags, s.params.buyerClaimPrizePause) {
      return Fail(FunctionPaused);
    }
    if raffle.status != SuccessEnded {
      return Fail(RaffleNotSuccessEnded);
    }
    if idx as nat >= |raffle.winners| {
      return Fail(InvalidWinnerIndex);
    }
    if raffle.winners[idx] != winner {
      return Fail(InvalidWinner);
    }
    if idx as nat >= |raffle.isWinClaimed| || idx as nat >= |raffle.winShares| {
      return Fail(if idx as nat >= |raffle.isWinClaimed| || !raffle.isWinClaimed[idx] then IndexOutOfBounds
                  else PrizeAlreadyClaimed);
    }
    if raffle.isWinClaimed[idx] {
      return Fail(PrizeAlreadyClaimed);
    }
    var amount := PrizeClaimCheck(raffle, raffleId, idx as nat, s.ledger);
    if amount.Err? {
      return Fail(amount.error);
    }
    var raffle' := raffle.(isWinClaimed := raffle.isWinClaimed[idx := true]);
    ghost var wasValid := s.Valid();
    ghost var raffles0 := s.raffles;
    s.raffles := s.raffles[raffleId := raffle'];
    s.ledger := Move(s.ledger, PrizeVault(raffle, raffleId), PrizeRecipient(raffle, winner), amount.value);
    if wasValid {
      RaffleUpdateKeepsValid(s.config, raffles0, s.buyers, raffleId, raffle');
    }
    return Pass;
  }
}

/**
 * `update_raffle_ticketing` and `update_raffle_winners`: the creator
 * changes the ticketing or the winner shares of a raffle that has not sold
 * a ticket yet.
 */
module RaffleUpdate {
  import opened Common
  import opened AuctionUtils
  import opened RaffleErrors
  import opened RaffleUtils
  import opened RaffleStates

  /**
   * `update_raffle_ticketing`. Succeeds exactly when the admin co-signs,
   * the raffle exists under its own id, the signer is its creator, updates
   * are not paused, the raffle is Initialized or Active with no ticket
   * sold, the price is positive, the supply lies within the deployment's
   * bounds and covers the winners, and the wallet cap lets a wallet buy at
   * least one ticket without exceeding the deployment's maximum. Then only
   * the supply, the price and the wallet cap change.
   */
  method UpdateRaffleTicketing(s: RaffleStore, admin: Pubkey, creator: Pubkey, raffleId: U32,
                               newTotalTickets: U16, newTicketPrice: U64, newMaxPerWalletPct: U8)
    returns (r: Outcome<RaffleError>)
    modifies s`raffles
    ensures r.Pass? <==>
      && admin == s.config.raffleAdmin
      && raffleId in old(s.raffles)
      && var raffle := old(s.raffles)[raffleId];
      && raffle.raffleId == raffleId
      && creator == raffle.creator
      && !IsPaused(s.config.pauseFlags, s.params.updateRafflePause)
      && (raffle.status == Initialized || raffle.status == Active)
      && raffle.ticketsSold == 0
      && newTicketPrice > 0
      && s.params.minimumTickets <= newTotalTickets <= s.params.maximumTickets
      && newTotalTickets >= raffle.numWinners
      && MinPerWalletPct(newTotalTickets).Some?
      && MinPerWalletPct(newTotalTickets).value <= newMaxPerWalletPct <= s.params.maximumWalletPct
    ensures r.Pass? ==>
      var raffle := old(s.raffles)[raffleId];
      s.raffles == old(s.raffles)[raffleId := raffle.(totalTickets := newTotalTickets, ticketPrice := newTicketPrice,
                                                      maxPerWalletPct := newMaxPerWalletPct)]
    ensures r.Pass? ==> newMaxPerWalletPct * newTotalTickets >= TOTAL_PCT
    ensures r.Fail? ==> s.raffles == old(s.raffles)
    ensures old(s.Valid()) ==> s.Valid()
  {
    if admin != s.config.raffleAdmin {
      return Fail(InvalidRaffleAdmin);
    }
    if raffleId !in s.raffles {
      return Fail(AccountNotInitialized);
    }
    var raffle := s.raffles[raffleId];
    if raffle.raffleId != raffleId {
      return Fail(InvalidRaffleId);
    }
    if creator != raffle.creator {
      return Fail(InvalidCreator);
    }
    if IsPaused(s.config.pauseFlags, s.params.updateRafflePause) {
      return Fail(FunctionPaused);
    }
    if !(raffle.status == Initialized || raffle.status == Active) {
      return Fail(InvalidRaffleStateForUpdate);
    }
    if raffle.ticketsSold != 0 {
      return Fail(RaffleAlreadyStarted);
    }
    if newTicketPrice == 0 {
      return Fail(InvalidTicketZeroPrice);
    }
    if !(s.params.minimumTickets <= newTotalTickets <= s.params.maximumTickets) {
      return Fail(InvalidTotalTickets);
    }
    if newTotalTickets < raffle.numWinners {
      return Fail(WinnersExceedTotalTickets);
    }
    var minPct := MinPerWalletPct(newTotalTickets);
    if minPct.None? {
      return Fail(Overflow);
    }
    if !(minPct.value <= newMaxPerWalletPct <= s.params.maximumWalletPct) {
      return Fail(MaxTicketsPerWalletExceeded);
    }
    var raffle' := raffle.(totalTickets := newTotalTickets, ticketPrice := newTicketPrice,
                           maxPerWalletPct := newMaxPerWalletPct);
    MulMonotone(minPct.value, newMaxPerWalletPct, newTotalTickets);
    ghost var wasValid := s.Valid();
    ghost var raffles0 := s.raffles;
    s.raffles := s.raffles[raffleId := raffle'];
    if wasValid {
      UnsoldUpdateKeepsValid(s.config, raffles0, s.buyers, raffleId, raffle');
    }
    return Pass;
  }

  /**
   * `update_raffle_winners`. Succeeds exactly when the admin co-signs, the
   * raffle exists under its own id, the signer is its creator, updates are
   * not paused, the raffle is Initialized or Active with no ticket sold,
   * the prize is not an NFT, and the new shares, one per winner, are
   * non-increasing and sum to 100. Then only the shares and the
   * unique-winners flag change.
   */
  method UpdateRaffleWinners(s: RaffleStore, admin: Pubkey, creator: Pubkey, raffleId: U32,
                             newWinShares: seq<U8>, newIsUniqueWinners: bool)
    returns (r: Outcome<RaffleError>)
    modifies s`raffles
    ensures r.Pass? <==>
      && admin == s.config.raffleAdmin
      && raffleId in old(s.raffles)
      && var raffle := old(s.raffles)[raffleId];
      && raffle.raffleId == raffleId
      && creator == raffle.creator
      && !IsPaused(s.config.pauseFlags, s.params.updateRafflePause)
      && (raffle.status == Initialized || raffle.status == Active)
      && raffle.ticketsSold == 0
      && raffle.prizeType != Nft
      && |newWinShares| == raffle.numWinners
      && ValidWinShares(newWinShares)
    ensures r.Pass? ==>
      var raffle := old(s.raffles)[raffleId];
      s.raffles == old(s.raffles)[raffleId := raffle.(winShares := newWinShares, isUniqueWinners := newIsUniqueWinners)]
    ensures r.Fail? ==> s.raffles == old(s.raffles)
    ensures old(s.Valid()) ==> s.Valid()
  {
    if admin != s.config.raffleAdmin {
      return Fail(InvalidRaffleAdmin);
    }
    if raffleId !in s.raffles {
      return Fail(AccountNotInitialized);
    }
    var raffle := s.raffles[raffleId];
    if raffle.raffleId != raffleId {
      return Fail(InvalidRaffleId);
    }
    if creator != raffle.creator {
      return Fail(InvalidCreator);
    }
    if IsPaused(s.config.pauseFlags, s.params.updateRafflePause) {
      return Fail(FunctionPaused);
    }
    if !(raffle.status == Initialized || raffle.status == Active) {
      return Fail(InvalidRaffleStateForUpdate);
    }
    if raffle.ticketsSold != 0 {
      return Fail(TicketsSoldOut);
    }
    if raffle.prizeType == Nft {
      return Fail(CannotUpdateWinnersForNftPrize);
    }
    if |newWinShares| != raffle.numWinners as nat {
      return Fail(InvalidWinShares);
    }
    var ok := IsDescendingOrderAndSum100(newWinShares);
    if !ok {
      return Fail(InvalidWinShares);
    }
    var raffle' := raffle.(winShares := newWinShares, isUniqueWinners := newIsUniqueWinners);
    ghost var wasValid := s.Valid();
    ghost var raffles0 := s.raffles;
    s.raffles := s.raffles[raffleId := raffle'];
    if wasValid {
      RaffleUpdateKeepsValid(s.config, raffles0, s.buyers, raffleId, raffle');
    }
    return Pass;
  }
}

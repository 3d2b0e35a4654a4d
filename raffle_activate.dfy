/** `activate_raffle`: an Initialized raffle whose start time has passed becomes Active. */
module RaffleActivate {
  import opened Common
  import opened AuctionUtils
  import opened RaffleErrors
  import opened RaffleStates

  /**
   * Succeeds exactly when the admin co-signs, the raffle exists under its
   * own id, activation is not paused, the raffle is Initialized and now is
   * strictly after its start time; then only its status changes, to Active.
   */
  method ActivateRaffle(s: RaffleStore, admin: Pubkey, raffleId: U32, now: I64) returns (r: Outcome<RaffleError>)
    modifies s`raffles
    ensures r.Pass? <==>
      && admin == s.config.raffleAdmin
      && raffleId in old(s.raffles)
      && old(s.raffles)[raffleId].raffleId == raffleId
      && !IsPaused(s.config.pauseFlags, s.params.activateRafflePause)
      && old(s.raffles)[raffleId].status == Initialized
      && now > old(s.raffles)[raffleId].startTime
    ensures r.Pass? ==> s.raffles == old(s.raffles)[raffleId := old(s.raffles)[raffleId].(status := Active)]
    ensures (admin == s.config.raffleAdmin && raffleId in old(s.raffles) && old(s.raffles)[raffleId].raffleId == raffleId &&
             IsPaused(s.config.pauseFlags, s.params.activateRafflePause)) ==> r == Fail(FunctionPaused)
    ensures r.Fail? ==> s.raffles == old(s.raffles)
    ensures old(s.Valid()) ==> s.Valid()
  {
    if admin != s.config.raffleAdmin {
      return Fail(InvalidRaffleAdmin);
    }
    if raffleId !in s.raffles {
      return Fail(AccountNotInitialized);
    }
    var raffle := s.raffles[raffleId];
    if raffle.raffleId != raffleId {
      return Fail(InvalidRaffleId);
    }
    if IsPaused(s.config.pauseFlags, s.params.activateRafflePause) {
      return Fail(FunctionPaused);
    }
    if raffle.status != Initialized {
      return Fail(StateShouldBeInInitialized);
    }
    if now <= raffle.startTime {
      return Fail(StartTimeNotReached);
    }
    var raffle' := raffle.(status := Active);
    ghost var wasValid := s.Valid();
    ghost var raffles0 := s.raffles;
    s.raffles := s.raffles[raffleId := raffle'];
    if wasValid {
      RaffleUpdateKeepsValid(s.config, raffles0, s.buyers, raffleId, raffle');
    }
    return Pass;
  }
}

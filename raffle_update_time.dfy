/** `update_raffle_time`, the copy the raffle program dispatches: the creator moves the window of a raffle that has not started. */
module RaffleUpdateTime {
  import opened Common
  import opened RaffleErrors
  import opened RaffleStates

  /**
   * Succeeds exactly when the admin co-signs, the raffle exists, the signer
   * is its creator, the raffle's id matches, it is Initialized and has not
   * started (now < start time), the new start is not in the past, the new
   * end is after it, the difference fits in i64 and lies within the
   * configured period bounds. Then only the two times change.
   */
  method UpdateRaffleTime(s: RaffleStore, admin: Pubkey, creator: Pubkey, raffleId: U32, now: I64,
                          newStartTime: I64, newEndTime: I64) returns (r: Outcome<RaffleError>)
    modifies s`raffles
    ensures r.Pass? <==>
      && admin == s.config.raffleAdmin
      && raffleId in old(s.raffles)
      && var raffle := old(s.raffles)[raffleId];
      && creator == raffle.creator
      && raffle.raffleId == raffleId
      && raffle.status == Initialized
      && now < raffle.startTime
      && newStartTime >= now
      && newEndTime > newStartTime
      && newEndTime - newStartTime <= I64_MAX
      && s.config.minimumRafflePeriod <= newEndTime - newStartTime <= s.config.maximumRafflePeriod
    ensures r.Pass? ==>
      s.raffles == old(s.raffles)[raffleId := old(s.raffles)[raffleId].(startTime := newStartTime, endTime := newEndTime)]
    ensures r.Fail? ==> s.raffles == old(s.raffles)
    ensures old(s.Valid()) ==> s.Valid()
  {
    if admin != s.config.raffleAdmin {
      return Fail(InvalidRaffleAdmin);
    }
    if raffleId !in s.raffles {
      return Fail(AccountNotInitialized);
    }
    var raffle := s.raffles[raffleId];
    if raffle.creator != creator {
      return Fail(InvalidCreator);
    }
    if raffle.raffleId != raffleId {
      return Fail(InvalidRaffleId);
    }
    if raffle.status != Initialized {
      return Fail(InvalidRaffleStateForUpdate);
    }
    if now >= raffle.startTime {
      return Fail(RaffleAlreadyStarted);
    }
    if newStartTime < now {
      return Fail(StartTimeInPast);
    }
    if newEndTime <= newStartTime {
      return Fail(StartTimeExceedEndTime);
    }
    var duration := CheckedSubI64(newEndTime, newStartTime);
    if duration.None? {
      return Fail(StartTimeExceedEndTime);
    }
    if !(s.config.minimumRafflePeriod <= duration.value <= s.config.maximumRafflePeriod) {
      return Fail(InvalidRafflePeriod);
    }
    var raffle' := raffle.(startTime := newStartTime, endTime := newEndTime);
    ghost var wasValid := s.Valid();
    ghost var raffles0 := s.raffles;
    s.raffles := s.raffles[raffleId := raffle'];
    if wasValid {
      RaffleUpdateKeepsValid(s.config, raffles0, s.buyers, raffleId, raffle');
    }
    return Pass;
  }
}

/**
 * The variant of `update_raffle_time` kept beside the raffle program: it
 * honours the update pause bit and requires the new start strictly in the
 * future; the end is bounded only through the period check.
 */
module RaffleUpdateTimePaused {
  import opened Common
  import opened AuctionUtils
  import opened RaffleErrors
  import opened RaffleStates

  /**
   * Succeeds exactly when the admin co-signs, the raffle exists under its
   * own id, the signer is its creator, updates are not paused, the raffle
   * is Initialized with its start still ahead, the new start is strictly
   * after now, and the new duration fits in i64 and lies within the
   * configured period bounds. Then only the two times change, and the new
   * end is at least the minimum period after the new start.
   */
  method UpdateRaffleTime(s: RaffleStore, admin: Pubkey, creator: Pubkey, raffleId: U32, now: I64,
                          newStartTime: I64, newEndTime: I64) returns (r: Outcome<RaffleError>)
    modifies s`raffles
    ensures r.Pass? <==>
      && admin == s.config.raffleAdmin
      && raffleId in old(s.raffles)
      && var raffle := old(s.raffles)[raffleId];
      && raffle.raffleId == raffleId
      && creator == raffle.creator
      && !IsPaused(s.config.pauseFlags, s.params.updateRafflePause)
      && raffle.status == Initialized
      && raffle.startTime > now
      && newStartTime > now
      && I64_MIN <= newEndTime - newStartTime <= I64_MAX
      && s.config.minimumRafflePeriod <= newEndTime - newStartTime <= s.config.maximumRafflePeriod
    ensures r.Pass? ==>
      s.raffles == old(s.raffles)[raffleId := old(s.raffles)[raffleId].(startTime := newStartTime, endTime := newEndTime)]
    ensures r.Pass? ==> newEndTime >= newStartTime + s.config.minimumRafflePeriod
    ensures r.Pass? && ConfigValid(s.config) ==> newEndTime > newStartTime
    ensures r.Fail? ==> s.raffles == old(s.raffles)
    ensures old(s.Valid()) ==> s.Valid()
  {
    if admin != s.config.raffleAdmin {
      return Fail(InvalidRaffleAdmin);
    }
    if raffleId !in s.raffles {
      return Fail(AccountNotInitialized);
    }
    var raffle := s.raffles[raffleId];
    if raffle.raffleId != raffleId {
      return Fail(InvalidRaffleId);
    }
    if creator != raffle.creator {
      return Fail(InvalidCreator);
    }
    if IsPaused(s.config.pauseFlags, s.params.updateRafflePause) {
      return Fail(FunctionPaused);
    }
    if raffle.status != Initialized {
      return Fail(InvalidRaffleStateForUpdate);
    }
    if raffle.startTime <= now {
      return Fail(RaffleAlreadyStarted);
    }
    if newStartTime <= now {
      return Fail(StartTimeInPast);
    }
    var duration := CheckedSubI64(newEndTime, newStartTime);
    if duration.None? {
      return Fail(StartTimeExceedEndTime);
    }
    if !(s.config.minimumRafflePeriod <= duration.value <= s.config.maximumRafflePeriod) {
      return Fail(InvalidRafflePeriod);
    }
    var raffle' := raffle.(startTime := newStartTime, endTime := newEndTime);
    ghost var wasValid := s.Valid();
    ghost var raffles0 := s.raffles;
    s.raffles := s.raffles[raffleId := raffle'];
    if wasValid {
      RaffleUpdateKeepsValid(s.config, raffles0, s.buyers, raffleId, raffle');
    }
    return Pass;
  }
}

/**
 * `update_gumball_time` and `update_gumball_data`: the creator changes a
 * machine's schedule before it starts, or its ticket price and number of
 * tickets before any ticket is sold.
 */
module GumballUpdate {
  import opened Common
  import opened AuctionUtils
  import opened GumballErrors
  import opened GumballStates

  /**
   * The schedule checks of `update_gumball_time`, in source order, with the
   * error each one raises; the value is the new start time. The checks pass
   * exactly when the current start is still ahead, the new start (now, when
   * it starts immediately) is not in the past, and the new duration lies
   * within the config's period bounds.
   */
  function ValidateNewTimes(c: GumballConfig, currentStart: I64, newStartTime: I64, newEndTime: I64,
                            startGumball: bool, now: I64): (r: Result<I64, GumballError>)
    ensures r.Ok? <==>
      && currentStart > now
      && var start := if startGumball then now else newStartTime;
      && start >= now
      && c.minimumGumballPeriod <= newEndTime - start <= c.maximumGumballPeriod
    ensures r.Ok? ==> r.value == if startGumball then now else newStartTime
    ensures currentStart <= now ==> r == Err(StartTimeNotReached)
  {
    var start := if startGumball then now else newStartTime;
    if currentStart <= now then Err(StartTimeNotReached)
    else if start < now then Err(StartTimeInPast)
    else
      var duration := CheckedSubI64(newEndTime, start);
      if duration.None? then Err(Overflow)
      else if !(c.minimumGumballPeriod <= duration.value <= c.maximumGumballPeriod) then Err(InvalidGumballPeriod)
      else Ok(start)
  }

  /**
   * `update_gumball_time`. Succeeds exactly when the admin co-signs, the
   * machine exists under its own id, the signer is its creator, updating is
   * not paused, the machine is Initialized and `ValidateNewTimes` accepts
   * the schedule; then only the start and end times change.
   */
  method UpdateGumballTime(s: GumballStore, admin: Pubkey, creator: Pubkey, gumballId: U32, newStartTime: I64,
                           newEndTime: I64, startGumball: bool, now: I64) returns (r: Outcome<GumballError>)
    modifies s`gumballs
    ensures r.Pass? <==>
      && admin == s.config.gumballAdmin
      && gumballId in old(s.gumballs)
      && var g := old(s.gumballs)[gumballId];
      && g.gumballId == gumballId
      && creator == g.creator
      && !IsPaused(s.config.pauseFlags, UPDATE_GUMBALL_PAUSE)
      && g.status == Initialized
      && ValidateNewTimes(s.config, g.startTime, newStartTime, newEndTime, startGumball, now).Ok?
    ensures r.Pass? ==>
      var g := old(s.gumballs)[gumballId];
      s.gumballs == old(s.gumballs)[gumballId := g.(
        startTime := if startGumball then now else newStartTime,
        endTime := newEndTime)]
    ensures r.Fail? ==> s.gumballs == old(s.gumballs)
    ensures old(s.Valid()) ==> s.Valid()
  {
    if admin != s.config.gumballAdmin {
      return Fail(InvalidGumballAdmin);
    }
    if gumballId !in s.gumballs {
      return Fail(AccountNotInitialized);
    }
    var g := s.gumballs[gumballId];
    if g.gumballId != gumballId {
      return Fail(InvalidGumballId);
    }
    if creator != g.creator {
      return Fail(InvalidCreator);
    }
    if IsPaused(s.config.pauseFlags, UPDATE_GUMBALL_PAUSE) {
      return Fail(FunctionPaused);
    }
    if g.status != Initialized {
      return Fail(InvalidGumballState);
    }
    var v := ValidateNewTimes(s.config, g.startTime, newStartTime, newEndTime, startGumball, now);
    if v.Err? {
      return Fail(v.error);
    }
    ghost var wasValid := s.Valid();
    ghost var gumballs0 := s.gumballs;
    var g' := g.(startTime := v.value, endTime := newEndTime);
    s.gumballs := s.gumballs[gumballId := g'];
    if wasValid {
      assert Covered(s.ledger, g, gumballId, s.prizes);
      PutKeepsValid(s.config, s.config, gumballs0, s.prizes, s.prizes, s.ledger, s.ledger, gumballId, g');
    }
    return Pass;
  }

  /**
   * `update_gumball_data`. Succeeds exactly when the admin co-signs, the
   * machine exists under its own id, the signer is its creator, updating is
   * not paused, no ticket has been sold, the machine is Initialized or
   * Active, the new price is positive and the new number of tickets is at
   * least the number of prizes already added (the creation bounds on the
   * number of tickets are not checked again); then only the price and the
   * number of tickets change.
   */
  method UpdateGumballData(s: GumballStore, admin: Pubkey, creator: Pubkey, gumballId: U32, newTicketPrice: U64,
                           newTotalTickets: U16) returns (r: Outcome<GumballError>)
    modifies s`gumballs
    ensures r.Pass? <==>
      && admin == s.config.gumballAdmin
      && gumballId in old(s.gumballs)
      && var g := old(s.gumballs)[gumballId];
      && g.gumballId == gumballId
      && creator == g.creator
      && !IsPaused(s.config.pauseFlags, UPDATE_GUMBALL_PAUSE)
      && g.ticketsSold == 0
      && Open(g)
      && newTicketPrice > 0
      && newTotalTickets >= g.prizesAdded
    ensures r.Pass? ==>
      var g := old(s.gumballs)[gumballId];
      s.gumballs == old(s.gumballs)[gumballId := g.(ticketPrice := newTicketPrice, totalTickets := newTotalTickets)]
    ensures r.Fail? ==> s.gumballs == old(s.gumballs)
    ensures old(s.Valid()) ==> s.Valid()
  {
    if admin != s.config.gumballAdmin {
      return Fail(InvalidGumballAdmin);
    }
    if gumballId !in s.gumballs {
      return Fail(AccountNotInitialized);
    }
    var g := s.gumballs[gumballId];
    if g.gumballId != gumballId {
      return Fail(InvalidGumballId);
    }
    if creator != g.creator {
      return Fail(InvalidCreator);
    }
    if IsPaused(s.config.pauseFlags, UPDATE_GUMBALL_PAUSE) {
      return Fail(FunctionPaused);
    }
    if g.ticketsSold != 0 {
      return Fail(TicketsAlreadySold);
    }
    if !Open(g) {
      return Fail(InvalidGumballState);
    }
    if newTicketPrice == 0 {
      return Fail(InvalidTicketPrice);
    }
    if newTotalTickets < g.prizesAdded {
      return Fail(PrizesExceedTickets);
    }
    ghost var wasValid := s.Valid();
    ghost var gumballs0 := s.gumballs;
    var g' := g.(ticketPrice := newTicketPrice, totalTickets := newTotalTickets);
    s.gumballs := s.gumballs[gumballId := g'];
    if wasValid {
      assert Covered(s.ledger, g, gumballId, s.prizes);
      PutKeepsValid(s.config, s.config, gumballs0, s.prizes, s.prizes, s.ledger, s.ledger, gumballId, g');
    }
    return Pass;
  }
}

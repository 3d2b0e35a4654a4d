/**
 * `create_gumball`: a creator sets up a machine. The terms are validated
 * against the config, the record is written at the current counter value
 * with no prizes and no tickets sold, the creation fee, when there is one,
 * moves into the config account, and the counter grows by one.
 */
module GumballCreate {
  import opened Common
  import opened AuctionUtils
  import opened GumballErrors
  import opened GumballStates

  /** The start time the machine gets: now when it starts immediately, the requested time otherwise. */
  function EffectiveStart(startTime: I64, startGumball: bool, now: I64): I64
  {
    if startGumball then now else startTime
  }

  /**
   * The term checks of `create_gumball`, in source order, with the error
   * each one raises; the value is the effective start time. The checks pass
   * exactly when creating is not paused, the price is positive, the number
   * of tickets lies in [MINIMUM_TICKETS, MAXIMUM_TICKETS], the start is not
   * in the past and the duration lies within the config's period bounds.
   */
  function ValidateCreateGumball(c: GumballConfig, startTime: I64, endTime: I64, totalTickets: U16, ticketPrice: U64,
                                 startGumball: bool, now: I64): (r: Result<I64, GumballError>)
    ensures r.Ok? <==>
      && !IsPaused(c.pauseFlags, CREATE_GUMBALL_PAUSE)
      && ticketPrice > 0
      && MINIMUM_TICKETS <= totalTickets <= MAXIMUM_TICKETS
      && var start := EffectiveStart(startTime, startGumball, now);
      && start >= now
      && c.minimumGumballPeriod <= endTime - start <= c.maximumGumballPeriod
    ensures r.Ok? ==> r.value == EffectiveStart(startTime, startGumball, now)
    ensures IsPaused(c.pauseFlags, CREATE_GUMBALL_PAUSE) ==> r == Err(FunctionPaused)
    ensures !IsPaused(c.pauseFlags, CREATE_GUMBALL_PAUSE) && ticketPrice == 0 ==> r == Err(InvalidTicketPrice)
    ensures (!IsPaused(c.pauseFlags, CREATE_GUMBALL_PAUSE) && ticketPrice > 0 &&
             !(MINIMUM_TICKETS <= totalTickets <= MAXIMUM_TICKETS)) ==> r == Err(InvalidTotalTickets)
  {
    if IsPaused(c.pauseFlags, CREATE_GUMBALL_PAUSE) then Err(FunctionPaused)
    else if ticketPrice == 0 then Err(InvalidTicketPrice)
    else if !(MINIMUM_TICKETS <= totalTickets <= MAXIMUM_TICKETS) then Err(InvalidTotalTickets)
    else
      var start := EffectiveStart(startTime, startGumball, now);
      var duration := CheckedSubI64(endTime, start);
      if duration.None? then Err(StartTimeExceedEndTime)
      else if start < now then Err(StartTimeInPast)
      else if !(c.minimumGumballPeriod <= duration.value <= c.maximumGumballPeriod) then Err(InvalidGumballPeriod)
      else Ok(start)
  }

  /**
   * `create_gumball`. Succeeds exactly when the admin co-signs, no machine
   * exists yet at the counter value, the terms pass
   * `ValidateCreateGumball`, the creator can pay a positive creation fee,
   * and the counter can grow. Then the new record carries the counter value
   * as its id, no prizes and no tickets sold, no ticket mint exactly for SOL
   * tickets, and status Active exactly when it starts immediately; the
   * counter grows by one and the fee, when positive, moves from the
   * creator to the config account. Every check that fails leaves the store
   * as it was.
   */
  method CreateGumball(
    s: GumballStore,
    admin: Pubkey,
    creator: Pubkey,
    startTime: I64,
    endTime: I64,
    totalTickets: U16,
    ticketPrice: U64,
    isTicketSol: bool,
    startGumball: bool,
    ticketMint: Pubkey,
    now: I64) returns (r: Outcome<GumballError>)
    modifies s`config, s`gumballs, s`ledger
    ensures
      var c := old(s.config);
      r.Pass? <==>
        && admin == c.gumballAdmin
        && c.gumballCount !in old(s.gumballs)
        && ValidateCreateGumball(c, startTime, endTime, totalTickets, ticketPrice, startGumball, now).Ok?
        && (c.creationFeeLamports > 0 ==> Balance(old(s.ledger), WalletLamports(creator)) >= c.creationFeeLamports)
        && c.gumballCount < U32_MAX
    ensures
      var c := old(s.config);
      var id := c.gumballCount;
      r.Pass? ==>
        && s.config == c.(gumballCount := id + 1)
        && s.gumballs == old(s.gumballs)[id := GumballMachine(
             gumballId := id,
             creator := creator,
             startTime := EffectiveStart(startTime, startGumball, now),
             endTime := endTime,
             totalTickets := totalTickets,
             ticketsSold := 0,
             prizesAdded := 0,
             ticketMint := if isTicketSol then None else Some(ticketMint),
             ticketPrice := ticketPrice,
             status := if startGumball then Active else Initialized)]
        && s.ledger == (if c.creationFeeLamports > 0
                        then Move(old(s.ledger), WalletLamports(creator), ConfigLamports(), c.creationFeeLamports)
                        else old(s.ledger))
    ensures r.Fail? ==> s.config == old(s.config) && s.gumballs == old(s.gumballs) && s.ledger == old(s.ledger)
    ensures old(s.Valid()) ==> s.Valid()
  {
    var c := s.config;
    if admin != c.gumballAdmin {
      return Fail(InvalidGumballAdmin);
    }
    if c.gumballCount in s.gumballs {
      return Fail(AccountAlreadyInUse);
    }
    var v := ValidateCreateGumball(c, startTime, endTime, totalTickets, ticketPrice, startGumball, now);
    if v.Err? {
      return Fail(v.error);
    }
    var id := c.gumballCount;
    var gumball := GumballMachine(
      gumballId := id,
      creator := creator,
      startTime := v.value,
      endTime := endTime,
      totalTickets := totalTickets,
      ticketsSold := 0,
      prizesAdded := 0,
      ticketMint := if isTicketSol then None else Some(ticketMint),
      ticketPrice := ticketPrice,
      status := if startGumball then Active else Initialized);
    var fee := c.creationFeeLamports;
    var ledger := s.ledger;
    if fee > 0 {
      if Balance(ledger, WalletLamports(creator)) < fee {
        return Fail(InsufficientSolBalance);
      }
      ledger := Move(ledger, WalletLamports(creator), ConfigLamports(), fee);
    }
    if id + 1 > U32_MAX {
      return Fail(Overflow);
    }
    ghost var wasValid := s.Valid();
    ghost var gumballs0, ledger0 := s.gumballs, s.ledger;
    s.config := c.(gumballCount := id + 1);
    s.gumballs := s.gumballs[id := gumball];
    s.ledger := ledger;
    if wasValid {
      forall h: Holder | h.owner == InstancePda(id)
        ensures Balance(ledger, h) >= Owed(gumball, id, s.prizes, h)
      {
        if h.asset.Token? {
          CommittedNone(s.prizes, id, h.asset.mint, PRIZE_SLOTS);
        }
      }
      PutKeepsValid(c, s.config, gumballs0, s.prizes, s.prizes, ledger0, ledger, id, gumball);
    }
    return Pass;
  }
}

/** `activate_gumball`: the admin starts a machine once its start time has come. */
module GumballActivate {
  import opened Common
  import opened AuctionUtils
  import opened GumballErrors
  import opened GumballStates

  /**
   * `activate_gumball`. Succeeds exactly when the admin signs, the machine
   * exists under its own id, activating is not paused, the machine is
   * Initialized, and now has reached its start time (inclusively); then
   * only its status changes, to Active.
   */
  method ActivateGumball(s: GumballStore, admin: Pubkey, gumballId: U32, now: I64) returns (r: Outcome<GumballError>)
    modifies s`gumballs
    ensures r.Pass? <==>
      && admin == s.config.gumballAdmin
      && gumballId in old(s.gumballs)
      && var g := old(s.gumballs)[gumballId];
      && g.gumballId == gumballId
      && !IsPaused(s.config.pauseFlags, ACTIVATE_GUMBALL_PAUSE)
      && g.status == Initialized
      && now >= g.startTime
    ensures r.Pass? ==> s.gumballs == old(s.gumballs)[gumballId := old(s.gumballs)[gumballId].(status := Active)]
    ensures r.Fail? ==> s.gumballs == old(s.gumballs)
    ensures old(s.Valid()) ==> s.Valid()
  {
    if admin != s.config.gumballAdmin {
      return Fail(InvalidGumballAdmin);
    }
    if gumballId !in s.gumballs {
      return Fail(AccountNotInitialized);
    }
    var g := s.gumballs[gumballId];
    if g.gumballId != gumballId {
      return Fail(InvalidGumballId);
    }
    if IsPaused(s.config.pauseFlags, ACTIVATE_GUMBALL_PAUSE) {
      return Fail(FunctionPaused);
    }
    if g.status != Initialized {
      return Fail(NotInitialized);
    }
    if now < g.startTime {
      return Fail(StartTimeNotReached);
    }
    ghost var wasValid := s.Valid();
    ghost var gumballs0 := s.gumballs;
    var g' := g.(status := Active);
    s.gumballs := s.gumballs[gumballId := g'];
    if wasValid {
      assert Covered(s.ledger, g, gumballId, s.prizes);
      PutKeepsValid(s.config, s.config, gumballs0, s.prizes, s.prizes, s.ledger, s.ledger, gumballId, g');
    }
    return Pass;
  }
}

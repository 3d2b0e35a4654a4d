/**
 * `cancel_gumball`: the creator calls off a machine before any ticket is
 * sold. Only the status changes; the prizes stay in escrow until the
 * creator claims them back.
 */
module GumballCancel {
  import opened Common
  import opened AuctionUtils
  import opened GumballErrors
  import opened GumballStates

  /**
   * `cancel_gumball`. Succeeds exactly when the admin co-signs, the machine
   * exists under its own id, the signer is its creator, cancelling is not
   * paused, no ticket has been sold, and the machine is Initialized or
   * Active; then only its status changes, to Cancelled.
   */
  method CancelGumball(s: GumballStore, admin: Pubkey, creator: Pubkey, gumballId: U32) returns (r: Outcome<GumballError>)
    modifies s`gumballs
    ensures r.Pass? <==>
      && admin == s.config.gumballAdmin
      && gumballId in old(s.gumballs)
      && var g := old(s.gumballs)[gumballId];
      && g.gumballId == gumballId
      && creator == g.creator
      && !IsPaused(s.config.pauseFlags, CANCEL_GUMBALL_PAUSE)
      && g.ticketsSold == 0
      && Open(g)
    ensures r.Pass? ==> s.gumballs == old(s.gumballs)[gumballId := old(s.gumballs)[gumballId].(status := Cancelled)]
    ensures r.Fail? ==> s.gumballs == old(s.gumballs)
    ensures old(s.Valid()) ==> s.Valid()
  {
    if admin != s.config.gumballAdmin {
      return Fail(InvalidGumballAdmin);
    }
    if gumballId !in s.gumballs {
      return Fail(AccountNotInitialized);
    }
    var g := s.gumballs[gumballId];
    if g.gumballId != gumballId {
      return Fail(InvalidGumballId);
    }
    if creator != g.creator {
      return Fail(InvalidCreator);
    }
    if IsPaused(s.config.pauseFlags, CANCEL_GUMBALL_PAUSE) {
      return Fail(FunctionPaused);
    }
    if g.ticketsSold != 0 {
      return Fail(TicketsAlreadySold);
    }
    if !Open(g) {
      return Fail(InvalidGumballState);
    }
    ghost var wasValid := s.Valid();
    ghost var gumballs0 := s.gumballs;
    var g' := g.(status := Cancelled);
    s.gumballs := s.gumballs[gumballId := g'];
    if wasValid {
      PutKeepsValid(s.config, s.config, gumballs0, s.prizes, s.prizes, s.ledger, s.ledger, gumballId, g');
    }
    return Pass;
  }
}

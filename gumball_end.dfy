/**
 * `end_gumball`: closing a machine after its end. Without a ticket sold the
 * machine is marked CompletedFailed and nothing moves. Otherwise the ticket
 * revenue, price times tickets sold, is split into the ticket fee, paid to
 * the config account, and the creator's amount, and the machine is marked
 * CompletedSuccessfully. The prizes left in escrow stay there for the
 * creator to claim back.
 */
module GumballEnd {
  import opened Common
  import opened AuctionUtils
  import opened GumballErrors
  import opened GumballStates

  /**
   * The payout of the revenue, split as `split`, in source order: for token
   * tickets the supplied ticket mint must be the machine's; then the fee
   * goes from the ticket vault to the config account's fee account for the
   * ticket asset and the rest to the creator's account for it. Since the two
   * parts add up to the revenue, this goes through exactly when the mint
   * matches and the vault holds the whole revenue; the vault then loses it
   * and the fee account and the creator gain exactly their parts.
   */
  function PayOut(g: GumballMachine, id: nat, creator: Pubkey, ticketMint: Pubkey, split: FeeSplit, l: Ledger)
    : (res: Result<Ledger, GumballError>)
    requires split.fee + split.rest == g.ticketPrice * g.ticketsSold
    ensures res.Ok? <==>
      && (g.ticketMint.Some? ==> ticketMint == g.ticketMint.value)
      && Balance(l, TicketVault(g, id)) >= g.ticketPrice * g.ticketsSold
    ensures g.ticketMint.Some? && ticketMint != g.ticketMint.value ==> res == Err(InvalidTicketMint)
    ensures res.Ok? ==>
      && Balance(res.value, TicketVault(g, id)) == Balance(l, TicketVault(g, id)) - g.ticketPrice * g.ticketsSold
      && Balance(res.value, FeeVault(g.ticketMint)) == Balance(l, FeeVault(g.ticketMint)) + split.fee
      && Balance(res.value, WalletAccount(creator, g.ticketMint)) == Balance(l, WalletAccount(creator, g.ticketMint)) + split.rest
    ensures res.Ok? ==> SameInstanceBalances(l, res.value, id)
  {
    if g.ticketMint.Some? && ticketMint != g.ticketMint.value then Err(InvalidTicketMint)
    else
      var vault := TicketVault(g, id);
      if Balance(l, vault) < split.fee then Err(TicketShortfall(g.ticketMint))
      else
        var l1 := Move(l, vault, FeeVault(g.ticketMint), split.fee);
        if Balance(l1, vault) < split.rest then Err(TicketShortfall(g.ticketMint))
        else Ok(Move(l1, vault, WalletAccount(creator, g.ticketMint), split.rest))
  }

  /**
   * The outcome of an ending once the machine is known to be over: the
   * status it gets, how the revenue was split, and the ledger. With no
   * ticket sold, CompletedFailed, a split of nothing and no movement. With
   * tickets sold, the revenue must fit in u64 and split at the ticket fee
   * rate (`SplitFee`), and `PayOut` must go through; the status is then
   * CompletedSuccessfully.
   */
  function Settle(g: GumballMachine, id: nat, bps: U16, creator: Pubkey, ticketMint: Pubkey, l: Ledger)
    : (res: Result<(GumballState, FeeSplit, Ledger), GumballError>)
    ensures g.ticketsSold == 0 ==> res == Ok((CompletedFailed, FeeSplit(0, 0), l))
    ensures g.ticketsSold > 0 ==>
      var revenue := g.ticketPrice * g.ticketsSold;
      && (res.Ok? <==>
            && revenue <= U64_MAX
            && SplitFee(revenue, bps, FEE_MANTISSA).Some?
            && PayOut(g, id, creator, ticketMint, SplitFee(revenue, bps, FEE_MANTISSA).value, l).Ok?)
      && (revenue > U64_MAX ==> res == Err(Overflow))
      && (res.Ok? ==>
            res.value == (CompletedSuccessfully, SplitFee(revenue, bps, FEE_MANTISSA).value,
                          PayOut(g, id, creator, ticketMint, SplitFee(revenue, bps, FEE_MANTISSA).value, l).value))
    ensures res.Ok? ==> res.value.1.fee + res.value.1.rest == g.ticketPrice * g.ticketsSold
    ensures res.Ok? ==> SameInstanceBalances(l, res.value.2, id)
  {
    if g.ticketsSold == 0 then Ok((CompletedFailed, FeeSplit(0, 0), l))
    else
      var revenue := g.ticketPrice * g.ticketsSold;
      if revenue > U64_MAX then Err(Overflow)
      else
        var split := SplitFee(revenue, bps, FEE_MANTISSA);
        if split.None? then Err(Overflow)
        else
          var paid := PayOut(g, id, creator, ticketMint, split.value, l);
          if paid.Err? then Err(paid.error)
          else Ok((CompletedSuccessfully, split.value, paid.value))
  }

  /**
   * `end_gumball`. Succeeds exactly when the admin co-signs, the machine
   * exists under its own id, the named creator is its creator, ending is not
   * paused, the machine is Active, now is strictly after its end, and
   * `Settle` goes through. Then only the machine's status changes, the
   * ledger is as `Settle` leaves it, and the reported fee and creator's
   * amount add up to the revenue, the fee being the floor of the ticket fee
   * rate applied to it. On a valid store an ending of an over Active machine
   * with its own ticket mint, whose revenue and revenue times the rate fit in
   * u64 at a rate of at most 100%, always goes through.
   */
  method EndGumball(s: GumballStore, admin: Pubkey, creator: Pubkey, gumballId: U32, ticketMint: Pubkey, now: I64)
    returns (r: Result<FeeSplit, GumballError>)
    modifies s`gumballs, s`ledger
    ensures r.Ok? <==>
      && admin == s.config.gumballAdmin
      && gumballId in old(s.gumballs)
      && var g := old(s.gumballs)[gumballId];
      && g.gumballId == gumballId
      && creator == g.creator
      && !IsPaused(s.config.pauseFlags, END_GUMBALL_PAUSE)
      && g.status == Active
      && now > g.endTime
      && Settle(g, gumballId, s.config.ticketFeeBps, creator, ticketMint, old(s.ledger)).Ok?
    ensures r.Ok? ==>
      var g := old(s.gumballs)[gumballId];
      var done := Settle(g, gumballId, s.config.ticketFeeBps, creator, ticketMint, old(s.ledger)).value;
      && s.gumballs == old(s.gumballs)[gumballId := g.(status := done.0)]
      && r.value == done.1
      && s.ledger == done.2
    ensures r.Ok? ==>
      var g := old(s.gumballs)[gumballId];
      && (g.ticketsSold == 0 ==> s.gumballs[gumballId].status == CompletedFailed && s.ledger == old(s.ledger))
      && (g.ticketsSold > 0 ==>
            && s.gumballs[gumballId].status == CompletedSuccessfully
            && r.value.fee + r.value.rest == g.ticketPrice * g.ticketsSold
            && r.value.fee * FEE_MANTISSA <= g.ticketPrice * g.ticketsSold * s.config.ticketFeeBps
            && g.ticketPrice * g.ticketsSold * s.config.ticketFeeBps < (r.value.fee + 1) * FEE_MANTISSA)
    ensures
      (&& old(s.Valid())
       && admin == s.config.gumballAdmin
       && gumballId in old(s.gumballs)
       && var g := old(s.gumballs)[gumballId];
       && creator == g.creator
       && !IsPaused(s.config.pauseFlags, END_GUMBALL_PAUSE)
       && g.status == Active
       && now > g.endTime
       && (g.ticketsSold > 0 ==>
             && (g.ticketMint.Some? ==> ticketMint == g.ticketMint.value)
             && g.ticketPrice * g.ticketsSold * s.config.ticketFeeBps <= U64_MAX
             && g.ticketPrice * g.ticketsSold <= U64_MAX
             && s.config.ticketFeeBps <= FEE_MANTISSA)) ==> r.Ok?
    ensures r.Err? ==> s.gumballs == old(s.gumballs) && s.ledger == old(s.ledger)
    ensures old(s.Valid()) ==> s.Valid()
  {
    if admin != s.config.gumballAdmin {
      return Err(InvalidGumballAdmin);
    }
    if gumballId !in s.gumballs {
      return Err(AccountNotInitialized);
    }
    var g := s.gumballs[gumballId];
    if g.gumballId != gumballId {
      return Err(InvalidGumballId);
    }
    if creator != g.creator {
      return Err(InvalidCreator);
    }
    if IsPaused(s.config.pauseFlags, END_GUMBALL_PAUSE) {
      return Err(FunctionPaused);
    }
    if g.status != Active {
      return Err(InvalidGumballState);
    }
    if now <= g.endTime {
      return Err(EndTimeNotReached);
    }
    ghost var wasValid := s.Valid();
    if wasValid {
      var vault := TicketVault(g, gumballId);
      assert Balance(s.ledger, vault) >= Owed(g, gumballId, s.prizes, vault);
    }
    var done := Settle(g, gumballId, s.config.ticketFeeBps, creator, ticketMint, s.ledger);
    if done.Err? {
      return Err(done.error);
    }
    ghost var gumballs0, ledger0 := s.gumballs, s.ledger;
    var g' := g.(status := done.value.0);
    s.gumballs := s.gumballs[gumballId := g'];
    s.ledger := done.value.2;
    if wasValid {
      PutKeepsValid(s.config, s.config, gumballs0, s.prizes, s.prizes, ledger0, s.ledger, gumballId, g');
    }
    return Ok(done.value.1);
  }
}

/**
 * `spin_gumball`: a spinner pays one ticket and receives one unit of a chosen
 * prize slot. The slot loses the unit, the machine counts one more ticket
 * sold, the unit's tokens leave the machine's escrow for the prize mint and
 * the ticket price enters its ticket vault. When the slot's last unit goes,
 * the escrow is closed, which the token program refuses while it still
 * holds tokens.
 */
module GumballSpin {
  import opened Common
  import opened AuctionUtils
  import opened GumballErrors
  import opened GumballStates

  /**
   * The slot record after one unit has been handed out: one unit fewer, and
   * the unit's tokens off the total, which the source clamps at zero. On a
   * valid record the clamp never applies.
   */
  function TakeUnit(p: Prize): (r: Prize)
    requires p.quantity > 0
    ensures r.quantity + 1 == p.quantity
    ensures r.totalAmount <= p.totalAmount
    ensures p.totalAmount >= p.prizeAmount ==> r.totalAmount + p.prizeAmount == p.totalAmount
    ensures p.totalAmount < p.prizeAmount ==> r.totalAmount == 0
    ensures r.(quantity := p.quantity, totalAmount := p.totalAmount) == p
  {
    p.(quantity := p.quantity - 1, totalAmount := SaturatingSubU64(p.totalAmount, p.prizeAmount))
  }

  /** Handing out a unit of a valid record leaves a valid record that still holds exactly its units' tokens. */
  lemma TakeUnitKeepsValid(k: (nat, nat), p: Prize)
    requires PrizeValid(k, p) && p.quantity > 0
    ensures PrizeValid(k, TakeUnit(p))
    ensures TakeUnit(p).totalAmount + p.prizeAmount == p.totalAmount
  {
    assert p.prizeAmount * p.quantity == p.prizeAmount * (p.quantity - 1) + p.prizeAmount;
  }

  /**
   * The body checks of `spin_gumball` on the machine and the slot, in
   * source order: spinning is not paused, the machine is Active and not past
   * its end, it has more prizes than tickets sold, the supplied mint is the
   * slot's, and the slot has a unit left.
   */
  function ValidateSpin(c: GumballConfig, g: GumballMachine, p: Prize, prizeMint: Pubkey, now: I64)
    : (r: Outcome<GumballError>)
    ensures r.Pass? <==>
      && !IsPaused(c.pauseFlags, SPIN_GUMBALL_PAUSE)
      && g.status == Active
      && g.endTime >= now
      && g.prizesAdded > g.ticketsSold
      && p.mint == prizeMint
      && p.quantity > 0
    ensures IsPaused(c.pauseFlags, SPIN_GUMBALL_PAUSE) ==> r == Fail(FunctionPaused)
    ensures !IsPaused(c.pauseFlags, SPIN_GUMBALL_PAUSE) && g.status != Active ==> r == Fail(InvalidGumballState)
  {
    if IsPaused(c.pauseFlags, SPIN_GUMBALL_PAUSE) then Fail(FunctionPaused)
    else if g.status != Active then Fail(InvalidGumballState)
    else if g.endTime < now then Fail(EndTimeIsReached)
    else if g.prizesAdded <= g.ticketsSold then Fail(PrizesExceedTickets)
    else if p.mint != prizeMint then Fail(PrizeMintMismatch)
    else if p.quantity == 0 then Fail(InvalidPrizeQuantity)
    else Pass
  }

  /** What a spin adds to or takes from an account of the machine: the unit's tokens leave the prize escrow, the ticket price enters the ticket vault. */
  function SpinDelta(g: GumballMachine, id: nat, p: Prize, h: Holder): int
  {
    (if h == TicketVault(g, id) then g.ticketPrice else 0) - (if h == InstanceEscrow(id, p.mint) then p.prizeAmount else 0)
  }

  /**
   * The value movements of a spin, in source order: one unit of the slot
   * from the machine's escrow for its mint to the spinner; for token
   * tickets the supplied ticket mint must be the machine's; the ticket price
   * from the spinner to the ticket vault; and, when this was the slot's last
   * unit, the close of the prize escrow, which needs it empty. The spinner
   * pays after receiving, so when tickets and prize share a mint the prize
   * can pay for the ticket (but then the escrow, also the ticket vault, can
   * never be closed). The machine's accounts change by `SpinDelta` exactly.
   */
  function SpinTransfers(g: GumballMachine, id: nat, p: Prize, spinner: Pubkey, ticketMint: Pubkey, l: Ledger)
    : (res: Result<Ledger, GumballError>)
    requires p.quantity > 0
    ensures var escrow := InstanceEscrow(id, p.mint);
      res.Ok? <==>
        && Balance(l, escrow) >= p.prizeAmount
        && (g.ticketMint.Some? ==> ticketMint == g.ticketMint.value)
        && Balance(l, WalletAccount(spinner, g.ticketMint))
           + (if g.ticketMint == Some(p.mint) then p.prizeAmount else 0) >= g.ticketPrice
        && (p.quantity == 1 ==> Balance(l, escrow) + SpinDelta(g, id, p, escrow) == 0)
    ensures Balance(l, InstanceEscrow(id, p.mint)) < p.prizeAmount ==> res == Err(InsufficientTokenBalance)
    ensures res.Ok? ==>
      forall h: Holder :: h.owner == InstancePda(id) ==> Balance(res.value, h) == Balance(l, h) + SpinDelta(g, id, p, h)
    ensures res.Ok? && g.ticketMint != Some(p.mint) ==>
      && Balance(res.value, WalletTokens(spinner, p.mint)) == Balance(l, WalletTokens(spinner, p.mint)) + p.prizeAmount
      && Balance(res.value, WalletAccount(spinner, g.ticketMint)) == Balance(l, WalletAccount(spinner, g.ticketMint)) - g.ticketPrice
    ensures res.Ok? ==> SameInstanceBalances(l, res.value, id)
  {
    var escrow := InstanceEscrow(id, p.mint);
    if Balance(l, escrow) < p.prizeAmount then Err(InsufficientTokenBalance)
    else
      var l1 := Move(l, escrow, WalletTokens(spinner, p.mint), p.prizeAmount);
      if g.ticketMint.Some? && ticketMint != g.ticketMint.value then Err(InvalidTicketMint)
      else
        var payer := WalletAccount(spinner, g.ticketMint);
        if Balance(l1, payer) < g.ticketPrice then Err(TicketShortfall(g.ticketMint))
        else
          var l2 := Move(l1, payer, TicketVault(g, id), g.ticketPrice);
          if p.quantity == 1 && Balance(l2, escrow) != 0 then Err(CloseAccountFailed)
          else Ok(l2)
  }

  /**
   * A spin keeps its machine covered: the escrow loses one unit's tokens
   * and the slot commits exactly that much less of the mint, the ticket
   * vault gains the price and the machine owes exactly one more ticket's
   * revenue out of it.
   */
  lemma SpinKeepsCovered(l: Ledger, l': Ledger, g: GumballMachine, id: nat, prizes: map<(nat, nat), Prize>, i: nat,
                         p: Prize)
    requires Covered(l, g, id, prizes) && g.ticketsSold < g.prizesAdded
    requires i < PRIZE_SLOTS && (id, i) in prizes && prizes[(id, i)].quantity > 0
    requires p == TakeUnit(prizes[(id, i)]) && p.totalAmount + p.prizeAmount == prizes[(id, i)].totalAmount
    requires forall h: Holder :: h.owner == InstancePda(id) ==> Balance(l', h) == Balance(l, h) + SpinDelta(g, id, prizes[(id, i)], h)
    ensures Covered(l', g.(ticketsSold := g.ticketsSold + 1), id, prizes[(id, i) := p])
  {
    var g' := g.(ticketsSold := g.ticketsSold + 1);
    assert g'.ticketPrice * g'.ticketsSold == g.ticketPrice * g.ticketsSold + g.ticketPrice;
    forall h: Holder | h.owner == InstancePda(id)
      ensures Balance(l', h) >= Owed(g', id, prizes[(id, i) := p], h)
    {
      assert Balance(l, h) >= Owed(g, id, prizes, h);
      if h.asset.Token? {
        CommittedPut(prizes, id, h.asset.mint, i, p, PRIZE_SLOTS);
      }
    }
  }

  /** A spin keeps the store valid: the slot's record stays valid, the machine sells at most as many tickets as it has prizes, and it stays covered. */
  lemma SpinKeepsValid(c: GumballConfig, gumballs: map<nat, GumballMachine>, prizes: map<(nat, nat), Prize>,
                       l: Ledger, gumballId: U32, prizeIndex: U16,
                       gumballs': map<nat, GumballMachine>, prizes': map<(nat, nat), Prize>, l': Ledger)
    requires StateValid(c, gumballs, prizes, l) && gumballId in gumballs
    requires (gumballId as nat, prizeIndex as nat) in prizes
    requires gumballs[gumballId].status == Active && gumballs[gumballId].ticketsSold < gumballs[gumballId].prizesAdded
    requires prizes[(gumballId as nat, prizeIndex as nat)].quantity > 0
    requires SameInstanceBalances(l, l', gumballId)
    requires forall h: Holder :: h.owner == InstancePda(gumballId) ==>
      Balance(l', h) == Balance(l, h) + SpinDelta(gumballs[gumballId], gumballId, prizes[(gumballId as nat, prizeIndex as nat)], h)
    requires gumballs' == gumballs[gumballId := gumballs[gumballId].(ticketsSold := gumballs[gumballId].ticketsSold + 1)]
    requires prizes' == prizes[(gumballId as nat, prizeIndex as nat) := TakeUnit(prizes[(gumballId as nat, prizeIndex as nat)])]
    ensures StateValid(c, gumballs', prizes', l')
  {
    var g := gumballs[gumballId];
    var g' := g.(ticketsSold := g.ticketsSold + 1);
    var key := (gumballId as nat, prizeIndex as nat);
    var q := prizes[key];
    var p := TakeUnit(q);
    TakeUnitKeepsValid(key, q);
    SpinKeepsCovered(l, l', g, gumballId, prizes, prizeIndex, p);
    PutPrizeKeepsValid(c, gumballs, prizes, l, l', key, p, g');
  }

  /**
   * `spin_gumball`. Succeeds exactly when the admin co-signs, the machine
   * exists under its own id, the slot's record exists and carries this
   * machine's id and this index, the checks of `ValidateSpin` pass and the
   * movements of `SpinTransfers` go through. Then the slot has one unit
   * fewer (`TakeUnit`), the machine one more ticket sold, and the ledger is
   * as `SpinTransfers` leaves it. On a valid store, a spin on an Active
   * machine before its end, with prizes left over tickets, the slot's own
   * mint, a unit left, the machine's ticket mint and a spinner who can pay
   * always goes through, unless it takes the slot's last unit while the
   * escrow holds more than that unit or also holds the ticket payments.
   */
  method SpinGumball(s: GumballStore, admin: Pubkey, spinner: Pubkey, gumballId: U32, prizeIndex: U16,
                     prizeMint: Pubkey, ticketMint: Pubkey, now: I64) returns (r: Outcome<GumballError>)
    modifies s`gumballs, s`prizes, s`ledger
    ensures r.Pass? <==>
      && admin == s.config.gumballAdmin
      && gumballId in old(s.gumballs)
      && var g := old(s.gumballs)[gumballId];
      && g.gumballId == gumballId
      && var key := (gumballId as nat, prizeIndex as nat);
      && key in old(s.prizes)
      && var p := old(s.prizes)[key];
      && p.gumballId == gumballId && p.prizeIndex == prizeIndex
      && ValidateSpin(s.config, g, p, prizeMint, now).Pass?
      && SpinTransfers(g, gumballId, p, spinner, ticketMint, old(s.ledger)).Ok?
    ensures r.Pass? ==>
      var g := old(s.gumballs)[gumballId];
      var key := (gumballId as nat, prizeIndex as nat);
      var p := old(s.prizes)[key];
      && s.gumballs == old(s.gumballs)[gumballId := g.(ticketsSold := g.ticketsSold + 1)]
      && s.prizes == old(s.prizes)[key := TakeUnit(p)]
      && s.ledger == SpinTransfers(g, gumballId, p, spinner, ticketMint, old(s.ledger)).value
    ensures r.Fail? ==> s.gumballs == old(s.gumballs) && s.prizes == old(s.prizes) && s.ledger == old(s.ledger)
    ensures
      (&& old(s.Valid())
       && admin == s.config.gumballAdmin
       && gumballId in old(s.gumballs)
       && var g := old(s.gumballs)[gumballId];
       && var key := (gumballId as nat, prizeIndex as nat);
       && key in old(s.prizes)
       && var p := old(s.prizes)[key];
       && ValidateSpin(s.config, g, p, prizeMint, now).Pass?
       && (g.ticketMint.Some? ==> ticketMint == g.ticketMint.value)
       && Balance(old(s.ledger), WalletAccount(spinner, g.ticketMint)) >= g.ticketPrice
       && (p.quantity == 1 ==>
             Balance(old(s.ledger), InstanceEscrow(gumballId, p.mint)) == p.prizeAmount && g.ticketMint != Some(p.mint)))
      ==> r.Pass?
    ensures old(s.Valid()) ==> s.Valid()
  {
    if admin != s.config.gumballAdmin {
      return Fail(InvalidGumballAdmin);
    }
    if gumballId !in s.gumballs {
      return Fail(AccountNotInitialized);
    }
    var g := s.gumballs[gumballId];
    if g.gumballId != gumballId {
      return Fail(InvalidGumballId);
    }
    var key := (gumballId as nat, prizeIndex as nat);
    if key !in s.prizes {
      return Fail(AccountNotInitialized);
    }
    var p := s.prizes[key];
    if p.gumballId != gumballId {
      return Fail(InvalidGumballId);
    }
    if p.prizeIndex != prizeIndex {
      return Fail(InvalidPrizeIndex);
    }
    ghost var wasValid := s.Valid();
    var v := ValidateSpin(s.config, g, p, prizeMint, now);
    if v.Fail? {
      return v;
    }
    if wasValid {
      PrizeFunded(s.config, s.gumballs, s.prizes, s.ledger, key);
    }
    var moved := SpinTransfers(g, gumballId, p, spinner, ticketMint, s.ledger);
    if moved.Err? {
      return Fail(moved.error);
    }
    ghost var gumballs0, prizes0, ledger0 := s.gumballs, s.prizes, s.ledger;
    s.gumballs := s.gumballs[gumballId := g.(ticketsSold := g.ticketsSold + 1)];
    s.prizes := s.prizes[key := TakeUnit(p)];
    s.ledger := moved.value;
    if wasValid {
      SpinKeepsValid(s.config, gumballs0, prizes0, ledger0, gumballId, prizeIndex, s.gumballs, s.prizes, s.ledger);
    }
    return Pass;
  }
}

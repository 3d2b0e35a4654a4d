/**
 * `add_prize`: the creator stocks a prize slot of an open machine with
 * `quantity` units of `prizeAmount` tokens each, creating the slot's record
 * or topping up an existing one, and deposits the tokens into the
 * machine's escrow for the prize mint.
 */
module GumballAddPrize {
  import opened Common
  import opened AuctionUtils
  import opened GumballErrors
  import opened GumballStates

  /**
   * The deposit of an addition as the source computes it: the product is
   * taken in u128, where it always fits, and then cast to u64, which keeps
   * only its low 64 bits.
   */
  function AddAmountAsWritten(prizeAmount: U64, quantity: U16): (r: U64)
    ensures prizeAmount * quantity <= U64_MAX ==> r == prizeAmount * quantity
  {
    (prizeAmount * quantity) % (U64_MAX + 1)
  }

  /**
   * The cast loses the deposit: a new slot of two units of 2^63 tokens
   * records a total of 0 and asks the creator for 0 tokens, so the record
   * promises what the escrow was never given.
   */
  lemma AddAmountAsWrittenWraps()
    ensures AddAmountAsWritten(0x8000_0000_0000_0000, 2) == 0
    ensures !PrizeValid((1, 0), Prize(1, 0, false, 7, AddAmountAsWritten(0x8000_0000_0000_0000, 2),
                                      0x8000_0000_0000_0000, 2))
  {
  }

  /**
   * The deposit of an addition with the evidently intended checked
   * conversion: the exact product, or the Overflow error when it does not
   * fit in u64.
   */
  function AddAmount(prizeAmount: U64, quantity: U16): (r: Result<U64, GumballError>)
    ensures r.Ok? <==> prizeAmount * quantity <= U64_MAX
    ensures r.Ok? ==> r.value == prizeAmount * quantity && r.value == AddAmountAsWritten(prizeAmount, quantity)
    ensures r.Err? ==> r.error == Overflow
  {
    if prizeAmount * quantity > U64_MAX then Err(Overflow) else Ok(prizeAmount * quantity)
  }

  /**
   * The unit checks of an addition: an NFT is added as one unit of one
   * token, anything else as a positive number of units of a positive
   * amount.
   */
  function CheckUnits(isNft: bool, prizeAmount: U64, quantity: U16): (r: Outcome<GumballError>)
    ensures r.Pass? <==> if isNft then prizeAmount == 1 && quantity == 1 else prizeAmount > 0 && quantity > 0
  {
    if isNft then
      if prizeAmount != 1 then Fail(InvalidNftPrizeAmount)
      else if quantity != 1 then Fail(InvalidNftPrizeQuantity)
      else Pass
    else if prizeAmount == 0 then Fail(InvalidPrizeAmount)
    else if quantity == 0 then Fail(InvalidPrizeQuantity)
    else Pass
  }

  /** A slot holds a prize once its record carries a mint: a fresh record's fields are all zero. */
  predicate SlotTaken(prizes: map<(nat, nat), Prize>, key: (nat, nat))
  {
    key in prizes && prizes[key].mint != DEFAULT_PUBKEY
  }

  /**
   * The slot record after an addition of `quantity` units worth `amount`
   * tokens. A free slot gets a new record for exactly these units. A taken
   * slot must be this slot of this machine, hold the same mint and unit
   * amount, and be no NFT, nor may the addition be one; it then grows by
   * the units and their tokens, within u64 and u16.
   */
  function StockSlot(prizes: map<(nat, nat), Prize>, gumballId: U32, prizeIndex: U16, isNft: bool, mint: Pubkey,
                     prizeAmount: U64, quantity: U16, amount: U64): (r: Result<Prize, GumballError>)
    ensures var key := (gumballId as nat, prizeIndex as nat);
      !SlotTaken(prizes, key) ==> r == Ok(Prize(gumballId, prizeIndex, isNft, mint, amount, prizeAmount, quantity))
    ensures var key := (gumballId as nat, prizeIndex as nat);
      SlotTaken(prizes, key) ==>
        var p := prizes[key];
        && (r.Ok? <==>
              && p.gumballId == gumballId && p.prizeIndex == prizeIndex && p.mint == mint
              && p.prizeAmount == prizeAmount && !p.ifPrizeNft && !isNft
              && p.totalAmount + amount <= U64_MAX && p.quantity + quantity <= U16_MAX)
        && (r.Ok? ==> r.value == p.(totalAmount := p.totalAmount + amount, quantity := p.quantity + quantity))
  {
    var key := (gumballId as nat, prizeIndex as nat);
    if !SlotTaken(prizes, key) then Ok(Prize(gumballId, prizeIndex, isNft, mint, amount, prizeAmount, quantity))
    else
      var p := prizes[key];
      if p.gumballId != gumballId then Err(InvalidGumballId)
      else if p.prizeIndex != prizeIndex then Err(InvalidPrizeIndex)
      else if p.mint != mint then Err(PrizeMintMismatch)
      else if p.prizeAmount != prizeAmount then Err(PrizeAmountMismatch)
      else if p.ifPrizeNft || isNft then Err(CannotAddExistingNftPrize)
      else if p.totalAmount + amount > U64_MAX then Err(Overflow)
      else if p.quantity + quantity > U16_MAX then Err(Overflow)
      else Ok(p.(totalAmount := p.totalAmount + amount, quantity := p.quantity + quantity))
  }

  /**
   * An addition keeps a machine covered: the slot's new record commits at
   * most `amount` more tokens of its mint than the old one did, at most
   * what the deposit added to the escrow, and nothing else the machine owes
   * or holds changed.
   */
  lemma StockKeepsCovered(l: Ledger, l': Ledger, g: GumballMachine, g': GumballMachine, id: nat,
                          prizes: map<(nat, nat), Prize>, i: nat, p: Prize, amount: nat)
    requires Covered(l, g, id, prizes)
    requires i < PRIZE_SLOTS
    requires TicketVault(g', id) == TicketVault(g, id) && g'.ticketPrice * g'.ticketsSold == g.ticketPrice * g.ticketsSold
    requires p.totalAmount <= SlotShare(prizes, id, p.mint, i) + amount
    requires Balance(l', InstanceEscrow(id, p.mint)) == Balance(l, InstanceEscrow(id, p.mint)) + amount
    requires forall h: Holder :: h.owner == InstancePda(id) && h != InstanceEscrow(id, p.mint) ==> Balance(l', h) == Balance(l, h)
    ensures Covered(l', g', id, prizes[(id, i) := p])
  {
    forall h: Holder | h.owner == InstancePda(id)
      ensures Balance(l', h) >= Owed(g', id, prizes[(id, i) := p], h)
    {
      assert Balance(l, h) >= Owed(g, id, prizes, h);
      if h.asset.Token? {
        CommittedPut(prizes, id, h.asset.mint, i, p, PRIZE_SLOTS);
      }
    }
  }

  /**
   * The body checks of `add_prize` before the slot is looked at, in source
   * order: adding is not paused, the machine is open and not past its end,
   * the units pass `CheckUnits`, the prize count stays within u16 and
   * within the number of tickets.
   */
  function ValidateAddPrize(c: GumballConfig, g: GumballMachine, now: I64, isNft: bool, prizeAmount: U64,
                            quantity: U16): (r: Outcome<GumballError>)
    ensures r.Pass? <==>
      && !IsPaused(c.pauseFlags, ADD_PRIZE_IN_GUMBALL_PAUSE)
      && Open(g)
      && g.endTime >= now
      && CheckUnits(isNft, prizeAmount, quantity).Pass?
      && g.prizesAdded + quantity <= g.totalTickets
    ensures (!IsPaused(c.pauseFlags, ADD_PRIZE_IN_GUMBALL_PAUSE) && Open(g) && g.endTime >= now &&
             CheckUnits(isNft, prizeAmount, quantity).Pass? && g.prizesAdded + quantity > g.totalTickets) ==>
      r.error == if g.prizesAdded + quantity > U16_MAX then Overflow else PrizesExceedTickets
  {
    if IsPaused(c.pauseFlags, ADD_PRIZE_IN_GUMBALL_PAUSE) then Fail(FunctionPaused)
    else if !Open(g) then Fail(InvalidGumballState)
    else if g.endTime < now then Fail(EndTimeIsReached)
    else
      var units := CheckUnits(isNft, prizeAmount, quantity);
      if units.Fail? then units
      else if g.prizesAdded + quantity > U16_MAX then Fail(Overflow)
      else if g.totalTickets < g.prizesAdded + quantity then Fail(PrizesExceedTickets)
      else Pass
  }

  /**
   * The record an accepted addition leaves in a slot is valid: its total is
   * exactly its units times the unit amount, whether the slot was free or
   * already held valid units of the same prize.
   */
  lemma StockedPrizeValid(prizes: map<(nat, nat), Prize>, gumballId: U32, prizeIndex: U16, isNft: bool, mint: Pubkey,
                          prizeAmount: U64, quantity: U16, amount: U64)
    requires var key := (gumballId as nat, prizeIndex as nat); key in prizes ==> PrizeValid(key, prizes[key])
    requires CheckUnits(isNft, prizeAmount, quantity).Pass? && AddAmount(prizeAmount, quantity) == Ok(amount)
    requires StockSlot(prizes, gumballId, prizeIndex, isNft, mint, prizeAmount, quantity, amount).Ok?
    ensures PrizeValid((gumballId as nat, prizeIndex as nat),
                       StockSlot(prizes, gumballId, prizeIndex, isNft, mint, prizeAmount, quantity, amount).value)
  {
    var key := (gumballId as nat, prizeIndex as nat);
    var p := StockSlot(prizes, gumballId, prizeIndex, isNft, mint, prizeAmount, quantity, amount).value;
    if SlotTaken(prizes, key) {
      var q := prizes[key];
      calc {
        p.totalAmount;
        q.totalAmount + amount;
        prizeAmount * q.quantity + prizeAmount * quantity;
        prizeAmount * (q.quantity + quantity);
      }
    }
  }

  /**
   * Stocking a slot keeps the store valid: the new record is valid, the
   * prize counters stay below the number of tickets, and the machine stays
   * covered.
   */
  lemma AddKeepsValid(c: GumballConfig, gumballs: map<nat, GumballMachine>, prizes: map<(nat, nat), Prize>,
                      l: Ledger, gumballId: U32, prizeIndex: U16, isNft: bool, mint: Pubkey, prizeAmount: U64,
                      quantity: U16, amount: U64, creator: Pubkey, now: I64,
                      gumballs': map<nat, GumballMachine>, prizes': map<(nat, nat), Prize>, l': Ledger)
    requires StateValid(c, gumballs, prizes, l) && gumballId in gumballs
    requires ValidateAddPrize(c, gumballs[gumballId], now, isNft, prizeAmount, quantity).Pass?
    requires AddAmount(prizeAmount, quantity) == Ok(amount)
    requires StockSlot(prizes, gumballId, prizeIndex, isNft, mint, prizeAmount, quantity, amount).Ok?
    requires Balance(l, WalletTokens(creator, mint)) >= amount
    requires gumballs' == gumballs[gumballId := gumballs[gumballId].(prizesAdded := gumballs[gumballId].prizesAdded + quantity)]
    requires prizes' == prizes[(gumballId as nat, prizeIndex as nat) :=
                                 StockSlot(prizes, gumballId, prizeIndex, isNft, mint, prizeAmount, quantity, amount).value]
    requires l' == Move(l, WalletTokens(creator, mint), InstanceEscrow(gumballId, mint), amount)
    ensures StateValid(c, gumballs', prizes', l')
  {
    var g := gumballs[gumballId];
    var g' := g.(prizesAdded := g.prizesAdded + quantity);
    var key := (gumballId as nat, prizeIndex as nat);
    var p := StockSlot(prizes, gumballId, prizeIndex, isNft, mint, prizeAmount, quantity, amount).value;
    StockedPrizeValid(prizes, gumballId, prizeIndex, isNft, mint, prizeAmount, quantity, amount);
    MoveKeepsOtherInstances(l, WalletTokens(creator, mint), InstanceEscrow(gumballId, mint), amount, gumballId);
    StockKeepsCovered(l, l', g, g', gumballId, prizes, prizeIndex, p, amount);
    PutPrizeKeepsValid(c, gumballs, prizes, l, l', key, p, g');
  }

  /**
   * `add_prize`. Succeeds exactly when the admin co-signs, the machine
   * exists under its own id, the signer is its creator, the machine passes
   * `ValidateAddPrize`, the deposit fits in u64 (`AddAmount`), the slot accepts the
   * addition (`StockSlot`) and the creator holds the deposit. Then the slot
   * holds the new record, the machine counts `quantity` more prizes, and
   * the deposit has moved from the creator's token account to the
   * machine's escrow for the mint.
   */
  method AddPrize(s: GumballStore, admin: Pubkey, creator: Pubkey, gumballId: U32, prizeIndex: U16,
                  prizeAmount: U64, quantity: U16, prizeMint: Pubkey, prizeMintAccount: Mint, now: I64)
    returns (r: Outcome<GumballError>)
    modifies s`gumballs, s`prizes, s`ledger
    ensures r.Pass? <==>
      && admin == s.config.gumballAdmin
      && gumballId in old(s.gumballs)
      && var g := old(s.gumballs)[gumballId];
      && g.gumballId == gumballId
      && creator == g.creator
      && ValidateAddPrize(s.config, g, now, ValidateNft(prizeMintAccount), prizeAmount, quantity).Pass?
      && AddAmount(prizeAmount, quantity).Ok?
      && var amount := AddAmount(prizeAmount, quantity).value;
      && StockSlot(old(s.prizes), gumballId, prizeIndex, ValidateNft(prizeMintAccount), prizeMint, prizeAmount,
                   quantity, amount).Ok?
      && Balance(old(s.ledger), WalletTokens(creator, prizeMint)) >= amount
    ensures r.Pass? ==>
      var g := old(s.gumballs)[gumballId];
      var amount := AddAmount(prizeAmount, quantity).value;
      && s.gumballs == old(s.gumballs)[gumballId := g.(prizesAdded := g.prizesAdded + quantity)]
      && s.prizes == old(s.prizes)[(gumballId as nat, prizeIndex as nat) :=
           StockSlot(old(s.prizes), gumballId, prizeIndex, ValidateNft(prizeMintAccount), prizeMint, prizeAmount,
                     quantity, amount).value]
      && s.ledger == Move(old(s.ledger), WalletTokens(creator, prizeMint), InstanceEscrow(gumballId, prizeMint), amount)
    ensures r.Fail? ==> s.gumballs == old(s.gumballs) && s.prizes == old(s.prizes) && s.ledger == old(s.ledger)
    ensures old(s.Valid()) ==> s.Valid()
  {
    if admin != s.config.gumballAdmin {
      return Fail(InvalidGumballAdmin);
    }
    if gumballId !in s.gumballs {
      return Fail(AccountNotInitialized);
    }
    var g := s.gumballs[gumballId];
    if g.gumballId != gumballId {
      return Fail(InvalidGumballId);
    }
    if creator != g.creator {
      return Fail(InvalidCreator);
    }
    var isNft := ValidateNft(prizeMintAccount);
    var v := ValidateAddPrize(s.config, g, now, isNft, prizeAmount, quantity);
    if v.Fail? {
      return v;
    }
    var amount := AddAmount(prizeAmount, quantity);
    if amount.Err? {
      return Fail(amount.error);
    }
    var prize := StockSlot(s.prizes, gumballId, prizeIndex, isNft, prizeMint, prizeAmount, quantity, amount.value);
    if prize.Err? {
      return Fail(prize.error);
    }
    var from := WalletTokens(creator, prizeMint);
    if Balance(s.ledger, from) < amount.value {
      return Fail(InsufficientTokenBalance);
    }
    ghost var wasValid := s.Valid();
    ghost var gumballs0, prizes0, ledger0 := s.gumballs, s.prizes, s.ledger;
    s.gumballs := s.gumballs[gumballId := g.(prizesAdded := g.prizesAdded + quantity)];
    s.prizes := s.prizes[(gumballId as nat, prizeIndex as nat) := prize.value];
    s.ledger := Move(s.ledger, from, InstanceEscrow(gumballId, prizeMint), amount.value);
    if wasValid {
      AddKeepsValid(s.config, gumballs0, prizes0, ledger0, gumballId, prizeIndex, isNft, prizeMint, prizeAmount,
                    quantity, amount.value, creator, now, s.gumballs, s.prizes, s.ledger);
    }
    return Pass;
  }
}

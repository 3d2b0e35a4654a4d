/**
 * `buy_ticket`: the ticket sale with a global supply cap and a per-wallet
 * cap, the buyer record, and the payment into the raffle's ticket vault.
 */
module RaffleBuy {
  import opened Common
  import opened AuctionUtils
  import opened RaffleErrors
  import opened RaffleUtils
  import opened RaffleStates

  /**
   * The price of a purchase as the source computes it: the u128 product,
   * which always fits, cast to u64 with `as`, which keeps the low 64 bits.
   */
  function PriceToPayAsWritten(ticketPrice: U64, tickets: U16): (r: U64)
    ensures ticketPrice * tickets <= U64_MAX ==> r == ticketPrice * tickets
  {
    (ticketPrice * tickets) % (U64_MAX + 1)
  }

  /** The cast loses the price: two tickets at 2^63 each cost nothing. */
  lemma PriceToPayAsWrittenWraps()
    ensures PriceToPayAsWritten(0x8000_0000_0000_0000, 2) == 0
    ensures 0x8000_0000_0000_0000 * 2 > U64_MAX
  {
  }

  /**
   * The price of a purchase with the evidently intended checked conversion:
   * the exact product, or the Overflow error when it does not fit in u64.
   */
  function PriceToPay(ticketPrice: U64, tickets: U16): (r: Result<U64, RaffleError>)
    ensures r.Ok? <==> ticketPrice * tickets <= U64_MAX
    ensures r.Ok? ==> r.value == ticketPrice * tickets
    ensures r.Err? ==> r.error == Overflow
    ensures r.Ok? ==> r.value == PriceToPayAsWritten(ticketPrice, tickets)
  {
    if ticketPrice * tickets > U64_MAX then Err(Overflow) else Ok(ticketPrice * tickets)
  }

  /**
   * The buyer record after a purchase: a fresh record (no tickets, default
   * user) is stamped with the raffle's id and the buyer; the count grows.
   */
  function StampedBuyer(b: Buyer, storedRaffleId: U32, buyer: Pubkey, newTickets: U16): (r: Buyer)
    ensures r.tickets == newTickets
    ensures b.tickets == 0 && b.user == DEFAULT_PUBKEY ==> r.raffleId == storedRaffleId && r.user == buyer
    ensures !(b.tickets == 0 && b.user == DEFAULT_PUBKEY) ==> r.raffleId == b.raffleId && r.user == b.user
  {
    if b.tickets == 0 && b.user == DEFAULT_PUBKEY then Buyer(storedRaffleId, buyer, newTickets)
    else b.(tickets := newTickets)
  }

  /** The buyer record passes the ownership checks: it is fresh, or it already belongs to this buyer and raffle. */
  predicate BuyerRecordMatches(b: Buyer, buyer: Pubkey, raffleId: U32)
  {
    (b.tickets == 0 && b.user == DEFAULT_PUBKEY) || (b.user == buyer && b.raffleId == raffleId)
  }

  /**
   * `buy_ticket`. Succeeds exactly when the admin co-signs, the raffle exists
   * and is Active, the purchase is not paused, now lies in
   * [start_time, end_time], at least one ticket is bought, enough tickets
   * remain, the wallet stays within its cap, the buyer record is fresh or
   * the buyer's own for this raffle, the price fits in u64, and the buyer
   * can pay it. Then tickets_sold and the buyer's count each grow by the
   * purchase and the price moves into the raffle's ticket vault.
   */
  method BuyTicket(s: RaffleStore, admin: Pubkey, buyer: Pubkey, raffleId: U32, ticketsToBuy: U16, now: I64)
    returns (r: Outcome<RaffleError>)
    modifies s`raffles, s`buyers, s`ledger
    ensures
      var key := (raffleId as nat, buyer);
      var b := old(s.BuyerAt(key));
      r.Pass? <==>
        && admin == s.config.raffleAdmin
        && raffleId in old(s.raffles)
        && var raffle := old(s.raffles)[raffleId];
        && raffle.status == Active
        && !IsPaused(s.config.pauseFlags, s.params.buyTicketPause)
        && raffle.startTime <= now <= raffle.endTime
        && ticketsToBuy > 0
        && raffle.ticketsSold <= raffle.totalTickets
        && ticketsToBuy <= raffle.totalTickets - raffle.ticketsSold
        && CalculateMaxTickets(raffle.totalTickets, raffle.maxPerWalletPct).Ok?
        && b.tickets + ticketsToBuy <= CalculateMaxTickets(raffle.totalTickets, raffle.maxPerWalletPct).value
        && BuyerRecordMatches(b, buyer, raffleId)
        && raffle.ticketPrice * ticketsToBuy <= U64_MAX
        && Balance(old(s.ledger), WalletAccount(buyer, raffle.ticketMint)) >= raffle.ticketPrice * ticketsToBuy
    ensures
      var key := (raffleId as nat, buyer);
      r.Pass? ==>
        var raffle := old(s.raffles)[raffleId];
        var b := old(s.BuyerAt(key));
        && s.raffles == old(s.raffles)[raffleId := raffle.(ticketsSold := raffle.ticketsSold + ticketsToBuy)]
        && s.buyers == old(s.buyers)[key := StampedBuyer(b, raffle.raffleId, buyer, b.tickets + ticketsToBuy)]
        && s.ledger == Move(old(s.ledger), WalletAccount(buyer, raffle.ticketMint),
                            TicketVault(raffleId, raffle.ticketMint), raffle.ticketPrice * ticketsToBuy)
    ensures
      (admin == s.config.raffleAdmin && raffleId in old(s.raffles) && old(s.raffles)[raffleId].status == Active &&
       IsPaused(s.config.pauseFlags, s.params.buyTicketPause)) ==> r == Fail(FunctionPaused)
    ensures r.Fail? ==> s.raffles == old(s.raffles) && s.buyers == old(s.buyers) && s.ledger == old(s.ledger)
    ensures old(s.Valid()) ==> s.Valid()
  {
    // account checks
    if admin != s.config.raffleAdmin {
      return Fail(InvalidRaffleAdmin);
    }
    if raffleId !in s.raffles {
      return Fail(AccountNotInitialized);
    }
    var raffle := s.raffles[raffleId];
    if raffle.status != Active {
      return Fail(RaffleNotActive);
    }
    var key := (raffleId as nat, buyer);
    var b := s.BuyerAt(key);
    // instruction body
    if IsPaused(s.config.pauseFlags, s.params.buyTicketPause) {
      return Fail(FunctionPaused);
    }
    if raffle.status != Active {
      return Fail(RaffleNotActive);
    }
    if now < raffle.startTime {
      return Fail(StartTimeNotReached);
    }
    if raffle.endTime < now {
      return Fail(EndTimeIsCrossed);
    }
    if ticketsToBuy == 0 {
      return Fail(InvalidZeroTickets);
    }
    if raffle.totalTickets < raffle.ticketsSold {
      return Fail(Overflow);
    }
    var remaining := raffle.totalTickets - raffle.ticketsSold;
    if remaining < ticketsToBuy {
      return Fail(TicketsSoldOut);
    }
    var cap := CalculateMaxTickets(raffle.totalTickets, raffle.maxPerWalletPct);
    if cap.Err? {
      return Fail(cap.error);
    }
    if b.tickets + ticketsToBuy > U16_MAX {
      return Fail(Overflow);
    }
    var newBuyerTickets := b.tickets + ticketsToBuy;
    if cap.value < newBuyerTickets {
      return Fail(MaxTicketsPerWalletExceeded);
    }
    if !(b.tickets == 0 && b.user == DEFAULT_PUBKEY) {
      if b.user != buyer {
        return Fail(InvalidBuyerAccountUser);
      }
      if b.raffleId != raffleId {
        return Fail(InvalidRaffleId);
      }
    }
    // tickets_sold + tickets_to_buy <= total_tickets, so the checked add cannot fail
    var raffle' := raffle.(ticketsSold := raffle.ticketsSold + ticketsToBuy);
    var b' := StampedBuyer(b, raffle.raffleId, buyer, newBuyerTickets);
    var price := PriceToPay(raffle.ticketPrice, ticketsToBuy);
    if price.Err? {
      return Fail(price.error);
    }
    var from := WalletAccount(buyer, raffle.ticketMint);
    if Balance(s.ledger, from) < price.value {
      return Fail(if raffle.ticketMint.None? then InsufficientSolBalance else InsufficientTokenBalance);
    }
    ghost var wasValid := StateValid(s.config, s.raffles, s.buyers);
    ghost var raffles0, buyers0 := s.raffles, s.buyers;
    s.raffles := s.raffles[raffleId := raffle'];
    s.buyers := s.buyers[key := b'];
    s.ledger := Move(s.ledger, from, TicketVault(raffleId, raffle.ticketMint), price.value);
    if wasValid {
      BuyKeepsValid(s.config, raffles0, buyers0, raffleId, buyer, raffle', b');
    }
    return Pass;
  }

  /**
   * A sale keeps the store valid: tickets_sold stays within the supply,
   * every buyer's count stays within tickets_sold and the wallet cap, and
   * the stamped record is keyed by its own raffle and user.
   */
  lemma BuyKeepsValid(c: RaffleConfig, raffles: map<nat, Raffle>, buyers: map<(nat, Pubkey), Buyer>,
                      id: nat, buyer: Pubkey, raffle': Raffle, b': Buyer)
    requires StateValid(c, raffles, buyers)
    requires id in raffles
    requires var raffle := raffles[id];
      var b := if (id, buyer) in buyers then buyers[(id, buyer)] else FRESH_BUYER;
      && raffle.status == Active
      && raffle' == raffle.(ticketsSold := raffle'.ticketsSold)
      && raffle.ticketsSold <= raffle'.ticketsSold <= raffle.totalTickets
      && b'.tickets - b.tickets == raffle'.ticketsSold - raffle.ticketsSold
      && WithinWalletCap(b'.tickets, raffle)
      && (b'.tickets > 0 ==> b'.raffleId == id && b'.user == buyer)
    ensures StateValid(c, raffles[id := raffle'], buyers[(id, buyer) := b'])
  {
    var raffles' := raffles[id := raffle'];
    var buyers' := buyers[(id, buyer) := b'];
    assert RaffleValid(id, raffles[id]);
    assert RaffleValid(id, raffle');
    forall k | k in buyers'
      ensures BuyerValid(k, buyers'[k], raffles', c.raffleCount)
    {
      if k == (id, buyer) {
        if (id, buyer) in buyers {
          assert BuyerValid(k, buyers[k], raffles, c.raffleCount);
        }
      } else {
        assert BuyerValid(k, buyers[k], raffles, c.raffleCount);
      }
    }
  }
}

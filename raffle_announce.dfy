/**
 * `announce_winners`: the end of a raffle. With no tickets sold it fails
 * and the whole prize becomes claimable back; otherwise the winner list is
 * recorded, the creator's share of unfilled winner slots is set aside, and
 * the ticket revenue is split into the protocol fee, paid out at once, and
 * the creator's amount, kept claimable.
 */
module RaffleAnnounce {
  import opened Common
  import opened AuctionUtils
  import opened RaffleErrors
  import opened RaffleUtils
  import opened RaffleStates

  /** The number of winner slots filled when `sold` tickets were sold: min(sold, num_winners). */
  function ActualWinners(r: Raffle): nat
  {
    Min(r.ticketsSold, r.numWinners)
  }

  /**
   * The prize the creator gets back for winner slots left empty: when fewer
   * tickets were sold than there are winners, the percentage of the shares
   * of the empty slots, of the prize, rounded down; otherwise nothing.
   */
  function PrizeBack(prizeAmount: U64, winShares: seq<U8>, ticketsSold: U16, numWinners: U8): (r: Result<U64, RaffleError>)
    ensures ticketsSold >= numWinners ==> r == Ok(0)
    ensures
      var assignedPct := Sum(winShares[..Min(ticketsSold, |winShares|)]);
      ticketsSold < numWinners ==>
        && (r.Ok? <==> assignedPct <= TOTAL_PCT && prizeAmount * (TOTAL_PCT - assignedPct) <= U64_MAX)
        && (r.Ok? ==> r.value == Payout(prizeAmount, TOTAL_PCT - assignedPct))
        && (r.Err? && assignedPct <= U8_MAX ==> r.error == (if assignedPct > TOTAL_PCT then InvalidWinShares else Overflow))
    ensures r.Ok? ==> r.value <= prizeAmount
  {
    if ticketsSold >= numWinners then Ok(0)
    else
      match SumU8(winShares[..Min(ticketsSold, |winShares|)])
      case None => Err(Overflow)
      case Some(assignedPct) =>
        if assignedPct > TOTAL_PCT then Err(InvalidWinShares)
        else
          var leftover := TOTAL_PCT - assignedPct;
          if leftover == 0 then Ok(0)
          else
            match GetPctAmount(prizeAmount, leftover, TOTAL_PCT)
            case None => Err(Overflow)
            case Some(back) =>
              PctAmountAtMostAmount(prizeAmount, leftover, TOTAL_PCT);
              Ok(back)
  }

  /** The split of the ticket revenue: the protocol fee and what remains for the creator. */
  datatype Revenue = Revenue(fee: U64, creatorAmount: U64)

  /**
   * `process_ticket_revenue`'s arithmetic: revenue = price * sold (checked),
   * fee = revenue * ticket_fee_bps / 10000 rounded down (checked product),
   * creator amount = revenue - fee (checked). It succeeds exactly when both
   * products fit in u64 and the fee does not exceed the revenue; a rate above
   * 100% fails only once revenue * (bps - 10000) reaches 10000. The two parts
   * make up the revenue exactly, and a fee rate of at most 100% never fails
   * on a revenue whose product with the rate fits in u64.
   */
  function RevenueSplit(ticketPrice: U64, ticketsSold: U16, ticketFeeBps: U16): (r: Result<Revenue, RaffleError>)
    ensures r.Ok? <==>
      var revenue := ticketPrice * ticketsSold;
      revenue <= U64_MAX && revenue * ticketFeeBps <= U64_MAX && revenue * ticketFeeBps < (revenue + 1) * FEE_MANTISSA
    ensures r.Ok? ==> r.value.fee + r.value.creatorAmount == ticketPrice * ticketsSold
    ensures r.Ok? ==>
      r.value.fee * FEE_MANTISSA <= ticketPrice * ticketsSold * ticketFeeBps < (r.value.fee + 1) * FEE_MANTISSA
    ensures ticketPrice * ticketsSold > U64_MAX ==> r.Err?
    ensures (ticketPrice * ticketsSold <= U64_MAX && ticketPrice * ticketsSold * ticketFeeBps <= U64_MAX &&
             ticketFeeBps <= FEE_MANTISSA) ==> r.Ok?
    ensures r.Err? ==> r.error == Overflow
  {
    if ticketPrice * ticketsSold > U64_MAX then Err(Overflow)
    else
      var revenue := ticketPrice * ticketsSold;
      match GetPctAmount(revenue, ticketFeeBps, FEE_MANTISSA)
      case None => Err(Overflow)
      case Some(fee) =>
        FeeAtMostRevenue(revenue, ticketFeeBps);
        FeeAtMostAmountIff(revenue, ticketFeeBps, FEE_MANTISSA, fee);
        if fee > revenue then Err(Overflow)
        else
          Ok(Revenue(fee, revenue - fee))
  }

  /** A fee rate of at most 100% takes at most the whole revenue. */
  lemma FeeAtMostRevenue(revenue: U64, ticketFeeBps: U16)
    ensures ticketFeeBps <= FEE_MANTISSA && GetPctAmount(revenue, ticketFeeBps, FEE_MANTISSA).Some? ==>
      GetPctAmount(revenue, ticketFeeBps, FEE_MANTISSA).value <= revenue
  {
    if ticketFeeBps <= FEE_MANTISSA && GetPctAmount(revenue, ticketFeeBps, FEE_MANTISSA).Some? {
      PctAmountAtMostAmount(revenue, ticketFeeBps, FEE_MANTISSA);
    }
  }

  /** A token-ticket raffle names its ticket escrow, and it is the raffle's account for the ticket mint. */
  predicate TicketEscrowMatches(r: Raffle)
  {
    r.ticketMint.Some? ==> r.ticketEscrow == Some(TicketVault(r.raffleId, r.ticketMint))
  }

  /** The winner list fits the raffle: one winner for an NFT, otherwise one per filled slot and distinct when required. */
  ghost predicate WinnersAccepted(r: Raffle, winners: seq<Pubkey>)
  {
    if r.prizeType == Nft then |winners| == 1
    else |winners| == ActualWinners(r) && (r.isUniqueWinners ==> !HasDuplicates(winners))
  }

  /** The prize-back recorded at announcement; the NFT path leaves the stored value as it is. */
  function AnnouncedPrizeBack(r: Raffle): Result<U64, RaffleError>
  {
    if r.prizeType == Nft then Ok(r.claimablePrizeBack)
    else PrizeBack(r.prizeAmount, r.winShares, r.ticketsSold, r.numWinners)
  }

  /** The raffle after a successful announcement. */
  function Announced(r: Raffle, winners: seq<Pubkey>, back: U64, creatorAmount: U64): (a: Raffle)
    ensures a.status == SuccessEnded && a.winners == winners
    ensures a.claimablePrizeBack == back && a.claimableTicketAmount == creatorAmount
  {
    r.(claimablePrizeBack := back, winners := winners, status := SuccessEnded, claimableTicketAmount := creatorAmount)
  }

  /**
   * The checks of the fee transfer: a token-ticket raffle's stored escrow
   * is present and is its ticket vault, and the vault holds the fee.
   */
  function FeeTransferCheck(r: Raffle, l: Ledger, fee: U64): (o: Outcome<RaffleError>)
    ensures o.Pass? <==> TicketEscrowMatches(r) && Balance(l, TicketVault(r.raffleId, r.ticketMint)) >= fee
    ensures o.Fail? && TicketEscrowMatches(r) ==>
      o.error == (if r.ticketMint.None? then InsufficientSolBalance else InsufficientTokenBalance)
  {
    if r.ticketMint.Some? && r.ticketEscrow.None? then Fail(MissingTicketEscrow)
    else if r.ticketMint.Some? && r.ticketEscrow.value != TicketVault(r.raffleId, r.ticketMint) then Fail(InvalidTicketEscrow)
    else if Balance(l, TicketVault(r.raffleId, r.ticketMint)) < fee then
      Fail(if r.ticketMint.None? then InsufficientSolBalance else InsufficientTokenBalance)
    else Pass
  }

  /** Everything a sold-out-or-partial announcement needs beyond the common checks. */
  ghost predicate SuccessAccepted(c: RaffleConfig, r: Raffle, winners: seq<Pubkey>, l: Ledger)
  {
    && WinnersAccepted(r, winners)
    && AnnouncedPrizeBack(r).Ok?
    && RevenueSplit(r.ticketPrice, r.ticketsSold, c.ticketFeeBps).Ok?
    && TicketEscrowMatches(r)
    && Balance(l, TicketVault(r.raffleId, r.ticketMint)) >= RevenueSplit(r.ticketPrice, r.ticketsSold, c.ticketFeeBps).value.fee
  }

  /**
   * The winner-list checks: for an NFT prize exactly one winner; otherwise
   * one winner per filled slot, pairwise distinct when the raffle asks for
   * unique winners. Each failure has its own error.
   */
  method CheckWinners(raffle: Raffle, winners: seq<Pubkey>) returns (r: Outcome<RaffleError>)
    ensures r.Pass? <==> WinnersAccepted(raffle, winners)
    ensures r.Fail? && (raffle.prizeType == Nft || |winners| != ActualWinners(raffle)) ==> r.error == InvalidWinnersLength
    ensures r.Fail? && raffle.prizeType != Nft && |winners| == ActualWinners(raffle) ==> r.error == DuplicateWinnersNotAllowed
  {
    if raffle.prizeType == Nft {
      return if |winners| == 1 then Pass else Fail(InvalidWinnersLength);
    }
    if |winners| != ActualWinners(raffle) {
      return Fail(InvalidWinnersLength);
    }
    if raffle.isUniqueWinners {
      var dup := HasDuplicatePubkeys(winners);
      if dup {
        return Fail(DuplicateWinnersNotAllowed);
      }
    }
    return Pass;
  }

  /**
   * The announcement of a raffle with sales, after the common checks: the
   * winners are checked, the prize-back and the revenue split computed, the
   * record becomes SuccessEnded with the winners, the prize-back and the
   * creator's amount, and the fee moves from the ticket vault to the fee
   * vault.
   */
  method SettleSuccess(s: RaffleStore, raffleId: U32, winners: seq<Pubkey>) returns (r: Outcome<RaffleError>)
    requires raffleId in s.raffles && s.raffles[raffleId].raffleId == raffleId
    modifies s`raffles, s`ledger
    ensures r.Pass? <==> SuccessAccepted(s.config, old(s.raffles)[raffleId], winners, old(s.ledger))
    ensures r.Pass? ==>
      var raffle := old(s.raffles)[raffleId];
      var split := RevenueSplit(raffle.ticketPrice, raffle.ticketsSold, s.config.ticketFeeBps).value;
      && s.raffles == old(s.raffles)[raffleId :=
           Announced(raffle, winners, AnnouncedPrizeBack(raffle).value, split.creatorAmount)]
      && s.ledger == Move(old(s.ledger), TicketVault(raffleId, raffle.ticketMint), FeeVault(raffle.ticketMint), split.fee)
    ensures r.Fail? ==> s.raffles == old(s.raffles) && s.ledger == old(s.ledger)
    ensures old(s.Valid()) && old(s.raffles)[raffleId].status == Active && old(s.raffles)[raffleId].ticketsSold > 0 ==>
      s.Valid()
  {
    var raffle := s.raffles[raffleId];
    r := CheckWinners(raffle, winners);
    if r.Fail? {
      return;
    }
    var back := AnnouncedPrizeBack(raffle);
    if back.Err? {
      return Fail(back.error);
    }
    // process_ticket_revenue
    var split := RevenueSplit(raffle.ticketPrice, raffle.ticketsSold, s.config.ticketFeeBps);
    if split.Err? {
      return Fail(split.error);
    }
    r := FeeTransferCheck(raffle, s.ledger, split.value.fee);
    if r.Fail? {
      return;
    }
    var vault := TicketVault(raffleId, raffle.ticketMint);
    ghost var wasValid := s.Valid() && raffle.status == Active && raffle.ticketsSold > 0;
    ghost var raffles0 := s.raffles;
    var raffle' := Announced(raffle, winners, back.value, split.value.creatorAmount);
    s.raffles := s.raffles[raffleId := raffle'];
    s.ledger := Move(s.ledger, vault, FeeVault(raffle.ticketMint), split.value.fee);
    if wasValid {
      AnnouncedValid(raffleId, raffle, winners, split.value.creatorAmount);
      RaffleUpdateKeepsValid(s.config, raffles0, s.buyers, raffleId, raffle');
    }
  }

  /**
   * `announce_winners`. Succeeds exactly when the admin co-signs, the raffle
   * exists under its own id, announcing is not paused, the raffle is Active
   * and its end time has passed, and, when tickets were sold, the
   * announcement of the winners and the revenue is accepted. With no sales
   * the raffle becomes FailedEnded with the whole prize claimable back and
   * no value moves.
   */
  method AnnounceWinners(s: RaffleStore, admin: Pubkey, raffleId: U32, winners: seq<Pubkey>, now: I64)
    returns (r: Outcome<RaffleError>)
    modifies s`raffles, s`ledger
    ensures r.Pass? <==>
      && admin == s.config.raffleAdmin
      && raffleId in old(s.raffles)
      && var raffle := old(s.raffles)[raffleId];
      && raffle.raffleId == raffleId
      && !IsPaused(s.config.pauseFlags, s.params.announceWinnerPause)
      && raffle.status == Active
      && now > raffle.endTime
      && (raffle.ticketsSold == 0 || SuccessAccepted(s.config, raffle, winners, old(s.ledger)))
    ensures r.Pass? && old(s.raffles)[raffleId].ticketsSold == 0 ==>
      var raffle := old(s.raffles)[raffleId];
      && s.raffles == old(s.raffles)[raffleId := raffle.(status := FailedEnded, claimablePrizeBack := raffle.prizeAmount)]
      && s.ledger == old(s.ledger)
    ensures r.Pass? && old(s.raffles)[raffleId].ticketsSold > 0 ==>
      var raffle := old(s.raffles)[raffleId];
      var split := RevenueSplit(raffle.ticketPrice, raffle.ticketsSold, s.config.ticketFeeBps).value;
      && s.raffles == old(s.raffles)[raffleId :=
           Announced(raffle, winners, AnnouncedPrizeBack(raffle).value, split.creatorAmount)]
      && s.ledger == Move(old(s.ledger), TicketVault(raffleId, raffle.ticketMint), FeeVault(raffle.ticketMint), split.fee)
    ensures (admin == s.config.raffleAdmin && raffleId in old(s.raffles) && old(s.raffles)[raffleId].raffleId == raffleId &&
             IsPaused(s.config.pauseFlags, s.params.announceWinnerPause)) ==> r == Fail(FunctionPaused)
    ensures r.Fail? ==> s.raffles == old(s.raffles) && s.ledger == old(s.ledger)
    ensures old(s.Valid()) ==> s.Valid()
  {
    if admin != s.config.raffleAdmin {
      return Fail(InvalidRaffleAdmin);
    }
    if raffleId !in s.raffles {
      return Fail(AccountNotInitialized);
    }
    var raffle := s.raffles[raffleId];
    if raffle.raffleId != raffleId {
      return Fail(InvalidRaffleId);
    }
    if IsPaused(s.config.pauseFlags, s.params.announceWinnerPause) {
      return Fail(FunctionPaused);
    }
    if raffle.status != Active {
      return Fail(RaffleNotActive);
    }
    if now <= raffle.endTime {
      return Fail(EndTimeNotReached);
    }
    if raffle.ticketsSold == 0 {
      ghost var wasValid := s.Valid();
      ghost var raffles0 := s.raffles;
      var failed := raffle.(status := FailedEnded, claimablePrizeBack := raffle.prizeAmount);
      s.raffles := s.raffles[raffleId := failed];
      if wasValid {
        RaffleUpdateKeepsValid(s.config, raffles0, s.buyers, raffleId, failed);
      }
      return Pass;
    }
    r := SettleSuccess(s, raffleId, winners);
  }

  /**
   * An accepted announcement of an Active raffle with sales yields a valid
   * SuccessEnded record: the winner list has one entry per filled slot, and
   * what the filled slots pay plus the prize-back stays within the prize.
   */
  lemma AnnouncedValid(id: nat, raffle: Raffle, winners: seq<Pubkey>, creatorAmount: U64)
    requires RaffleValid(id, raffle)
    requires raffle.status == Active && raffle.ticketsSold > 0
    requires WinnersAccepted(raffle, winners)
    requires AnnouncedPrizeBack(raffle).Ok?
    ensures RaffleValid(id, Announced(raffle, winners, AnnouncedPrizeBack(raffle).value, creatorAmount))
  {
    var back := AnnouncedPrizeBack(raffle).value;
    var a := Announced(raffle, winners, back, creatorAmount);
    if raffle.prizeType == Nft {
      assert !HasDuplicates(winners);
    } else {
      var k := |winners|;
      PrizeConservation(raffle.prizeAmount, raffle.winShares, k);
      if raffle.ticketsSold >= raffle.numWinners {
        assert raffle.winShares[..k] == raffle.winShares;
      }
    }
  }
}

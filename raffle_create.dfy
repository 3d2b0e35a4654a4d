/**
 * `create_raffle`: validation of the creator's terms against the config,
 * the initial raffle record, the prize and creation-fee deposits, and the
 * bump of the raffle counter that numbers raffles.
 */
module RaffleCreate {
  import opened Common
  import opened AuctionUtils
  import opened RaffleErrors
  import opened RaffleUtils
  import opened RaffleStates

  /** The terms a raffle is created with once the NFT defaults and the immediate start are applied. */
  datatype CreateTerms = CreateTerms(startTime: I64, prizeAmount: U64, numWinners: U8, winShares: seq<U8>)

  /** An NFT prize is always one token for one winner taking the whole prize. */
  function PrizeTerms(prizeType: PrizeType, prizeAmount: U64, numWinners: U8, winShares: seq<U8>): (U64, U8, seq<U8>)
  {
    if prizeType == Nft then (1, 1, [TOTAL_PCT as U8]) else (prizeAmount, numWinners, winShares)
  }

  /** The single share of an NFT raffle is a valid share list. */
  lemma NftSharesValid()
    ensures ValidWinShares([TOTAL_PCT as U8])
  {
    assert [TOTAL_PCT as U8][..0] == [];
  }

  /**
   * The argument checks of `create_raffle`, in the source's order, and the
   * terms they accept. Accepted terms give a raffle whose wallet cap admits
   * a ticket by the percentage itself (total * pct >= 100), and whose
   * duration is positive.
   */
  function ValidateCreateRaffle(
    c: RaffleConfig,
    startTime: I64,
    endTime: I64,
    totalTickets: U16,
    ticketPrice: U64,
    maxPerWalletPct: U8,
    prizeType: PrizeType,
    prizeAmount: U64,
    numWinners: U8,
    winShares: seq<U8>,
    startRaffle: bool,
    now: I64): (r: Result<CreateTerms, RaffleError>)
    ensures r.Ok? <==>
      var (amount, winners, shares) := PrizeTerms(prizeType, prizeAmount, numWinners, winShares);
      var start := if startRaffle then now else startTime;
      && ticketPrice > 0
      && c.minimumTickets <= totalTickets <= c.maximumTickets
      && 0 < winners <= totalTickets && winners <= c.maximumWinnersCount
      && amount >= winners
      && |shares| == winners && ValidWinShares(shares)
      && I64_MIN <= endTime - start <= I64_MAX
      && start >= now
      && c.minimumRafflePeriod <= endTime - start <= c.maximumRafflePeriod
      && MinPerWalletPct(totalTickets).Some?
      && MinPerWalletPct(totalTickets).value <= maxPerWalletPct <= c.maximumWalletPct
    ensures r.Ok? ==>
      var (amount, winners, shares) := PrizeTerms(prizeType, prizeAmount, numWinners, winShares);
      r.value == CreateTerms(if startRaffle then now else startTime, amount, winners, shares)
    ensures r.Ok? && prizeType == Nft ==>
      r.value.prizeAmount == 1 && r.value.numWinners == 1 && r.value.winShares == [TOTAL_PCT as U8]
    ensures r.Ok? && prizeType != Nft ==>
      r.value.prizeAmount == prizeAmount && r.value.numWinners == numWinners && r.value.winShares == winShares
    ensures ticketPrice == 0 ==> r == Err(InvalidTicketZeroPrice)
    ensures ticketPrice > 0 && !(c.minimumTickets <= totalTickets <= c.maximumTickets) ==> r == Err(InvalidTotalTickets)
    ensures r.Ok? ==> totalTickets * maxPerWalletPct >= TOTAL_PCT
    ensures r.Ok? && c.minimumRafflePeriod > 0 ==> endTime > r.value.startTime
  {
    var (amount, winners, shares) := PrizeTerms(prizeType, prizeAmount, numWinners, winShares);
    if ticketPrice == 0 then Err(InvalidTicketZeroPrice)
    else if !(c.minimumTickets <= totalTickets <= c.maximumTickets) then Err(InvalidTotalTickets)
    else if winners == 0 then Err(InvalidZeroWinnersCount)
    else if totalTickets < winners then Err(WinnersExceedTotalTickets)
    else if c.maximumWinnersCount < winners then Err(ExceedMaxWinners)
    else if amount < winners then Err(InsufficientPrizeAmount)
    else if |shares| != winners then Err(InvalidWinSharesLength)
    else if !ValidWinShares(shares) then Err(InvalidWinShares)
    else
      var start := if startRaffle then now else startTime;
      match CheckedSubI64(endTime, start)
      case None => Err(StartTimeExceedEndTime)
      case Some(duration) =>
        if start < now then Err(StartTimeInPast)
        else if !(c.minimumRafflePeriod <= duration <= c.maximumRafflePeriod) then Err(InvalidRafflePeriod)
        else
          match MinPerWalletPct(totalTickets)
          case None => Err(Overflow)
          case Some(minPct) =>
            if !(minPct <= maxPerWalletPct <= c.maximumWalletPct) then Err(InvalidMaxPerWalletPct)
            else
              MulMonotone(minPct, maxPerWalletPct, totalTickets);
              Ok(CreateTerms(start, amount, winners, shares))
  }

  /** The record `create_raffle` writes; the fields `init` leaves zero are zero. */
  function NewRaffle(
    id: U32,
    creator: Pubkey,
    terms: CreateTerms,
    endTime: I64,
    totalTickets: U16,
    ticketPrice: U64,
    isTicketSol: bool,
    ticketMint: Pubkey,
    maxPerWalletPct: U8,
    prizeType: PrizeType,
    prizeMint: Pubkey,
    isUniqueWinners: bool,
    startRaffle: bool): (r: Raffle)
    ensures r.raffleId == id && r.ticketsSold == 0
    ensures r.claimablePrizeBack == 0 && r.claimableTicketAmount == 0
    ensures |r.winners| == |r.isWinClaimed| == terms.numWinners
    ensures forall k :: 0 <= k < |r.winners| ==> r.winners[k] == DEFAULT_PUBKEY
    ensures Unclaimed(r.isWinClaimed)
    ensures r.status == (if startRaffle then Active else Initialized)
    ensures r.ticketMint.None? <==> isTicketSol
    ensures r.prizeMint.None? <==> prizeType == Sol
  {
    Raffle(
      raffleId := id,
      creator := creator,
      startTime := terms.startTime,
      endTime := endTime,
      totalTickets := totalTickets,
      ticketsSold := 0,
      ticketPrice := ticketPrice,
      ticketMint := if isTicketSol then None else Some(ticketMint),
      ticketEscrow := if isTicketSol then None else Some(InstanceEscrow(id, ticketMint)),
      maxPerWalletPct := maxPerWalletPct,
      prizeType := prizeType,
      prizeAmount := terms.prizeAmount,
      prizeMint := if prizeType == Sol then None else Some(prizeMint),
      prizeEscrow := if prizeType == Sol then None else Some(InstanceEscrow(id, prizeMint)),
      numWinners := terms.numWinners,
      winShares := terms.winShares,
      winners := seq(terms.numWinners, _ => DEFAULT_PUBKEY),
      isWinClaimed := seq(terms.numWinners, _ => false),
      status := if startRaffle then Active else Initialized,
      isUniqueWinners := isUniqueWinners,
      claimablePrizeBack := 0,
      claimableTicketAmount := 0)
  }

  /** A raffle created from accepted terms satisfies the raffle invariant. */
  lemma NewRaffleValid(
    c: RaffleConfig,
    id: U32,
    creator: Pubkey,
    startTime: I64,
    endTime: I64,
    totalTickets: U16,
    ticketPrice: U64,
    isTicketSol: bool,
    ticketMint: Pubkey,
    maxPerWalletPct: U8,
    prizeType: PrizeType,
    prizeAmount: U64,
    numWinners: U8,
    winShares: seq<U8>,
    prizeMint: Pubkey,
    isUniqueWinners: bool,
    startRaffle: bool,
    now: I64)
    requires ValidateCreateRaffle(c, startTime, endTime, totalTickets, ticketPrice, maxPerWalletPct,
                                  prizeType, prizeAmount, numWinners, winShares, startRaffle, now).Ok?
    ensures
      var terms := ValidateCreateRaffle(c, startTime, endTime, totalTickets, ticketPrice, maxPerWalletPct,
                                        prizeType, prizeAmount, numWinners, winShares, startRaffle, now).value;
      RaffleValid(id, NewRaffle(id, creator, terms, endTime, totalTickets, ticketPrice, isTicketSol, ticketMint,
                                maxPerWalletPct, prizeType, prizeMint, isUniqueWinners, startRaffle))
  {
    var terms := ValidateCreateRaffle(c, startTime, endTime, totalTickets, ticketPrice, maxPerWalletPct,
                                      prizeType, prizeAmount, numWinners, winShares, startRaffle, now).value;
    assert maxPerWalletPct >= 1 by {
      assert MinPerWalletPct(totalTickets).value >= 1;
    }
    if prizeType == Nft {
      NftSharesValid();
    }
  }

  /** The checks of the deposits a creation makes: SOL prize and fee together, or prize tokens then the fee. */
  predicate CreationFunded(l: Ledger, creator: Pubkey, prizeType: PrizeType, amount: U64, fee: U64,
                           prizeMint: Pubkey, mintAccount: Mint)
  {
    if prizeType == Sol then
      amount + fee <= U64_MAX && Balance(l, WalletLamports(creator)) >= amount + fee
    else
      && (prizeType == Nft ==> ValidateNft(mintAccount))
      && Balance(l, WalletTokens(creator, prizeMint)) >= amount
      && Balance(l, WalletLamports(creator)) >= fee
  }

  /** The funding checks in the order the source makes them, with the error each one raises. */
  function FundingCheck(l: Ledger, creator: Pubkey, prizeType: PrizeType, amount: U64, fee: U64,
                        prizeMint: Pubkey, mintAccount: Mint): (r: Outcome<RaffleError>)
    ensures r.Pass? <==> CreationFunded(l, creator, prizeType, amount, fee, prizeMint, mintAccount)
  {
    if prizeType == Sol then
      if amount + fee > U64_MAX then Fail(Overflow)
      else if Balance(l, WalletLamports(creator)) < amount + fee then Fail(InsufficientSolBalance)
      else Pass
    else if prizeType == Nft && mintAccount.decimals != 0 then Fail(InvalidNftDecimals)
    else if prizeType == Nft && mintAccount.supply != 1 then Fail(InvalidNftSupply)
    else if Balance(l, WalletTokens(creator, prizeMint)) < amount then Fail(InsufficientTokenBalance)
    else if Balance(l, WalletLamports(creator)) < fee then Fail(InsufficientSolBalance)
    else Pass
  }

  /**
   * The deposits of a creation: the prize into the raffle account (SOL) or
   * its prize escrow (tokens), and the creation fee into the raffle account.
   */
  function FundRaffle(l: Ledger, creator: Pubkey, id: nat, prizeType: PrizeType, amount: U64, fee: U64,
                      prizeMint: Pubkey, mintAccount: Mint): (r: Ledger)
    requires CreationFunded(l, creator, prizeType, amount, fee, prizeMint, mintAccount)
    ensures prizeType == Sol ==>
      && Balance(r, InstanceLamports(id)) == Balance(l, InstanceLamports(id)) + amount + fee
      && Balance(r, WalletLamports(creator)) == Balance(l, WalletLamports(creator)) - amount - fee
    ensures prizeType != Sol ==>
      && Balance(r, InstanceEscrow(id, prizeMint)) == Balance(l, InstanceEscrow(id, prizeMint)) + amount
      && Balance(r, WalletTokens(creator, prizeMint)) == Balance(l, WalletTokens(creator, prizeMint)) - amount
      && Balance(r, InstanceLamports(id)) == Balance(l, InstanceLamports(id)) + fee
      && Balance(r, WalletLamports(creator)) == Balance(l, WalletLamports(creator)) - fee
  {
    if prizeType == Sol then
      Move(l, WalletLamports(creator), InstanceLamports(id), amount + fee)
    else
      var l1 := Move(l, WalletTokens(creator, prizeMint), InstanceEscrow(id, prizeMint), amount);
      Move(l1, WalletLamports(creator), InstanceLamports(id), fee)
  }

  /**
   * `create_raffle`. The admin co-signs; the raffle account is created at
   * the current counter value; the terms are validated; the prize and the
   * fee are deposited; the counter grows by one. Every check that fails
   * leaves the store as it was.
   */
  method CreateRaffle(
    s: RaffleStore,
    admin: Pubkey,
    creator: Pubkey,
    startTime: I64,
    endTime: I64,
    totalTickets: U16,
    ticketPrice: U64,
    isTicketSol: bool,
    maxPerWalletPct: U8,
    prizeType: PrizeType,
    prizeAmount: U64,
    numWinners: U8,
    winShares: seq<U8>,
    isUniqueWinners: bool,
    startRaffle: bool,
    now: I64,
    prizeMint: Pubkey,
    prizeMintAccount: Mint,
    ticketMint: Pubkey) returns (r: Outcome<RaffleError>)
    modifies s`config, s`raffles, s`ledger
    ensures
      var c := old(s.config);
      var v := ValidateCreateRaffle(c, startTime, endTime, totalTickets, ticketPrice, maxPerWalletPct,
                                    prizeType, prizeAmount, numWinners, winShares, startRaffle, now);
      r.Pass? <==>
        && admin == c.raffleAdmin
        && c.raffleCount !in old(s.raffles)
        && v.Ok?
        && CreationFunded(old(s.ledger), creator, prizeType, v.value.prizeAmount, c.creationFeeLamports,
                          prizeMint, prizeMintAccount)
        && c.raffleCount < U32_MAX
    ensures
      var c := old(s.config);
      var v := ValidateCreateRaffle(c, startTime, endTime, totalTickets, ticketPrice, maxPerWalletPct,
                                    prizeType, prizeAmount, numWinners, winShares, startRaffle, now);
      r.Pass? ==>
        && s.config == c.(raffleCount := c.raffleCount + 1)
        && s.raffles == old(s.raffles)[c.raffleCount :=
             NewRaffle(c.raffleCount, creator, v.value, endTime, totalTickets, ticketPrice, isTicketSol, ticketMint,
                       maxPerWalletPct, prizeType, prizeMint, isUniqueWinners, startRaffle)]
        && s.ledger == FundRaffle(old(s.ledger), creator, c.raffleCount, prizeType, v.value.prizeAmount,
                                  c.creationFeeLamports, prizeMint, prizeMintAccount)
    ensures r.Pass? ==>
      Balance(s.ledger, InstanceLamports(old(s.config.raffleCount))) >=
        Balance(old(s.ledger), InstanceLamports(old(s.config.raffleCount))) + old(s.config.creationFeeLamports)
    ensures r.Fail? ==> s.config == old(s.config) && s.raffles == old(s.raffles) && s.ledger == old(s.ledger)
    ensures old(s.Valid()) ==> s.Valid()
  {
    var c := s.config;
    if admin != c.raffleAdmin {
      return Fail(InvalidRaffleAdmin);
    }
    if c.raffleCount in s.raffles {
      return Fail(AccountAlreadyInUse);
    }
    var v := ValidateCreateRaffle(c, startTime, endTime, totalTickets, ticketPrice, maxPerWalletPct,
                                  prizeType, prizeAmount, numWinners, winShares, startRaffle, now);
    if v.Err? {
      return Fail(v.error);
    }
    var terms := v.value;
    var fee := c.creationFeeLamports;
    var funded := FundingCheck(s.ledger, creator, prizeType, terms.prizeAmount, fee, prizeMint, prizeMintAccount);
    if funded.Fail? {
      return funded;
    }
    var ledger := s.ledger;
    ledger := FundRaffle(ledger, creator, c.raffleCount, prizeType, terms.prizeAmount, fee, prizeMint, prizeMintAccount);
    if c.raffleCount + 1 > U32_MAX {
      return Fail(Overflow);
    }
    var id := c.raffleCount;
    var raffle := NewRaffle(id, creator, terms, endTime, totalTickets, ticketPrice, isTicketSol, ticketMint,
                            maxPerWalletPct, prizeType, prizeMint, isUniqueWinners, startRaffle);
    NewRaffleValid(c, id, creator, startTime, endTime, totalTickets, ticketPrice, isTicketSol, ticketMint,
                   maxPerWalletPct, prizeType, prizeAmount, numWinners, winShares, prizeMint, isUniqueWinners,
                   startRaffle, now);
    ghost var wasValid := s.Valid();
    ghost var raffles0 := s.raffles;
    s.config := c.(raffleCount := id + 1);
    s.raffles := s.raffles[id := raffle];
    s.ledger := ledger;
    if wasValid {
      CreateKeepsValid(c, raffles0, s.buyers, raffle, s.config, s.raffles);
    }
    return Pass;
  }

  /** Adding a valid raffle under the counter value and bumping the counter keeps the store valid. */
  lemma CreateKeepsValid(c: RaffleConfig, raffles: map<nat, Raffle>, buyers: map<(nat, Pubkey), Buyer>, r: Raffle,
                         c': RaffleConfig, raffles': map<nat, Raffle>)
    requires StateValid(c, raffles, buyers)
    requires c.raffleCount < U32_MAX
    requires RaffleValid(c.raffleCount, r)
    requires c' == c.(raffleCount := c.raffleCount + 1) && raffles' == raffles[c.raffleCount := r]
    ensures StateValid(c', raffles', buyers)
  {
    forall k | k in buyers
      ensures BuyerValid(k, buyers[k], raffles', c'.raffleCount)
    {
      assert BuyerValid(k, buyers[k], raffles, c.raffleCount);
    }
  }
}

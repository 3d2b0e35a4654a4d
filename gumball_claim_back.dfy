/**
 * `claim_prize_back`: once a machine is over (cancelled or completed), its
 * creator takes back what a prize slot's escrow still holds, and the slot's
 * record and the escrow are closed.
 */
module GumballClaimBack {
  import opened Common
  import opened AuctionUtils
  import opened GumballErrors
  import opened GumballStates

  /** A machine in one of its final states: cancelled, or completed either way. */
  predicate Terminal(g: GumballMachine)
  {
    g.status == Cancelled || g.status == CompletedSuccessfully || g.status == CompletedFailed
  }

  /**
   * The body checks of `claim_prize_back`, in source order: claiming back
   * is not paused, the machine is in a final state, and the supplied mint is
   * the slot's.
   */
  function ValidateClaimBack(c: GumballConfig, g: GumballMachine, p: Prize, prizeMint: Pubkey)
    : (r: Outcome<GumballError>)
    ensures r.Pass? <==> !IsPaused(c.pauseFlags, CLAIM_PRIZES_BACK_PAUSE) && Terminal(g) && p.mint == prizeMint
    ensures IsPaused(c.pauseFlags, CLAIM_PRIZES_BACK_PAUSE) ==> r == Fail(FunctionPaused)
    ensures !IsPaused(c.pauseFlags, CLAIM_PRIZES_BACK_PAUSE) && !Terminal(g) ==> r == Fail(InvalidGumballState)
  {
    if IsPaused(c.pauseFlags, CLAIM_PRIZES_BACK_PAUSE) then Fail(FunctionPaused)
    else if !Terminal(g) then Fail(InvalidGumballState)
    else if p.mint != prizeMint then Fail(PrizeMintMismatch)
    else Pass
  }

  /**
   * The movement of a claim-back: everything the machine's escrow for the
   * mint holds goes to the creator's token account for it, in one transfer
   * made only when there is something to move. The escrow ends empty, so
   * its close always succeeds.
   */
  function ReturnEscrow(id: nat, creator: Pubkey, mint: Pubkey, l: Ledger): (r: Ledger)
    ensures Balance(r, InstanceEscrow(id, mint)) == 0
    ensures Balance(r, WalletTokens(creator, mint)) == Balance(l, WalletTokens(creator, mint)) + Balance(l, InstanceEscrow(id, mint))
    ensures forall h :: h != InstanceEscrow(id, mint) && h != WalletTokens(creator, mint) ==> Balance(r, h) == Balance(l, h)
    ensures Balance(l, InstanceEscrow(id, mint)) == 0 ==> r == l
  {
    if Balance(l, InstanceEscrow(id, mint)) > 0 then Sweep(l, InstanceEscrow(id, mint), WalletTokens(creator, mint))
    else l
  }

  /** Closing a prize record of a machine that is no longer open keeps the store valid. */
  lemma ClaimBackKeepsValid(c: GumballConfig, gumballs: map<nat, GumballMachine>, prizes: map<(nat, nat), Prize>,
                            l: Ledger, l': Ledger, key: (nat, nat))
    requires StateValid(c, gumballs, prizes, l) && key.0 in gumballs && !Open(gumballs[key.0])
    requires SameInstanceBalances(l, l', key.0)
    ensures StateValid(c, gumballs, prizes - {key}, l')
  {
    var g := gumballs[key.0];
    assert gumballs[key.0 := g] == gumballs;
    PutKeepsValid(c, c, gumballs, prizes, prizes - {key}, l, l', key.0, g);
  }

  /**
   * `claim_prize_back`. Succeeds exactly when the admin co-signs, the
   * machine exists under its own id, the slot's record exists and carries
   * this machine's id and this index, the signer is the machine's creator,
   * and the checks of `ValidateClaimBack` pass. Then the slot's record is
   * gone, the escrow for the slot's mint is empty and the creator holds
   * everything it held; nothing else changes.
   */
  method ClaimPrizeBack(s: GumballStore, admin: Pubkey, creator: Pubkey, gumballId: U32, prizeIndex: U16,
                        prizeMint: Pubkey) returns (r: Outcome<GumballError>)
    modifies s`prizes, s`ledger
    ensures r.Pass? <==>
      && admin == s.config.gumballAdmin
      && gumballId in s.gumballs
      && var g := s.gumballs[gumballId];
      && g.gumballId == gumballId
      && var key := (gumballId as nat, prizeIndex as nat);
      && key in old(s.prizes)
      && var p := old(s.prizes)[key];
      && p.gumballId == gumballId && p.prizeIndex == prizeIndex
      && creator == g.creator
      && ValidateClaimBack(s.config, g, p, prizeMint).Pass?
    ensures r.Pass? ==>
      && s.prizes == old(s.prizes) - {(gumballId as nat, prizeIndex as nat)}
      && s.ledger == ReturnEscrow(gumballId, creator, prizeMint, old(s.ledger))
    ensures r.Pass? ==>
      && Balance(s.ledger, InstanceEscrow(gumballId, prizeMint)) == 0
      && Balance(s.ledger, WalletTokens(creator, prizeMint))
         == Balance(old(s.ledger), WalletTokens(creator, prizeMint)) + Balance(old(s.ledger), InstanceEscrow(gumballId, prizeMint))
    ensures r.Fail? ==> s.prizes == old(s.prizes) && s.ledger == old(s.ledger)
    ensures old(s.Valid()) ==> s.Valid()
  {
    if admin != s.config.gumballAdmin {
      return Fail(InvalidGumballAdmin);
    }
    if gumballId !in s.gumballs {
      return Fail(AccountNotInitialized);
    }
    var g := s.gumballs[gumballId];
    if g.gumballId != gumballId {
      return Fail(InvalidGumballId);
    }
    var key := (gumballId as nat, prizeIndex as nat);
    if key !in s.prizes {
      return Fail(AccountNotInitialized);
    }
    var p := s.prizes[key];
    if p.gumballId != gumballId {
      return Fail(InvalidGumballId);
    }
    if p.prizeIndex != prizeIndex {
      return Fail(InvalidPrizeIndex);
    }
    if creator != g.creator {
      return Fail(InvalidCreator);
    }
    var v := ValidateClaimBack(s.config, g, p, prizeMint);
    if v.Fail? {
      return v;
    }
    ghost var wasValid := s.Valid();
    ghost var prizes0, ledger0 := s.prizes, s.ledger;
    s.prizes := s.prizes - {key};
    s.ledger := ReturnEscrow(gumballId, creator, prizeMint, s.ledger);
    if wasValid {
      ClaimBackKeepsValid(s.config, s.gumballs, prizes0, ledger0, s.ledger, key);
    }
    return Pass;
  }
}

/**
 * The raffle config instructions: creating the config account, and the
 * owner-only updaters of its owner, its admin, its data and its pause flags.
 */
module RaffleConfigOps {
  import opened Common
  import opened RaffleErrors
  import opened RaffleStates

  /**
   * `initialize_raffle_config`: the config account is created by `init`, so
   * the instruction amounts to the record it writes. The raffle periods must
   * satisfy 0 < minimum < maximum; the raffle counter starts at 1, every
   * pause bit clear, and the wallet cap comes from the deployment.
   */
  function InitializeRaffleConfig(
    params: RaffleParams,
    raffleOwner: Pubkey,
    raffleAdmin: Pubkey,
    creationFeeLamports: U64,
    ticketFeeBps: U16,
    minimumRafflePeriod: U32,
    maximumRafflePeriod: U32,
    minimumTickets: U16,
    maximumTickets: U16,
    maximumWinnersCount: U8): (r: Result<RaffleConfig, RaffleError>)
    ensures r.Ok? <==> minimumRafflePeriod > 0 && maximumRafflePeriod > minimumRafflePeriod
    ensures r.Err? ==> r.error == InvalidRafflePeriod
    ensures r.Ok? ==> ConfigValid(r.value)
    ensures r.Ok? ==>
      && r.value.raffleOwner == raffleOwner && r.value.raffleAdmin == raffleAdmin
      && r.value.creationFeeLamports == creationFeeLamports && r.value.ticketFeeBps == ticketFeeBps
      && r.value.minimumRafflePeriod == minimumRafflePeriod && r.value.maximumRafflePeriod == maximumRafflePeriod
      && r.value.minimumTickets == minimumTickets && r.value.maximumTickets == maximumTickets
      && r.value.maximumWinnersCount == maximumWinnersCount
      && r.value.raffleCount == 1 && r.value.pauseFlags == 0
      && r.value.maximumWalletPct == params.maximumWalletPct
  {
    if !(minimumRafflePeriod > 0 && maximumRafflePeriod > minimumRafflePeriod) then Err(InvalidRafflePeriod)
    else
      Ok(RaffleConfig(
        raffleOwner := raffleOwner,
        raffleAdmin := raffleAdmin,
        creationFeeLamports := creationFeeLamports,
        ticketFeeBps := ticketFeeBps,
        minimumRafflePeriod := minimumRafflePeriod,
        maximumRafflePeriod := maximumRafflePeriod,
        minimumTickets := minimumTickets,
        maximumTickets := maximumTickets,
        maximumWinnersCount := maximumWinnersCount,
        raffleCount := 1,
        pauseFlags := 0,
        maximumWalletPct := params.maximumWalletPct))
  }

  /** `update_raffle_config_owner`: the stored owner hands ownership to a new key; nothing else changes. */
  method UpdateRaffleConfigOwner(s: RaffleStore, signer: Pubkey, newRaffleOwner: Pubkey) returns (r: Outcome<RaffleError>)
    modifies s`config
    ensures r.Pass? <==> signer == old(s.config.raffleOwner)
    ensures r.Fail? ==> r.error == InvalidRaffleOwner && s.config == old(s.config)
    ensures r.Pass? ==> s.config == old(s.config).(raffleOwner := newRaffleOwner)
    ensures old(s.Valid()) ==> s.Valid()
  {
    if signer != s.config.raffleOwner {
      return Fail(InvalidRaffleOwner);
    }
    s.config := s.config.(raffleOwner := newRaffleOwner);
    return Pass;
  }

  /** `update_raffle_config_admin`: the stored owner replaces the admin key; nothing else changes. */
  method UpdateRaffleConfigAdmin(s: RaffleStore, signer: Pubkey, newRaffleAdmin: Pubkey) returns (r: Outcome<RaffleError>)
    modifies s`config
    ensures r.Pass? <==> signer == old(s.config.raffleOwner)
    ensures r.Fail? ==> r.error == InvalidRaffleOwner && s.config == old(s.config)
    ensures r.Pass? ==> s.config == old(s.config).(raffleAdmin := newRaffleAdmin)
    ensures old(s.Valid()) ==> s.Valid()
  {
    if signer != s.config.raffleOwner {
      return Fail(InvalidRaffleOwner);
    }
    s.config := s.config.(raffleAdmin := newRaffleAdmin);
    return Pass;
  }

  /**
   * `update_raffle_config_data`: the stored owner replaces the fee, the fee
   * rate, the periods, the ticket bounds and the winner cap, under the same
   * period rule as initialisation. Owner, admin, counter, pause flags and
   * wallet cap are kept.
   */
  method UpdateRaffleConfigData(
    s: RaffleStore,
    signer: Pubkey,
    creationFeeLamports: U64,
    ticketFeeBps: U16,
    minimumRafflePeriod: U32,
    maximumRafflePeriod: U32,
    minimumTickets: U16,
    maximumTickets: U16,
    maximumWinnersCount: U8) returns (r: Outcome<RaffleError>)
    modifies s`config
    ensures r.Pass? <==>
      signer == old(s.config.raffleOwner) && minimumRafflePeriod > 0 && maximumRafflePeriod > minimumRafflePeriod
    ensures signer != old(s.config.raffleOwner) ==> r == Fail(InvalidRaffleOwner)
    ensures signer == old(s.config.raffleOwner) && r.Fail? ==> r.error == InvalidRafflePeriod
    ensures r.Fail? ==> s.config == old(s.config)
    ensures r.Pass? ==> s.config == old(s.config).(
      creationFeeLamports := creationFeeLamports,
      ticketFeeBps := ticketFeeBps,
      minimumRafflePeriod := minimumRafflePeriod,
      maximumRafflePeriod := maximumRafflePeriod,
      minimumTickets := minimumTickets,
      maximumTickets := maximumTickets,
      maximumWinnersCount := maximumWinnersCount)
    ensures old(s.Valid()) ==> s.Valid()
  {
    if signer != s.config.raffleOwner {
      return Fail(InvalidRaffleOwner);
    }
    if !(minimumRafflePeriod > 0 && maximumRafflePeriod > minimumRafflePeriod) {
      return Fail(InvalidRafflePeriod);
    }
    s.config := s.config.(
      creationFeeLamports := creationFeeLamports,
      ticketFeeBps := ticketFeeBps,
      minimumRafflePeriod := minimumRafflePeriod,
      maximumRafflePeriod := maximumRafflePeriod,
      minimumTickets := minimumTickets,
      maximumTickets := maximumTickets,
      maximumWinnersCount := maximumWinnersCount);
    return Pass;
  }

  /** `update_pause_and_unpause`: the stored owner replaces the pause flags; nothing else changes. */
  method UpdatePauseAndUnpause(s: RaffleStore, signer: Pubkey, newPauseFlags: U8) returns (r: Outcome<RaffleError>)
    modifies s`config
    ensures r.Pass? <==> signer == old(s.config.raffleOwner)
    ensures r.Fail? ==> r.error == InvalidRaffleOwner && s.config == old(s.config)
    ensures r.Pass? ==> s.config == old(s.config).(pauseFlags := newPauseFlags)
    ensures old(s.Valid()) ==> s.Valid()
  {
    if signer != s.config.raffleOwner {
      return Fail(InvalidRaffleOwner);
    }
    s.config := s.config.(pauseFlags := newPauseFlags);
    return Pass;
  }
}

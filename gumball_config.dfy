/**
 * The gumball config instructions: creating the config account, and the
 * owner-only updaters of its owner, its admin, its data and its pause flags.
 */
module GumballConfigOps {
  import opened Common
  import opened GumballErrors
  import opened GumballStates

  /**
   * `initialize_gumball_config`: the config account is created by `init`,
   * so the instruction amounts to the record it writes. The machine periods
   * must satisfy 0 < minimum < maximum; the counter starts at 1 and, the
   * account being fresh, every pause bit is clear.
   */
  function InitializeGumballConfig(
    gumballOwner: Pubkey,
    gumballAdmin: Pubkey,
    creationFeeLamports: U64,
    ticketFeeBps: U16,
    minimumGumballPeriod: U32,
    maximumGumballPeriod: U32): (r: Result<GumballConfig, GumballError>)
    ensures r.Ok? <==> minimumGumballPeriod > 0 && maximumGumballPeriod > minimumGumballPeriod
    ensures r.Err? ==> r.error == InvalidGumballPeriod
    ensures r.Ok? ==> ConfigValid(r.value)
    ensures r.Ok? ==>
      && r.value.gumballOwner == gumballOwner && r.value.gumballAdmin == gumballAdmin
      && r.value.creationFeeLamports == creationFeeLamports && r.value.ticketFeeBps == ticketFeeBps
      && r.value.minimumGumballPeriod == minimumGumballPeriod && r.value.maximumGumballPeriod == maximumGumballPeriod
      && r.value.gumballCount == 1 && r.value.pauseFlags == 0
  {
    if !(minimumGumballPeriod > 0 && maximumGumballPeriod > minimumGumballPeriod) then Err(InvalidGumballPeriod)
    else
      Ok(GumballConfig(
        gumballOwner := gumballOwner,
        gumballAdmin := gumballAdmin,
        creationFeeLamports := creationFeeLamports,
        ticketFeeBps := ticketFeeBps,
        minimumGumballPeriod := minimumGumballPeriod,
        maximumGumballPeriod := maximumGumballPeriod,
        gumballCount := 1,
        pauseFlags := 0))
  }

  /** `update_gumball_owner`: the stored owner hands ownership to a new key; nothing else changes. */
  method UpdateGumballOwner(s: GumballStore, signer: Pubkey, newOwner: Pubkey) returns (r: Outcome<GumballError>)
    modifies s`config
    ensures r.Pass? <==> signer == old(s.config.gumballOwner)
    ensures r.Fail? ==> r.error == InvalidGumballOwner && s.config == old(s.config)
    ensures r.Pass? ==> s.config == old(s.config).(gumballOwner := newOwner)
    ensures old(s.Valid()) ==> s.Valid()
  {
    if signer != s.config.gumballOwner {
      return Fail(InvalidGumballOwner);
    }
    s.config := s.config.(gumballOwner := newOwner);
    return Pass;
  }

  /** `update_gumball_admin`: the stored owner replaces the admin key; nothing else changes. */
  method UpdateGumballAdmin(s: GumballStore, signer: Pubkey, newAdmin: Pubkey) returns (r: Outcome<GumballError>)
    modifies s`config
    ensures r.Pass? <==> signer == old(s.config.gumballOwner)
    ensures r.Fail? ==> r.error == InvalidGumballOwner && s.config == old(s.config)
    ensures r.Pass? ==> s.config == old(s.config).(gumballAdmin := newAdmin)
    ensures old(s.Valid()) ==> s.Valid()
  {
    if signer != s.config.gumballOwner {
      return Fail(InvalidGumballOwner);
    }
    s.config := s.config.(gumballAdmin := newAdmin);
    return Pass;
  }

  /**
   * `update_gumball_config_data`: the stored owner replaces the creation
   * fee, the ticket fee and the periods, under the same rule as
   * initialisation. Owner, admin, counter and pause flags are kept.
   */
  method UpdateGumballConfigData(
    s: GumballStore,
    signer: Pubkey,
    creationFeeLamports: U64,
    ticketFeeBps: U16,
    minimumGumballPeriod: U32,
    maximumGumballPeriod: U32) returns (r: Outcome<GumballError>)
    modifies s`config
    ensures r.Pass? <==>
      signer == old(s.config.gumballOwner) && minimumGumballPeriod > 0 && maximumGumballPeriod > minimumGumballPeriod
    ensures signer != old(s.config.gumballOwner) ==> r == Fail(InvalidGumballOwner)
    ensures signer == old(s.config.gumballOwner) && r.Fail? ==> r.error == InvalidGumballPeriod
    ensures r.Fail? ==> s.config == old(s.config)
    ensures r.Pass? ==> s.config == old(s.config).(
      creationFeeLamports := creationFeeLamports,
      ticketFeeBps := ticketFeeBps,
      minimumGumballPeriod := minimumGumballPeriod,
      maximumGumballPeriod := maximumGumballPeriod)
    ensures old(s.Valid()) ==> s.Valid()
  {
    if signer != s.config.gumballOwner {
      return Fail(InvalidGumballOwner);
    }
    if !(minimumGumballPeriod > 0 && maximumGumballPeriod > minimumGumballPeriod) {
      return Fail(InvalidGumballPeriod);
    }
    s.config := s.config.(
      creationFeeLamports := creationFeeLamports,
      ticketFeeBps := ticketFeeBps,
      minimumGumballPeriod := minimumGumballPeriod,
      maximumGumballPeriod := maximumGumballPeriod);
    return Pass;
  }

  /** `update_pause_flags`: the stored owner replaces the pause flags; nothing else changes. */
  method UpdatePauseFlags(s: GumballStore, signer: Pubkey, newPauseFlags: U8) returns (r: Outcome<GumballError>)
    modifies s`config
    ensures r.Pass? <==> signer == old(s.config.gumballOwner)
    ensures r.Fail? ==> r.error == InvalidGumballOwner && s.config == old(s.config)
    ensures r.Pass? ==> s.config == old(s.config).(pauseFlags := newPauseFlags)
    ensures old(s.Valid()) ==> s.Valid()
  {
    if signer != s.config.gumballOwner {
      return Fail(InvalidGumballOwner);
    }
    s.config := s.config.(pauseFlags := newPauseFlags);
    return Pass;
  }
}

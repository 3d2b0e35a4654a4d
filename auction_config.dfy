/**
 * The auction config instructions: creating the config account, and the
 * owner-only updaters of its owner, its admin, its data and its pause flags.
 */
module AuctionConfigOps {
  import opened Common
  import opened AuctionErrors
  import opened AuctionStates

  /**
   * `initialize_auction_config`: the config account is created by `init`,
   * so the instruction amounts to the record it writes. The auction periods
   * must satisfy 0 < minimum < maximum, then the time extensions
   * minimum < maximum; the counter starts at 1 and every pause bit is clear.
   */
  function InitializeAuctionConfig(
    auctionOwner: Pubkey,
    auctionAdmin: Pubkey,
    creationFeeLamports: U64,
    commissionBps: U16,
    minimumAuctionPeriod: U32,
    maximumAuctionPeriod: U32,
    minimumTimeExtension: U32,
    maximumTimeExtension: U32): (r: Result<AuctionConfig, AuctionError>)
    ensures r.Ok? <==>
      && minimumAuctionPeriod > 0 && maximumAuctionPeriod > minimumAuctionPeriod
      && maximumTimeExtension > minimumTimeExtension
    ensures !(minimumAuctionPeriod > 0 && maximumAuctionPeriod > minimumAuctionPeriod) ==> r == Err(InvalidAuctionPeriod)
    ensures r.Err? ==> r.error == InvalidAuctionPeriod || r.error == InvalidTimeExtension
    ensures r.Ok? ==> ConfigValid(r.value)
    ensures r.Ok? ==>
      && r.value.auctionOwner == auctionOwner && r.value.auctionAdmin == auctionAdmin
      && r.value.creationFeeLamports == creationFeeLamports && r.value.commissionBps == commissionBps
      && r.value.minimumAuctionPeriod == minimumAuctionPeriod && r.value.maximumAuctionPeriod == maximumAuctionPeriod
      && r.value.minimumTimeExtension == minimumTimeExtension && r.value.maximumTimeExtension == maximumTimeExtension
      && r.value.auctionCount == 1 && r.value.pauseFlags == 0
  {
    if !(minimumAuctionPeriod > 0 && maximumAuctionPeriod > minimumAuctionPeriod) then Err(InvalidAuctionPeriod)
    else if maximumTimeExtension <= minimumTimeExtension then Err(InvalidTimeExtension)
    else
      Ok(AuctionConfig(
        auctionOwner := auctionOwner,
        auctionAdmin := auctionAdmin,
        creationFeeLamports := creationFeeLamports,
        commissionBps := commissionBps,
        minimumAuctionPeriod := minimumAuctionPeriod,
        maximumAuctionPeriod := maximumAuctionPeriod,
        minimumTimeExtension := minimumTimeExtension,
        maximumTimeExtension := maximumTimeExtension,
        auctionCount := 1,
        pauseFlags := 0))
  }

  /** `update_auction_owner`: the stored owner hands ownership to a new key; nothing else changes. */
  method UpdateAuctionOwner(s: AuctionStore, signer: Pubkey, newAuctionOwner: Pubkey) returns (r: Outcome<AuctionError>)
    modifies s`config
    ensures r.Pass? <==> signer == old(s.config.auctionOwner)
    ensures r.Fail? ==> r.error == InvalidAuctionOwner && s.config == old(s.config)
    ensures r.Pass? ==> s.config == old(s.config).(auctionOwner := newAuctionOwner)
    ensures old(s.Valid()) ==> s.Valid()
  {
    if signer != s.config.auctionOwner {
      return Fail(InvalidAuctionOwner);
    }
    s.config := s.config.(auctionOwner := newAuctionOwner);
    return Pass;
  }

  /** `update_auction_admin`: the stored owner replaces the admin key; nothing else changes. */
  method UpdateAuctionAdmin(s: AuctionStore, signer: Pubkey, newAuctionAdmin: Pubkey) returns (r: Outcome<AuctionError>)
    modifies s`config
    ensures r.Pass? <==> signer == old(s.config.auctionOwner)
    ensures r.Fail? ==> r.error == InvalidAuctionOwner && s.config == old(s.config)
    ensures r.Pass? ==> s.config == old(s.config).(auctionAdmin := newAuctionAdmin)
    ensures old(s.Valid()) ==> s.Valid()
  {
    if signer != s.config.auctionOwner {
      return Fail(InvalidAuctionOwner);
    }
    s.config := s.config.(auctionAdmin := newAuctionAdmin);
    return Pass;
  }

  /**
   * `update_config_data`: the stored owner replaces the creation fee, the
   * commission, the periods and the time extensions, under the same rules
   * as initialisation. Owner, admin, counter and pause flags are kept.
   */
  method UpdateConfigData(
    s: AuctionStore,
    signer: Pubkey,
    creationFeeLamports: U64,
    commissionBps: U16,
    minimumAuctionPeriod: U32,
    maximumAuctionPeriod: U32,
    minimumTimeExtension: U32,
    maximumTimeExtension: U32) returns (r: Outcome<AuctionError>)
    modifies s`config
    ensures r.Pass? <==>
      && signer == old(s.config.auctionOwner)
      && minimumAuctionPeriod > 0 && maximumAuctionPeriod > minimumAuctionPeriod
      && maximumTimeExtension > minimumTimeExtension
    ensures signer != old(s.config.auctionOwner) ==> r == Fail(InvalidAuctionOwner)
    ensures signer == old(s.config.auctionOwner) && !(minimumAuctionPeriod > 0 && maximumAuctionPeriod > minimumAuctionPeriod) ==>
      r == Fail(InvalidAuctionPeriod)
    ensures r.Fail? ==> s.config == old(s.config)
    ensures r.Pass? ==> s.config == old(s.config).(
      creationFeeLamports := creationFeeLamports,
      commissionBps := commissionBps,
      minimumAuctionPeriod := minimumAuctionPeriod,
      maximumAuctionPeriod := maximumAuctionPeriod,
      minimumTimeExtension := minimumTimeExtension,
      maximumTimeExtension := maximumTimeExtension)
    ensures old(s.Valid()) ==> s.Valid()
  {
    if signer != s.config.auctionOwner {
      return Fail(InvalidAuctionOwner);
    }
    if !(minimumAuctionPeriod > 0 && maximumAuctionPeriod > minimumAuctionPeriod) {
      return Fail(InvalidAuctionPeriod);
    }
    if maximumTimeExtension <= minimumTimeExtension {
      return Fail(InvalidTimeExtension);
    }
    s.config := s.config.(
      creationFeeLamports := creationFeeLamports,
      commissionBps := commissionBps,
      minimumAuctionPeriod := minimumAuctionPeriod,
      maximumAuctionPeriod := maximumAuctionPeriod,
      minimumTimeExtension := minimumTimeExtension,
      maximumTimeExtension := maximumTimeExtension);
    return Pass;
  }

  /** `update_pause_and_unpause`: the stored owner replaces the pause flags; nothing else changes. */
  method UpdatePauseAndUnpause(s: AuctionStore, signer: Pubkey, newPauseFlags: U8) returns (r: Outcome<AuctionError>)
    modifies s`config
    ensures r.Pass? <==> signer == old(s.config.auctionOwner)
    ensures r.Fail? ==> r.error == InvalidAuctionOwner && s.config == old(s.config)
    ensures r.Pass? ==> s.config == old(s.config).(pauseFlags := newPauseFlags)
    ensures old(s.Valid()) ==> s.Valid()
  {
    if signer != s.config.auctionOwner {
      return Fail(InvalidAuctionOwner);
    }
    s.config := s.config.(pauseFlags := newPauseFlags);
    return Pass;
  }
}

/**
 * Shared vocabulary of the three escrow engines: the Solana integer widths,
 * public keys, results, and an abstract ledger of balances.
 *
 * The ledger abstracts the System and Token programs: a balance is held by a
 * (owner, asset) pair, so an associated token account is identified by its
 * owner and mint, and a program account's lamports by the program account.
 */
module Common {

  const U8_MAX: int := 0xFF
  const U16_MAX: int := 0xFFFF
  const U32_MAX: int := 0xFFFF_FFFF
  const U64_MAX: int := 0xFFFF_FFFF_FFFF_FFFF
  const I64_MIN: int := -0x8000_0000_0000_0000
  const I64_MAX: int := 0x7FFF_FFFF_FFFF_FFFF

  type U8 = x: int | 0 <= x <= 0xFF
  type U16 = x: int | 0 <= x <= 0xFFFF
  type U32 = x: int | 0 <= x <= 0xFFFF_FFFF
  type U64 = x: int | 0 <= x <= 0xFFFF_FFFF_FFFF_FFFF
  type I64 = x: int | -0x8000_0000_0000_0000 <= x <= 0x7FFF_FFFF_FFFF_FFFF

  /** A public key. Key 0 plays the part of `Pubkey::default()`. */
  type Pubkey = nat
  const DEFAULT_PUBKEY: Pubkey := 0

  datatype Option<T> = None | Some(value: T)

  /** The value of an instruction that returns data, or the error it aborts with. */
  datatype Result<T, E> = Ok(value: T) | Err(error: E)

  /** The outcome of an instruction that returns nothing. */
  datatype Outcome<E> = Pass | Fail(error: E)

  /** `i64::checked_sub`. */
  function CheckedSubI64(a: I64, b: I64): (r: Option<I64>)
    ensures r.Some? <==> I64_MIN <= a - b <= I64_MAX
    ensures r.Some? ==> r.value == a - b
  {
    if I64_MIN <= a - b <= I64_MAX then Some(a - b) else None
  }

  /** `u64::saturating_sub`. */
  function SaturatingSubU64(a: U64, b: U64): (r: U64)
    ensures a >= b ==> r == a - b
    ensures a < b ==> r == 0
  {
    if a >= b then a - b else 0
  }

  // ---------------------------------------------------------------------
  // Ledger
  // ---------------------------------------------------------------------

  /** Who holds a balance: a user wallet, the engine's config account, or one of its instance accounts (a raffle, an auction, a gumball machine). */
  datatype Owner = Wallet(key: Pubkey) | ConfigPda | InstancePda(id: nat)

  /** Lamports, or the tokens of one mint. */
  datatype Asset = Lamports | Token(mint: Pubkey)

  /** A balance-holding account: the owner's lamports or the owner's associated token account for a mint. */
  datatype Holder = Holder(owner: Owner, asset: Asset)

  type Ledger = map<Holder, nat>

  function Balance(l: Ledger, h: Holder): nat
  {
    if h in l then l[h] else 0
  }

  /**
   * A transfer of `amount` from one holder to another. Its only precondition
   * is the one every transfer helper checks: the source holds at least the
   * amount.
   */
  function Move(l: Ledger, from: Holder, to: Holder, amount: nat): (r: Ledger)
    requires Balance(l, from) >= amount
    ensures from != to ==> Balance(r, from) == Balance(l, from) - amount
    ensures from != to ==> Balance(r, to) == Balance(l, to) + amount
    ensures from == to ==> r == l
    ensures forall h :: h != from && h != to ==> Balance(r, h) == Balance(l, h)
  {
    if from == to then l
    else l[from := Balance(l, from) - amount][to := Balance(l, to) + amount]
  }

  /** Closing a program account: its whole lamport balance goes to `to`. */
  function Sweep(l: Ledger, from: Holder, to: Holder): (r: Ledger)
    ensures from != to ==> Balance(r, from) == 0
    ensures from != to ==> Balance(r, to) == Balance(l, to) + Balance(l, from)
    ensures forall h :: h != from && h != to ==> Balance(r, h) == Balance(l, h)
  {
    Move(l, from, to, Balance(l, from))
  }

  /** Why a SOL transfer made through the System Program fails. */
  datatype SolTransferError = InsufficientSol | SolTransferRefused

  /**
   * `transfer_sol_with_seeds` as the helpers write it: the helper's own
   * balance check, then a System Program transfer whose payer is `from`.
   * The System Program debits only accounts that it owns and that carry no
   * data. The config account and the instance accounts are program-owned
   * records, so the transfer is refused whenever the payer is not a wallet.
   */
  function SystemTransferAsWritten(l: Ledger, from: Holder, to: Holder, amount: nat): (r: Result<Ledger, SolTransferError>)
    ensures Balance(l, from) < amount ==> r == Err(InsufficientSol)
    ensures Balance(l, from) >= amount && !from.owner.Wallet? ==> r == Err(SolTransferRefused)
    ensures r.Ok? <==> Balance(l, from) >= amount && from.owner.Wallet?
    ensures r.Ok? ==> r.value == Move(l, from, to, amount)
  {
    if Balance(l, from) < amount then Err(InsufficientSol)
    else if !from.owner.Wallet? then Err(SolTransferRefused)
    else Ok(Move(l, from, to, amount))
  }

  /**
   * No instance account can pay lamports through the System Program, however
   * much it holds, while `Move` (the corrected payout) goes through on the
   * same balance.
   */
  lemma InstancePayoutRefused(l: Ledger, id: nat, to: Holder, amount: nat)
    requires Balance(l, Holder(InstancePda(id), Lamports)) >= amount
    ensures SystemTransferAsWritten(l, Holder(InstancePda(id), Lamports), to, amount) == Err(SolTransferRefused)
    ensures Balance(Move(l, Holder(InstancePda(id), Lamports), to, amount), to) >= Balance(l, to)
  {
  }

  /** The lamports of an instance account itself (a raffle, an auction, a gumball machine). */
  function InstanceLamports(id: nat): Holder { Holder(InstancePda(id), Lamports) }

  /** An instance account's associated token account for a mint (one of its escrows). */
  function InstanceEscrow(id: nat, mint: Pubkey): Holder { Holder(InstancePda(id), Token(mint)) }

  /** Where an instance keeps an amount of SOL (no mint) or of a token: its own lamports, or its escrow for the mint. */
  function InstanceVault(id: nat, mint: Option<Pubkey>): Holder
  {
    match mint
    case None => InstanceLamports(id)
    case Some(m) => InstanceEscrow(id, m)
  }

  /** Two ledgers agree on every account of every instance other than `id`. */
  ghost predicate SameInstanceBalances(l: Ledger, l': Ledger, id: nat)
  {
    forall h: Holder :: h.owner.InstancePda? && h.owner.id != id ==> Balance(l', h) == Balance(l, h)
  }

  /** A transfer between accounts none of which belongs to another instance than `id` leaves the other instances' balances as they were. */
  lemma MoveKeepsOtherInstances(l: Ledger, from: Holder, to: Holder, amount: nat, id: nat)
    requires Balance(l, from) >= amount
    requires from.owner.InstancePda? ==> from.owner.id == id
    requires to.owner.InstancePda? ==> to.owner.id == id
    ensures SameInstanceBalances(l, Move(l, from, to, amount), id)
  {
  }

  /** The lamports of the config account, where SOL fees go. */
  function ConfigLamports(): Holder { Holder(ConfigPda, Lamports) }

  /** The config account's token account for a mint, where token fees go. */
  function FeeTreasury(mint: Pubkey): Holder { Holder(ConfigPda, Token(mint)) }

  /** Where fees in SOL (no mint) or in a token are collected. */
  function FeeVault(mint: Option<Pubkey>): Holder
  {
    match mint
    case None => ConfigLamports()
    case Some(m) => FeeTreasury(m)
  }

  function WalletLamports(key: Pubkey): Holder { Holder(Wallet(key), Lamports) }

  function WalletTokens(key: Pubkey, mint: Pubkey): Holder { Holder(Wallet(key), Token(mint)) }

  /** A wallet's holding of a SOL or token amount: its lamports, or its token account for the mint. */
  function WalletAccount(key: Pubkey, mint: Option<Pubkey>): Holder
  {
    match mint
    case None => WalletLamports(key)
    case Some(m) => WalletTokens(key, m)
  }
}

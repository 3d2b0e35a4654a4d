# Escrow engines of the fox9 Solana programs, modelled in Dafny

This project models the three Anchor programs of the repository: **raffle**, **auction** and **gumball**.
Each one holds a creator's prize in custody, takes payments from the public, and later pays or refunds
those payments under rules kept in a config account. The model follows their instruction handlers
one by one. For every instruction it states exactly when the instruction succeeds, with the error each
failed check raises in the source's order, and what the accounts hold afterwards. Lemmas and store
invariants then prove properties of the whole program:

- in the auction and the gumball, the escrows always cover what they owe;
- fees never exceed what they are taken from;
- payouts never exceed the prize;
- claims cannot be repeated.

## How the programs are represented

- **Integer widths.** `U8`…`U64` and `I64` are subset types of `int`. Every `checked_*` operation is an explicit
  range test on the exact result. A failed test is the source's `Overflow` error. An `as` cast is
  written out as a remainder (`% 2^64`, `% 2^16`).
- **Accounts and value.** All value is one ledger, `map<Holder, nat>`. A holder is an owner together with an asset.
  - The owner is a wallet, the config PDA, or the PDA of raffle/auction/machine number `id`.
  - The asset is lamports or a token mint.
  - An associated token account is identified by its (owner, mint) pair.
  - `Common.Move` is the balance-checked transfer of the token helpers (`transfer_tokens`,
    `transfer_tokens_with_seeds`) and of the signer-paid `transfer_sol`. `Common.Sweep` moves a whole
    balance, as a close does.
  - SOL payouts out of a raffle, auction or machine account go through `transfer_sol_with_seeds`. That helper
    pays through the System Program, which refuses a program-owned account as payer. So these payouts fail in
    the source (fourth Findings row, `Common.SystemTransferAsWritten`). The model makes them with `Move`, the
    corrected payout. The members this affects are listed under "## Left out".
- **One class per program.** `RaffleStore`, `AuctionStore` and `GumballStore` have these fields:
  - the config record;
  - the map from id to instance record;
  - for the raffle, the buyer records keyed (raffle id, wallet); for the gumball, the prize records keyed
    (machine id, slot);
  - the ledger.
- **One method per instruction.** Each instruction is a method on the store. Its `ensures` gives:
  - success if and only if every account constraint and body check passes;
  - the exact new state on success;
  - no change on failure, because a failed Solana transaction reverts everything;
  - preservation of the store invariant `Valid()`.
- **Pure parts are functions.** Arithmetic and check sequences are functions with their own contracts:
  `SplitFee`, `RevenueSplit`, `PrizeBack`, `CalculateMaxTickets`, `ValidateCreate…` and the `…Transfers`
  ledger functions. One exception: the source's loops (`has_duplicate_pubkeys`,
  `is_descending_order_and_sum_100`) are methods with loop invariants.
- **Store invariants.**
  - Raffle: every buyer's tickets stay within the raffle's sales and the wallet cap. In an ended raffle,
    what the winner slots pay plus the prize kept back never exceeds the prize.
  - Auction: each live auction's accounts hold its NFT. They also hold the standing bid once there is one.
  - Gumball: each open machine's escrows hold every token its prize slots still promise, and its ticket
    vault holds `price * tickets_sold`.

### Behaviour of the source that the model keeps as written

- **Raffle.**
  - `cancel_raffle` closes the raffle account to the creator (`close = creator`). This returns the creation
    fee together with the prize, although the comment at `cancel_raffle.rs:40` says the fee is not refunded.
  - Raw SOL debits from a program account use a strict `>` balance test (`cancel_raffle.rs:57`,
    `claim_amount_back.rs:64,119`), and those are kept strict. The model does not represent rent, so the
    account is never assumed to hold more.
  - A ticket fee rate above 100% is not refused by the config. With such a rate `announce_winners` computes a
    fee that can exceed the revenue. The checked subtraction then fails with Overflow, and the raffle cannot be
    announced. This happens exactly when revenue * (bps - 10000) >= 10000, so a small revenue can still pass
    with a zero creator amount. `RevenueSplit` states when the split succeeds, in both directions.
  - `states.rs` of the raffle declares neither `pause_flags` and `maximum_wallet_pct` in the config nor
    `claimable_ticket_amount` in the raffle, yet the instructions read and write all three. The model
    includes these fields.
  - The raffle's `update_pause_and_unpause` is dispatched from `lib.rs:44-48` but its body is not part of
    the source. It is modelled like the auction's and the gumball's.
  - `validate_win_shares` is called at `create_raffle.rs:68` and `update_raffle_winners.rs:45` but is
    defined nowhere in the source; `utils.rs:40-60` defines only `is_descending_order_and_sum_100`.
    `RaffleCreate.ValidateCreateRaffle` and `RaffleUpdate.UpdateRaffleWinners` use that function in its place
    (`RaffleUtils.ValidWinShares`, computed by `RaffleUtils.IsDescendingOrderAndSum100`).
  - `config.maximum_wallet_pct` is read at `create_raffle.rs:92`, but `initialize_raffle_config`
    (`process_raffle_config.rs:5-36`) never writes it. Left zero, it would reject every per-wallet percentage of at least 1.
    `RaffleConfigOps.InitializeRaffleConfig` instead sets it to the deployment parameter
    `RaffleParams.maximumWalletPct`.
  - The raffle's `get_pct_amount` has an empty body at `utils.rs:33`. The raffle is modelled with the
    auction's definition.
  - The pause-bit indices, `MINIMUM_TICKETS`, `MAXIMUM_TICKETS` and `MAXIMUM_WALLET_PCT` do not appear in
    the raffle's `constants.rs`. They are deployment parameters of the model (`RaffleParams`).
  - `calculate_max_tickets` casts with `as u16`. For percentages above 100 this keeps the low 16 bits, and the
    model does the same.
- **Auction.**
  - `complete_auction` pays the prize to whatever `winner` account is passed. Nothing ties it to
    `highest_bidder`, so the model takes the winner as a parameter.
  - Cancelling, and completing without a bid, return one token of the supplied prize mint without checking
    it against the stored one. The escrow that must hold it is the auction's account for the supplied mint.
- **Gumball.**
  - The gumball's own `utils.rs` is not part of this model. Its `get_pct_amount` and `is_paused` are taken to
    be the auction's definitions. Its `validate_nft` is called as a boolean at `add_prize.rs:53`, and the model
    assumes it is the predicate "0 decimals and supply 1". The auction's version of that test raises
    `InvalidNFT` instead of returning false.
  - The spinner chooses which prize slot is spun. Nothing random is involved.
  - Spinning the last unit of a slot closes that slot's prize escrow, and the close fails unless the escrow
    is empty. It is not empty when another slot of the machine holds the same mint, or when the ticket mint
    is the prize mint. `SpinGumball` spells out this failure.
  - `claim_prize_back` sweeps the machine's whole escrow for the slot's mint to the creator. That includes
    tokens of other slots of the same mint.
- **Every program.**
  - Account owner and mint constraints (`InvalidTicketEscrowOwner`, `InvalidPrizeAtaOwner`, …) hold by
    construction in the model. Each account an instruction uses is the ledger holder with the right
    (owner, mint) pair. Only the mint keys passed as instruction accounts are parameters, and only they are
    checked.
  - A checked operation that the instruction's own earlier checks rule out is written as plain arithmetic
    without an error path. These are `tickets_sold + tickets_to_buy` in `buy_ticket`, after the
    remaining-supply check (`buy_ticket.rs:88-92`). They are also `quantity - 1` and `tickets_sold + 1` in
    `spin_gumball`, after the quantity and supply checks (`spin_gumball.rs:71-86`). Every other checked
    operation keeps its Overflow error.

## Model

| member | source | states |
|---|---|---|
| Common.CheckedSubI64 | raffle/programs/raffle/src/instructions/create_raffle.rs:77-79 | the i64 `checked_sub` succeeds exactly when the exact difference fits in i64, and then equals it |
| Common.SaturatingSubU64 | gumball/programs/constants/src/instructions/spin_gumball.rs:77-80 | subtraction clamped at zero (`checked_sub(..).unwrap_or(0)`): the exact difference when it is non-negative, 0 otherwise |
| Common.Move | raffle/programs/raffle/src/helpers.rs:57-77 | a balance-checked transfer: the source loses and the destination gains exactly the amount, and every other account is unchanged |
| Common.Sweep | gumball/programs/gumball/src/instructions/claim_prize_back.rs:62-87 | the whole balance moves to the destination and the source ends at zero; nothing else changes. It models this whole-escrow return and the `close =` lamport sweeps (`cancel_raffle.rs:144`, `complete_auction.rs:205`) |
| Common.SystemTransferAsWritten | auction/programs/constants/src/helpers.rs:73-97 | `transfer_sol_with_seeds` as written: InsufficientSol when the payer lacks the amount; otherwise the System Program transfer, which goes through exactly when the payer is a wallet and is refused for a program account |
| Common.InstancePayoutRefused | raffle/programs/raffle/src/helpers.rs:124-147 | no instance account can pay lamports through the System Program, whatever it holds, while the corrected `Move` pays on the same balance |
| Common.MoveKeepsOtherInstances | auction/programs/constants/src/helpers.rs:13-70 | a transfer between accounts of one instance and outsiders leaves every other instance's accounts untouched |
| AuctionUtils.Pow2 | auction/programs/auction/src/utils.rs:23 | a well-formedness helper, not a property of the source: 2^n is positive, which lets `IsPaused` divide by the place value of the bit that `1 << index` selects |
| AuctionUtils.GetPctAmount | auction/programs/auction/src/utils.rs:5-11 | defined exactly when amount*pct fits in u64 and base > 0; the result is the floor of amount*pct/base |
| AuctionUtils.DivBounds | auction/programs/auction/src/utils.rs:9 | a floor quotient brackets the dividend and never exceeds it |
| AuctionUtils.PctAmountAtMostAmount | auction/programs/auction/src/utils.rs:5-11 | with pct <= base, the proportion never exceeds the amount |
| AuctionUtils.SplitFee | auction/programs/auction/src/instructions/complete_auction.rs:71-77 | fee = get_pct_amount and rest = amount - fee (checked); succeeds iff the product fits, base > 0 and fee <= amount (always for a rate <= 100%); fee + rest == amount and the fee is the floor of the proportion |
| AuctionUtils.FeeAtMostAmountIff | auction/programs/auction/src/instructions/complete_auction.rs:74-77 | the floor fee is at most the amount exactly when amount*pct < (amount+1)*base, both directions |
| AuctionUtils.MulMonotone | auction/programs/auction/src/utils.rs:6-9 | multiplication by a natural preserves order |
| AuctionUtils.IsPaused | auction/programs/auction/src/utils.rs:22-25 | the shift-and-mask on u8 is true exactly when bit `index` of the flags is 1 |
| AuctionUtils.BitTest | auction/programs/auction/src/utils.rs:23-24 | `flags & (1 << i) != 0` on bv8 agrees with the arithmetic bit `(flags / 2^i) % 2 == 1` |
| AuctionUtils.NothingPausedWhenClear | auction/programs/auction/src/utils.rs:22-25 | with all flags clear no function is paused |
| RaffleUtils.HasDuplicatePubkeys | raffle/programs/raffle/src/utils.rs:3-12 | the nested loop returns true exactly when two positions i < j hold the same key, so never for a list of at most one key |
| RaffleUtils.SumU8 | raffle/programs/raffle/src/utils.rs:42 | the u8 sum is defined exactly when the exact sum fits in u8, and then equals it |
| RaffleUtils.IsDescendingOrderAndSum100 | raffle/programs/raffle/src/utils.rs:40-60 | true exactly when the shares sum to 100 and each share is at most the one before it |
| RaffleUtils.ShareRuleEdges | raffle/programs/raffle/src/utils.rs:40-60 | the empty share list is rejected, [100] is accepted, and a ranked list ending in a zero share ([60, 40, 0]) is accepted |
| RaffleUtils.NonIncreasingPairwise | raffle/programs/raffle/src/utils.rs:53-57 | adjacent ordering gives every pair: an earlier share is never smaller than a later one |
| RaffleUtils.PrefixSumAtMostSum | raffle/programs/raffle/src/instructions/announce_winners.rs:109-113 | the shares of a prefix of the winners never sum to more than the whole list |
| RaffleUtils.PrefixSumStep | raffle/programs/raffle/src/instructions/announce_winners.rs:109 | extending a prefix by one share adds that share to its sum |
| RaffleUtils.CalculateMaxTickets | raffle/programs/raffle/src/utils.rs:14-31 | error exactly for pct 0; the cap is at least 1; for pct <= 100 it is the ceiling of total*pct/100 (floored at 1) and at most the total |
| RaffleUtils.CapFacts | raffle/programs/raffle/src/utils.rs:22-28 | the u32 steps cannot overflow, and for pct <= 100 the u16 cast keeps the ceiling, which lies within [1, total] |
| RaffleUtils.MulBound | raffle/programs/raffle/src/utils.rs:24 | products of bounded naturals are bounded by the product of the bounds |
| RaffleUtils.CeilingCap | raffle/programs/raffle/src/utils.rs:25-28 | for 0 < pct <= 100 the ceiling fits in u16, is a true ceiling, and never exceeds the total |
| RaffleUtils.MinPerWalletPct | raffle/programs/raffle/src/instructions/create_raffle.rs:88-89 | defined exactly for 1 <= total with 100 + total in u16; the result is ceil(100 / total) and lies in [1, 100] |
| RaffleUtils.CeilingOfHundred | raffle/programs/raffle/src/instructions/create_raffle.rs:89 | (100 + t - 1) / t is the ceiling of 100 / t and lies in [1, 100] |
| RaffleUtils.CapReachesOneTicket | raffle/programs/raffle/src/instructions/create_raffle.rs:88-94 | a percentage accepted by the minimum-percentage rule gives a wallet cap from total*pct >= 100 |
| RaffleStates.PayoutAtMostProportion | raffle/programs/raffle/src/instructions/buyer_claim_prize.rs:74 | one rounded-down payout never exceeds the exact share of the prize |
| RaffleStates.PayoutsAtMostProportion | raffle/programs/raffle/src/instructions/buyer_claim_prize.rs:57-125 | the rounded payouts of several slots never exceed the exact proportion of their shares' sum |
| RaffleStates.PrizeConservation | raffle/programs/raffle/src/instructions/announce_winners.rs:105-122 | for any number of filled slots, their payouts plus the prize kept back for the empty slots never exceed the prize |
| RaffleStates.ShareSplit | raffle/programs/raffle/src/instructions/announce_winners.rs:116-121 | two amounts bounded by complementary percentages of the prize add up to at most the prize |
| RaffleStates.SplitProduct | raffle/programs/raffle/src/instructions/announce_winners.rs:121 | distributivity of the share product |
| RaffleStates.RaffleUpdateKeepsValid | raffle/programs/raffle/src/states.rs:23-46 | replacing a raffle record with a valid one that has the same ticket sales keeps the store invariant |
| RaffleStates.UnsoldUpdateKeepsValid | raffle/programs/raffle/src/instructions/update_raffle_ticketing.rs:37-71 | replacing the record of a raffle with no sales by any valid unsold record keeps the store invariant |
| RaffleStates.RaffleStore.constructor | raffle/programs/raffle/src/instructions/process_raffle_config.rs:5-36 | a store with an initialised config and no raffles satisfies the invariant |
| RaffleConfigOps.InitializeRaffleConfig | raffle/programs/raffle/src/instructions/process_raffle_config.rs:5-36 | succeeds exactly for 0 < min period < max period; the record has the given fields, counter 1 and clear pause flags |
| RaffleConfigOps.UpdateRaffleConfigOwner | raffle/programs/raffle/src/instructions/process_raffle_config.rs:38-45 | only the stored owner may call; exactly the owner field changes |
| RaffleConfigOps.UpdateRaffleConfigAdmin | raffle/programs/raffle/src/instructions/process_raffle_config.rs:47-54 | only the stored owner may call; exactly the admin field changes |
| RaffleConfigOps.UpdateRaffleConfigData | raffle/programs/raffle/src/instructions/process_raffle_config.rs:56-82 | owner-only, under the period rule; replaces fee, rate, periods, ticket bounds and winner cap and keeps the rest |
| RaffleConfigOps.UpdatePauseAndUnpause | raffle/programs/raffle/src/lib.rs:44-48 | owner-only; exactly the pause flags change |
| RaffleCreate.NftSharesValid | raffle/programs/raffle/src/instructions/create_raffle.rs:41 | the single share [100] is a valid share list |
| RaffleCreate.ValidateCreateRaffle | raffle/programs/raffle/src/instructions/create_raffle.rs:29-94 | accepts exactly when price > 0, tickets within bounds, winners in (0, min(tickets, cap)], prize >= winners, shares valid and one per winner, duration in i64 and within the periods, start not past, and pct within [ceil(100/total), max]; the first two errors in order; accepted NFT terms are one token for one winner with shares [100], and other prizes keep the creator's terms; accepted terms admit one ticket per wallet |
| RaffleCreate.NewRaffleValid | raffle/programs/raffle/src/instructions/create_raffle.rs:96-117 | the record written from accepted terms satisfies the raffle invariant |
| RaffleCreate.NewRaffle | raffle/programs/raffle/src/instructions/create_raffle.rs:96-117 | the new record is numbered by the counter, has nothing sold or claimable, has one default winner key and one unclaimed flag per winner, is Active exactly when started at once, and names a ticket mint and a prize mint exactly for token tickets and token prizes |
| RaffleCreate.FundingCheck | raffle/programs/raffle/src/instructions/create_raffle.rs:120-202 | the deposit checks pass exactly when the creator can fund the prize and fee (SOL: their sum in u64; NFT: the mint is an NFT) |
| RaffleCreate.FundRaffle | raffle/programs/raffle/src/instructions/create_raffle.rs:120-202 | the SOL prize plus fee go into the raffle account; a token prize goes into the raffle's escrow and the fee into the raffle account; the creator loses exactly that |
| RaffleCreate.CreateRaffle | raffle/programs/raffle/src/instructions/create_raffle.rs:10-242 | succeeds exactly when the admin co-signs, the id is free and the checks pass; the new record and the counter + 1; the ledger as FundRaffle; no change on failure; invariant kept |
| RaffleCreate.CreateKeepsValid | raffle/programs/raffle/src/instructions/create_raffle.rs:235-239 | adding a valid raffle under the counter and bumping the counter keeps the store invariant |
| RaffleActivate.ActivateRaffle | raffle/programs/raffle/src/instructions/activate_raffle.rs:13-48 | succeeds exactly for an unpaused, Initialized raffle with now strictly after its start; only its status changes, to Active |
| RaffleBuy.PriceToPayAsWritten | raffle/programs/raffle/src/instructions/buy_ticket.rs:94-97 | the price as the source computes it: the exact product reduced mod 2^64 |
| RaffleBuy.PriceToPayAsWrittenWraps | raffle/programs/raffle/src/instructions/buy_ticket.rs:95-97 | two tickets at 2^63 cost 0 with the source's cast |
| RaffleBuy.PriceToPay | raffle/programs/raffle/src/instructions/buy_ticket.rs:94-97 | the corrected price: the exact product, or Overflow exactly when it does not fit in u64 |
| RaffleBuy.StampedBuyer | raffle/programs/raffle/src/instructions/buy_ticket.rs:70-92 | a fresh buyer record is stamped with the raffle id and buyer, and the ticket count becomes the new total |
| RaffleBuy.BuyTicket | raffle/programs/raffle/src/instructions/buy_ticket.rs:18-158 | succeeds exactly when admin, Active, unpaused, start <= now <= end, tickets > 0, enough left, within the wallet cap, a matching buyer record, the price fits and can be paid; sold and the buyer's count grow by the purchase; the price moves buyer → ticket vault |
| RaffleBuy.BuyKeepsValid | raffle/programs/raffle/src/instructions/buy_ticket.rs:44-92 | a sale keeps tickets_sold <= total and every buyer within sold and the wallet cap |
| RaffleAnnounce.PrizeBack | raffle/programs/raffle/src/instructions/announce_winners.rs:105-123 | with fewer sales than winners, the floor of the empty slots' percentage of the prize; otherwise 0 |
| RaffleAnnounce.RevenueSplit | raffle/programs/raffle/src/instructions/announce_winners.rs:148-161 | revenue = price*sold (checked), fee = floor(revenue*bps/10000), creator = revenue - fee; succeeds exactly when both products fit in u64 and revenue*bps < (revenue+1)*10000, so a rate above 100% fails only for large enough revenues; the parts sum to the revenue, and a rate <= 100% never fails once the products fit |
| RaffleAnnounce.FeeAtMostRevenue | raffle/programs/raffle/src/instructions/announce_winners.rs:153-161 | a fee rate of at most 100% never takes more than the revenue |
| RaffleAnnounce.Announced | raffle/programs/raffle/src/instructions/announce_winners.rs:132-134 | the announced record is SuccessEnded with the winners, the prize-back and the creator's amount, and nothing else changes |
| RaffleAnnounce.FeeTransferCheck | raffle/programs/raffle/src/instructions/announce_winners.rs:174-231 | the fee transfer's checks: a token raffle names its escrow, the escrow is its ticket vault, and the vault holds the fee |
| RaffleAnnounce.CheckWinners | raffle/programs/raffle/src/instructions/announce_winners.rs:72-103 | an NFT needs exactly one winner; otherwise min(sold, num_winners) winners, distinct when required; each failure has its own error |
| RaffleAnnounce.SettleSuccess | raffle/programs/raffle/src/instructions/announce_winners.rs:72-140 | on success the record is Announced(...) and exactly the fee moves from the ticket vault to the fee vault |
| RaffleAnnounce.AnnounceWinners | raffle/programs/raffle/src/instructions/announce_winners.rs:32-140 | succeeds exactly when admin, unpaused, Active and now > end, plus the success checks when there are sales; with no sales the raffle becomes FailedEnded with the whole prize claimable back and no value moves |
| RaffleAnnounce.AnnouncedValid | raffle/programs/raffle/src/instructions/announce_winners.rs:90-134 | an accepted announcement yields a valid SuccessEnded record whose filled slots plus prize-back stay within the prize |
| RaffleClaimPrize.WinnerAmount | raffle/programs/raffle/src/instructions/buyer_claim_prize.rs:71-128 | an NFT pays 1 only at slot 0 of a one-winner raffle; otherwise floor(prize*share/100); zero is refused |
| RaffleClaimPrize.PrizeClaimCheck | raffle/programs/raffle/src/instructions/buyer_claim_prize.rs:71-148 | the prize-side checks pass exactly when the mint and escrow are recorded and consistent, the slot pays something and the vault holds it |
| RaffleClaimPrize.BuyerClaimPrize | raffle/programs/raffle/src/instructions/buyer_claim_prize.rs:19-150 | succeeds exactly when admin, unpaused, SuccessEnded, the index exists, the signer is that winner, the slot is unclaimed and the prize checks pass; the slot becomes claimed and its amount moves to the winner; a second claim fails |
| RaffleCancel.ReturnAmount | raffle/programs/raffle/src/instructions/cancel_raffle.rs:88-95 | an NFT returns 1; otherwise max(prize, escrow balance), so dust goes too |
| RaffleCancel.CancelTransfers | raffle/programs/raffle/src/instructions/cancel_raffle.rs:50-121 | the raffle account and a token prize's escrow end empty; the creator receives every lamport of the raffle account (fee included) and the tokens |
| RaffleCancel.CancelRaffle | raffle/programs/raffle/src/instructions/cancel_raffle.rs:18-130 | succeeds exactly when admin, creator, unpaused, Initialized/Active, no sales, and the transfers pass; the record is removed |
| RaffleCancel.RemoveKeepsValid | raffle/programs/raffle/src/instructions/cancel_raffle.rs:142-149 | removing a raffle record keeps the store invariant |
| RaffleClaimBack.TicketAmountAsWritten | raffle/programs/raffle/src/instructions/claim_amount_back.rs:41-44 | the ticket amount as the source computes it: max(stored claimable, balance of the supplied ticket_escrow) |
| RaffleClaimBack.TicketAmountClaimable | raffle/programs/raffle/src/instructions/claim_amount_back.rs:41-44 | the corrected amount: the stored claimable for SOL tickets, or max with the raffle's own escrow balance for token tickets |
| RaffleClaimBack.TicketAmountAsWrittenOverpays | raffle/programs/raffle/src/instructions/claim_amount_back.rs:41-47 | on a fully claimed SOL-ticket raffle the source's amount is 9 while the corrected amount is 0 |
| RaffleClaimBack.PrizeBackAmount | raffle/programs/raffle/src/instructions/claim_amount_back.rs:95-100 | an NFT prize returns its single token, other prizes the stored prize-back; never more than the prize for a record within its bounds |
| RaffleClaimBack.PrizeBackTransfer | raffle/programs/raffle/src/instructions/claim_amount_back.rs:59-113 | SOL needs the raffle account to hold strictly more than the amount; tokens move the NFT or the prize-back from the escrow to the creator |
| RaffleClaimBack.TicketBackTransfer | raffle/programs/raffle/src/instructions/claim_amount_back.rs:115-173 | SOL needs strictly more than the amount; tokens move the amount from the ticket escrow, which must then be empty to close |
| RaffleClaimBack.ClaimBackTransfers | raffle/programs/raffle/src/instructions/claim_amount_back.rs:59-173 | succeeds exactly when the prize-back transfer goes through (if one is due) and then the ticket transfer goes through on the ledger it leaves (if one is due); the result is the prize-back moved from the prize vault to the creator, followed by the ticket amount moved from the ticket vault to the creator |
| RaffleClaimBack.TicketEscrowEmptied | raffle/programs/raffle/src/instructions/claim_amount_back.rs:42-44 | a successful claim on a token-ticket raffle leaves its ticket escrow at zero |
| RaffleClaimBack.ClaimAmountBack | raffle/programs/raffle/src/instructions/claim_amount_back.rs:20-189 | succeeds exactly when admin, creator, unpaused, ended, something owed and the transfers pass; both claimable amounts become 0, so a repeat fails while nothing new is owed |
| RaffleUpdate.UpdateRaffleTicketing | raffle/programs/raffle/src/instructions/update_raffle_ticketing.rs:14-81 | succeeds exactly when admin, creator, unpaused, Initialized/Active, unsold, price > 0, tickets within the bounds and >= winners, and pct within [ceil(100/total), max]; only those three fields change |
| RaffleUpdate.UpdateRaffleWinners | raffle/programs/raffle/src/instructions/update_raffle_winners.rs:14-61 | succeeds exactly when admin, creator, unpaused, Initialized/Active, unsold, not NFT, and the shares are valid and one per winner; only the shares and the uniqueness flag change |
| RaffleUpdateTime.UpdateRaffleTime | raffle/programs/raffle/src/instructions/update_raffle_time.rs:5-52 | succeeds exactly when admin, creator, id, Initialized, now < start, new start >= now, end > start and the duration is within the periods; only the two times change |
| RaffleUpdateTimePaused.UpdateRaffleTime | raffle/programs/constants/src/instructions/update_raffle_time.rs:15-68 | adds the pause check and a strictly future start; only the two times change, and the duration respects the minimum period |
| AuctionStates.ReturnPrize | auction/programs/auction/src/instructions/complete_auction.rs:40-54 | moves one token of the supplied mint from the auction's escrow to the creator, failing when the escrow does not hold it; other instances are untouched |
| AuctionStates.CloseToCreator | auction/programs/auction/src/instructions/complete_auction.rs:203-210 | `close = creator` moves every lamport of the auction account to the creator |
| AuctionStates.PutKeepsValid | auction/programs/auction/src/states.rs:24-47 | storing a valid, covered auction below the counter keeps the store invariant when only its accounts changed |
| AuctionStates.RemoveKeepsValid | auction/programs/constants/src/instructions/cancel_auction.rs:87-94 | removing an auction record keeps the store invariant |
| AuctionStates.OtherCovered | auction/programs/auction/src/states.rs:24-47 | an auction stays covered when only another instance's accounts change |
| AuctionStates.AuctionStore.constructor | auction/programs/constants/src/instructions/process_auction_config.rs:5-39 | a store with an initialised config and no auctions satisfies the invariant |
| AuctionConfigOps.InitializeAuctionConfig | auction/programs/constants/src/instructions/process_auction_config.rs:5-39 | succeeds exactly for 0 < min < max period and min < max extension, with the errors in order; counter 1 and clear flags |
| AuctionConfigOps.UpdateAuctionOwner | auction/programs/constants/src/instructions/process_auction_config.rs:41-50 | owner-only; exactly the owner changes |
| AuctionConfigOps.UpdateAuctionAdmin | auction/programs/constants/src/instructions/process_auction_config.rs:52-61 | owner-only; exactly the admin changes |
| AuctionConfigOps.UpdateConfigData | auction/programs/constants/src/instructions/process_auction_config.rs:63-92 | owner-only, under the period and extension rules; replaces fee, commission, periods and extensions |
| AuctionConfigOps.UpdatePauseAndUnpause | auction/programs/constants/src/instructions/process_auction_config.rs:94-103 | owner-only; exactly the pause flags change |
| AuctionCreate.ValidateCreateAuction | auction/programs/constants/src/instructions/create_auction.rs:32-64 | passes exactly when unpaused, increment > 0, duration in i64 and within the periods, extension within its bounds, start not past and the mint an NFT |
| AuctionCreate.FundAuction | auction/programs/constants/src/instructions/create_auction.rs:96-113 | one NFT moves creator → prize escrow, and the fee, only when positive, moves creator → config |
| AuctionCreate.CreateAuction | auction/programs/constants/src/instructions/create_auction.rs:20-125 | succeeds exactly when admin, a free id, the terms valid, the counter can grow and the deposits can be made; the new record's fields are stated in full; counter + 1 |
| AuctionStart.StartAuction | auction/programs/auction/src/instructions/start_auction.rs:13-41 | succeeds exactly for an unpaused Initialized auction with now >= start; only the status changes, and a second start fails |
| AuctionUpdate.ValidateNewTerms | auction/programs/auction/src/instructions/update_auction.rs:54-79 | passes exactly when start >= now, the duration is in i64 and within the periods, the extension is in bounds and the increment > 0 |
| AuctionUpdate.UpdateAuction | auction/programs/auction/src/instructions/update_auction.rs:18-101 | succeeds exactly when admin, creator, unpaused, Initialized, start still ahead, no bid and the terms valid; the five terms are rewritten and the standing amount reset to the base |
| AuctionBid.BidTransfers | auction/programs/auction/src/instructions/place_bid.rs:47-153 | the bid goes bidder → vault, then with a standing bid exactly that amount goes back to the previous bidder; the vault nets bid - refund |
| AuctionBid.BidTransfersAsWritten | auction/programs/auction/src/instructions/place_bid.rs:111-153 | place_bid's value movements as written: token bids and a first SOL bid move value as `BidTransfers` does, and a SOL bid that must refund a standing bid always fails |
| AuctionBid.SecondSolBidFailsAsWritten | auction/programs/auction/src/instructions/place_bid.rs:117-127 | every second SOL bid that the corrected model accepts fails in the source with SolTransferFailed: the refund's balance check passes but the auction account cannot pay |
| AuctionBid.Outbid | auction/programs/auction/src/instructions/place_bid.rs:156-162 | after an accepted bid the bid stands, the bidder leads, the bid flag is set, and the end moves back by the extension; every other field is unchanged |
| AuctionBid.PlaceBid | auction/programs/auction/src/instructions/place_bid.rs:18-172 | succeeds exactly when admin, unpaused, Active, now < end, a new bidder, bid >= standing + increment (in u64), transfers pass and the end extends in i64; the standing amount strictly rises |
| AuctionBid.BidKeepsCovered | auction/programs/auction/src/instructions/place_bid.rs:100-158 | an accepted bid keeps the auction's prize and new standing bid covered |
| AuctionComplete.SettleTransfers | auction/programs/auction/src/instructions/complete_auction.rs:70-177 | goes through exactly when the mints match and the accounts cover what is owed; the winner gains the NFT, the vault loses the bid, and the config and creator gain fee and rest |
| AuctionComplete.Completed | auction/programs/auction/src/instructions/complete_auction.rs:39-179 | without a bid the prize returns (CompletedFailed); with one, the split and the settlement (CompletedSuccessfully) |
| AuctionComplete.CompleteAuction | auction/programs/auction/src/instructions/complete_auction.rs:21-191 | succeeds exactly when admin, creator, unpaused, Active, now > end and Completed passes; the record is removed; fee + creator amount == final price, with the fee the floor of the rate; with the corrected SOL payout, always succeeds for a rate <= 100% with its own mints; as written, a successful SOL-bid completion fails at the payout (fourth Findings row) |
| AuctionCancel.CancelTransfers | auction/programs/constants/src/instructions/cancel_auction.rs:45-66 | the creator gains the NFT; the escrow must then be empty to close; the auction account ends empty |
| AuctionCancel.CancelAuction | auction/programs/constants/src/instructions/cancel_auction.rs:19-75 | succeeds exactly when admin, creator, unpaused, Initialized/Active, no bid and the transfers pass; the record is removed |
| GumballStates.CommittedPut | gumball/programs/gumball/src/states.rs:35-43 | replacing one slot's record changes the machine's committed tokens of a mint by exactly the new minus the old share |
| GumballStates.CommittedFrame | gumball/programs/gumball/src/states.rs:35-43 | prize maps that agree on a machine's slots commit the same totals |
| GumballStates.CommittedNone | gumball/programs/gumball/src/instructions/create_gumball.rs:60-72 | a machine without prize records commits nothing |
| GumballStates.CommittedElsewhere | gumball/programs/gumball/src/states.rs:35-43 | changes to other machines' prizes leave a machine's commitments unchanged |
| GumballStates.CommittedAtLeastSlot | gumball/programs/gumball/src/states.rs:40-42 | a machine's committed total of a mint includes any one slot's share |
| GumballStates.PutPrizeElsewhere | gumball/programs/gumball/src/states.rs:35-43 | replacing a record of one machine leaves the other machines' records as they were |
| GumballStates.PutKeepsValid | gumball/programs/gumball/src/states.rs:17-43 | storing a valid machine with its own prize changes keeps the invariant when the ledger changed only on its accounts and it is covered while open |
| GumballStates.EscrowCoversSlot | gumball/programs/constants/src/instructions/spin_gumball.rs:94-102 | a covered machine's escrow holds at least a slot's remaining tokens |
| GumballStates.UnitWithinTotal | gumball/programs/gumball/src/states.rs:40-42 | a valid record with a unit left holds at least one unit's tokens |
| GumballStates.PrizeFunded | gumball/programs/constants/src/instructions/spin_gumball.rs:94-102 | in a valid store the escrow of an open machine can pay one unit of any slot that has one left |
| GumballStates.PutPrizeKeepsValid | gumball/programs/gumball/src/states.rs:17-43 | storing a valid machine and one valid slot record keeps the store invariant |
| GumballStates.GumballStore.constructor | gumball/programs/gumball/src/instructions/process_gumball_config.rs:5-31 | a store with an initialised config and no machines satisfies the invariant |
| GumballConfigOps.InitializeGumballConfig | gumball/programs/gumball/src/instructions/process_gumball_config.rs:5-31 | succeeds exactly for 0 < min < max period; counter 1, clear pause flags |
| GumballConfigOps.UpdateGumballOwner | gumball/programs/gumball/src/instructions/process_gumball_config.rs:33-39 | owner-only; exactly the owner changes |
| GumballConfigOps.UpdateGumballAdmin | gumball/programs/gumball/src/instructions/process_gumball_config.rs:41-47 | owner-only; exactly the admin changes |
| GumballConfigOps.UpdateGumballConfigData | gumball/programs/gumball/src/instructions/process_gumball_config.rs:49-69 | owner-only, under the period rule; replaces fee, ticket fee and periods |
| GumballConfigOps.UpdatePauseFlags | gumball/programs/gumball/src/instructions/process_gumball_config.rs:71-77 | owner-only; exactly the pause flags change |
| GumballCreate.ValidateCreateGumball | gumball/programs/gumball/src/instructions/create_gumball.rs:29-58 | passes exactly when unpaused, price > 0, tickets in [3, 1000], duration in i64, start not past and duration within the periods |
| GumballCreate.CreateGumball | gumball/programs/gumball/src/instructions/create_gumball.rs:18-121 | succeeds exactly when admin, a free id, the terms valid, the fee payable and the counter can grow; the record is stated in full, counter + 1, and a positive fee moves creator → config |
| GumballAddPrize.AddAmountAsWritten | gumball/programs/gumball/src/instructions/add_prize.rs:84-86 | the deposit as the source computes it: the exact product mod 2^64 |
| GumballAddPrize.AddAmountAsWrittenWraps | gumball/programs/gumball/src/instructions/add_prize.rs:84-86 | two units of 2^63 tokens give a deposit of 0 with the source's cast |
| GumballAddPrize.AddAmount | gumball/programs/gumball/src/instructions/add_prize.rs:84-86 | the corrected deposit: the exact product, or Overflow exactly when it does not fit in u64 |
| GumballAddPrize.CheckUnits | gumball/programs/gumball/src/instructions/add_prize.rs:53-66 | an NFT is one unit of one token; otherwise positive units of a positive amount |
| GumballAddPrize.StockSlot | gumball/programs/gumball/src/instructions/add_prize.rs:82-134 | a free slot gets exactly the new units; a taken slot must match id, index, mint and amount and not be an NFT, then grows by the units and tokens within u64/u16 |
| GumballAddPrize.StockKeepsCovered | gumball/programs/gumball/src/instructions/add_prize.rs:143-150 | the slot commits no more new tokens than the deposit adds to the escrow, so the machine stays covered |
| GumballAddPrize.ValidateAddPrize | gumball/programs/gumball/src/instructions/add_prize.rs:36-77 | passes exactly when unpaused, open, not past end, the units valid and the prize count within u16 and the tickets |
| GumballAddPrize.StockedPrizeValid | gumball/programs/gumball/src/instructions/add_prize.rs:88-134 | the stocked record's total is exactly its units times the unit amount |
| GumballAddPrize.AddKeepsValid | gumball/programs/gumball/src/instructions/add_prize.rs:137-150 | an addition keeps the store invariant: a valid record, counters within the tickets, machine covered |
| GumballAddPrize.AddPrize | gumball/programs/gumball/src/instructions/add_prize.rs:20-163 | succeeds exactly when admin, creator, the checks, the deposit fits, the slot accepts and the creator holds the deposit; the slot record, prizes_added + quantity and the deposit creator → escrow |
| GumballActivate.ActivateGumball | gumball/programs/gumball/src/instructions/activate_gumball.rs:13-48 | succeeds exactly for an unpaused Initialized machine with now >= start; only the status changes |
| GumballUpdate.ValidateNewTimes | gumball/programs/gumball/src/instructions/update_gumball.rs:46-69 | passes exactly when the current start is ahead, the new start (now if starting) is not past and the duration is within the periods |
| GumballUpdate.UpdateGumballTime | gumball/programs/gumball/src/instructions/update_gumball.rs:23-83 | succeeds exactly when admin, creator, unpaused, Initialized and the times valid; only start and end change |
| GumballUpdate.UpdateGumballData | gumball/programs/gumball/src/instructions/update_gumball.rs:85-134 | succeeds exactly when admin, creator, unpaused, unsold, Initialized/Active, price > 0 and tickets >= prizes added; only price and tickets change |
| GumballCancel.CancelGumball | gumball/programs/gumball/src/instructions/cancel_gumball.rs:14-50 | succeeds exactly when admin, creator, unpaused, unsold and Initialized/Active; only the status changes, to Cancelled |
| GumballSpin.TakeUnit | gumball/programs/constants/src/instructions/spin_gumball.rs:68-80 | one unit fewer, and the total reduced by a unit's tokens, clamped at 0 when it would go negative |
| GumballSpin.TakeUnitKeepsValid | gumball/programs/constants/src/instructions/spin_gumball.rs:68-80 | on a valid record the clamp never applies and the record stays valid |
| GumballSpin.ValidateSpin | gumball/programs/constants/src/instructions/spin_gumball.rs:23-65 | passes exactly when unpaused, Active, now <= end, prizes added > sold, the mint matches and a unit is left |
| GumballSpin.SpinTransfers | gumball/programs/constants/src/instructions/spin_gumball.rs:94-164 | goes through exactly when the escrow pays the unit, the ticket mint matches, the spinner pays the price and the last unit's escrow is empty; the machine's accounts change by exactly the unit out and the price in |
| GumballSpin.SpinKeepsCovered | gumball/programs/constants/src/instructions/spin_gumball.rs:68-151 | a spin keeps the machine covered: the escrow loses what the slot stops owing and the vault gains the new ticket's revenue |
| GumballSpin.SpinKeepsValid | gumball/programs/constants/src/instructions/spin_gumball.rs:68-86 | a spin keeps the store invariant, including sold <= prizes added |
| GumballSpin.SpinGumball | gumball/programs/constants/src/instructions/spin_gumball.rs:21-177 | succeeds exactly when admin, the records exist and match, the checks and transfers pass; the slot takes a unit and sold + 1; on a valid store it always succeeds for a payable spin, except when the last unit's escrow is shared |
| GumballEnd.PayOut | gumball/programs/gumball/src/instructions/end_gumball.rs:76-144 | goes through exactly when the ticket mint matches and the vault holds the revenue; the vault loses it, and the fee vault and creator gain their parts |
| GumballEnd.Settle | gumball/programs/gumball/src/instructions/end_gumball.rs:42-147 | with no sales, CompletedFailed and nothing moves; otherwise revenue in u64, SplitFee, PayOut, then CompletedSuccessfully |
| GumballEnd.EndGumball | gumball/programs/gumball/src/instructions/end_gumball.rs:18-158 | succeeds exactly when admin, creator, unpaused, Active, now > end and Settle passes; only the status changes; fee + rest == revenue with the fee the floor of the rate; with the corrected SOL payout, always succeeds on a valid store for a rate <= 100% with products in u64; as written, ending a SOL-ticket machine with sales fails at the payout (fourth Findings row) |
| GumballClaimBack.ValidateClaimBack | gumball/programs/gumball/src/instructions/claim_prize_back.rs:30-60 | passes exactly when unpaused, the machine is Cancelled or Completed, and the mint matches |
| GumballClaimBack.ReturnEscrow | gumball/programs/gumball/src/instructions/claim_prize_back.rs:62-102 | the escrow ends at 0 and the creator gains its whole balance; nothing moves when it was empty |
| GumballClaimBack.ClaimBackKeepsValid | gumball/programs/gumball/src/instructions/claim_prize_back.rs:89-102 | removing a prize record of a finished machine keeps the store invariant |
| GumballClaimBack.ClaimPrizeBack | gumball/programs/gumball/src/instructions/claim_prize_back.rs:24-115 | succeeds exactly when admin, the records exist and match, creator and the checks pass; the record is removed and the escrow swept to the creator |

## Left out

- Rent is not modelled. Lamport balances are the spendable amounts, and creating or closing a token account moves no rent.
- Events (`emit!`) are not modelled, because they carry no state.
- Token-account creation (`create_ata`, `init_if_needed` on token accounts) and CPI program checks (`InvalidTokenProgram`) are not modelled, because every (owner, mint) account exists in the ledger.
- Token-account existence is not modelled. A closed escrow reads as an empty balance.
- The `withdraw_sol_fees.rs` and `withdraw_spl_fees.rs` instructions of the three programs are not part of this model. They only transfer accumulated fees out of the config account, above a rent floor the model does not represent.
- `claim_prize.rs` and `creator_claim_prize_back.rs` of the raffle are not part of this model. `lib.rs` does not dispatch them, since `buyer_claim_prize` and `claim_amount_back` replace them, and they refer to modules the repository lacks.
- Raw lamport arithmetic (`try_borrow_mut_lamports`) is modelled as a move of the amount. Its `>` test is kept.
- The Clock read is the parameter `now`.
- The raffle store invariant does not state that the raffle's accounts hold every winner's share plus the prize-back. PrizeConservation bounds what is owed against the prize, without tying it to the ledger.
- RaffleBuy.BuyTicket: the checks of the supplied ticket mint and accounts (buy_ticket.rs:118-135) hold by construction, because the model pays into the raffle's own ticket vault.
- RaffleAnnounce.FeeTransferCheck: the fee treasury's owner and mint checks (announce_winners.rs:190-219) hold by construction.
- GumballCreate.CreateGumball: the ticket escrow's owner and mint checks (create_gumball.rs:80-89) hold by construction. The machine's escrow is its account for the mint.
- GumballSpin.SpinGumball: the owner checks of the spinner's and the escrow's accounts (spin_gumball.rs:127-139) hold by construction. The spinner's associated token account for the prize is assumed to exist.
- RaffleBuy.BuyTicket charges the corrected price `RaffleBuy.PriceToPay` of the first Findings row, not the source's truncating cast. With 2 tickets at 2^63 it fails with Overflow, where `buy_ticket.rs:94-97` sells them for 0.
- RaffleClaimBack.ClaimAmountBack pays the corrected ticket amount `RaffleClaimBack.TicketAmountClaimable` of the second Findings row. On an already claimed SOL-ticket raffle it fails with InvalidZeroAmount, where `claim_amount_back.rs:41-44` pays out the balance of whatever token account is passed as `ticket_escrow`.
- GumballAddPrize.AddPrize deposits the corrected amount `GumballAddPrize.AddAmount` of the third Findings row. With 2 units of 2^63 it fails with Overflow, where `add_prize.rs:84-86` records and transfers 0.
- RaffleClaimPrize.BuyerClaimPrize sends the prize to the winner's own account for the prize mint. `buyer_claim_prize.rs:131-136` checks only the mint of `winner_prize_ata`, not its owner, so in the source a winner can direct the prize to any account of that mint.
- RaffleAnnounce.SettleSuccess moves the SOL ticket fee with the corrected `Move`. As written, `announce_winners.rs:177` pays it through the System Program from the raffle account, which fails with SolTransferFailed (fourth Findings row).
- RaffleAnnounce.AnnounceWinners therefore announces a SOL-ticket raffle with sales, where the source fails at that fee transfer.
- RaffleClaimPrize.BuyerClaimPrize pays a SOL prize with the corrected `Move`. As written, `buyer_claim_prize.rs:77` pays it from the raffle account through the System Program, which fails.
- AuctionBid.BidTransfers refunds a standing SOL bid with the corrected `Move`. As written, `place_bid.rs:123-127` refunds from the auction account through the System Program, which fails (`AuctionBid.BidTransfersAsWritten`). That call also passes 3 arguments to a 5-parameter helper.
- AuctionBid.PlaceBid therefore accepts a second SOL bid, where the source fails (`AuctionBid.SecondSolBidFailsAsWritten`).
- AuctionComplete.SettleTransfers pays the SOL fee and the creator's share with the corrected `Move`. As written, `complete_auction.rs:116,124` pays them from the auction account through the System Program, which fails.
- AuctionComplete.Completed inherits this: a SOL-bid auction with a bid completes in the model and fails in the source.
- AuctionComplete.CompleteAuction: its liveness clause holds for the corrected SOL payout only. As written, no SOL-bid auction with a bid can be completed.
- GumballEnd.PayOut pays the SOL fee and the creator's share with the corrected `Move`. As written, `end_gumball.rs:79,88` pays them from the machine account through the System Program, which fails. The gumball's `helpers.rs` is not part of this model, and its `transfer_sol_with_seeds` is taken to be the auction's.
- GumballEnd.Settle inherits this: a SOL-ticket machine with sales settles in the model and fails in the source.
- GumballEnd.EndGumball: its liveness clause holds for the corrected SOL payout only. As written, no SOL-ticket machine with sales can be ended.
- Panics are modelled as errors, because a panic aborts the transaction. This covers u16 overflow in minimum-percentage arithmetic, division by zero and index out of bounds.

## Findings

| source | as written | input that shows it | evidently intended | confidence | as-written member | corrected member |
|---|---|---|---|---|---|---|
| raffle/programs/raffle/src/instructions/buy_ticket.rs:95-97 | the u128 price is cast with `as u64`, which keeps the low 64 bits | ticket_price = 2^63, tickets_to_buy = 2: the price is 0, so two tickets are free | a checked conversion that fails with Overflow | high, not executed | RaffleBuy.PriceToPayAsWritten, RaffleBuy.PriceToPayAsWrittenWraps | RaffleBuy.PriceToPay |
| raffle/programs/raffle/src/instructions/claim_amount_back.rs:41-44 | the ticket amount is max(claimable, `ticket_escrow.amount`), and for SOL tickets nothing ties `ticket_escrow` to the raffle | a claimed SOL-ticket raffle whose account holds 10 lamports, with a token account holding 9 passed as `ticket_escrow`: the creator receives 9 lamports again | read the escrow only for token tickets, where it is the raffle's own | high, not executed | RaffleClaimBack.TicketAmountAsWritten, RaffleClaimBack.TicketAmountAsWrittenOverpays | RaffleClaimBack.TicketAmountClaimable |
| gumball/programs/gumball/src/instructions/add_prize.rs:84-86 | the u128 deposit is cast with `as u64` | prize_amount = 2^63, quantity = 2: the recorded total and the deposit are 0 | a checked conversion that fails with Overflow | high, not executed | GumballAddPrize.AddAmountAsWritten, GumballAddPrize.AddAmountAsWrittenWraps | GumballAddPrize.AddAmount |
| auction/programs/constants/src/helpers.rs:73-97 | `transfer_sol_with_seeds` pays through a System Program transfer whose payer is the instance account. The same code is at `raffle/programs/raffle/src/helpers.rs:124-147`, and it is used at `announce_winners.rs:177`, `buyer_claim_prize.rs:77`, `place_bid.rs:123`, `complete_auction.rs:116,124` and `end_gumball.rs:79,88`. The System Program debits only accounts it owns that carry no data, and these are program-owned records | a SOL auction with a standing bid receives a higher SOL bid: the refund's balance check passes, then the System Program refuses the auction account as payer and the bid fails with SolTransferFailed | move the lamports directly, as `cancel_raffle.rs:59-60` and `claim_amount_back.rs:66-67` do | high, not executed | Common.SystemTransferAsWritten, AuctionBid.BidTransfersAsWritten, AuctionBid.SecondSolBidFailsAsWritten | Common.Move |

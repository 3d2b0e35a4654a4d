/**
 * The errors a gumball instruction aborts with. The source spreads them over
 * four enums (machine state, key mismatches, configuration, transfers); the
 * model keeps one flat enum with the same variant names. The last group
 * stands for the account framework's own errors: an account that does not
 * exist, an `init` account that already does, and a token account that
 * cannot be closed because it still holds tokens.
 */
module GumballErrors {
  datatype GumballError =
    // machine state
    | InvalidGumballId
    | InvalidCreator
    | Overflow
    | FunctionPaused
    | InvalidTicketPrice
    | InvalidTotalTickets
    | EndTimeNotReached
    | StartTimeExceedEndTime
    | StartTimeInPast
    | TicketsAlreadySold
    | NotInitialized
    | StartTimeNotReached
    | EndTimeIsReached
    | InvalidGumballState
    | PrizesExceedTickets
    | InvalidPrizeIndex
    | InvalidRemainingAccounts
    | MissingBump
    | PrizeMintMismatch
    | PrizeAmountMismatch
    | CannotAddExistingNftPrize
    | InvalidNftPrizeAmount
    | InvalidNftPrizeQuantity
    | InvalidPrizeAmount
    | InvalidPrizeQuantity
    // key mismatches
    | InvalidTicketMint
    | MissingTicketMint
    | InvalidTicketEscrow
    | InvalidPrizeMint
    | InvalidPrizeEscrow
    | InvalidPrizeEscrowOwner
    | InvalidFeeTreasuryAtaOwner
    | InvalidBuyerAccountUser
    | InvalidTicketAtaOwner
    | InvalidPrizeAtaOwner
    | InvalidTicketEscrowOwner
    | InvalidCreatorPrizeAtaMint
    | InvalidCreatorPrizeAtaOwner
    | InvalidPrizeEscrowMint
    // configuration
    | InvalidGumballOwner
    | InvalidGumballAdmin
    | InvalidGumballPeriod
    // transfers
    | TokenTransferFailed
    | SolTransferFailed
    | InsufficientTokenBalance
    | InsufficientSolBalance
    // account framework
    | AccountNotInitialized
    | AccountAlreadyInUse
    | CloseAccountFailed
}

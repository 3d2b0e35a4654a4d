/**
 * The errors a raffle instruction aborts with. The source spreads them over
 * several enums (configuration errors, state errors, key mismatches, helper
 * errors); the model keeps one flat enum with the same variant names. The
 * last group stands for the account framework's own errors (an account
 * that does not exist, an `init` account that already does), a vector
 * index out of range (a panic in the source), and the key-mismatch errors
 * on a raffle's stored mints and escrows.
 */
module RaffleErrors {
  datatype RaffleError =
    // configuration and authority
    | InvalidRaffleOwner
    | InvalidRaffleAdmin
    | InvalidRafflePeriod
    | InvalidCreator
    | InvalidRaffleId
    | FunctionPaused
    // creation and update parameters
    | InvalidTicketZeroPrice
    | InvalidTotalTickets
    | InvalidZeroWinnersCount
    | WinnersExceedTotalTickets
    | ExceedMaxWinners
    | InsufficientPrizeAmount
    | InvalidWinSharesLength
    | InvalidWinShares
    | StartTimeExceedEndTime
    | StartTimeInPast
    | InvalidMaxPerWalletPct
    | InvalidNftDecimals
    | InvalidNftSupply
    | CannotUpdateWinnersForNftPrize
    // lifecycle
    | StateShouldBeInInitialized
    | StartTimeNotReached
    | RaffleNotActive
    | RaffleAlreadyStarted
    | EndTimeIsCrossed
    | EndTimeNotReached
    | RaffleNotEnded
    | RaffleNotSuccessEnded
    | InvalidRaffleStateForCancel
    | InvalidRaffleStateForUpdate
    | MoreThanOneTicketSolded
    // tickets
    | InvalidZeroTickets
    | TicketsSoldOut
    | MaxTicketsPerWalletExceeded
    | InvalidBuyerAccountUser
    // winners and claims
    | InvalidWinnersLength
    | DuplicateWinnersNotAllowed
    | InvalidWinnerIndex
    | InvalidWinner
    | PrizeAlreadyClaimed
    | ZeroPrizeForWinner
    | InvalidZeroAmount
    // arithmetic and transfers
    | Overflow
    | InsufficientSolBalance
    | InsufficientTokenBalance
    // account framework
    | AccountNotInitialized
    | AccountAlreadyInUse
    | IndexOutOfBounds
    | MissingPrizeMint
    | MissingPrizeEscrow
    | InvalidPrizeEscrow
    | MissingTicketMint
    | MissingTicketEscrow
    | InvalidTicketEscrow
    | CloseAccountFailed
}

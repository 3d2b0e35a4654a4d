/**
 * The errors an auction instruction aborts with. The source spreads them
 * over four enums (auction state, key mismatches, configuration, transfers);
 * the model keeps one flat enum with the same variant names. The last group
 * stands for the account framework's own errors: an account that does not
 * exist, an `init` account that already does, and a token account that
 * cannot be closed because it still holds tokens.
 */
module AuctionErrors {
  datatype AuctionError =
    // auction state
    | InvalidAuctionId
    | InvalidCreator
    | EndTimeNotReached
    | FunctionPaused
    | Overflow
    | InvalidZeroAmount
    | StartTimeExceedEndTime
    | StartTimeInPast
    | AuctionAlreadyStarted
    | AuctionNotStarted
    | AuctionNotActive
    | AuctionAlreadyCompleted
    | InvalidAuctionTimeExtension
    | AuctionHasBids
    | InvalidNFT
    | BidTooLow
    | BidBelowIncrement
    | CannotBidOwnHighBid
    | NoBidsPresent
    | InsufficientBalance
    // key mismatches
    | InvalidPrizeMint
    | InvalidPrizeEscrow
    | InvalidPrizeEscrowOwner
    | InvalidPrizeAtaOwner
    | InvalidBidMint
    | MissingBidMint
    | InvalidBidEscrow
    | InvalidBidEscrowOwner
    | InvalidBidAtaOwner
    | InvalidPreviousBidOwner
    | InvalidHighestBidder
    // configuration
    | InvalidAuctionOwner
    | InvalidAuctionAdmin
    | InvalidAuctionPeriod
    | InvalidTimeExtension
    // transfers
    | TokenTransferFailed
    | SolTransferFailed
    | InsufficientTokenBalance
    | InsufficientSolBalance
    // account framework
    | AccountNotInitialized
    | AccountAlreadyInUse
    | CloseAccountFailed
}

/** Optional values, and the outcome of a request: a value or the error the API reports. */
module Results {
  datatype Option<+T> = None | Some(value: T)

  datatype Result<+T> = Ok(value: T) | Err(error: Error)

  /** The `code` of every ApiError the modelled code raises, and the other exceptions it can meet: a
      violated constraint, `scalar_one_or_none` finding more than one row, and a Redis key of the
      wrong type. */
  datatype Error =
    | AccountNotActive
    | OnboardingRequired
    | TodayPhotoAlreadyExists
    | DuplicatePhoto
    | PhotoConflict
    | PhotoNotFound
    | PhotoNotOwned
    | PhotoAlreadyMatched
    | PhotoDeleteNotAllowed
    | ValidationJobNotFound
    | ValidationAlreadyCompleted
    | ValidationLeaseLost
    | ValidationNotProcessing
    | PhotoNotValidating
    | EmbeddingJobNotFound
    | EmbeddingAlreadyCompleted
    | EmbeddingLeaseLost
    | SamePhotoMatch
    | MatchExplanationRequired
    | MatchPhotoNotFound
    | SameUserMatch
    | MatchCandidateChanged
    | SearchPeriodExpired
    | UserBlocked
    | PhotoNotSearching
    | MatchNotFound
    | PostcardOrderNotAllowed
    | PostcardReplyNotReceived
    | PostcardAlreadySent
    | PostcardNotFound
    | CannotBlockSelf
    | UserNotFound
    | UserAlreadyBlocked
    | InvalidCursor
    | InvalidArgument
    | IntegrityError
    | MultipleResultsFound
    | WrongType
}

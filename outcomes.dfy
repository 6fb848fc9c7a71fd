/** The outcome of a request against the shop: success, or one of the error
    kinds the REST layer reports (each with its HTTP status). */
module Outcomes {

  datatype Option<+T> = None | Some(value: T)

  /** Why a payload was refused with a validation error (HTTP 400). */
  datatype Reason =
    | UnknownProduct                      // a product id in the payload does not resolve
    | AmountBelowOne                      // a position's amount is below 1
    | RatingOutOfRange                    // a review rating outside 1..5
    | NegativePrice                       // a product price below 0
    | NoProducts                          // empty positions / products_list on create
    | DuplicateProducts                   // the same product twice on create
    | FieldsNotAllowed(allowed: set<string>)  // payload keys outside the whitelist
    | AlreadyReviewed                     // second review of one product by one user
    | AlreadyFavorite                     // product already in the caller's favourites

  datatype Error =
    | Unauthenticated        // 401: an action that needs a logged-in user
    | Forbidden              // 403: the caller lacks the role for a visible object
    | NotFound               // 404: absent, or outside the caller's queryset
    | InternalError          // 500: an exception raised inside the framework
    | Invalid(reason: Reason)  // 400

  /** A check that either lets the request go on or stops it with an error. */
  datatype Outcome = Pass | Fail(error: Error)

  /** A request that produces a value (a new id, a visible set) or an error. */
  datatype Result<+T> = Success(value: T) | Failure(error: Error)
}

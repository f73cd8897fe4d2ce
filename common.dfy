/** Identities, optional values and the error taxonomy shared by every module. */
module Common {

  /** A document identity (a MongoDB ObjectId); the store draws them from a counter. */
  type Id = nat

  datatype Option<T> = None | Some(value: T)

  /** Why an operation was refused. The comments give the HTTP status the server answers with. */
  datatype Error =
    | MissingFields      // 400: a required request field is absent or falsy
    | ValidationFailed   // a schema validator (required, enum, min) refused the document
    | InvalidPayload     // the ledger record's pre-save hook refused the payload shape
    | DuplicateKey       // a unique index (category name, variant SKU, user email) refused the write
    | DuplicateSku       // 400: a submitted SKU is already on a stored variant
    | DuplicateName      // 400: a category with this exact name exists
    | DuplicateEmail     // 400: a user with this exact email exists
    | NotFound           // 404: no document with this id
    | NotPending         // 400: the ledger record was already reviewed
    | InvalidDecision    // 400: the review decision is neither Approved nor Rejected
    | ProductGone        // 400: the product of an existing-product record no longer exists
    | VariantGone        // 400: the variant of an existing-product record no longer exists
    | InsufficientStock  // 400: an OUT approval asks for more than the variant holds
    | ProductHasStock    // 400: a product whose total stock is positive cannot be deleted
    | CategoryInUse      // 400: a category that products still reference cannot be deleted
    | SelfRoleChange     // 400: an admin tried to change their own role
    | SelfDelete         // 400: an admin tried to delete their own account
    | WrongPassword      // 401: the current password does not match
    | SamePassword       // 400: the new password matches the old one
    | Forbidden          // 403: role or CSRF check refused the request

  datatype Result<T> = Ok(value: T) | Err(error: Error)

  /** The result of a check that carries no value: the request passes or is refused. */
  datatype Outcome = Pass | Fail(error: Error)
}

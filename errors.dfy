/**
 * The errors the core can raise. Most of them are `AppError`s (src/core/errores.js),
 * which carry an HTTP status (default 400) and a code (default "APP_ERROR");
 * the error middleware answers anything else with status 500.
 */
module Errors {

  datatype Error =
    // sales.service.js
    | StoreAndUserRequired              // storeId or userId missing
    | DocumentTypeRequired              // document type missing
    | ItemsRequired                     // items missing, not an array, or empty
    | ItemInvalid                       // invalid line in calcTotals
    | StockNotConfigured(productId: int)
    | StockInsufficient(productId: int)
    | SaleNotFound                      // no such sale, or soft-deleted (404)
    | SaleNotEditable                   // update of a sale that is not ACTIVA
    | SaleAlreadyVoided                 // void of a sale that is not ACTIVA
    // thrown by the runtime or the ORM, not AppErrors
    | ItemsNotIterable                  // `items.map` on a value that is not an array
    | RowMissing(productId: int)        // increment/decrement of a stock row that does not exist
    // auth.js
    | NoToken
    | BadToken
    | NoRole
    | Forbidden
  {
    /** The HTTP status the error middleware answers with. */
    function Status(): int {
      match this
      case SaleNotFound => 404
      case NoToken | BadToken | NoRole => 401
      case Forbidden => 403
      case ItemsNotIterable | RowMissing(_) => 500
      case _ => 400
    }

    /** The `code` the error middleware answers with. A missing stock row raises the
        ORM's own error, whose code is not part of this model. */
    function Code(): string
      requires !RowMissing?
    {
      match this
      case NoToken => "NO_TOKEN"
      case BadToken => "BAD_TOKEN"
      case Forbidden => "FORBIDDEN"
      case ItemsNotIterable => "INTERNAL_ERROR"
      case _ => "APP_ERROR"
    }
  }
}

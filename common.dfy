/** Shared result and error types of the storefront backend. */
module Common {

  datatype Option<T> = None | Some(value: T)

  /** The input key a validation message is reported under: a top-level key
      (`name`) or a key of one element of an input array (`items.2.qty`). */
  datatype FieldKey = Key(name: string) | ElementKey(list: string, index: nat, name: string)

  /** The failures a controller action can end in. */
  datatype Error =
    | ValidationFailed(fields: set<FieldKey>)   // the request rules rejected these keys
    | NotFound                                  // `findOrFail` found no row
    | InsufficientStock(productName: string)    // order placement: the message names only the product
    | MissingProduct(productId: int)            // `find` returned null inside the transaction

  datatype Result<T> = Ok(value: T) | Err(error: Error)

  /** Outcome of an action that returns no data. */
  datatype Outcome = Done | Failed(error: Error)
}

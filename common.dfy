/** Shared vocabulary of the model: optional values, the error outcomes the
    handlers answer with, and the two numeric field rules that most of the
    serializers repeat (strictly positive, not negative). */
module Common {

  datatype Option<+T> = None | Some(value: T)

  /** The request fields a serializer can reject. */
  datatype Field =
    | Quantity | VariantRef | Username | Email | GroupId | GroupName
    | TotalAmount | Status | ShippingAddress | ClientRef | NonField
    | VariantPrice | UnitPrice | Stock | Rating
    | Entries | MinStock | MaxStock | Phone | UserRef

  /** What a failed request reports; HTTP codes are abstracted to these kinds. */
  datatype Error =
    | Invalid(fields: set<Field>)   // serializer ValidationError, one entry per failing field
    | MissingParameter              // a required request parameter is absent or falsy
    | NonPositiveQuantity           // a quantity <= 0 rejected by the view itself
    | InsufficientStock             // requested or merged quantity exceeds the stock
    | InvalidStatus                 // an order status outside the allowed five
    | AlreadyMember                 // user already belongs to the group
    | NotMember                     // user does not belong to the group
    | NotFound
    | Forbidden
    | Unauthorized
    | ServerError                   // an exception caught by a generic handler, or a storage constraint

  datatype Result<+T> = Ok(value: T) | Err(error: Error)

  /** Python's `not x` for an optional integer in a JSON body: absent or zero. */
  predicate Falsy(x: Option<int>) {
    x.None? || x.value == 0
  }

  /** A field validator that raises on `value <= 0` and otherwise returns the value. */
  function RequirePositive(field: Field, value: int): (r: Result<int>)
    ensures r.Ok? <==> value > 0
    ensures r.Ok? ==> r.value == value
    ensures r.Err? ==> r.error == Invalid({field})
  {
    if value <= 0 then Err(Invalid({field})) else Ok(value)
  }

  /** A field validator that raises on `value < 0` and otherwise returns the value. */
  function RequireNonNegative(field: Field, value: int): (r: Result<int>)
    ensures r.Ok? <==> value >= 0
    ensures r.Ok? ==> r.value == value
    ensures r.Err? ==> r.error == Invalid({field})
  {
    if value < 0 then Err(Invalid({field})) else Ok(value)
  }

  /** The fields named by a field validator's failure (none when it accepts). */
  function FailedFields<T>(r: Result<T>): (fs: set<Field>)
    ensures r.Ok? ==> fs == {}
  {
    if r.Err? && r.error.Invalid? then r.error.fields else {}
  }
}

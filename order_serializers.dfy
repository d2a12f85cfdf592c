/** The order serializers (`PedidoSerializer` and `PedidoCreateSerializer`,
    which carry the same three rules): a positive total, one of five statuses
    compared case-insensitively and returned in lower case, and a shipping
    address that belongs to the order's client. Money is in integer cents. */
module OrderSerializers {
  import opened Common
  import opened Text

  type ClientId = int
  type AddressId = int

  /** The statuses an order may have. */
  const Statuses: seq<string> := ["pendiente", "procesando", "enviado", "entregado", "cancelado"]

  /** Every allowed status is already in lower case. */
  lemma StatusesLowercase()
    ensures forall s :: s in Statuses ==> Lower(s) == s
  {
    forall s | s in Statuses ensures Lower(s) == s {
      assert s == "pendiente" || s == "procesando" || s == "enviado" || s == "entregado" || s == "cancelado";
    }
  }

  /** `validate_monto_total` of the order and the purchase serializers: the
      total must be positive. */
  function ValidateAmount(amount: int): (r: Result<int>)
    ensures r.Ok? <==> amount > 0
    ensures r.Ok? ==> r.value == amount
    ensures r.Err? ==> r.error == Invalid({TotalAmount})
  {
    RequirePositive(TotalAmount, amount)
  }

  /** `validate_estado`: accepted exactly when its lower case is an allowed
      status, and returned in lower case. */
  function ValidateStatus(status: string): (r: Result<string>)
    ensures r.Ok? <==> Lower(status) in Statuses
    ensures r.Ok? ==> r.value == Lower(status) && r.value in Statuses
    ensures r.Err? ==> r.error == Invalid({Status})
  {
    var lowered := Lower(status);
    if lowered in Statuses then Ok(lowered) else Err(Invalid({Status}))
  }

  /** Validating an accepted status again returns it unchanged. */
  lemma ValidateStatusIdempotent(status: string)
    requires ValidateStatus(status).Ok?
    ensures ValidateStatus(ValidateStatus(status).value) == ValidateStatus(status)
  {
    LowerIdempotent(status);
  }

  /** The request body of an order: each field may be absent. */
  datatype OrderInput = OrderInput(client: Option<int>, address: Option<int>, amount: Option<int>, status: Option<string>)

  /** The fields that fail validation. A missing field fails unless the update
      is partial; a client or address must exist. */
  function OrderFieldErrors(input: OrderInput, clients: set<ClientId>, addresses: map<AddressId, Option<ClientId>>,
                            partial: bool): (r: set<Field>)
    ensures ClientRef in r <==> (input.client.None? && !partial) || (input.client.Some? && input.client.value !in clients)
    ensures ShippingAddress in r <==>
      (input.address.None? && !partial) || (input.address.Some? && input.address.value !in addresses)
    ensures TotalAmount in r <==> (input.amount.None? && !partial) || (input.amount.Some? && input.amount.value <= 0)
    ensures Status in r <==>
      (input.status.None? && !partial) || (input.status.Some? && Lower(input.status.value) !in Statuses)
    ensures r <= {ClientRef, ShippingAddress, TotalAmount, Status}
  {
    var client := if input.client.None? then (if partial then {} else {ClientRef})
                  else if input.client.value in clients then {} else {ClientRef};
    var address := if input.address.None? then (if partial then {} else {ShippingAddress})
                   else if input.address.value in addresses then {} else {ShippingAddress};
    var amount := if input.amount.None? then (if partial then {} else {TotalAmount})
                  else FailedFields(ValidateAmount(input.amount.value));
    var status := if input.status.None? then (if partial then {} else {Status})
                  else FailedFields(ValidateStatus(input.status.value));
    client + address + amount + status
  }

  /** `validate`: when both a client and an address are given, the address must
      belong to that client. */
  function ValidateOwner(client: Option<ClientId>, address: Option<AddressId>,
                         addresses: map<AddressId, Option<ClientId>>): (r: Result<()>)
    requires address.Some? ==> address.value in addresses
    ensures r.Ok? <==> client.None? || address.None? || addresses[address.value] == Some(client.value)
    ensures r.Err? ==> r.error == Invalid({NonField})
  {
    if client.Some? && address.Some? && addresses[address.value] != Some(client.value) then Err(Invalid({NonField}))
    else Ok(())
  }

  /** `is_valid()` of either order serializer: every field validator runs and all
      failures are reported; the cross-field check runs only on valid fields.
      The validated status is the lower-cased one. */
  function ValidateOrder(input: OrderInput, clients: set<ClientId>, addresses: map<AddressId, Option<ClientId>>,
                         partial: bool): (r: Result<OrderInput>)
    ensures r.Ok? <==> OrderFieldErrors(input, clients, addresses, partial) == {}
                       && (input.client.None? || input.address.None?
                           || addresses[input.address.value] == Some(input.client.value))
    ensures r.Err? ==> r.error.Invalid?
    ensures r.Err? && OrderFieldErrors(input, clients, addresses, partial) != {} ==>
      r.error.fields == OrderFieldErrors(input, clients, addresses, partial)
    ensures r.Ok? ==> r.value == input.(status := if input.status.None? then None else Some(Lower(input.status.value)))
    ensures r.Ok? && r.value.status.Some? ==> r.value.status.value in Statuses
  {
    var errors := OrderFieldErrors(input, clients, addresses, partial);
    if errors != {} then Err(Invalid(errors))
    else match ValidateOwner(input.client, input.address, addresses)
      case Err(e) => Err(e)
      case Ok(_) => Ok(input.(status := if input.status.None? then None else Some(Lower(input.status.value))))
  }

  /** An address of another client (or of none) is refused when both are given. */
  lemma ForeignAddressRefused(input: OrderInput, clients: set<ClientId>, addresses: map<AddressId, Option<ClientId>>,
                              partial: bool)
    requires OrderFieldErrors(input, clients, addresses, partial) == {}
    requires input.client.Some? && input.address.Some? && addresses[input.address.value] != Some(input.client.value)
    ensures ValidateOrder(input, clients, addresses, partial) == Err(Invalid({NonField}))
  {
  }

  /** A partial update that names only one of client and address skips the ownership check. */
  lemma OwnershipSkippedWhenAbsent(input: OrderInput, clients: set<ClientId>, addresses: map<AddressId, Option<ClientId>>)
    requires input.client.None? || input.address.None?
    requires OrderFieldErrors(input, clients, addresses, true) == {}
    ensures ValidateOrder(input, clients, addresses, true).Ok?
  {
  }
}

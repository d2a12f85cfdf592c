/** The catalog serializers' validators: variant prices and stock, review
    ratings, order- and purchase-item quantities, and the inventory record
    with its minimum/maximum cross-check. Every validator returns the value
    it accepts unchanged. Money is in integer cents. */
module ProductSerializers {
  import opened Common

  /** `validate_precio_variante`: zero is allowed, a negative price is not. */
  function ValidateVariantPrice(price: int): (r: Result<int>)
    ensures r.Ok? <==> price >= 0
    ensures r.Ok? ==> r.value == price
    ensures r.Err? ==> r.error == Invalid({VariantPrice})
  {
    RequireNonNegative(VariantPrice, price)
  }

  /** `validate_precio_unitario`: the unit price must be positive. */
  function ValidateUnitPrice(price: int): (r: Result<int>)
    ensures r.Ok? <==> price > 0
    ensures r.Ok? ==> r.value == price
    ensures r.Err? ==> r.error == Invalid({UnitPrice})
  {
    RequirePositive(UnitPrice, price)
  }

  /** `validate_stock`: the stock may not be negative. */
  function ValidateStock(stock: int): (r: Result<int>)
    ensures r.Ok? <==> stock >= 0
    ensures r.Ok? ==> r.value == stock
    ensures r.Err? ==> r.error == Invalid({Stock})
  {
    RequireNonNegative(Stock, stock)
  }

  /** `validate_calificacion` of both review serializers: one to five stars. */
  function ValidateRating(rating: int): (r: Result<int>)
    ensures r.Ok? <==> 1 <= rating <= 5
    ensures r.Ok? ==> r.value == rating
    ensures r.Err? ==> r.error == Invalid({Rating})
  {
    if rating < 1 || rating > 5 then Err(Invalid({Rating})) else Ok(rating)
  }

  /** The fields of a variant create/update that fail their validators; an
      absent field is not validated. */
  datatype VariantInput = VariantInput(variantPrice: Option<int>, unitPrice: Option<int>, stock: Option<int>)

  function VariantFieldErrors(input: VariantInput): (r: set<Field>)
    ensures VariantPrice in r <==> input.variantPrice.Some? && input.variantPrice.value < 0
    ensures UnitPrice in r <==> input.unitPrice.Some? && input.unitPrice.value <= 0
    ensures Stock in r <==> input.stock.Some? && input.stock.value < 0
    ensures r <= {VariantPrice, UnitPrice, Stock}
  {
    (if input.variantPrice.Some? then FailedFields(ValidateVariantPrice(input.variantPrice.value)) else {})
    + (if input.unitPrice.Some? then FailedFields(ValidateUnitPrice(input.unitPrice.value)) else {})
    + (if input.stock.Some? then FailedFields(ValidateStock(input.stock.value)) else {})
  }

  /** `validate_cantidad_entradas`, `validate_stock_minimo`, `validate_stock_maximo`. */
  function ValidateEntries(entries: int): (r: Result<int>)
    ensures r.Ok? <==> entries >= 0
    ensures r.Ok? ==> r.value == entries
    ensures r.Err? ==> r.error == Invalid({Entries})
  {
    RequireNonNegative(Entries, entries)
  }

  function ValidateMinStock(min: int): (r: Result<int>)
    ensures r.Ok? <==> min >= 0
    ensures r.Ok? ==> r.value == min
    ensures r.Err? ==> r.error == Invalid({MinStock})
  {
    RequireNonNegative(MinStock, min)
  }

  function ValidateMaxStock(max: int): (r: Result<int>)
    ensures r.Ok? <==> max >= 0
    ensures r.Ok? ==> r.value == max
    ensures r.Err? ==> r.error == Invalid({MaxStock})
  {
    RequireNonNegative(MaxStock, max)
  }

  /** The supplied fields of an inventory record; an absent one is `None`. */
  datatype InventoryInput = InventoryInput(entries: Option<int>, min: Option<int>, max: Option<int>)

  /** The inventory fields that fail their validators. */
  function InventoryFieldErrors(input: InventoryInput): (r: set<Field>)
    ensures Entries in r <==> input.entries.Some? && input.entries.value < 0
    ensures MinStock in r <==> input.min.Some? && input.min.value < 0
    ensures MaxStock in r <==> input.max.Some? && input.max.value < 0
    ensures r <= {Entries, MinStock, MaxStock}
  {
    (if input.entries.Some? then FailedFields(ValidateEntries(input.entries.value)) else {})
    + (if input.min.Some? then FailedFields(ValidateMinStock(input.min.value)) else {})
    + (if input.max.Some? then FailedFields(ValidateMaxStock(input.max.value)) else {})
  }

  /** The condition of `validate`: both bounds present and truthy (non-zero),
      and the minimum above the maximum. */
  predicate MinAboveMax(input: InventoryInput) {
    !Falsy(input.min) && !Falsy(input.max) && input.min.value > input.max.value
  }

  /** `InventarioSerializer.is_valid()`: the field validators first, then the
      cross-check, which blames `stock_minimo`. */
  function ValidateInventory(input: InventoryInput): (r: Result<InventoryInput>)
    ensures r.Ok? <==> InventoryFieldErrors(input) == {} && !MinAboveMax(input)
    ensures r.Ok? ==> r.value == input
    ensures r.Err? ==> r.error == Invalid(if InventoryFieldErrors(input) != {} then InventoryFieldErrors(input) else {MinStock})
  {
    var errors := InventoryFieldErrors(input);
    if errors != {} then Err(Invalid(errors))
    else if MinAboveMax(input) then Err(Invalid({MinStock}))
    else Ok(input)
  }

  /** A zero maximum disables the cross-check: a minimum of 5 with a maximum of 0 passes. */
  lemma ZeroMaxSkipsCrossCheck(entries: Option<int>, min: int)
    requires entries.None? || entries.value >= 0
    requires min >= 0
    ensures ValidateInventory(InventoryInput(entries, Some(min), Some(0))).Ok?
  {
  }

  /** An accepted record with both bounds and a non-zero maximum has the
      minimum no larger than the maximum; accepted values are never negative. */
  lemma AcceptedInventoryOrdered(input: InventoryInput)
    requires ValidateInventory(input).Ok?
    ensures input.min.Some? && input.max.Some? && input.max.value != 0 ==> input.min.value <= input.max.value
    ensures input.entries.Some? ==> input.entries.value >= 0
    ensures input.min.Some? ==> input.min.value >= 0
    ensures input.max.Some? ==> input.max.value >= 0
  {
    var errors := InventoryFieldErrors(input);
    assert errors == {};
    assert input.min.Some? ==> MinStock !in errors;
    assert input.max.Some? ==> MaxStock !in errors;
  }
}

/** The purchase serializers' validators: a supplier's email and phone must
    not be empty, and a purchase total must be positive. Accepted values are
    returned as given. Money is in integer cents. */
module PurchaseSerializers {
  import opened Common
  import opened Text

  /** `ProveedorSerializer.validate_email`: `not value` rejects only the empty text. */
  function ValidateSupplierEmail(email: string): (r: Result<string>)
    ensures r.Ok? <==> |email| > 0
    ensures r.Ok? ==> r.value == email
    ensures r.Err? ==> r.error == Invalid({Email})
  {
    if email == [] then Err(Invalid({Email})) else Ok(email)
  }

  /** `ProveedorSerializer.validate_telefono`: a phone that strips to nothing
      is rejected; an accepted phone keeps its surrounding whitespace. */
  function ValidateSupplierPhone(phone: string): (r: Result<string>)
    ensures r.Err? ==> r.error == Invalid({Phone})
    ensures r.Ok? ==> r.value == phone
  {
    if Strip(phone) == [] then Err(Invalid({Phone})) else Ok(phone)
  }

  /** A phone is refused exactly when every character of it is whitespace
      (the empty phone included). */
  lemma PhoneRefusedIffBlank(phone: string)
    ensures ValidateSupplierPhone(phone).Err? <==> forall i :: 0 <= i < |phone| ==> IsSpace(phone[i])
  {
    StripEmptyIffBlank(phone);
  }

  /** At validator level surrounding whitespace is kept: `validate_telefono`
      returns ` 555-1234 ` as it is. The field's own `CharField` trimming, which
      runs before the validator, is not part of this model. */
  lemma PhoneNotStripped()
    ensures ValidateSupplierPhone(" 555-1234 ") == Ok(" 555-1234 ")
  {
    assert !IsSpace(" 555-1234 "[1]);
    StripEmptyIffBlank(" 555-1234 ");
  }
}

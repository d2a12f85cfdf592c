/** The cart serializers: the field validators of the item serializers, the
    derived per-line subtotal and per-cart totals, and the image fields shown
    with each variant. Money is in integer cents. */
module CartSerializers {
  import opened Common
  import opened CartTables
  import opened Images
  import Ordering

  /** `validate_cantidad` of the two cart-item serializers and of the order-item
      and purchase-item serializers: a quantity must be positive. */
  function ValidateQuantity(q: int): (r: Result<int>)
    ensures r.Ok? <==> q > 0
    ensures r.Ok? ==> r.value == q
    ensures r.Err? ==> r.error == Invalid({Quantity})
  {
    RequirePositive(Quantity, q)
  }

  /** `validate_producto_variante_id`: the variant must exist and have stock. */
  function ValidateVariantId(id: int, catalog: map<VariantId, Variant>): (r: Result<VariantId>)
    ensures r.Ok? <==> id in catalog && catalog[id].stock > 0
    ensures r.Ok? ==> r.value == id
    ensures r.Err? ==> r.error == Invalid({VariantRef})
  {
    if id !in catalog then Err(Invalid({VariantRef}))          // "Producto no encontrado"
    else if catalog[id].stock == 0 then Err(Invalid({VariantRef}))  // "Producto sin stock disponible"
    else Ok(id)
  }

  /** `validate_producto_variante` of the item serializer: a variant without stock is refused. */
  function ValidateVariantInStock(v: Variant): (r: Result<Variant>)
    ensures r.Ok? <==> v.stock > 0
    ensures r.Ok? ==> r.value == v
  {
    if v.stock == 0 then Err(Invalid({VariantRef})) else Ok(v)
  }

  /** `AgregarItemCarritoSerializer.is_valid()`: both fields are validated and every
      failing field is reported; the quantity defaults to 1 when absent. */
  function ValidateAddItem(variantId: Option<int>, quantity: Option<int>, catalog: map<VariantId, Variant>)
    : (r: Result<(VariantId, int)>)
    ensures r.Ok? <==>
      variantId.Some? && variantId.value in catalog && catalog[variantId.value].stock > 0
      && (quantity.None? || quantity.value > 0)
    ensures r.Ok? ==> r.value.0 == variantId.value
    ensures r.Ok? ==> r.value.1 == (if quantity.None? then 1 else quantity.value)
    ensures r.Err? ==> r.error.Invalid? && r.error.fields != {}
    ensures r.Err? ==> (VariantRef in r.error.fields <==>
      variantId.None? || variantId.value !in catalog || catalog[variantId.value].stock == 0)
    ensures r.Err? ==> (Quantity in r.error.fields <==> quantity.Some? && quantity.value <= 0)
  {
    var q := if quantity.None? then 1 else quantity.value;
    var variantErrors := if variantId.None? then {VariantRef} else FailedFields(ValidateVariantId(variantId.value, catalog));
    var failed := variantErrors + FailedFields(ValidateQuantity(q));
    if failed != {} then Err(Invalid(failed)) else Ok((variantId.value, q))
  }

  /** Every line's variant is in the catalog, so its price can be read. */
  ghost predicate Priced(lines: seq<Line>, catalog: map<VariantId, Variant>) {
    forall i :: 0 <= i < |lines| ==> lines[i].variant in catalog
  }

  function IsPriced(lines: seq<Line>, catalog: map<VariantId, Variant>): (b: bool)
    ensures b <==> Priced(lines, catalog)
  {
    forall i :: 0 <= i < |lines| ==> lines[i].variant in catalog
  }

  /** `get_subtotal`: quantity times unit price. */
  function Subtotal(l: Line, catalog: map<VariantId, Variant>): int
    requires l.variant in catalog
  {
    l.quantity * catalog[l.variant].price
  }

  /** `get_total_items`: the sum of the line quantities. */
  function TotalItems(lines: seq<Line>): int {
    if lines == [] then 0 else TotalItems(lines[..|lines| - 1]) + lines[|lines| - 1].quantity
  }

  /** The sum of the line subtotals. */
  function TotalPrice(lines: seq<Line>, catalog: map<VariantId, Variant>): int
    requires Priced(lines, catalog)
  {
    if lines == [] then 0
    else TotalPrice(lines[..|lines| - 1], catalog) + Subtotal(lines[|lines| - 1], catalog)
  }

  /** Totals of two groups of lines add up. */
  lemma {:induction false} TotalsAppend(a: seq<Line>, b: seq<Line>, catalog: map<VariantId, Variant>)
    requires Priced(a, catalog) && Priced(b, catalog)
    ensures Priced(a + b, catalog)
    ensures TotalItems(a + b) == TotalItems(a) + TotalItems(b)
    ensures TotalPrice(a + b, catalog) == TotalPrice(a, catalog) + TotalPrice(b, catalog)
  {
    if b == [] {
      assert a + b == a;
    } else {
      var b' := b[..|b| - 1];
      assert (a + b)[..|a + b| - 1] == a + b';
      TotalsAppend(a, b', catalog);
    }
  }

  /** With every quantity at least one, the item count is at least the number of lines;
      an empty cart counts zero items and costs nothing. */
  lemma {:induction false} TotalItemsAtLeastLines(lines: seq<Line>)
    requires forall i :: 0 <= i < |lines| ==> lines[i].quantity >= 1
    ensures TotalItems(lines) >= |lines|
    ensures lines == [] ==> TotalItems(lines) == 0
  {
    if lines != [] {
      TotalItemsAtLeastLines(lines[..|lines| - 1]);
    }
  }

  /** Changing one line's quantity changes the totals by the difference. */
  lemma {:induction false} TotalsUpdate(lines: seq<Line>, i: nat, q: int, catalog: map<VariantId, Variant>)
    requires i < |lines| && Priced(lines, catalog)
    ensures Priced(lines[i := lines[i].(quantity := q)], catalog)
    ensures TotalItems(lines[i := lines[i].(quantity := q)]) == TotalItems(lines) - lines[i].quantity + q
    ensures TotalPrice(lines[i := lines[i].(quantity := q)], catalog)
      == TotalPrice(lines, catalog) + (q - lines[i].quantity) * catalog[lines[i].variant].price
  {
    var n := |lines|;
    var l' := lines[i].(quantity := q);
    var updated := lines[i := l'];
    var price := catalog[lines[i].variant].price;
    assert Priced(updated, catalog) by {
      forall k | 0 <= k < n ensures updated[k].variant in catalog {
        assert updated[k].variant == lines[k].variant;
      }
    }
    if i == n - 1 {
      assert updated[..n - 1] == lines[..n - 1];
      assert q * price - lines[i].quantity * price == (q - lines[i].quantity) * price;
    } else {
      assert updated[..n - 1] == lines[..n - 1][i := l'];
      TotalsUpdate(lines[..n - 1], i, q, catalog);
      assert updated[n - 1] == lines[n - 1];
    }
  }

  /** `get_total_precio`: the accumulator loop over the cart's lines. */
  method TotalPriceLoop(lines: seq<Line>, catalog: map<VariantId, Variant>) returns (total: int)
    requires Priced(lines, catalog)
    ensures total == TotalPrice(lines, catalog)
  {
    total := 0;
    var i := 0;
    while i < |lines|
      invariant 0 <= i <= |lines|
      invariant total == TotalPrice(lines[..i], catalog)
    {
      assert lines[..i + 1][..i] == lines[..i];
      total := total + lines[i].quantity * catalog[lines[i].variant].price;
      i := i + 1;
    }
    assert lines[..|lines|] == lines;
  }

  /** One entry of the `imagenes` list. */
  datatype ImageInfo = ImageInfo(id: nat, url: string, text: string, principal: bool)

  function InfoOf(img: Image): ImageInfo
    requires img.url.Some?
  {
    ImageInfo(img.id, img.url.value, img.text, img.principal)
  }

  /** `get_imagenes`: the variant's images that have a URL, in table order. */
  function ImageList(images: seq<Image>, variant: VariantId): seq<ImageInfo> {
    if images == [] then []
    else
      var last := images[|images| - 1];
      ImageList(images[..|images| - 1], variant)
        + (if last.variant == variant && last.url.Some? then [InfoOf(last)] else [])
  }

  /** The image list holds exactly the infos of the variant's images that have a URL. */
  lemma {:induction false} ImageListMembers(images: seq<Image>, variant: VariantId, info: ImageInfo)
    ensures info in ImageList(images, variant) <==>
      exists i :: 0 <= i < |images| && images[i].variant == variant && images[i].url.Some? && InfoOf(images[i]) == info
  {
    if images != [] {
      var init := images[..|images| - 1];
      ImageListMembers(init, variant, info);
      if exists i :: 0 <= i < |init| && init[i].variant == variant && init[i].url.Some? && InfoOf(init[i]) == info {
        var i :| 0 <= i < |init| && init[i].variant == variant && init[i].url.Some? && InfoOf(init[i]) == info;
        assert images[i] == init[i];
      }
      if exists i :: 0 <= i < |images| && images[i].variant == variant && images[i].url.Some? && InfoOf(images[i]) == info {
        var i :| 0 <= i < |images| && images[i].variant == variant && images[i].url.Some? && InfoOf(images[i]) == info;
        if i < |init| { assert init[i] == images[i]; }
      }
    }
  }

  /** `get_imagenes` as the loop that appends one entry per image with a URL. */
  method CollectImages(images: seq<Image>, variant: VariantId) returns (result: seq<ImageInfo>)
    ensures result == ImageList(images, variant)
    ensures |result| <= |images|
  {
    result := [];
    var i := 0;
    while i < |images|
      invariant 0 <= i <= |images|
      invariant result == ImageList(images[..i], variant)
      invariant |result| <= i
    {
      assert images[..i + 1][..i] == images[..i];
      var img := images[i];
      if img.variant == variant && img.url.Some? {
        result := result + [InfoOf(img)];
      }
      i := i + 1;
    }
    assert images[..|images|] == images;
  }

  /** `get_imagen_principal`: the URL of the variant's first principal image when it has a
      file; otherwise the URL of the variant's first image, if it has one. */
  function PrincipalImageUrl(images: seq<Image>, variant: VariantId): (r: Option<string>)
    ensures r.Some? ==> exists i :: 0 <= i < |images| && images[i].variant == variant && images[i].url == r
    ensures (forall i :: 0 <= i < |images| ==> images[i].variant != variant) ==> r.None?
  {
    var ofVariant := Ordering.Filter(images, (img: Image) => img.variant == variant);
    var principals := Ordering.Filter(ofVariant, (img: Image) => img.principal);
    if principals != [] && principals[0].url.Some? then
      assert principals[0] in principals && principals[0] in ofVariant;
      principals[0].url
    else if ofVariant != [] then
      assert ofVariant[0] in ofVariant;
      ofVariant[0].url
    else None
  }

  /** When the variant's first principal image has a file, its URL is the one shown. */
  lemma PrincipalImagePreferred(images: seq<Image>, variant: VariantId, i: nat)
    requires i < |images| && images[i].variant == variant && images[i].principal && images[i].url.Some?
    requires forall k :: 0 <= k < i ==> !(images[k].variant == variant && images[k].principal)
    ensures PrincipalImageUrl(images, variant) == images[i].url
  {
    Ordering.FilterTwiceFirst(images, (img: Image) => img.variant == variant, (img: Image) => img.principal, i);
  }

  /** Without a principal image, the variant's first image decides (none if it has no file). */
  lemma PrincipalImageFallback(images: seq<Image>, variant: VariantId, i: nat)
    requires i < |images| && images[i].variant == variant
    requires forall k :: 0 <= k < i ==> images[k].variant != variant
    requires forall k :: 0 <= k < |images| && images[k].variant == variant ==> !images[k].principal
    ensures PrincipalImageUrl(images, variant) == images[i].url
  {
    var isVariant := (img: Image) => img.variant == variant;
    Ordering.FilterFirst(images, isVariant, i);
    var ofVariant := Ordering.Filter(images, isVariant);
    Ordering.FilterEmpty(ofVariant, (img: Image) => img.principal);
  }

  /** When the variant's first principal image has no file, the variant's first image
      decides as well (none if that one has no file either). */
  lemma PrincipalWithoutFileFallback(images: seq<Image>, variant: VariantId, i: nat, j: nat)
    requires i < |images| && images[i].variant == variant
    requires forall k :: 0 <= k < i ==> images[k].variant != variant
    requires j < |images| && images[j].variant == variant && images[j].principal && images[j].url.None?
    requires forall k :: 0 <= k < j ==> !(images[k].variant == variant && images[k].principal)
    ensures PrincipalImageUrl(images, variant) == images[i].url
  {
    var isVariant := (img: Image) => img.variant == variant;
    Ordering.FilterTwiceFirst(images, isVariant, (img: Image) => img.principal, j);
    Ordering.FilterFirst(images, isVariant, i);
  }
}

/** The catalog view sets: who may call which action, and the selections
    behind the product, category, variant, review, image and inventory
    listings. A query parameter that is absent or empty is `None`; dates are
    ordering keys; each table is kept in primary-key order. */
module ProductApi {
  import opened Common
  import opened Text
  import opened Images
  import Ordering

  /** The view-set actions `get_permissions` distinguishes. */
  datatype Action = List | Retrieve | Create | Update | PartialUpdate | Destroy | Extra(name: string)

  datatype Permission = AllowAny | IsAuthenticated

  /** The catalog view sets. */
  datatype Resource = Products | Categories | Variants | Reviews | ProductImages | OrderItems | PurchaseItems | Inventory

  /** The write actions every `get_permissions` tests for. */
  predicate IsWrite(action: Action) {
    action == Create || action == Update || action == PartialUpdate || action == Destroy
  }

  /** The permission each view set requires for an action. Categories,
      variants and images choose `AllowAny` on both branches; the item and
      inventory view sets always require authentication. */
  function PermissionFor(resource: Resource, action: Action): Permission {
    match resource
    case Products | Reviews => if IsWrite(action) then IsAuthenticated else AllowAny
    case Categories | Variants | ProductImages => if IsWrite(action) then AllowAny else AllowAny
    case OrderItems | PurchaseItems | Inventory => IsAuthenticated
  }

  /** Authentication is needed exactly for writes to products and reviews and
      for anything on order items, purchase items and inventory. */
  lemma PermissionTable(resource: Resource, action: Action)
    ensures PermissionFor(resource, action) == IsAuthenticated <==>
      ((resource == Products || resource == Reviews) && IsWrite(action))
      || resource == OrderItems || resource == PurchaseItems || resource == Inventory
  {
  }

  /** Reading the public catalog never needs authentication. */
  lemma ReadsArePublic(resource: Resource, action: Action)
    requires !IsWrite(action)
    requires resource != OrderItems && resource != PurchaseItems && resource != Inventory
    ensures PermissionFor(resource, action) == AllowAny
  {
  }

  /** A `Producto` row. */
  datatype Product = Product(id: nat, name: string, active: bool, created: int)

  /** A variant row: its product, its category (nullable), its stock and creation date. */
  datatype VariantRow = VariantRow(id: nat, product: int, category: Option<int>, stock: int, created: int)

  function ProductCreated(p: Product): int {
    p.created
  }

  /** Whether a product passes `ProductoViewSet.get_queryset`'s filters: it is
      active, its name contains the name filter case-insensitively, and one of
      its variants is in the category filter. */
  predicate ProductMatches(p: Product, variants: seq<VariantRow>, name: Option<string>, category: Option<int>) {
    p.active
    && (name.None? || name.value == [] || IContains(p.name, name.value))
    && (category.None? || exists v :: v in variants && v.product == p.id && v.category == Some(category.value))
  }

  /** `ProductoViewSet.get_queryset`: the matching products, newest first; the
      category join is made `distinct`, so each product appears as stored. */
  function ListProducts(products: seq<Product>, variants: seq<VariantRow>, name: Option<string>,
                        category: Option<int>): (r: seq<Product>)
    ensures Ordering.SortedDesc(r, ProductCreated)
    ensures forall p :: p in r <==> p in products && ProductMatches(p, variants, name, category)
    ensures forall p :: multiset(r)[p] == if ProductMatches(p, variants, name, category) then multiset(products)[p] else 0
  {
    Ordering.Query(products, (p: Product) => ProductMatches(p, variants, name, category), ProductCreated)
  }

  /** Without filters the list is the active products; the name filter ignores case. */
  lemma ProductFilters(products: seq<Product>, variants: seq<VariantRow>, name: string)
    ensures forall p :: p in ListProducts(products, variants, None, None) <==> p in products && p.active
    ensures forall p :: p in ListProducts(products, variants, Some(name), None) <==>
      p in ListProducts(products, variants, Some(Lower(name)), None)
  {
    LowerIdempotent(name);
    assert Lower(name) == [] <==> name == [];
  }

  predicate IsActive(p: Product) {
    p.active
  }

  /** The number of active product rows. */
  function ActiveCount(products: seq<Product>): nat {
    |Ordering.Filter(products, IsActive)|
  }

  /** `destacados`: the six newest active products, each row at most once. */
  function Featured(products: seq<Product>): (r: seq<Product>)
    ensures |r| == if ActiveCount(products) < 6 then ActiveCount(products) else 6
    ensures Ordering.SortedDesc(r, ProductCreated)
    ensures forall p :: p in r ==> p in products && p.active
    ensures multiset(r) <= multiset(products)
  {
    var sorted := Ordering.Query(products, IsActive, ProductCreated);
    assert multiset(sorted) <= multiset(products) by {
      forall p ensures multiset(sorted)[p] <= multiset(products)[p] {
      }
    }
    var n := if |sorted| <= 6 then |sorted| else 6;
    Ordering.PrefixOfSorted(sorted, ProductCreated, n);
    sorted[..n]
  }

  /** An active product left out of the featured list is no newer than any
      featured product, and fewer than six active products are all featured. */
  lemma FeaturedAreNewest(products: seq<Product>, p: Product)
    requires p in products && p.active && p !in Featured(products)
    ensures |Featured(products)| == 6
    ensures forall q :: q in Featured(products) ==> q.created >= p.created
  {
    var sorted := Ordering.Query(products, IsActive, ProductCreated);
    assert p in sorted;
    var j :| 0 <= j < |sorted| && sorted[j] == p;
    assert j >= 6;
    forall q | q in Featured(products) ensures q.created >= p.created {
      var k :| 0 <= k < 6 && sorted[k] == q;
      assert ProductCreated(sorted[k]) >= ProductCreated(sorted[j]);
    }
  }

  /** A `Categoria` row. */
  datatype Category = Category(id: nat, active: bool, parent: Option<int>)

  /** `CategoriaViewSet.list`: the active top-level categories. */
  function TopCategories(categories: seq<Category>): (r: seq<Category>)
    ensures forall c :: c in r <==> c in categories && c.active && c.parent.None?
    ensures forall c :: multiset(r)[c] == if c.active && c.parent.None? then multiset(categories)[c] else 0
    ensures |r| <= |categories|
  {
    var p := (c: Category) => c.active && c.parent.None?;
    assert forall c :: multiset(Ordering.Filter(categories, p))[c] == if p(c) then multiset(categories)[c] else 0 by {
      forall c { Ordering.FilterCount(categories, p, c); }
    }
    Ordering.Filter(categories, p)
  }

  function VariantCreated(v: VariantRow): int {
    v.created
  }

  /** Whether a variant passes `ProductoCategoriaViewSet.get_queryset`'s
      filters; only the exact text `true` asks for stock. */
  predicate VariantMatches(v: VariantRow, product: Option<int>, category: Option<int>, available: Option<string>) {
    (product.None? || v.product == product.value)
    && (category.None? || v.category == Some(category.value))
    && (available != Some("true") || v.stock > 0)
  }

  /** `ProductoCategoriaViewSet.get_queryset`: matching variants, newest first. */
  function ListVariants(variants: seq<VariantRow>, product: Option<int>, category: Option<int>,
                        available: Option<string>): (r: seq<VariantRow>)
    ensures Ordering.SortedDesc(r, VariantCreated)
    ensures forall v :: v in r <==> v in variants && VariantMatches(v, product, category, available)
    ensures forall v :: multiset(r)[v] == if VariantMatches(v, product, category, available) then multiset(variants)[v] else 0
  {
    Ordering.Query(variants, (v: VariantRow) => VariantMatches(v, product, category, available), VariantCreated)
  }

  /** `disponibles`: the variants with stock. */
  function Available(variants: seq<VariantRow>): (r: seq<VariantRow>)
    ensures forall v :: v in r <==> v in variants && v.stock > 0
    ensures forall v :: multiset(r)[v] == if v.stock > 0 then multiset(variants)[v] else 0
    ensures |r| <= |variants|
  {
    var p := (v: VariantRow) => v.stock > 0;
    assert forall v :: multiset(Ordering.Filter(variants, p))[v] == if p(v) then multiset(variants)[v] else 0 by {
      forall v { Ordering.FilterCount(variants, p, v); }
    }
    Ordering.Filter(variants, p)
  }

  /** `disponible=true` selects the same variants as `disponibles`, and any
      other spelling (`True`, `1`) does not filter at all. */
  lemma AvailableFilter(variants: seq<VariantRow>, flag: string)
    ensures forall v :: v in ListVariants(variants, None, None, Some("true")) <==> v in Available(variants)
    ensures flag != "true" ==> forall v :: v in ListVariants(variants, None, None, Some(flag)) <==> v in variants
  {
  }

  /** A `reseña` row. */
  datatype Review = Review(id: nat, variant: int, rating: int, date: int)

  function ReviewDate(r: Review): int {
    r.date
  }

  /** `ReseñaViewSet.get_queryset`: the reviews of the variant asked for (all
      when none is), newest first. */
  function ListReviews(reviews: seq<Review>, variant: Option<int>): (r: seq<Review>)
    ensures Ordering.SortedDesc(r, ReviewDate)
    ensures forall x :: x in r <==> x in reviews && (variant.None? || x.variant == variant.value)
    ensures forall x :: multiset(r)[x] == if variant.None? || x.variant == variant.value then multiset(reviews)[x] else 0
  {
    Ordering.Query(reviews, (x: Review) => variant.None? || x.variant == variant.value, ReviewDate)
  }

  /** `por_producto`: a variant id is required; the answer is its reviews. */
  function ReviewsOfVariant(reviews: seq<Review>, variant: Option<int>): (r: Result<seq<Review>>)
    ensures variant.None? <==> r == Err(MissingParameter)
    ensures r.Ok? ==> forall x :: x in r.value <==> x in reviews && x.variant == variant.value
    ensures r.Ok? ==> forall x :: multiset(r.value)[x] == if x.variant == variant.value then multiset(reviews)[x] else 0
    ensures r.Ok? ==> |r.value| <= |reviews|
  {
    if variant.None? then Err(MissingParameter)
    else
      var p := (x: Review) => x.variant == variant.value;
      assert forall x :: multiset(Ordering.Filter(reviews, p))[x] == if p(x) then multiset(reviews)[x] else 0 by {
        forall x { Ordering.FilterCount(reviews, p, x); }
      }
      Ok(Ordering.Filter(reviews, p))
  }

  /** `ImagenProductoViewSet.get_queryset`: the images of the variant asked for
      (all when none is), principal first and then by id. */
  function ListImages(images: seq<Image>, variant: Option<int>): (r: seq<Image>)
    ensures multiset(r) == multiset(Ordering.Filter(images, (img: Image) => variant.None? || img.variant == variant.value))
  {
    PrincipalFirst(Ordering.Filter(images, (img: Image) => variant.None? || img.variant == variant.value))
  }

  /** The image listing is in display order. */
  lemma ListImagesOrdered(images: seq<Image>, variant: Option<int>)
    requires IdsIncreasing(images)
    ensures Ordering.Pairwise(ListImages(images, variant), DisplayBefore)
    ensures forall img :: img in ListImages(images, variant) <==>
      img in images && (variant.None? || img.variant == variant.value)
  {
    var p := (img: Image) => variant.None? || img.variant == variant.value;
    var increasing := (a: Image, b: Image) => a.id < b.id;
    assert Ordering.Pairwise(images, increasing);
    Ordering.FilterPairwise(images, p, increasing);
    PrincipalFirstOrdered(Ordering.Filter(images, p));
    var r := ListImages(images, variant);
    forall img ensures img in r <==> img in Ordering.Filter(images, p) {
      assert img in r <==> multiset(r)[img] > 0;
      assert img in Ordering.Filter(images, p) <==> multiset(Ordering.Filter(images, p))[img] > 0;
    }
  }

  /** An `Inventario` row. */
  datatype InventoryRecord = InventoryRecord(id: nat, entries: int, min: int, max: int, location: string,
                                             product: Option<int>, updated: int)

  function RecordUpdated(x: InventoryRecord): int {
    x.updated
  }

  predicate IsLow(x: InventoryRecord) {
    x.entries < x.min
  }

  predicate IsHigh(x: InventoryRecord) {
    x.entries > x.max
  }

  /** Whether a record passes `InventarioViewSet.get_queryset`'s filters. */
  predicate RecordMatches(x: InventoryRecord, product: Option<int>, location: Option<string>, low: Option<string>) {
    (product.None? || x.product == Some(product.value))
    && (location.None? || location.value == [] || IContains(x.location, location.value))
    && (low != Some("true") || IsLow(x))
  }

  /** `InventarioViewSet.get_queryset`: matching records, most recently updated first. */
  function ListInventory(records: seq<InventoryRecord>, product: Option<int>, location: Option<string>,
                         low: Option<string>): (r: seq<InventoryRecord>)
    ensures Ordering.SortedDesc(r, RecordUpdated)
    ensures forall x :: x in r <==> x in records && RecordMatches(x, product, location, low)
    ensures forall x :: multiset(r)[x] == if RecordMatches(x, product, location, low) then multiset(records)[x] else 0
  {
    Ordering.Query(records, (x: InventoryRecord) => RecordMatches(x, product, location, low), RecordUpdated)
  }

  /** `stock_bajo` (and the first list of `alertas`): entries below the minimum. */
  function LowStock(records: seq<InventoryRecord>): (r: seq<InventoryRecord>)
    ensures forall x :: x in r <==> x in records && x.entries < x.min
    ensures forall x :: multiset(r)[x] == if x.entries < x.min then multiset(records)[x] else 0
  {
    assert forall x :: multiset(Ordering.Filter(records, IsLow))[x] == if IsLow(x) then multiset(records)[x] else 0 by {
      forall x { Ordering.FilterCount(records, IsLow, x); }
    }
    Ordering.Filter(records, IsLow)
  }

  /** The second list of `alertas`: entries above the maximum. */
  function HighStock(records: seq<InventoryRecord>): (r: seq<InventoryRecord>)
    ensures forall x :: x in r <==> x in records && x.entries > x.max
    ensures forall x :: multiset(r)[x] == if x.entries > x.max then multiset(records)[x] else 0
  {
    assert forall x :: multiset(Ordering.Filter(records, IsHigh))[x] == if IsHigh(x) then multiset(records)[x] else 0 by {
      forall x { Ordering.FilterCount(records, IsHigh, x); }
    }
    Ordering.Filter(records, IsHigh)
  }

  /** A record whose minimum does not exceed its maximum is never in both alert lists. */
  lemma AlertsDisjoint(records: seq<InventoryRecord>)
    ensures forall x :: x in LowStock(records) && x in HighStock(records) ==> x.min > x.max
  {
  }

  /** The `stock_bajo=true` list filter selects the same records as `stock_bajo`. */
  lemma LowStockFilter(records: seq<InventoryRecord>)
    ensures forall x :: x in ListInventory(records, None, None, Some("true")) <==> x in LowStock(records)
  {
  }
}

# backendEX2 core, modelled in Dafny

This project models the business rules of a Django REST e-commerce backend.
The backend has a catalog of products, variants, categories, reviews, images
and inventory. It also has shopping carts, orders, supplier purchases and
user accounts. The project covers the parts of it that decide something:

- **The stock-checked cart** (`CarritoViewSet`, module `CartApi`, class `CartManager`):
  - get-or-create of a client's cart;
  - adding a variant, which merges into an existing line and checks both the
    request and the merged total against stock;
  - updating a quantity, removing a line and emptying the cart;
  - the invariant "one line per variant, every quantity between 1 and the stock".
- **The unchecked cart** (`ItemCarritoViewSet`, module `ItemApi`, class `ItemManager`):
  - the same tables;
  - creation merges additively with no stock or sign check;
  - updates only demand a positive quantity;
  - the list totals.

  The two carts share their tables in `CartTables`, so the difference between
  them shows up in the lemmas.
- **The cart serializers** (`CartSerializers`):
  - quantity and variant validators;
  - line subtotal, item count and price totals;
  - the image list and principal-image URL of a variant.
- **Orders** (`OrderSerializers`, `OrderApi`, class `OrderBook`):
  - the positive total;
  - the five statuses, compared case-insensitively and stored in lower case;
  - the address-owner check;
  - the list filters, ordered newest first;
  - `por_estado` and `por_cliente`;
  - `cambiar_estado`, which has no transition order.
- **The catalog** (`ProductSerializers`, `ProductApi`):
  - the price, stock, rating, quantity and inventory validators, including the
    min/max cross-check that a zero maximum disables;
  - the per-view-set permission tables;
  - the product, category, variant, review, image and inventory selections;
  - `destacados`, `disponibles`, `stock_bajo` and `alertas`.
- **Image upload** (`Uploads`, class `ImageStore`):
  - the extension-to-content-type map;
  - the upload handler, which keeps one principal image per variant;
  - the public listing, principal first and then by id;
  - the statistics counters.
- **Accounts** (`UserSerializers`, `UserApi`, class `Accounts`):
  - the login classification chain;
  - registration into the client group (id 3);
  - group and employee creation;
  - group membership add and remove;
  - the superuser protection on delete and toggle;
  - the employee list.
- **Purchases** (`PurchaseSerializers`): the supplier email, supplier phone and
  purchase-total validators.

## How the model is built

Money is an integer number of cents. Dates are abstract ordering keys.

A database table is a Dafny value:
- a `seq` of rows in primary-key order;
- a `map` from id to row where only membership matters.

The next free primary key is the largest one handed out so far plus one.

Each handler that changes tables has two parts:
- a pure specification function from the old tables to (answer, new tables),
  e.g. `AddItemSpec` or `UploadSpec`;
- a method of a class that holds the tables (`CartManager.db`, `ItemManager.db`,
  `OrderBook.orders`, `ImageStore.images`, `Accounts.dir`). The method performs
  the handler's steps and its lookup loops, and its `ensures` ties its answer
  and the new state to the specification function.

The lemmas state the handlers' rules about the specification functions.

A failed request returns a `Result` error kind (`Common.Error`) rather than an
HTTP code:
- `Invalid(fields)` is a serializer validation error, naming every failing field;
- `MissingParameter`, `NonPositiveQuantity`, `InsufficientStock` and
  `InvalidStatus` are 400 answers raised by the view itself;
- `AlreadyMember` and `NotMember` are the group-membership 400 answers;
- `NotFound`, `Forbidden` and `Unauthorized` are 404, 403 and 401;
- `ServerError` is an exception that a generic handler turns into a 500.

An optional request value is an `Option`, and `None` is an absent parameter.
An empty text parameter is `Some("")`, and each handler treats it as its code
does:
- a filter tested with Python's truthiness (`if estado:`) ignores it, like an
  absent one (`OrderApi.MatchesFilters`);
- `por_estado` reads its parameter with a default, so an absent one means
  `pendiente` while `Some("")` matches every order (`OrderApi.ByStatus`).

A JSON number is missing for Python's `not x` when it is absent or zero
(`Common.Falsy`).

Python's `str.lower()` is modelled as ASCII lower-casing (`Text.Lower`).

## Model

| member | source | states |
|---|---|---|
| CartTables.GetOrCreate | app_carrito/api.py:28-35 | An existing cart is returned with the tables unchanged. Otherwise a fresh cart id is registered for the client. The lines are untouched and the new cart has no lines. Valid tables stay valid. |
| CartTables.CartOfUser | app_carrito/api.py:28-35 | A user without a client record gets no cart and nothing changes. Otherwise the result is get-or-create of the client's cart. |
| CartTables.LinesOf | app_carrito/serializers.py:97 | A cart's items are exactly the lines pointing at that cart. |
| CartTables.FindLine | app_carrito/api.py:80-83 | Returns the first line of the cart for the variant, or none when the cart has no such line. |
| CartTables.FindOwned | app_carrito/api.py:144 | Finds line `id` only if it belongs to the given cart; none exactly when no line of that cart has the id. |
| CartTables.FindLineLoop | app_carrito/api.py:80-83 | The loop search returns the same position as `FindLine`. |
| CartTables.FindOwnedLoop | app_carrito/api.py:144 | The loop search returns line `id` of the cart, or none when the cart has no such line; it agrees with `FindOwned`. |
| CartTables.DeleteCartLines | app_carrito/api.py:206 | After `filter(carrito=…).delete()` exactly the lines of other carts remain, in order. |
| CartTables.RemoveAt | app_carrito/api.py:188 | Deleting one line keeps every other line, in order, and adds none. |
| CartTables.FindOwnedById | app_carrito/api.py:143-144 | Line ids are unique, so the lookup finds a line exactly when it is in the caller's cart. |
| CartTables.FindLineUnique | app_carrito/api.py:80-83 | Under one-line-per-variant, the first line found for (cart, variant) is the only one. |
| CartTables.FilterKeepsInvariants | app_carrito/api.py:206 | Deleting lines keeps the tables valid, one line per variant, and any per-line property. |
| CartTables.SetQuantityKeepsInvariants | app_carrito/api.py:94-95 | Overwriting one quantity keeps the tables valid and one line per variant. |
| CartTables.AppendKeepsInvariants | app_carrito/api.py:105-109 | Creating a line with the next id, for a variant its cart lacks, keeps the tables valid and one line per variant. |
| CartTables.RemoveAtKeepsInvariants | app_carrito/api.py:187-188 | Deleting one line keeps the tables valid and one line per variant. |
| CartTables.RemoveAtOtherCarts | app_carrito/api.py:187-188 | Deleting a line leaves every other cart's lines unchanged. |
| CartSerializers.ValidateQuantity | app_carrito/serializers.py:83-87 | A quantity is accepted exactly when it is positive, and is returned unchanged. The order-item and purchase-item `validate_cantidad` (app_productos/serializers.py, lines 173-190) are the same check. |
| CartSerializers.ValidateVariantId | app_carrito/serializers.py:128-135 | A variant id is accepted exactly when the variant exists and has stock. |
| CartSerializers.ValidateVariantInStock | app_carrito/serializers.py:89-93 | A variant is accepted exactly when its stock is positive. |
| CartSerializers.ValidateAddItem | app_carrito/serializers.py:118-135 | The add request is valid exactly when the variant exists with stock and the quantity, which defaults to 1, is positive. Every failing field is reported. |
| CartSerializers.TotalsAppend | app_carrito/serializers.py:106-116 | The item count and the price total are additive over concatenated groups of lines. |
| CartSerializers.TotalItemsAtLeastLines | app_carrito/serializers.py:106-109 | With positive quantities the item count is at least the number of lines. An empty cart counts 0. |
| CartSerializers.TotalsUpdate | app_carrito/serializers.py:106-116 | Changing one line's quantity from a to q changes the count by q−a and the price by (q−a)·price. |
| CartSerializers.TotalPriceLoop | app_carrito/serializers.py:111-116 | The accumulator loop returns the sum of quantity × unit price over the lines. |
| CartSerializers.ImageListMembers | app_carrito/serializers.py:36-49 | The image list holds exactly the entries of the variant's images that have a URL. |
| CartSerializers.CollectImages | app_carrito/serializers.py:36-49 | The append loop builds that image list, and it is never longer than the image table. |
| CartSerializers.PrincipalImageUrl | app_carrito/serializers.py:51-67 | The URL shown always belongs to one of the variant's images. A variant without images shows none. |
| CartSerializers.PrincipalImagePreferred | app_carrito/serializers.py:53-59 | When the variant's first principal image has a file, its URL is shown. |
| CartSerializers.PrincipalImageFallback | app_carrito/serializers.py:60-65 | When the variant has no principal image at all, the URL is that of the variant's first image, or none. |
| CartSerializers.PrincipalWithoutFileFallback | app_carrito/serializers.py:53-65 | When the variant's first principal image has no file, the URL is also that of the variant's first image, or none. |
| CartApi.CartManager.constructor | app_carrito/models.py:7-15 | The tables start empty and valid, with the first cart and line ids 1. |
| CartApi.CartManager.GetOrCreateCart | app_carrito/api.py:28-35 | The answer and the new tables are those of get-or-create for the user's client. |
| CartApi.CartManager.MyCart | app_carrito/api.py:37-51 | Answer and tables as in `MyCartSpec`: the cart's lines with their totals, after get-or-create. |
| CartApi.CartManager.AddItem | app_carrito/api.py:53-128 | Answer and tables as in `AddItemSpec`. The lemmas below give the merge and stock rules. |
| CartApi.CartManager.UpdateItem | app_carrito/api.py:130-172 | Answer and tables as in `UpdateItemSpec`. |
| CartApi.CartManager.RemoveItem | app_carrito/api.py:174-199 | Answer and tables as in `RemoveItemSpec`. |
| CartApi.CartManager.ClearCart | app_carrito/api.py:201-214 | Answer and tables as in `ClearCartSpec`. |
| CartApi.OwnedLine | app_carrito/api.py:143-144 | Finds a line only when it has the id and belongs to the caller's cart. Otherwise no line of that cart has the id. |
| CartApi.AnonymousRefused | app_carrito/api.py:15-18 | Every handler refuses an anonymous caller and changes nothing. |
| CartApi.NoClientNotFound | app_carrito/api.py:40-45 | A user without a client record gets "not found" from every handler that reaches the cart, and no cart is created. |
| CartApi.FirstVisitEmptyCart | app_carrito/api.py:28-51 | A client's first visit creates an empty cart with zero totals and leaves the lines unchanged. |
| CartApi.MyCartShowsOwnLines | app_carrito/api.py:37-51 | A returning client sees exactly their cart's lines with its item and price totals, and nothing changes. |
| CartApi.AddAboveStockFails | app_carrito/api.py:73-77 | Asking for more than the stock fails with insufficient stock and leaves the lines unchanged. |
| CartApi.AddMergesExisting | app_carrito/api.py:79-102 | Adding a variant already in the cart never creates a second line. The line takes old + q when that fits the stock. Otherwise the add fails and the line keeps its old quantity. |
| CartApi.AddCreatesLine | app_carrito/api.py:103-116 | Adding a variant not in the cart appends exactly one line (next id, requested quantity). |
| CartApi.AddToCartKeepsInvariant | app_carrito/api.py:79-116 | The merge keeps valid tables, one line per variant and every quantity in 1..stock. |
| CartApi.AddKeepsInvariant | app_carrito/api.py:53-128 | Every add request, successful or not, keeps the invariant. |
| CartApi.UpdateOverwrites | app_carrito/api.py:146-159 | A positive quantity within stock overwrites the quantity of that line only. Nothing else changes. |
| CartApi.UpdateRefused | app_carrito/api.py:136-156 | A missing or zero quantity is `MissingParameter`, a negative one `NonPositiveQuantity` and one above the stock `InsufficientStock`; in each case nothing changes. |
| CartApi.ForeignLineNotFound | app_carrito/api.py:143-144 | A line id of another client's cart is "not found" for update and remove, and nothing changes. |
| CartApi.UpdateKeepsInvariant | app_carrito/api.py:130-172 | Every update request keeps the invariant. |
| CartApi.RemoveOwnLine | app_carrito/api.py:186-188 | Removing an own line deletes exactly that line. Every other cart keeps its lines. |
| CartApi.RemoveKeepsInvariant | app_carrito/api.py:174-199 | Every remove request keeps the invariant. |
| CartApi.ClearOnlyOwnCart | app_carrito/api.py:204-210 | Clearing leaves the caller's cart with no lines and every other cart's lines unchanged. |
| CartApi.ClearIdempotent | app_carrito/api.py:204-210 | Clearing twice equals clearing once, so clearing an empty cart succeeds without change. |
| CartApi.ClearKeepsInvariant | app_carrito/api.py:201-214 | Every clear request keeps the invariant. |
| ItemApi.ExistingCart | app_carrito/item_api.py:28-39 | The caller's cart exists exactly when the user is signed in, has a client record and has a cart. It is never created here. |
| ItemApi.Items | app_carrito/item_api.py:26-45 | The item set is empty without an existing cart. Otherwise it is exactly that cart's lines. |
| ItemApi.ItemPosition | app_carrito/item_api.py:106 | `get_object` finds a line only among the caller's items. Otherwise no item has that id. |
| ItemApi.ItemManager.constructor | app_carrito/models.py:7-15 | The tables start empty and satisfy the invariant, with the first cart and line ids 1. |
| ItemApi.ItemManager.GetCart | app_carrito/item_api.py:47-57 | Without a user or client record there is no cart and nothing changes. Otherwise the cart is got or created. |
| ItemApi.ItemManager.GetObject | app_carrito/item_api.py:106 | The lookup loop returns the same position as `ItemPosition`. |
| ItemApi.ItemManager.Create | app_carrito/item_api.py:124-198 | Answer and tables as in `CreateSpec`. |
| ItemApi.ItemManager.Update | app_carrito/item_api.py:200-247 | Answer and tables as in `UpdateSpec`. |
| ItemApi.ItemManager.PartialUpdate | app_carrito/item_api.py:249-290 | Answer and tables as in `PartialUpdateSpec`. |
| ItemApi.ItemManager.Destroy | app_carrito/item_api.py:292-317 | Answer and tables as in `DestroySpec`. |
| ItemApi.NoCartNoItems | app_carrito/item_api.py:28-70 | Without an existing cart the item set is empty. `list` answers 401 to an anonymous caller, and empty totals to a signed-in one. |
| ItemApi.ListTotals | app_carrito/item_api.py:72-88 | `list` reports the cart's line count, the sum of the quantities and the sum of quantity × unit price. |
| ItemApi.CreateRefused | app_carrito/item_api.py:143-159 | A missing or zero variant id is refused as missing, and an unknown variant as not found. No line changes. |
| ItemApi.CreateMergesUnchecked | app_carrito/item_api.py:161-176 | Creating a variant already in the cart adds the quantity (default 1) to that line, with no stock check. A negative sum fails as a server error and nothing changes. |
| ItemApi.CreateNewLine | app_carrito/item_api.py:177-189 | Creating a variant the cart lacks appends one line with the next id and the quantity (default 1). |
| ItemApi.CreateCanExceedStock | app_carrito/item_api.py:161-189 | Concrete case: with stock 1, two creates leave a line of quantity 2. |
| ItemApi.CreateKeepsInvariant | app_carrito/item_api.py:124-198 | Creation keeps valid tables, one line per variant and non-negative quantities. |
| ItemApi.CreateLineKeepsInvariant | app_carrito/item_api.py:161-189 | The merge-or-append step, with or without a 500 for a negative sum, keeps valid tables, one line per variant and non-negative quantities. |
| ItemApi.UpdateOverwritesUnchecked | app_carrito/item_api.py:213-228 | Update needs a quantity (400 without one) and refuses ≤ 0. A positive value overwrites the quantity even beyond the stock. |
| ItemApi.PartialUpdateWithoutQuantity | app_carrito/item_api.py:261-271 | Partial update without a quantity changes nothing. With one, it behaves as update. |
| ItemApi.UpdateKeepsInvariant | app_carrito/item_api.py:200-290 | Both updates keep the invariant. |
| ItemApi.DestroyOnlyTarget | app_carrito/item_api.py:297-305 | Destroy deletes exactly the targeted line of the caller's cart. Other carts keep their lines. A line of another cart is answered with a server error and nothing changes. |
| ItemApi.DestroyKeepsInvariant | app_carrito/item_api.py:292-317 | Destroy keeps the invariant. |
| OrderSerializers.StatusesLowercase | app_pedidos/serializers.py:27 | Every allowed status is already lower case. |
| OrderSerializers.ValidateAmount | app_pedidos/serializers.py:19-23 | The total is accepted exactly when it is positive, and is returned unchanged. The purchase serializer's `validate_monto_total` (app_compras/serializers.py, lines 31-35) is the same check. |
| OrderSerializers.ValidateStatus | app_pedidos/serializers.py:25-32 | A status is accepted exactly when its lower case is one of the five, and is returned lower-cased. |
| OrderSerializers.ValidateStatusIdempotent | app_pedidos/serializers.py:28-32 | Re-validating an accepted status returns the same value. |
| OrderSerializers.OrderFieldErrors | app_pedidos/serializers.py:11-32 | Each field fails exactly when it is missing on a full write, or present with a value its validator refuses. |
| OrderSerializers.ValidateOwner | app_pedidos/serializers.py:34-45 | With both client and address given, the address must belong to that client. Otherwise the check passes. |
| OrderSerializers.ValidateOrder | app_pedidos/serializers.py:6-77 | Accepted exactly when no field fails and the ownership check passes. The accepted status is lower-cased and allowed. |
| OrderSerializers.ForeignAddressRefused | app_pedidos/serializers.py:39-43 | Another client's address is refused as a non-field error. |
| OrderSerializers.OwnershipSkippedWhenAbsent | app_pedidos/serializers.py:39 | A partial update naming only one of client and address skips the ownership check. |
| OrderApi.ListOrders | app_pedidos/api.py:23-37 | The list holds exactly the orders of the given client whose status contains the text case-insensitively, each with its multiplicity, newest first. |
| OrderApi.ListUnfiltered | app_pedidos/api.py:25 | Without filters the list is a permutation of all orders. |
| OrderApi.ByStatus | app_pedidos/api.py:138-142 | `por_estado` lists the orders whose status contains the text, newest first, each as often as it is stored. The text defaults to `pendiente`. |
| OrderApi.ByStatusEmptyMatchesAll | app_pedidos/api.py:141-142 | An explicit empty status matches every order. |
| OrderApi.ByClient | app_pedidos/api.py:153-185 | A missing client id gives 400 and an unknown one 404. Otherwise the answer is exactly that client's orders, newest first, each as often as it is stored. |
| OrderApi.FindOrder | app_pedidos/api.py:190 | `get_object` finds the order with that id, or reports that none has it. |
| OrderApi.OrderBook.constructor | app_pedidos/models.py:5-10 | The book holds the given orders. |
| OrderApi.OrderBook.ChangeStatus | app_pedidos/api.py:187-208 | The search loop and the update give the answer and table of `ChangeStatusSpec`. |
| OrderApi.ChangeStatusStoresAllowed | app_pedidos/api.py:207-208 | After a successful change the stored status is one of the five, and only that order's status changed. |
| OrderApi.ChangeStatusRefused | app_pedidos/api.py:193-205 | A missing, empty or unknown status is refused and no order changes. |
| OrderApi.AnyStatusToAny | app_pedidos/api.py:200-208 | Any allowed status, in any capitalisation, replaces any current status. |
| ProductSerializers.ValidateVariantPrice | app_productos/serializers.py:87-90 | Accepted exactly when ≥ 0, and returned unchanged. |
| ProductSerializers.ValidateUnitPrice | app_productos/serializers.py:92-95 | Accepted exactly when > 0, and returned unchanged. |
| ProductSerializers.ValidateStock | app_productos/serializers.py:97-100 | Accepted exactly when ≥ 0, and returned unchanged. |
| ProductSerializers.ValidateRating | app_productos/serializers.py:114-128 | Accepted exactly when 1 ≤ rating ≤ 5, and returned unchanged. |
| ProductSerializers.VariantFieldErrors | app_productos/serializers.py:87-100 | Each variant field fails exactly when it is present and outside its validator's range. |
| ProductSerializers.ValidateEntries | app_productos/serializers.py:204-207 | Accepted exactly when ≥ 0, and returned unchanged. |
| ProductSerializers.ValidateMinStock | app_productos/serializers.py:209-212 | Accepted exactly when ≥ 0, and returned unchanged. |
| ProductSerializers.ValidateMaxStock | app_productos/serializers.py:214-217 | Accepted exactly when ≥ 0, and returned unchanged. |
| ProductSerializers.InventoryFieldErrors | app_productos/serializers.py:204-217 | Each inventory field fails exactly when it is present and negative. |
| ProductSerializers.ValidateInventory | app_productos/serializers.py:204-229 | Accepted exactly when no field fails and it is not the case that both bounds are non-zero with min > max. A cross-check failure blames `stock_minimo`. |
| ProductSerializers.ZeroMaxSkipsCrossCheck | app_productos/serializers.py:219-229 | A maximum of 0 disables the cross-check, so min = 5, max = 0 passes. |
| ProductSerializers.AcceptedInventoryOrdered | app_productos/serializers.py:204-229 | An accepted record has no negative field. With both bounds and a non-zero maximum, min ≤ max. |
| ProductApi.PermissionTable | app_productos/api.py:80-318 | Authentication is required exactly for writes to products and reviews, and for every action on order items, purchase items and inventory. |
| ProductApi.ReadsArePublic | app_productos/api.py:80-87 | Reading the public catalog never needs authentication. |
| ProductApi.ListProducts | app_productos/api.py:24-38 | The list holds exactly the active products matching the name (case-insensitive substring) and category filters, each once as stored, newest first. |
| ProductApi.ProductFilters | app_productos/api.py:26-31 | Without filters the list is all active products. The name filter ignores case. |
| ProductApi.Featured | app_productos/api.py:89-92 | The six newest active products, or all active ones when fewer than six (the count is min(6, active rows)), newest first, no row more often than stored. |
| ProductApi.FeaturedAreNewest | app_productos/api.py:89-92 | An active product left out is no newer than any featured one, and then there are exactly six featured. |
| ProductApi.TopCategories | app_productos/api.py:119-133 | Exactly the active categories with no parent, each as often as it is stored. |
| ProductApi.ListVariants | app_productos/api.py:182-201 | Exactly the variants matching the product and category filters, with stock when `disponible=true`, newest first, each as often as it is stored. |
| ProductApi.Available | app_productos/api.py:203-206 | Exactly the variants with stock > 0, each as often as it is stored. |
| ProductApi.AvailableFilter | app_productos/api.py:196-206 | `disponible=true` selects the same variants as `disponibles`. Any other spelling does not filter. |
| ProductApi.ListReviews | app_productos/api.py:236-244 | Exactly the reviews of the requested variant (all when none is requested), newest first, each as often as it is stored. |
| ProductApi.ReviewsOfVariant | app_productos/api.py:246-258 | A missing variant id gives 400. Otherwise the answer is exactly that variant's reviews, each as often as it is stored. |
| ProductApi.ListImages | app_productos/api.py:286-294 | The listing is a permutation of the requested variant's images (all images when none is requested). |
| ProductApi.ListImagesOrdered | app_productos/api.py:286-294 | That listing is principal images first, then by ascending id, and holds exactly the selected images. |
| ProductApi.ListInventory | app_productos/api.py:320-339 | Exactly the records matching the product, location and `stock_bajo=true` filters, most recently updated first, each as often as it is stored. |
| ProductApi.LowStock | app_productos/api.py:388-403 | Exactly the records with entries < minimum, each as often as it is stored. |
| ProductApi.HighStock | app_productos/api.py:404 | Exactly the records with entries > maximum, each as often as it is stored. |
| ProductApi.AlertsDisjoint | app_productos/api.py:400-418 | A record in both alert lists has min > max, so when min ≤ max no record is in both. |
| ProductApi.LowStockFilter | app_productos/api.py:334-391 | The `stock_bajo=true` list filter selects the same records as `stock_bajo`. |
| Images.PrincipalFirst | app_productos/upload_api.py:173 | The display order is a permutation of the images. |
| Images.PrincipalFirstOrdered | app_productos/upload_api.py:173 | On a table in primary-key order, the display order is principal first, then by ascending id. |
| Uploads.ContentType | app_productos/upload_api.py:265-280 | No type exactly when the name is absent or empty. Otherwise the type is one of the table's types. |
| Uploads.ContentTypeOfExtension | app_productos/upload_api.py:270-280 | `<base>.<ext>` gets the table entry for the lower-cased ext, or `image/jpeg` when ext is unknown. |
| Uploads.ContentTypeWithoutDot | app_productos/upload_api.py:270-280 | A name with no dot is its own extension: `png` gives image/png, and an unknown name gives the default. |
| Uploads.ContentTypeUpperCase | app_productos/upload_api.py:270 | `Foto.PNG` gives image/png. |
| Uploads.ContentTypeLastDot | app_productos/upload_api.py:270-280 | Only the last extension counts: `foto.png.gz` gives image/jpeg. |
| Uploads.PrincipalFlag | app_productos/upload_api.py:59 | The flag is false when absent. Otherwise it is true exactly when the value lower-cases to `true`. |
| Uploads.PrincipalFlagExamples | app_productos/upload_api.py:59 | `TRUE` and `True` set the flag. `1`, `yes` and ` true` do not. |
| Uploads.ClearPrincipal | app_productos/upload_api.py:62-66 | The variant's images lose their principal flag. Every other image is unchanged. |
| Uploads.ImageStore.constructor | app_productos/models.py:37-41 | The image table starts empty with next id 1. |
| Uploads.ImageStore.Upload | app_productos/upload_api.py:18-98 | An anonymous caller gets 401 and the table and id counter are unchanged. For a signed-in caller, the clearing loop and the insert give the answer and table of `UploadSpec`. |
| Uploads.UploadRefused | app_productos/upload_api.py:32-55 | A missing file or variant id gives 400 and an unknown variant 404. No record is created and no flag changes. |
| Uploads.PrincipalUploadIsSole | app_productos/upload_api.py:62-74 | After a principal upload the new image is the only principal image of its variant. |
| Uploads.PlainUploadAppends | app_productos/upload_api.py:62-74 | A non-principal upload only appends a non-principal row. |
| Uploads.UploadLocal | app_productos/upload_api.py:62-74 | An upload leaves other variants' images unchanged. It changes its own variant's images at most in their flag. |
| Uploads.UploadKeepsInv | app_productos/upload_api.py:20-98 | Uploads keep ids increasing and at most one principal image per variant. |
| Uploads.AppendKeepsIds | app_productos/upload_api.py:69-74 | Inserting with the next id keeps ids increasing. |
| Uploads.AppendKeepsOnePrincipal | app_productos/upload_api.py:62-74 | Clearing then inserting keeps at most one principal per variant. |
| Uploads.Displayed | app_productos/upload_api.py:159-173 | The listing holds exactly the images passing every given filter. |
| Uploads.DisplayedInOrder | app_productos/upload_api.py:173 | The listing is principal first, then by ascending id. |
| Uploads.FormatImages | app_productos/upload_api.py:176-179 | The formatting loop produces those entries. |
| Uploads.FindImage | app_productos/upload_api.py:151 | Finds the image with that id, or reports that none has it. |
| Uploads.DisplaySpec | app_productos/upload_api.py:148-179 | With `imagen_id`, the answer is the entry of an image with that id, or 404 exactly when no image has it. Otherwise it is the entries of the filtered, ordered listing. |
| Uploads.Display | app_productos/upload_api.py:121-194 | The handler's answer is `DisplaySpec`. |
| Uploads.Stats | app_productos/upload_api.py:289-307 | secondary = the number of non-principal images, principal + secondary = total = the number of images, and the product and category counts are ≤ total. |
| Uploads.StatsCountsImageKeys | app_productos/upload_api.py:298-307 | A product or category is counted exactly when some image's variant links to it. |
| Uploads.ImageSetBound | app_productos/upload_api.py:300-307 | A distinct count over the images never exceeds the number of images. |
| UserSerializers.RegisterErrors | app_user/serializers.py:31-41 | Registration fails on the username exactly when it is taken, and on the email exactly when it is taken. |
| UserSerializers.NewClient | app_user/serializers.py:43-55 | A new client has the requested username and the address `create_user` normalizes. It is not staff, not a superuser, active and in no group. Absent names become empty. |
| UserSerializers.NormalizeEmailSplit | app_user/serializers.py:45-48 | `normalize_email` keeps everything before the last `@` and lower-cases the domain after it. |
| UserSerializers.NormalizeEmailWithoutAt | app_user/serializers.py:45-48 | An address without `@` is kept as it is. |
| UserSerializers.NormalizeEmailIdempotent | app_user/serializers.py:45-48 | Normalizing a normalized address changes nothing. |
| UserSerializers.NormalizeEmailIgnoresDomainCase | app_user/serializers.py:45-48 | Two addresses whose domains differ only in letter case normalize to the same stored address. |
| UserSerializers.CreateGroupErrors | app_user/serializers.py:78-82 | A group name is refused exactly when it is taken. |
| UserSerializers.EmployeeErrors | app_user/serializers.py:99-115 | Username, email and group fail exactly when taken, taken and non-existent respectively. |
| UserSerializers.NewEmployee | app_user/serializers.py:117-138 | An employee has the requested username and the normalized address. It is never a superuser and is active. It is staff exactly when `is_staff` is true (default false) and is in exactly the requested group. |
| UserSerializers.GroupNames | app_user/serializers.py:151-153 | Exactly the names of the user's groups. |
| UserApi.ClassifyPrecedence | app_user/api.py:112-131 | Superuser wins, then staff, then the email suffix (`.cli` before `.com`). A plain account not ending in `.cli` is `client_com` exactly when it ends in `.com`. Only non-staff accounts go to the client dashboard. |
| UserApi.ClassifyCaseSensitive | app_user/api.py:122-131 | `…@tienda.com` is `client_com` and `…@tienda.COM` is a plain `client`. |
| UserApi.UsersWithEmail | app_user/api.py:99 | Exactly the users registered under the email. |
| UserApi.LoginSpec | app_user/api.py:86-164 | An unknown email is 404. A success has exactly one account with that email, a passed password check, and the classification of that account. |
| UserApi.LoginOutcomes | app_user/api.py:97-158 | When no two accounts share an email, login succeeds exactly when the password check does, and a failed check is 401. A superuser lands on the admin dashboard. |
| UserApi.LoginAmbiguous | app_user/api.py:97-158 | Two accounts with the same email make `User.objects.get` raise an error that only a `DoesNotExist` handler would catch, so login answers 500 whatever the password. |
| UserApi.MembershipErrors | app_user/serializers.py:57-72 | The user id and the group id each fail exactly when absent or not existing. |
| UserApi.ListEmployees | app_user/api.py:422-431 | Non-superusers outside group 3, or all non-superusers when group 3 does not exist. |
| UserApi.Accounts.constructor | app_user/serializers.py:5-13 | The tables are the given ones. |
| UserApi.Accounts.Register | app_user/api.py:191-259 | Answer and tables as in `RegisterSpec`. |
| UserApi.Accounts.CreateGroup | app_user/api.py:42-60 | 401 and unchanged tables for an anonymous caller (the view set is `IsAuthenticated`). Otherwise the answer and tables are as in `CreateGroupSpec`. |
| UserApi.Accounts.CreateEmployee | app_user/api.py:371-413 | 401 and unchanged tables for an anonymous caller. Otherwise the answer and tables are as in `CreateEmployeeSpec`. |
| UserApi.Accounts.AddToGroup | app_user/api.py:263-314 | 401 and unchanged tables for an anonymous caller. Otherwise the answer and tables are as in `AddToGroupSpec`. |
| UserApi.Accounts.RemoveFromGroup | app_user/api.py:317-368 | 401 and unchanged tables for an anonymous caller. Otherwise the answer and tables are as in `RemoveFromGroupSpec`. |
| UserApi.Accounts.DeleteEmployee | app_user/api.py:448-480 | 401 and unchanged tables for an anonymous caller. Otherwise the answer and tables are as in `DeleteEmployeeSpec`. |
| UserApi.Accounts.ToggleActive | app_user/api.py:483-507 | 401 and unchanged tables for an anonymous caller. Otherwise the answer and tables are as in `ToggleActiveSpec`. |
| UserApi.RegisterRefused | app_user/serializers.py:31-41 | A taken username or email is refused, names the failing fields, and creates nothing. |
| UserApi.RegisterCreatesClient | app_user/api.py:197-254 | Registration creates one new plain active client with the requested username and the normalized email, and leaves every other account unchanged. It answers the new id, with the client in group 3, exactly when group 3 exists or the name `cliente` is free. Otherwise the group creation fails inside the `Group.DoesNotExist` handler and the answer is 500, with the client already created and in no group. |
| UserApi.RegisterKeepsInv | app_user/api.py:191-259 | Registration keeps ids and memberships valid, usernames unique and group names unique. |
| UserApi.RegisterKeepsEmailsNormalized | app_user/serializers.py:45-48 | If every stored email is normalized, it stays so after registration. |
| UserApi.DuplicateEmailAccepted | app_user/serializers.py:37-41 | The email check compares raw text, so an address differing from a stored one only in the domain's case is accepted. It is stored as the same address, and a login with it then answers 500. |
| UserApi.CreateGroupKeepsInv | app_user/api.py:42-60 | A taken name is refused without change. A new group gets a fresh id. The invariant is kept. |
| UserApi.CreateEmployeeResult | app_user/api.py:372-413 | An employee is created exactly when the username and email are free and the group exists, with the flags and group of the request. Nothing else changes. |
| UserApi.CreateEmployeeKeepsInv | app_user/api.py:372-413 | Employee creation keeps ids and memberships valid, usernames unique and group names unique. |
| UserApi.CreateEmployeeKeepsEmailsNormalized | app_user/serializers.py:122-130 | If every stored email is normalized, it stays so after employee creation. |
| UserApi.AddToGroupResult | app_user/api.py:279-287 | An existing member is refused without change. Otherwise exactly that membership is added. |
| UserApi.RemoveFromGroupResult | app_user/api.py:333-341 | A non-member is refused without change. Otherwise exactly that membership is removed. |
| UserApi.AddThenRemove | app_user/api.py:287-341 | Removing a membership just added restores the tables. |
| UserApi.MembershipKeepsInv | app_user/api.py:264-368 | Membership changes keep the invariant. |
| UserApi.SuperuserProtected | app_user/api.py:456-496 | A superuser can be neither deleted nor toggled (403, no change). |
| UserApi.DeleteOnlyTarget | app_user/api.py:463-464 | Deleting removes exactly that account. |
| UserApi.ToggleTwice | app_user/api.py:498-499 | Toggle flips only `is_active`, and toggling twice restores the tables. |
| UserApi.DeleteAndToggleKeepInv | app_user/api.py:449-507 | Delete and toggle keep the invariant. |
| UserApi.EmployeesAreNonClients | app_user/api.py:424-431 | On valid tables the employee list is exactly the non-superusers outside group 3. |
| PurchaseSerializers.ValidateSupplierEmail | app_compras/serializers.py:11-15 | Accepted exactly when non-empty, and returned unchanged. |
| PurchaseSerializers.ValidateSupplierPhone | app_compras/serializers.py:17-21 | A refusal names the phone field. An accepted phone is returned unchanged. |
| PurchaseSerializers.PhoneRefusedIffBlank | app_compras/serializers.py:17-21 | A phone is refused exactly when it is all whitespace (the empty phone included). |
| PurchaseSerializers.PhoneNotStripped | app_compras/serializers.py:21 | At validator level, ` 555-1234 ` is accepted with its spaces. |

## Left out

- Schema drift. The cart view sets, the variant view set and the upload handler use `ProductoCategoria`, a model with inline `stock`, `categoria` and `precio_variante`. The models file defines `Producto_Variantes` instead, with stock kept in `Inventario`. The inventory view reads `cantidad_entradas` and `Producto_id`, which that model lacks. The model uses one abstract variant (price, natural stock) and abstract inventory rows, so the import and attribute errors that these mismatches would raise are not modelled. Likewise, both cart view sets look up the caller's client with `Cliente.objects.get(user=…)`, while the client's user field is `usuario` (app_Cliente/models.py:15). As written, that lookup raises a `FieldError`: every `CarritoViewSet` handler reached by a signed-in caller then answers 500, and `ItemCarritoViewSet`'s generic `except` turns it into an empty item list and a 404 on create. The model performs the lookup through the intended `usuario` relation (`CartTables.ClientOf`).
- HTTP status codes, response envelopes, messages, serializer field lists and debug output are abstracted to `Common.Error` kinds.
- `vaciar_carrito` answers 400 when the caller has no client record. The model reports that outcome as `NotFound`, like the other cart handlers.
- ItemApi.UpdateSpec: an id that is not among the caller's items raises `Http404` inside a `try` whose `except Exception` answers 500. The model therefore gives `ServerError`, not `NotFound`. The same holds for `PartialUpdateSpec` and `DestroySpec`.
- Floating point is left out: the `float(...)` conversions of subtotals and totals, product weight, and the review average `round(promedio, 2)` of `por_producto`. Money is integer cents and `ReviewsOfVariant` returns no average.
- Object storage is left out: the upload of the file itself, `imagen.url`, `imagen.size`, the storage-backend name and debug block, the S3 configuration endpoint (`ImageUploadAPIView.get`), and the nested product/category/variant blocks and error fallback of `_format_image_data`. An image's URL is an optional name, and its content type is computed from it.
- Authentication and tokens: `authenticate`, token creation, logout and password hashing are external. Whether the caller is signed in and whether the password check passed are inputs.
- UserApi.ListEmployees: gives the list for a signed-in caller; the 401 its `IsAuthenticated` decorator gives an anonymous caller (app_user/api.py:416) is not modelled.
- PurchaseSerializers.ValidateSupplierPhone: models `validate_telefono` alone; the whitespace trimming that DRF's `CharField` applies before the validator runs is not modelled.
- Built-in DRF field checks are left out: blank and `max_length` limits, email syntax, `trim_whitespace`, and integer parsing. A non-numeric id parameter makes Django raise a `ValueError` (a 500), which is not modelled. The required-field checks of the variant and inventory serializers are not modelled either; their validators run only on the fields given.
- Concurrency: the read-check-write of the stock check has no locking, and the model is sequential.
- Tie order among rows with equal dates in a newest-first ordering is not fixed. The ordered listings are specified by membership (with multiplicity) and sortedness only.
- A user's group names are a set, so the order of `values_list('name')` is not modelled.
- `GroupViewSet.list` and `destroy`, the retrieve handlers, `ProductoViewSet.list` and `retrieve` envelopes, the `variantes` and `productos` detail actions, `Cliente` CRUD and purchase CRUD are plain passthroughs and are not part of this model.
- One cart per client is taken as given: `get_or_create` on a client with two carts would raise, and the model keeps one cart id per client.
- `Text.Lower` lower-cases ASCII letters only, while Python's `str.lower()` and the database's `icontains` also fold non-ASCII letters. Case-insensitive comparison of non-ASCII text (`Text.IContains` in the status, product and image searches, and the domain folded by `UserSerializers.NormalizeEmail`) is modelled as ASCII-only.
- UserSerializers.NewClient: Django's `normalize_username` applies Unicode NFKC normalization to the username. The model stores the username unchanged, so `UserSerializers.UniqueUsernames` is about the usernames as given.
- UserSerializers.NewEmployee: the same NFKC normalization of the username is not modelled.
- UserSerializers.NormalizeEmail: Django strips surrounding whitespace before splitting the address. The model leaves that step out because the serializer's `EmailField` has already trimmed the value, so the model's inputs are trimmed addresses.
- The order model (`Pedido`, app_pedidos/models.py:5-10) has no order-number, shipping-cost or payment-method field, so none is modelled.

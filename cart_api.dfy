/** `CarritoViewSet`, the stock-checked cart handlers. Every handler demands an
    authenticated user; `user` is `None` for an anonymous request. The client
    table (users to clients through `Cliente.usuario`) and the variant catalog
    are read-only inputs. Each
    handler is specified by a function from the tables before the request to
    its answer and the tables after it; `CartManager` performs the same steps
    on its own copy of the tables. */
module CartApi {
  import opened Common
  import opened CartTables
  import opened CartSerializers
  import Ordering

  /** The cart as `mi_carrito` serializes it: its lines and its two totals. */
  datatype CartView = CartView(id: CartId, items: seq<Line>, totalItems: int, totalPrice: int)

  /** Both invariants of the checked cart, on valid tables. */
  ghost predicate Inv(db: CartDb, catalog: map<VariantId, Variant>) {
    Valid(db) && OneLinePerVariant(db.lines) && WithinStock(db.lines, catalog)
  }

  /** `mi_carrito`: the caller's cart, created empty when missing. Serializing a
      line whose variant is gone fails. */
  function MyCartSpec(db: CartDb, user: Option<UserId>, clients: map<UserId, ClientId>,
                      catalog: map<VariantId, Variant>): Step<CartView>
  {
    if user.None? then Step(Err(Unauthorized), db)
    else
      var (cart, db1) := CartOfUser(db, user.value, clients);
      if cart.None? then Step(Err(NotFound), db1)
      else
        var items := LinesOf(db1.lines, cart.value);
        if !IsPriced(items, catalog) then Step(Err(ServerError), db1)
        else Step(Ok(CartView(cart.value, items, TotalItems(items), TotalPrice(items, catalog))), db1)
  }

  /** `agregar_item`: validate, reach the cart, refuse a quantity above stock,
      then merge into the variant's line. */
  function AddItemSpec(db: CartDb, user: Option<UserId>, clients: map<UserId, ClientId>,
                       catalog: map<VariantId, Variant>, variantId: Option<int>, quantity: Option<int>): Step<Line>
  {
    if user.None? then Step(Err(Unauthorized), db)
    else
      var valid := ValidateAddItem(variantId, quantity, catalog);
      if valid.Err? then Step(Err(valid.error), db)
      else
        var (v, q) := valid.value;
        var (cart, db1) := CartOfUser(db, user.value, clients);
        if cart.None? then Step(Err(NotFound), db1)
        else if catalog[v].stock < q then Step(Err(InsufficientStock), db1)
        else AddToCart(db1, cart.value, v, q, catalog[v].stock)
  }

  /** The stock-checked merge: the variant's line in the cart takes the summed
      quantity unless the sum exceeds the stock; without such a line a new one
      is created. */
  function AddToCart(db: CartDb, cart: CartId, v: VariantId, q: int, stock: nat): Step<Line> {
    match FindLine(db.lines, cart, v)
    case Some(i) =>
      var merged := db.lines[i].quantity + q;
      if merged > stock then Step(Err(InsufficientStock), db)
      else
        var line := db.lines[i].(quantity := merged);
        Step(Ok(line), db.(lines := db.lines[i := line]))
    case None =>
      var line := Line(db.nextLine, cart, v, q);
      Step(Ok(line), db.(lines := db.lines + [line], nextLine := db.nextLine + 1))
  }

  /** `ItemCarrito.objects.get(id=id, carrito=cart)` for the caller's cart, if any. */
  function OwnedLine(db: CartDb, cart: Option<CartId>, id: int): (r: Option<nat>)
    ensures r.Some? ==> cart.Some? && r.value < |db.lines| && db.lines[r.value].id == id
                        && db.lines[r.value].cart == cart.value
    ensures r.None? && cart.Some? ==> forall l :: l in db.lines ==> !(l.id == id && l.cart == cart.value)
  {
    if cart.None? || id < 0 then None else FindOwned(db.lines, id, cart.value)
  }

  /** `actualizar_item`: both parameters are required, the line must be in the
      caller's cart, and the new quantity must be positive and within stock. */
  function UpdateItemSpec(db: CartDb, user: Option<UserId>, clients: map<UserId, ClientId>,
                          catalog: map<VariantId, Variant>, itemId: Option<int>, quantity: Option<int>): Step<Line>
  {
    if user.None? then Step(Err(Unauthorized), db)
    else if Falsy(itemId) || Falsy(quantity) then Step(Err(MissingParameter), db)
    else
      var (cart, db1) := CartOfUser(db, user.value, clients);
      match OwnedLine(db1, cart, itemId.value)
      case None => Step(Err(NotFound), db1)
      case Some(i) =>
        var n := quantity.value;
        var line := db1.lines[i];
        if n <= 0 then Step(Err(NonPositiveQuantity), db1)
        else if line.variant !in catalog then Step(Err(ServerError), db1)
        else if n > catalog[line.variant].stock then Step(Err(InsufficientStock), db1)
        else
          var line' := line.(quantity := n);
          Step(Ok(line'), db1.(lines := db1.lines[i := line']))
  }

  /** `eliminar_item`: the line must be in the caller's cart; it is deleted. */
  function RemoveItemSpec(db: CartDb, user: Option<UserId>, clients: map<UserId, ClientId>,
                          itemId: Option<int>): Step<Line>
  {
    if user.None? then Step(Err(Unauthorized), db)
    else if Falsy(itemId) then Step(Err(MissingParameter), db)
    else
      var (cart, db1) := CartOfUser(db, user.value, clients);
      match OwnedLine(db1, cart, itemId.value)
      case None => Step(Err(NotFound), db1)
      case Some(i) => Step(Ok(db1.lines[i]), db1.(lines := RemoveAt(db1.lines, i)))
  }

  /** `vaciar_carrito`: every line of the caller's cart is deleted. */
  function ClearCartSpec(db: CartDb, user: Option<UserId>, clients: map<UserId, ClientId>): Step<CartId>
  {
    if user.None? then Step(Err(Unauthorized), db)
    else
      var (cart, db1) := CartOfUser(db, user.value, clients);
      if cart.None? then Step(Err(NotFound), db1)
      else Step(Ok(cart.value), db1.(lines := Ordering.Filter(db1.lines, (l: Line) => l.cart != cart.value)))
  }

  /** The view set's cart and line tables, updated in place by its handlers. */
  class CartManager {
    var db: CartDb

    constructor()
      ensures db == CartDb(map[], [], 1, 1)
      ensures Valid(db)
    {
      db := CartDb(map[], [], 1, 1);
    }

    /** `get_or_create_carrito`. */
    method GetOrCreateCart(user: UserId, clients: map<UserId, ClientId>) returns (cart: Option<CartId>)
      modifies this
      ensures (cart, db) == CartOfUser(old(db), user, clients)
    {
      if user !in clients {
        return None;
      }
      var (c, db') := GetOrCreate(db, clients[user]);
      db := db';
      return Some(c);
    }

    method MyCart(user: Option<UserId>, clients: map<UserId, ClientId>, catalog: map<VariantId, Variant>)
      returns (r: Result<CartView>)
      modifies this
      ensures Step(r, db) == MyCartSpec(old(db), user, clients, catalog)
    {
      if user.None? {
        return Err(Unauthorized);
      }
      var cart := GetOrCreateCart(user.value, clients);
      if cart.None? {
        return Err(NotFound);
      }
      var items := LinesOf(db.lines, cart.value);
      if !IsPriced(items, catalog) {
        return Err(ServerError);
      }
      var total := TotalPriceLoop(items, catalog);
      return Ok(CartView(cart.value, items, TotalItems(items), total));
    }

    method AddItem(user: Option<UserId>, clients: map<UserId, ClientId>, catalog: map<VariantId, Variant>,
                   variantId: Option<int>, quantity: Option<int>) returns (r: Result<Line>)
      modifies this
      ensures Step(r, db) == AddItemSpec(old(db), user, clients, catalog, variantId, quantity)
    {
      if user.None? {
        return Err(Unauthorized);
      }
      var valid := ValidateAddItem(variantId, quantity, catalog);
      if valid.Err? {
        return Err(valid.error);
      }
      var (v, q) := valid.value;
      var cart := GetOrCreateCart(user.value, clients);
      if cart.None? {
        return Err(NotFound);
      }
      var stock := catalog[v].stock;
      if stock < q {
        return Err(InsufficientStock);
      }
      var existing := FindLineLoop(db.lines, cart.value, v);
      if existing.Some? {
        var i := existing.value;
        var merged := db.lines[i].quantity + q;
        if merged > stock {
          return Err(InsufficientStock);
        }
        var line := db.lines[i].(quantity := merged);
        db := db.(lines := db.lines[i := line]);
        return Ok(line);
      }
      var line := Line(db.nextLine, cart.value, v, q);
      db := db.(lines := db.lines + [line], nextLine := db.nextLine + 1);
      return Ok(line);
    }

    method UpdateItem(user: Option<UserId>, clients: map<UserId, ClientId>, catalog: map<VariantId, Variant>,
                      itemId: Option<int>, quantity: Option<int>) returns (r: Result<Line>)
      modifies this
      ensures Step(r, db) == UpdateItemSpec(old(db), user, clients, catalog, itemId, quantity)
    {
      if user.None? {
        return Err(Unauthorized);
      }
      if Falsy(itemId) || Falsy(quantity) {
        return Err(MissingParameter);
      }
      var cart := GetOrCreateCart(user.value, clients);
      var found: Option<nat> := None;
      if cart.Some? && itemId.value >= 0 {
        found := FindOwnedLoop(db.lines, itemId.value, cart.value);
      }
      if found.None? {
        return Err(NotFound);
      }
      var i := found.value;
      var n := quantity.value;
      if n <= 0 {
        return Err(NonPositiveQuantity);
      }
      if db.lines[i].variant !in catalog {
        return Err(ServerError);
      }
      if n > catalog[db.lines[i].variant].stock {
        return Err(InsufficientStock);
      }
      var line := db.lines[i].(quantity := n);
      db := db.(lines := db.lines[i := line]);
      return Ok(line);
    }

    method RemoveItem(user: Option<UserId>, clients: map<UserId, ClientId>, itemId: Option<int>)
      returns (r: Result<Line>)
      modifies this
      ensures Step(r, db) == RemoveItemSpec(old(db), user, clients, itemId)
    {
      if user.None? {
        return Err(Unauthorized);
      }
      if Falsy(itemId) {
        return Err(MissingParameter);
      }
      var cart := GetOrCreateCart(user.value, clients);
      var found: Option<nat> := None;
      if cart.Some? && itemId.value >= 0 {
        found := FindOwnedLoop(db.lines, itemId.value, cart.value);
      }
      if found.None? {
        return Err(NotFound);
      }
      var line := db.lines[found.value];
      db := db.(lines := RemoveAt(db.lines, found.value));
      return Ok(line);
    }

    method ClearCart(user: Option<UserId>, clients: map<UserId, ClientId>) returns (r: Result<CartId>)
      modifies this
      ensures Step(r, db) == ClearCartSpec(old(db), user, clients)
    {
      if user.None? {
        return Err(Unauthorized);
      }
      var cart := GetOrCreateCart(user.value, clients);
      if cart.None? {
        return Err(NotFound);
      }
      var kept := DeleteCartLines(db.lines, cart.value);
      db := db.(lines := kept);
      return Ok(cart.value);
    }
  }

  // ---------------------------------------------------------------------------
  // Properties of the handlers

  /** Anonymous requests are refused and change nothing. */
  lemma AnonymousRefused(db: CartDb, clients: map<UserId, ClientId>, catalog: map<VariantId, Variant>,
                         variantId: Option<int>, itemId: Option<int>, quantity: Option<int>)
    ensures AddItemSpec(db, None, clients, catalog, variantId, quantity) == Step(Err(Unauthorized), db)
    ensures UpdateItemSpec(db, None, clients, catalog, itemId, quantity) == Step(Err(Unauthorized), db)
    ensures RemoveItemSpec(db, None, clients, itemId) == Step(Err(Unauthorized), db)
    ensures ClearCartSpec(db, None, clients) == Step(Err(Unauthorized), db)
    ensures MyCartSpec(db, None, clients, catalog) == Step(Err(Unauthorized), db)
  {
  }

  /** A user without a client record gets "not found" from every handler that
      reaches the cart, and no cart is created. */
  lemma NoClientNotFound(db: CartDb, u: UserId, clients: map<UserId, ClientId>, catalog: map<VariantId, Variant>,
                         itemId: Option<int>, quantity: Option<int>)
    requires u !in clients
    ensures MyCartSpec(db, Some(u), clients, catalog) == Step(Err(NotFound), db)
    ensures ClearCartSpec(db, Some(u), clients) == Step(Err(NotFound), db)
    ensures !Falsy(itemId) && !Falsy(quantity) ==>
      UpdateItemSpec(db, Some(u), clients, catalog, itemId, quantity) == Step(Err(NotFound), db)
    ensures !Falsy(itemId) ==> RemoveItemSpec(db, Some(u), clients, itemId) == Step(Err(NotFound), db)
  {
  }

  /** A client's first visit creates an empty cart: no items, zero totals. */
  lemma FirstVisitEmptyCart(db: CartDb, u: UserId, clients: map<UserId, ClientId>, catalog: map<VariantId, Variant>)
    requires Valid(db) && u in clients && clients[u] !in db.carts
    ensures MyCartSpec(db, Some(u), clients, catalog).result == Ok(CartView(db.nextCart, [], 0, 0))
    ensures MyCartSpec(db, Some(u), clients, catalog).db.lines == db.lines
  {
  }

  /** A returning client sees their own cart's lines and their totals. */
  lemma MyCartShowsOwnLines(db: CartDb, u: UserId, clients: map<UserId, ClientId>, catalog: map<VariantId, Variant>)
    requires u in clients && clients[u] in db.carts && WithinStock(db.lines, catalog)
    ensures var cart := db.carts[clients[u]];
      var items := LinesOf(db.lines, cart);
      Priced(items, catalog) &&
      MyCartSpec(db, Some(u), clients, catalog) == Step(Ok(CartView(cart, items, TotalItems(items), TotalPrice(items, catalog))), db)
  {
    var items := LinesOf(db.lines, db.carts[clients[u]]);
    assert forall k :: 0 <= k < |items| ==> items[k] in db.lines;
  }

  /** Asking for more than the stock fails; the lines are untouched. */
  lemma AddAboveStockFails(db: CartDb, u: UserId, clients: map<UserId, ClientId>, catalog: map<VariantId, Variant>,
                           v: VariantId, q: int)
    requires u in clients && v in catalog && 0 < catalog[v].stock < q
    ensures AddItemSpec(db, Some(u), clients, catalog, Some(v), Some(q)).result == Err(InsufficientStock)
    ensures AddItemSpec(db, Some(u), clients, catalog, Some(v), Some(q)).db.lines == db.lines
  {
  }

  /** Adding a variant the cart already holds updates that line to the summed
      quantity, or fails without change when the sum exceeds the stock; no
      second line is ever created. */
  lemma AddMergesExisting(db: CartDb, u: UserId, clients: map<UserId, ClientId>, catalog: map<VariantId, Variant>,
                          q: int, i: nat)
    requires Inv(db, catalog) && u in clients && clients[u] in db.carts
    requires i < |db.lines| && db.lines[i].cart == db.carts[clients[u]]
    requires db.lines[i].variant in catalog && 0 < q <= catalog[db.lines[i].variant].stock
    ensures var s := AddItemSpec(db, Some(u), clients, catalog, Some(db.lines[i].variant), Some(q));
      var merged := db.lines[i].quantity + q;
      && |s.db.lines| == |db.lines|
      && (merged <= catalog[db.lines[i].variant].stock ==>
            s.result == Ok(db.lines[i].(quantity := merged))
            && s.db.lines == db.lines[i := db.lines[i].(quantity := merged)])
      && (merged > catalog[db.lines[i].variant].stock ==>
            s.result == Err(InsufficientStock) && s.db.lines == db.lines)
  {
    assert db.lines[i] in db.lines;
    FindLineUnique(db.lines, i);
  }

  /** Adding a variant the cart does not hold appends exactly one line with the
      requested quantity. */
  lemma AddCreatesLine(db: CartDb, u: UserId, clients: map<UserId, ClientId>, catalog: map<VariantId, Variant>,
                       v: VariantId, q: int)
    requires Valid(db) && u in clients && v in catalog && 0 < q <= catalog[v].stock
    requires forall l :: l in LinesOf(db.lines, GetOrCreate(db, clients[u]).0) ==> l.variant != v
    ensures var cart := GetOrCreate(db, clients[u]).0;
      var s := AddItemSpec(db, Some(u), clients, catalog, Some(v), Some(q));
      s.result == Ok(Line(db.nextLine, cart, v, q))
      && s.db.lines == db.lines + [Line(db.nextLine, cart, v, q)]
  {
  }

  /** The merge keeps the tables valid, one line per variant and every quantity within stock. */
  lemma AddToCartKeepsInvariant(db: CartDb, cart: CartId, v: VariantId, q: int, catalog: map<VariantId, Variant>)
    requires Inv(db, catalog) && cart < db.nextCart && v in catalog && 1 <= q <= catalog[v].stock
    ensures Inv(AddToCart(db, cart, v, q, catalog[v].stock).db, catalog)
  {
    match FindLine(db.lines, cart, v)
    case Some(i) =>
      assert db.lines[i] in db.lines;
      if db.lines[i].quantity + q <= catalog[v].stock {
        SetQuantityKeepsInvariants(db, i, db.lines[i].quantity + q, (l: Line) => InStock(l, catalog));
      }
    case None =>
      AppendKeepsInvariants(db, Line(db.nextLine, cart, v, q), (l: Line) => InStock(l, catalog));
  }

  /** Adding keeps the tables valid, one line per variant and every quantity within stock. */
  lemma AddKeepsInvariant(db: CartDb, user: Option<UserId>, clients: map<UserId, ClientId>,
                          catalog: map<VariantId, Variant>, variantId: Option<int>, quantity: Option<int>)
    requires Inv(db, catalog)
    ensures Inv(AddItemSpec(db, user, clients, catalog, variantId, quantity).db, catalog)
  {
    if user.Some? && user.value in clients {
      var (cart, db1) := GetOrCreate(db, clients[user.value]);
      var valid := ValidateAddItem(variantId, quantity, catalog);
      if valid.Ok? && catalog[valid.value.0].stock >= valid.value.1 {
        AddToCartKeepsInvariant(db1, cart, valid.value.0, valid.value.1, catalog);
      }
    }
  }

  /** Updating a line of the caller's cart to a positive quantity within stock
      overwrites that quantity and nothing else. */
  lemma UpdateOverwrites(db: CartDb, u: UserId, clients: map<UserId, ClientId>, catalog: map<VariantId, Variant>,
                         i: nat, n: int)
    requires Valid(db) && u in clients && clients[u] in db.carts
    requires i < |db.lines| && db.lines[i].cart == db.carts[clients[u]]
    requires db.lines[i].variant in catalog && 0 < n <= catalog[db.lines[i].variant].stock
    ensures var s := UpdateItemSpec(db, Some(u), clients, catalog, Some(db.lines[i].id), Some(n));
      s.result == Ok(db.lines[i].(quantity := n))
      && s.db == db.(lines := db.lines[i := db.lines[i].(quantity := n)])
  {
    FindOwnedById(db, db.carts[clients[u]], i);
  }

  /** A missing or zero quantity, a negative quantity or one above the stock is
      refused (400 for a missing parameter, a non-positive quantity and
      insufficient stock respectively) and the lines are unchanged. */
  lemma UpdateRefused(db: CartDb, u: UserId, clients: map<UserId, ClientId>, catalog: map<VariantId, Variant>,
                      i: nat, n: Option<int>)
    requires Valid(db) && u in clients && clients[u] in db.carts
    requires i < |db.lines| && db.lines[i].cart == db.carts[clients[u]]
    requires db.lines[i].variant in catalog
    requires Falsy(n) || n.value < 0 || n.value > catalog[db.lines[i].variant].stock
    ensures var s := UpdateItemSpec(db, Some(u), clients, catalog, Some(db.lines[i].id), n);
      s.result.Err? && s.db == db
    ensures var s := UpdateItemSpec(db, Some(u), clients, catalog, Some(db.lines[i].id), n);
      && (Falsy(n) ==> s.result == Err(MissingParameter))
      && (!Falsy(n) && n.value < 0 ==> s.result == Err(NonPositiveQuantity))
      && (!Falsy(n) && n.value > catalog[db.lines[i].variant].stock ==> s.result == Err(InsufficientStock))
  {
    FindOwnedById(db, db.carts[clients[u]], i);
  }

  /** A line id that belongs to another client's cart is "not found" for update
      and remove, and nothing changes. */
  lemma ForeignLineNotFound(db: CartDb, u: UserId, clients: map<UserId, ClientId>, catalog: map<VariantId, Variant>,
                            i: nat, n: int)
    requires Valid(db) && u in clients && clients[u] in db.carts
    requires i < |db.lines| && db.lines[i].cart != db.carts[clients[u]] && n != 0
    ensures UpdateItemSpec(db, Some(u), clients, catalog, Some(db.lines[i].id), Some(n)) == Step(Err(NotFound), db)
    ensures RemoveItemSpec(db, Some(u), clients, Some(db.lines[i].id)) == Step(Err(NotFound), db)
  {
    FindOwnedById(db, db.carts[clients[u]], i);
  }

  /** Updating keeps the tables valid, one line per variant and every quantity within stock. */
  lemma UpdateKeepsInvariant(db: CartDb, user: Option<UserId>, clients: map<UserId, ClientId>,
                             catalog: map<VariantId, Variant>, itemId: Option<int>, quantity: Option<int>)
    requires Inv(db, catalog)
    ensures Inv(UpdateItemSpec(db, user, clients, catalog, itemId, quantity).db, catalog)
  {
    if user.Some? && !Falsy(itemId) && !Falsy(quantity) {
      var (cart, db1) := CartOfUser(db, user.value, clients);
      match OwnedLine(db1, cart, itemId.value)
      case None =>
      case Some(i) =>
        var n := quantity.value;
        if 0 < n && db1.lines[i].variant in catalog && n <= catalog[db1.lines[i].variant].stock {
          SetQuantityKeepsInvariants(db1, i, n, (l: Line) => InStock(l, catalog));
        }
    }
  }

  /** Removing a line of the caller's cart deletes exactly that line; every
      other cart keeps its lines. */
  lemma RemoveOwnLine(db: CartDb, u: UserId, clients: map<UserId, ClientId>, i: nat)
    requires Valid(db) && u in clients && clients[u] in db.carts
    requires i < |db.lines| && db.lines[i].cart == db.carts[clients[u]]
    ensures var s := RemoveItemSpec(db, Some(u), clients, Some(db.lines[i].id));
      s.result == Ok(db.lines[i]) && s.db.lines == RemoveAt(db.lines, i)
      && forall c :: c != db.lines[i].cart ==> LinesOf(s.db.lines, c) == LinesOf(db.lines, c)
  {
    FindOwnedById(db, db.carts[clients[u]], i);
    forall c | c != db.lines[i].cart ensures LinesOf(RemoveAt(db.lines, i), c) == LinesOf(db.lines, c) {
      RemoveAtOtherCarts(db.lines, i, c);
    }
  }

  /** Removing keeps the tables valid, one line per variant and every quantity within stock. */
  lemma RemoveKeepsInvariant(db: CartDb, user: Option<UserId>, clients: map<UserId, ClientId>,
                             catalog: map<VariantId, Variant>, itemId: Option<int>)
    requires Inv(db, catalog)
    ensures Inv(RemoveItemSpec(db, user, clients, itemId).db, catalog)
  {
    if user.Some? && !Falsy(itemId) {
      var (cart, db1) := CartOfUser(db, user.value, clients);
      match OwnedLine(db1, cart, itemId.value)
      case None =>
      case Some(i) => RemoveAtKeepsInvariants(db1, i, (l: Line) => InStock(l, catalog));
    }
  }

  /** Clearing deletes every line of the caller's cart and no other cart's lines. */
  lemma ClearOnlyOwnCart(db: CartDb, u: UserId, clients: map<UserId, ClientId>)
    requires u in clients
    ensures var cart := GetOrCreate(db, clients[u]).0;
      var s := ClearCartSpec(db, Some(u), clients);
      s.result == Ok(cart) && LinesOf(s.db.lines, cart) == []
      && forall c :: c != cart ==> LinesOf(s.db.lines, c) == LinesOf(db.lines, c)
  {
    var cart := GetOrCreate(db, clients[u]).0;
    var keep := (l: Line) => l.cart != cart;
    forall c | c != cart ensures LinesOf(Ordering.Filter(db.lines, keep), c) == LinesOf(db.lines, c) {
      Ordering.FilterNarrower(db.lines, keep, (l: Line) => l.cart == c);
    }
    Ordering.FilterEmpty(ClearCartSpec(db, Some(u), clients).db.lines, (l: Line) => l.cart == cart);
  }

  /** Clearing twice is clearing once; in particular clearing an empty cart succeeds. */
  lemma ClearIdempotent(db: CartDb, u: UserId, clients: map<UserId, ClientId>)
    requires u in clients
    ensures var once := ClearCartSpec(db, Some(u), clients);
      ClearCartSpec(once.db, Some(u), clients) == once
  {
    var cart := GetOrCreate(db, clients[u]).0;
    var once := ClearCartSpec(db, Some(u), clients);
    var keep := (l: Line) => l.cart != cart;
    Ordering.FilterAll(once.db.lines, keep);
  }

  /** Clearing keeps the tables valid, one line per variant and every quantity within stock. */
  lemma ClearKeepsInvariant(db: CartDb, user: Option<UserId>, clients: map<UserId, ClientId>,
                            catalog: map<VariantId, Variant>)
    requires Inv(db, catalog)
    ensures Inv(ClearCartSpec(db, user, clients).db, catalog)
  {
    if user.Some? && user.value in clients {
      var (cart, db1) := GetOrCreate(db, clients[user.value]);
      FilterKeepsInvariants(db1, (l: Line) => l.cart != cart, (l: Line) => InStock(l, catalog));
    }
  }
}

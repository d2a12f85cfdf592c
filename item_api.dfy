/** `ItemCarritoViewSet`, the unchecked cart-line handlers. The view set lets
    anyone call it; the caller's item set is empty for an anonymous user, a
    user without a client record, or a client without a cart. Creation merges
    additively and updates check only for a positive quantity: no handler here
    looks at the stock. The one rule the tables still enforce is the
    non-negative `cantidad` column, whose violation surfaces as a server error
    with nothing written. */
module ItemApi {
  import opened Common
  import opened CartTables
  import opened CartSerializers
  import Ordering

  /** What `list` answers: the item count, the two totals and the items. */
  datatype ItemList = ItemList(count: nat, totalItems: int, totalPrice: int, items: seq<Line>)

  /** The invariant of the unchecked cart: valid tables, one line per variant,
      and no negative quantity. */
  ghost predicate Inv(db: CartDb) {
    Valid(db) && OneLinePerVariant(db.lines) && forall l :: l in db.lines ==> NonNegative(l)
  }

  predicate NonNegative(l: Line) {
    l.quantity >= 0
  }

  /** The caller's existing cart; it is never created here. */
  function ExistingCart(db: CartDb, user: Option<UserId>, clients: map<UserId, ClientId>): (r: Option<CartId>)
    ensures r.Some? <==> user.Some? && user.value in clients && clients[user.value] in db.carts
    ensures r.Some? ==> r.value == db.carts[clients[user.value]]
  {
    if user.None? || user.value !in clients || clients[user.value] !in db.carts then None
    else Some(db.carts[clients[user.value]])
  }

  /** `get_queryset`: the lines of the caller's cart, or none at all. */
  function Items(db: CartDb, user: Option<UserId>, clients: map<UserId, ClientId>): (r: seq<Line>)
    ensures ExistingCart(db, user, clients).None? ==> r == []
    ensures ExistingCart(db, user, clients).Some? ==>
      forall l :: l in r <==> l in db.lines && l.cart == ExistingCart(db, user, clients).value
  {
    match ExistingCart(db, user, clients)
    case None => []
    case Some(cart) => LinesOf(db.lines, cart)
  }

  /** `get_object`: the position of line `id` among the caller's items. */
  function ItemPosition(db: CartDb, user: Option<UserId>, clients: map<UserId, ClientId>, id: int): (r: Option<nat>)
    ensures r.Some? ==> r.value < |db.lines| && db.lines[r.value].id == id && db.lines[r.value] in Items(db, user, clients)
    ensures r.None? ==> forall l :: l in Items(db, user, clients) ==> l.id != id
  {
    match ExistingCart(db, user, clients)
    case None => None
    case Some(cart) => if id < 0 then None else FindOwned(db.lines, id, cart)
  }

  /** `list`: refused when anonymous; otherwise the caller's items with their totals,
      failing when a line has lost its variant. */
  function ListSpec(db: CartDb, user: Option<UserId>, clients: map<UserId, ClientId>,
                    catalog: map<VariantId, Variant>): Result<ItemList>
  {
    if user.None? then Err(Unauthorized)
    else
      var items := Items(db, user, clients);
      if !IsPriced(items, catalog) then Err(ServerError)
      else Ok(ItemList(|items|, TotalItems(items), TotalPrice(items, catalog), items))
  }

  /** `create`: reach the cart (creating it), require a variant id naming a known
      variant, then add the quantity (default 1) to the variant's line or make a
      new one. */
  function CreateSpec(db: CartDb, user: Option<UserId>, clients: map<UserId, ClientId>,
                      catalog: map<VariantId, Variant>, variantId: Option<int>, quantity: Option<int>): Step<Line>
  {
    if user.None? || user.value !in clients then Step(Err(NotFound), db)
    else
      var (cart, db1) := GetOrCreate(db, clients[user.value]);
      var q := if quantity.None? then 1 else quantity.value;
      if variantId.None? || variantId.value == 0 then Step(Err(MissingParameter), db1)
      else if variantId.value !in catalog then Step(Err(NotFound), db1)
      else CreateLine(db1, cart, variantId.value, q)
  }

  /** The unchecked merge of `create`: add `q` to the cart's line for the
      variant, or append a new line. A negative result violates the
      positive-integer column, and the database error is answered with a 500. */
  function CreateLine(db: CartDb, cart: CartId, v: VariantId, q: int): Step<Line> {
    match FindLine(db.lines, cart, v)
    case Some(i) =>
      var line := db.lines[i].(quantity := db.lines[i].quantity + q);
      if line.quantity < 0 then Step(Err(ServerError), db)
      else Step(Ok(line), db.(lines := db.lines[i := line]))
    case None =>
      var line := Line(db.nextLine, cart, v, q);
      if q < 0 then Step(Err(ServerError), db)
      else Step(Ok(line), db.(lines := db.lines + [line], nextLine := db.nextLine + 1))
  }

  /** The answer after a line was saved: serializing it needs its variant. */
  function Serialized(db: CartDb, line: Line, catalog: map<VariantId, Variant>): Step<Line> {
    if line.variant in catalog then Step(Ok(line), db) else Step(Err(ServerError), db)
  }

  /** `update`: the line must be among the caller's items and a positive quantity
      is required; it overwrites the line's quantity. */
  function UpdateSpec(db: CartDb, user: Option<UserId>, clients: map<UserId, ClientId>,
                      catalog: map<VariantId, Variant>, id: int, quantity: Option<int>): Step<Line>
  {
    match ItemPosition(db, user, clients, id)
    case None => Step(Err(ServerError), db)
    case Some(i) =>
      if quantity.None? then Step(Err(MissingParameter), db)
      else if quantity.value <= 0 then Step(Err(NonPositiveQuantity), db)
      else
        var line := db.lines[i].(quantity := quantity.value);
        Serialized(db.(lines := db.lines[i := line]), line, catalog)
  }

  /** `partial_update`: as `update`, except that an absent quantity leaves the line as it is. */
  function PartialUpdateSpec(db: CartDb, user: Option<UserId>, clients: map<UserId, ClientId>,
                             catalog: map<VariantId, Variant>, id: int, quantity: Option<int>): Step<Line>
  {
    match ItemPosition(db, user, clients, id)
    case None => Step(Err(ServerError), db)
    case Some(i) =>
      if quantity.None? then Serialized(db, db.lines[i], catalog)
      else if quantity.value <= 0 then Step(Err(NonPositiveQuantity), db)
      else
        var line := db.lines[i].(quantity := quantity.value);
        Serialized(db.(lines := db.lines[i := line]), line, catalog)
  }

  /** `destroy`: the line must be among the caller's items; its product name is
      read first, so a line without a variant is not deleted. */
  function DestroySpec(db: CartDb, user: Option<UserId>, clients: map<UserId, ClientId>,
                       catalog: map<VariantId, Variant>, id: int): Step<Line>
  {
    match ItemPosition(db, user, clients, id)
    case None => Step(Err(ServerError), db)
    case Some(i) =>
      if db.lines[i].variant !in catalog then Step(Err(ServerError), db)
      else Step(Ok(db.lines[i]), db.(lines := RemoveAt(db.lines, i)))
  }

  /** The view set's cart and line tables, updated in place by its handlers. */
  class ItemManager {
    var db: CartDb

    constructor()
      ensures db == CartDb(map[], [], 1, 1)
      ensures Inv(db)
    {
      db := CartDb(map[], [], 1, 1);
    }

    /** `get_carrito`: the caller's cart, created when missing. */
    method GetCart(user: Option<UserId>, clients: map<UserId, ClientId>) returns (cart: Option<CartId>)
      modifies this
      ensures user.None? || user.value !in clients ==> cart.None? && db == old(db)
      ensures user.Some? && user.value in clients ==> (cart, db) == CartOfUser(old(db), user.value, clients)
    {
      if user.None? || user.value !in clients {
        return None;
      }
      var (c, db') := GetOrCreate(db, clients[user.value]);
      db := db';
      return Some(c);
    }

    /** `get_object`, as the lookup loop over the line table. */
    method GetObject(user: Option<UserId>, clients: map<UserId, ClientId>, id: int) returns (pos: Option<nat>)
      ensures pos == ItemPosition(db, user, clients, id)
    {
      var cart := ExistingCart(db, user, clients);
      if cart.None? || id < 0 {
        return None;
      }
      pos := FindOwnedLoop(db.lines, id, cart.value);
    }

    method Create(user: Option<UserId>, clients: map<UserId, ClientId>, catalog: map<VariantId, Variant>,
                  variantId: Option<int>, quantity: Option<int>) returns (r: Result<Line>)
      modifies this
      ensures Step(r, db) == CreateSpec(old(db), user, clients, catalog, variantId, quantity)
    {
      var cart := GetCart(user, clients);
      if cart.None? {
        return Err(NotFound);
      }
      var q := if quantity.None? then 1 else quantity.value;
      if variantId.None? || variantId.value == 0 {
        return Err(MissingParameter);
      }
      var v := variantId.value;
      if v !in catalog {
        return Err(NotFound);
      }
      var existing := FindLineLoop(db.lines, cart.value, v);
      if existing.Some? {
        var i := existing.value;
        var line := db.lines[i].(quantity := db.lines[i].quantity + q);
        if line.quantity < 0 {
          return Err(ServerError);
        }
        db := db.(lines := db.lines[i := line]);
        return Ok(line);
      }
      if q < 0 {
        return Err(ServerError);
      }
      var line := Line(db.nextLine, cart.value, v, q);
      db := db.(lines := db.lines + [line], nextLine := db.nextLine + 1);
      return Ok(line);
    }

    method Update(user: Option<UserId>, clients: map<UserId, ClientId>, catalog: map<VariantId, Variant>,
                  id: int, quantity: Option<int>) returns (r: Result<Line>)
      modifies this
      ensures Step(r, db) == UpdateSpec(old(db), user, clients, catalog, id, quantity)
    {
      var pos := GetObject(user, clients, id);
      if pos.None? {
        return Err(ServerError);
      }
      if quantity.None? {
        return Err(MissingParameter);
      }
      if quantity.value <= 0 {
        return Err(NonPositiveQuantity);
      }
      var line := db.lines[pos.value].(quantity := quantity.value);
      db := db.(lines := db.lines[pos.value := line]);
      r := if line.variant in catalog then Ok(line) else Err(ServerError);
    }

    method PartialUpdate(user: Option<UserId>, clients: map<UserId, ClientId>, catalog: map<VariantId, Variant>,
                         id: int, quantity: Option<int>) returns (r: Result<Line>)
      modifies this
      ensures Step(r, db) == PartialUpdateSpec(old(db), user, clients, catalog, id, quantity)
    {
      var pos := GetObject(user, clients, id);
      if pos.None? {
        return Err(ServerError);
      }
      var line := db.lines[pos.value];
      if quantity.Some? {
        if quantity.value <= 0 {
          return Err(NonPositiveQuantity);
        }
        line := line.(quantity := quantity.value);
        db := db.(lines := db.lines[pos.value := line]);
      }
      r := if line.variant in catalog then Ok(line) else Err(ServerError);
    }

    method Destroy(user: Option<UserId>, clients: map<UserId, ClientId>, catalog: map<VariantId, Variant>, id: int)
      returns (r: Result<Line>)
      modifies this
      ensures Step(r, db) == DestroySpec(old(db), user, clients, catalog, id)
    {
      var pos := GetObject(user, clients, id);
      if pos.None? {
        return Err(ServerError);
      }
      var line := db.lines[pos.value];
      if line.variant !in catalog {
        return Err(ServerError);
      }
      db := db.(lines := RemoveAt(db.lines, pos.value));
      return Ok(line);
    }
  }

  // ---------------------------------------------------------------------------
  // Properties of the handlers

  /** Without an existing cart the item set is empty, and `list` refuses anonymous callers. */
  lemma NoCartNoItems(db: CartDb, user: Option<UserId>, clients: map<UserId, ClientId>, catalog: map<VariantId, Variant>)
    requires user.None? || user.value !in clients || clients[user.value] !in db.carts
    ensures Items(db, user, clients) == []
    ensures user.None? ==> ListSpec(db, user, clients, catalog) == Err(Unauthorized)
    ensures user.Some? ==> ListSpec(db, user, clients, catalog) == Ok(ItemList(0, 0, 0, []))
  {
  }

  /** The totals of `list`: the item count is the sum of the quantities and the
      price the sum of the subtotals, over exactly the caller's lines. */
  lemma ListTotals(db: CartDb, u: UserId, clients: map<UserId, ClientId>, catalog: map<VariantId, Variant>)
    requires u in clients && clients[u] in db.carts
    requires forall l :: l in db.lines ==> l.variant in catalog
    ensures var items := LinesOf(db.lines, db.carts[clients[u]]);
      Priced(items, catalog)
      && ListSpec(db, Some(u), clients, catalog) == Ok(ItemList(|items|, TotalItems(items), TotalPrice(items, catalog), items))
  {
    var items := LinesOf(db.lines, db.carts[clients[u]]);
    assert forall k :: 0 <= k < |items| ==> items[k] in db.lines;
  }

  /** A missing variant id or an unknown variant is refused and the lines are unchanged. */
  lemma CreateRefused(db: CartDb, u: UserId, clients: map<UserId, ClientId>, catalog: map<VariantId, Variant>,
                      variantId: Option<int>, quantity: Option<int>)
    requires u in clients && (variantId.None? || variantId.value == 0 || variantId.value !in catalog)
    ensures var s := CreateSpec(db, Some(u), clients, catalog, variantId, quantity);
      s.db.lines == db.lines
      && s.result == (if variantId.None? || variantId.value == 0 then Err(MissingParameter) else Err(NotFound))
  {
  }

  /** Creating for a variant the cart holds adds the quantity to that line,
      whatever the stock; no second line appears. */
  lemma CreateMergesUnchecked(db: CartDb, u: UserId, clients: map<UserId, ClientId>, catalog: map<VariantId, Variant>,
                              i: nat, quantity: Option<int>)
    requires Inv(db) && u in clients && clients[u] in db.carts
    requires i < |db.lines| && db.lines[i].cart == db.carts[clients[u]]
    requires db.lines[i].variant != 0 && db.lines[i].variant in catalog
    ensures var q := if quantity.None? then 1 else quantity.value;
      var s := CreateSpec(db, Some(u), clients, catalog, Some(db.lines[i].variant), quantity);
      var merged := db.lines[i].(quantity := db.lines[i].quantity + q);
      && (merged.quantity >= 0 ==> s.result == Ok(merged) && s.db.lines == db.lines[i := merged])
      && (merged.quantity < 0 ==> s.result == Err(ServerError) && s.db.lines == db.lines)
  {
    FindLineUnique(db.lines, i);
  }

  /** Creating for a variant the cart does not hold appends one line with the
      requested quantity, 1 when none is given. */
  lemma CreateNewLine(db: CartDb, u: UserId, clients: map<UserId, ClientId>, catalog: map<VariantId, Variant>,
                      v: VariantId, quantity: Option<int>)
    requires u in clients && v != 0 && v in catalog && (quantity.None? || quantity.value >= 0)
    requires forall l :: l in LinesOf(db.lines, GetOrCreate(db, clients[u]).0) ==> l.variant != v
    ensures var line := Line(db.nextLine, GetOrCreate(db, clients[u]).0, v, if quantity.None? then 1 else quantity.value);
      var s := CreateSpec(db, Some(u), clients, catalog, Some(v), quantity);
      s.result == Ok(line) && s.db.lines == db.lines + [line]
  {
  }

  /** Nothing stops the unchecked create from exceeding the stock: from a cart
      within stock, adding one more of a variant with one unit in stock leaves a
      line above its stock. */
  lemma CreateCanExceedStock()
    ensures var catalog := map[5 := Variant(1000, 1)];
      var clients := map[1 := 7];
      var db := CartDb(map[7 := 1], [Line(1, 1, 5, 1)], 2, 2);
      var s := CreateSpec(db, Some(1), clients, catalog, Some(5), Some(1));
      WithinStock(db.lines, catalog) && s.result.Ok? && !WithinStock(s.db.lines, catalog)
  {
    var catalog := map[5 := Variant(1000, 1)];
    var db := CartDb(map[7 := 1], [Line(1, 1, 5, 1)], 2, 2);
    var s := CreateSpec(db, Some(1), map[1 := 7], catalog, Some(5), Some(1));
    assert FindLine(db.lines, 1, 5) == Some(0);
    assert s.db.lines[0] == Line(1, 1, 5, 2) && !InStock(s.db.lines[0], catalog);
  }

  /** Creating keeps the tables valid, one line per variant and no negative quantity. */
  lemma CreateKeepsInvariant(db: CartDb, user: Option<UserId>, clients: map<UserId, ClientId>,
                             catalog: map<VariantId, Variant>, variantId: Option<int>, quantity: Option<int>)
    requires Inv(db)
    ensures Inv(CreateSpec(db, user, clients, catalog, variantId, quantity).db)
  {
    if user.Some? && user.value in clients {
      var (cart, db1) := GetOrCreate(db, clients[user.value]);
      assert Inv(db1);
      if variantId.Some? && variantId.value != 0 && variantId.value in catalog {
        CreateLineKeepsInvariant(db1, cart, variantId.value, if quantity.None? then 1 else quantity.value);
      }
    }
  }

  /** The merge-or-append step of `create` keeps the invariant. */
  lemma CreateLineKeepsInvariant(db: CartDb, cart: CartId, v: VariantId, q: int)
    requires Inv(db) && cart < db.nextCart
    ensures Inv(CreateLine(db, cart, v, q).db)
  {
    match FindLine(db.lines, cart, v)
    case Some(i) =>
      if db.lines[i].quantity + q >= 0 {
        SetQuantityKeepsInvariants(db, i, db.lines[i].quantity + q, NonNegative);
      }
    case None =>
      if q >= 0 {
        AppendKeepsInvariants(db, Line(db.nextLine, cart, v, q), NonNegative);
      }
  }

  /** An update of one of the caller's lines with a positive quantity overwrites
      it, even above the stock; an absent or non-positive quantity is refused
      with nothing changed. */
  lemma UpdateOverwritesUnchecked(db: CartDb, u: UserId, clients: map<UserId, ClientId>, catalog: map<VariantId, Variant>,
                                  i: nat, quantity: Option<int>)
    requires Valid(db) && u in clients && clients[u] in db.carts
    requires i < |db.lines| && db.lines[i].cart == db.carts[clients[u]] && db.lines[i].variant in catalog
    ensures var s := UpdateSpec(db, Some(u), clients, catalog, db.lines[i].id, quantity);
      && (quantity.None? ==> s == Step(Err(MissingParameter), db))
      && (quantity.Some? && quantity.value <= 0 ==> s == Step(Err(NonPositiveQuantity), db))
      && (quantity.Some? && quantity.value > 0 ==>
            s.result == Ok(db.lines[i].(quantity := quantity.value))
            && s.db == db.(lines := db.lines[i := db.lines[i].(quantity := quantity.value)]))
  {
    FindOwnedById(db, db.carts[clients[u]], i);
  }

  /** A partial update without a quantity changes nothing; with one it behaves as `update`. */
  lemma PartialUpdateWithoutQuantity(db: CartDb, user: Option<UserId>, clients: map<UserId, ClientId>,
                                     catalog: map<VariantId, Variant>, id: int, quantity: Option<int>)
    ensures PartialUpdateSpec(db, user, clients, catalog, id, None).db == db
    ensures quantity.Some? ==> PartialUpdateSpec(db, user, clients, catalog, id, quantity) == UpdateSpec(db, user, clients, catalog, id, quantity)
  {
  }

  /** Updates keep the tables valid, one line per variant and no negative quantity. */
  lemma UpdateKeepsInvariant(db: CartDb, user: Option<UserId>, clients: map<UserId, ClientId>,
                             catalog: map<VariantId, Variant>, id: int, quantity: Option<int>)
    requires Inv(db)
    ensures Inv(UpdateSpec(db, user, clients, catalog, id, quantity).db)
    ensures Inv(PartialUpdateSpec(db, user, clients, catalog, id, quantity).db)
  {
    match ItemPosition(db, user, clients, id)
    case None =>
    case Some(i) =>
      if quantity.Some? && quantity.value > 0 {
        SetQuantityKeepsInvariants(db, i, quantity.value, NonNegative);
      }
  }

  /** Destroying removes exactly the targeted line of the caller's cart and
      leaves every other cart's lines as they were; a line outside the caller's
      item set is refused with nothing changed. */
  lemma DestroyOnlyTarget(db: CartDb, u: UserId, clients: map<UserId, ClientId>, catalog: map<VariantId, Variant>, i: nat)
    requires Valid(db) && u in clients && clients[u] in db.carts
    requires i < |db.lines| && db.lines[i].variant in catalog
    ensures var s := DestroySpec(db, Some(u), clients, catalog, db.lines[i].id);
      && (db.lines[i].cart == db.carts[clients[u]] ==>
            s.result == Ok(db.lines[i]) && s.db.lines == RemoveAt(db.lines, i)
            && forall c :: c != db.lines[i].cart ==> LinesOf(s.db.lines, c) == LinesOf(db.lines, c))
      && (db.lines[i].cart != db.carts[clients[u]] ==> s == Step(Err(ServerError), db))
  {
    FindOwnedById(db, db.carts[clients[u]], i);
    if db.lines[i].cart == db.carts[clients[u]] {
      forall c | c != db.lines[i].cart ensures LinesOf(RemoveAt(db.lines, i), c) == LinesOf(db.lines, c) {
        RemoveAtOtherCarts(db.lines, i, c);
      }
    }
  }

  /** Destroying keeps the tables valid, one line per variant and no negative quantity. */
  lemma DestroyKeepsInvariant(db: CartDb, user: Option<UserId>, clients: map<UserId, ClientId>,
                              catalog: map<VariantId, Variant>, id: int)
    requires Inv(db)
    ensures Inv(DestroySpec(db, user, clients, catalog, id).db)
  {
    match ItemPosition(db, user, clients, id)
    case None =>
    case Some(i) => RemoveAtKeepsInvariants(db, i, NonNegative);
  }
}

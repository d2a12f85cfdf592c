/** The tables both cart view sets work on: `Carrito` (one row per client,
    created on first access) and `ItemCarrito` (cart lines), together with the
    variant read model the cart checks prices and stock against.
    Lines are kept in primary-key order, which is the order `.first()` and an
    unordered query set see them in. */
module CartTables {
  import opened Common
  import Ordering

  type UserId = int
  type ClientId = int
  type CartId = nat
  type LineId = nat
  type VariantId = int

  /** A purchasable variant as the cart sees it: unit price in cents and stock. */
  datatype Variant = Variant(price: int, stock: nat)

  /** An `ItemCarrito` row. */
  datatype Line = Line(id: LineId, cart: CartId, variant: VariantId, quantity: int)

  /** The `Carrito` rows (the cart of each client that has one), the
      `ItemCarrito` rows, and the next free primary keys. */
  datatype CartDb = CartDb(carts: map<ClientId, CartId>, lines: seq<Line>, nextCart: CartId, nextLine: LineId)

  /** Keys are allocated upwards from 1 (as database primary keys are) and are
      unique, carts belong to one client each, and every line points at an
      allocated cart. */
  ghost predicate Valid(db: CartDb) {
    && 1 <= db.nextCart && 1 <= db.nextLine
    && (forall c :: c in db.carts ==> 1 <= db.carts[c] < db.nextCart)
    && (forall c1, c2 :: c1 in db.carts && c2 in db.carts && c1 != c2 ==> db.carts[c1] != db.carts[c2])
    && (forall l :: l in db.lines ==> 1 <= l.id < db.nextLine && l.cart < db.nextCart)
    && (forall i, j :: 0 <= i < j < |db.lines| ==> db.lines[i].id < db.lines[j].id)
  }

  /** The cart invariant: no cart holds two lines for the same variant. */
  ghost predicate OneLinePerVariant(lines: seq<Line>) {
    forall i, j :: 0 <= i < j < |lines| && lines[i].cart == lines[j].cart ==> lines[i].variant != lines[j].variant
  }

  /** The stock invariant: every line's quantity is between 1 and its variant's stock. */
  ghost predicate WithinStock(lines: seq<Line>, catalog: map<VariantId, Variant>) {
    forall l :: l in lines ==> InStock(l, catalog)
  }

  /** A line's quantity is between 1 and its variant's stock. */
  predicate InStock(l: Line, catalog: map<VariantId, Variant>) {
    l.variant in catalog && 1 <= l.quantity <= catalog[l.variant].stock
  }

  /** What a handler answers, and the tables after it. */
  datatype Step<T> = Step(result: Result<T>, db: CartDb)

  /** The lines of one cart (`ItemCarrito.objects.filter(carrito=cart)`). */
  function LinesOf(lines: seq<Line>, cart: CartId): (r: seq<Line>)
    ensures forall l :: l in r <==> l in lines && l.cart == cart
  {
    Ordering.Filter(lines, (l: Line) => l.cart == cart)
  }

  /** The client record of a user (`Cliente.usuario`), absent when the user has
      none. The handlers look it up by the intended relation. */
  function ClientOf(user: UserId, clients: map<UserId, ClientId>): Option<ClientId> {
    if user in clients then Some(clients[user]) else None
  }

  /** `Carrito.objects.get_or_create(cliente=client)`: the client's cart, created empty if missing. */
  function GetOrCreate(db: CartDb, client: ClientId): (res: (CartId, CartDb))
    ensures res.1.lines == db.lines && res.1.nextLine == db.nextLine
    ensures client in res.1.carts && res.1.carts[client] == res.0
    ensures client in db.carts ==> res.1 == db
    ensures Valid(db) && client !in db.carts ==> LinesOf(db.lines, res.0) == []
    ensures Valid(db) ==> Valid(res.1)
  {
    if client in db.carts then (db.carts[client], db)
    else
      var db' := db.(carts := db.carts[client := db.nextCart], nextCart := db.nextCart + 1);
      assert Valid(db) ==> forall l :: l in db.lines ==> l.cart != db.nextCart;
      Ordering.FilterEmpty(db.lines, (l: Line) => l.cart == db.nextCart);
      (db.nextCart, db')
  }

  /** The cart a user reaches through `get_or_create_carrito`: none without a client record. */
  function CartOfUser(db: CartDb, user: UserId, clients: map<UserId, ClientId>): (res: (Option<CartId>, CartDb))
    ensures user !in clients ==> res == (None, db)
    ensures user in clients ==> res.0 == Some(GetOrCreate(db, clients[user]).0) && res.1 == GetOrCreate(db, clients[user]).1
  {
    match ClientOf(user, clients)
    case None => (None, db)
    case Some(c) => var (cart, db') := GetOrCreate(db, c); (Some(cart), db')
  }

  /** `ItemCarrito.objects.filter(carrito=cart, producto_variante=variant).first()`:
      the position of the first line of `cart` for `variant`. */
  function FindLine(lines: seq<Line>, cart: CartId, variant: VariantId): (r: Option<nat>)
    ensures r.Some? ==> r.value < |lines| && lines[r.value].cart == cart && lines[r.value].variant == variant
    ensures r.None? ==> forall i :: 0 <= i < |lines| ==> !(lines[i].cart == cart && lines[i].variant == variant)
    ensures r.Some? ==> forall i :: 0 <= i < r.value ==> !(lines[i].cart == cart && lines[i].variant == variant)
  {
    if lines == [] then None
    else if lines[0].cart == cart && lines[0].variant == variant then Some(0)
    else match FindLine(lines[1..], cart, variant)
      case None => None
      case Some(k) => Some(k + 1)
  }

  /** `ItemCarrito.objects.get(id=id, carrito=cart)`: the position of line `id` if it is in `cart`. */
  function FindOwned(lines: seq<Line>, id: LineId, cart: CartId): (r: Option<nat>)
    ensures r.Some? ==> r.value < |lines| && lines[r.value].id == id && lines[r.value].cart == cart
    ensures r.None? ==> forall i :: 0 <= i < |lines| ==> !(lines[i].id == id && lines[i].cart == cart)
  {
    if lines == [] then None
    else if lines[0].id == id && lines[0].cart == cart then Some(0)
    else match FindOwned(lines[1..], id, cart)
      case None => None
      case Some(k) => Some(k + 1)
  }

  /** The same search as FindLine, as the loop the query performs. */
  method FindLineLoop(lines: seq<Line>, cart: CartId, variant: VariantId) returns (r: Option<nat>)
    ensures r == FindLine(lines, cart, variant)
  {
    var i := 0;
    while i < |lines|
      invariant 0 <= i <= |lines|
      invariant forall k :: 0 <= k < i ==> !(lines[k].cart == cart && lines[k].variant == variant)
    {
      if lines[i].cart == cart && lines[i].variant == variant {
        FindLineFirst(lines, cart, variant, i);
        return Some(i);
      }
      i := i + 1;
    }
    return None;
  }

  /** The first match is the one FindLine reports. */
  lemma {:induction false} FindLineFirst(lines: seq<Line>, cart: CartId, variant: VariantId, i: nat)
    requires i < |lines| && lines[i].cart == cart && lines[i].variant == variant
    requires forall k :: 0 <= k < i ==> !(lines[k].cart == cart && lines[k].variant == variant)
    ensures FindLine(lines, cart, variant) == Some(i)
  {
    if i > 0 {
      FindLineFirst(lines[1..], cart, variant, i - 1);
    }
  }

  /** The search by primary key within a cart, as a loop. */
  method FindOwnedLoop(lines: seq<Line>, id: LineId, cart: CartId) returns (r: Option<nat>)
    ensures r.Some? ==> r.value < |lines| && lines[r.value].id == id && lines[r.value].cart == cart
    ensures r.None? ==> forall i :: 0 <= i < |lines| ==> !(lines[i].id == id && lines[i].cart == cart)
    ensures r == FindOwned(lines, id, cart)
  {
    var i := 0;
    while i < |lines|
      invariant 0 <= i <= |lines|
      invariant forall k :: 0 <= k < i ==> !(lines[k].id == id && lines[k].cart == cart)
      invariant FindOwned(lines, id, cart) == (match FindOwned(lines[i..], id, cart) case None => None case Some(k) => Some(k + i))
    {
      if lines[i].id == id && lines[i].cart == cart {
        return Some(i);
      }
      assert lines[i..][1..] == lines[i + 1..];
      i := i + 1;
    }
    return None;
  }

  /** `ItemCarrito.objects.filter(carrito=cart).delete()`: every other cart's lines, in order. */
  method DeleteCartLines(lines: seq<Line>, cart: CartId) returns (kept: seq<Line>)
    ensures kept == Ordering.Filter(lines, (l: Line) => l.cart != cart)
    ensures forall l :: l in kept <==> l in lines && l.cart != cart
  {
    kept := [];
    var i := |lines|;
    while i > 0
      invariant 0 <= i <= |lines|
      invariant kept == Ordering.Filter(lines[i..], (l: Line) => l.cart != cart)
    {
      i := i - 1;
      assert lines[i..] == [lines[i]] + lines[i + 1..];
      if lines[i].cart != cart {
        kept := [lines[i]] + kept;
      }
    }
  }

  /** Deleting the line at position `i` (`item.delete()`). */
  function RemoveAt(lines: seq<Line>, i: nat): (r: seq<Line>)
    requires i < |lines|
    ensures |r| == |lines| - 1
    ensures forall l :: l in r ==> l in lines
    ensures forall k :: 0 <= k < |lines| && k != i ==> lines[k] in r
    ensures forall k :: 0 <= k < |r| ==> r[k] == lines[if k < i then k else k + 1]
  {
    lines[..i] + lines[i + 1..]
  }

  /** Line ids are unique, so looking a line up by id within a cart finds it
      exactly when it belongs to that cart. */
  lemma FindOwnedById(db: CartDb, cart: CartId, i: nat)
    requires Valid(db) && i < |db.lines|
    ensures db.lines[i].cart == cart ==> FindOwned(db.lines, db.lines[i].id, cart) == Some(i)
    ensures db.lines[i].cart != cart ==> FindOwned(db.lines, db.lines[i].id, cart) == None
  {
  }

  /** A cart holds at most one line per variant, so the first line of a cart
      for a variant is its only one. */
  lemma FindLineUnique(lines: seq<Line>, i: nat)
    requires OneLinePerVariant(lines) && i < |lines|
    ensures FindLine(lines, lines[i].cart, lines[i].variant) == Some(i)
  {
  }

  /** Deleting lines keeps the tables valid, one line per variant, and any
      property every remaining line had. */
  lemma {:induction false} FilterKeepsInvariants(db: CartDb, p: Line -> bool, ok: Line -> bool)
    requires Valid(db) && OneLinePerVariant(db.lines) && forall l :: l in db.lines ==> ok(l)
    ensures var lines := Ordering.Filter(db.lines, p);
      Valid(db.(lines := lines)) && OneLinePerVariant(lines) && forall l :: l in lines ==> ok(l)
  {
    var increasing := (a: Line, b: Line) => a.id < b.id;
    var distinct := (a: Line, b: Line) => a.cart == b.cart ==> a.variant != b.variant;
    assert Ordering.Pairwise(db.lines, increasing);
    assert Ordering.Pairwise(db.lines, distinct);
    Ordering.FilterPairwise(db.lines, p, increasing);
    Ordering.FilterPairwise(db.lines, p, distinct);
  }

  /** Setting one line's quantity keeps the tables valid and one line per
      variant, and keeps a per-line property the updated line still has. */
  lemma SetQuantityKeepsInvariants(db: CartDb, i: nat, q: int, ok: Line -> bool)
    requires Valid(db) && OneLinePerVariant(db.lines) && forall l :: l in db.lines ==> ok(l)
    requires i < |db.lines| && ok(db.lines[i].(quantity := q))
    ensures var lines := db.lines[i := db.lines[i].(quantity := q)];
      Valid(db.(lines := lines)) && OneLinePerVariant(lines) && forall l :: l in lines ==> ok(l)
  {
    var lines := db.lines[i := db.lines[i].(quantity := q)];
    forall l | l in lines ensures ok(l) && l.id < db.nextLine && l.cart < db.nextCart {
      var k :| 0 <= k < |lines| && lines[k] == l;
      assert db.lines[k] in db.lines;
    }
  }

  /** Appending a line with the next id, for a variant its cart does not hold
      yet, keeps the tables valid, one line per variant, and a per-line
      property the new line also has. */
  lemma AppendKeepsInvariants(db: CartDb, line: Line, ok: Line -> bool)
    requires Valid(db) && OneLinePerVariant(db.lines) && forall l :: l in db.lines ==> ok(l)
    requires line.id == db.nextLine && line.cart < db.nextCart && ok(line)
    requires forall l :: l in db.lines ==> !(l.cart == line.cart && l.variant == line.variant)
    ensures var db' := db.(lines := db.lines + [line], nextLine := db.nextLine + 1);
      Valid(db') && OneLinePerVariant(db'.lines) && forall l :: l in db'.lines ==> ok(l)
  {
    var lines := db.lines + [line];
    forall i, j | 0 <= i < j < |lines| ensures lines[i].id < lines[j].id {
      if j == |db.lines| {
        assert db.lines[i] in db.lines;
      }
    }
    forall i, j | 0 <= i < j < |lines| && lines[i].cart == lines[j].cart ensures lines[i].variant != lines[j].variant {
      if j == |db.lines| {
        assert db.lines[i] in db.lines;
      }
    }
  }

  /** Deleting one line keeps the tables valid, one line per variant, and any
      property every remaining line had. */
  lemma RemoveAtKeepsInvariants(db: CartDb, i: nat, ok: Line -> bool)
    requires Valid(db) && OneLinePerVariant(db.lines) && forall l :: l in db.lines ==> ok(l)
    requires i < |db.lines|
    ensures var lines := RemoveAt(db.lines, i);
      Valid(db.(lines := lines)) && OneLinePerVariant(lines) && forall l :: l in lines ==> ok(l)
  {
    var lines := RemoveAt(db.lines, i);
    forall a, b | 0 <= a < b < |lines| ensures lines[a].id < lines[b].id {
      assert lines[a] == db.lines[if a < i then a else a + 1];
      assert lines[b] == db.lines[if b < i then b else b + 1];
    }
    forall a, b | 0 <= a < b < |lines| && lines[a].cart == lines[b].cart ensures lines[a].variant != lines[b].variant {
      assert lines[a] == db.lines[if a < i then a else a + 1];
      assert lines[b] == db.lines[if b < i then b else b + 1];
    }
  }

  /** Deleting a line leaves every other cart's lines as they were. */
  lemma {:induction false} RemoveAtOtherCarts(lines: seq<Line>, i: nat, c: CartId)
    requires i < |lines| && lines[i].cart != c
    ensures LinesOf(RemoveAt(lines, i), c) == LinesOf(lines, c)
  {
    var p := (l: Line) => l.cart == c;
    var a, b := lines[..i], lines[i + 1..];
    assert lines == a + ([lines[i]] + b);
    Ordering.FilterAppend(a, [lines[i]] + b, p);
    assert ([lines[i]] + b)[1..] == b;
    Ordering.FilterAppend(a, b, p);
  }
}

/** `PedidoViewSet`: the order listings and the status change. Orders are kept
    in primary-key order; `date` is the order date as an ordering key. */
module OrderApi {
  import opened Common
  import opened Text
  import opened OrderSerializers
  import Ordering

  /** A `Pedido` row. */
  datatype Order = Order(id: nat, client: ClientId, address: AddressId, date: int, amount: int, status: string)

  function DateOf(o: Order): int {
    o.date
  }

  /** The optional list filters: an absent or empty query parameter does not filter. */
  predicate MatchesFilters(o: Order, client: Option<ClientId>, status: Option<string>) {
    (client.None? || o.client == client.value)
    && (status.None? || status.value == [] || IContains(o.status, status.value))
  }

  /** `get_queryset`: the orders matching the client and status filters, newest first. */
  function ListOrders(orders: seq<Order>, client: Option<ClientId>, status: Option<string>): (r: seq<Order>)
    ensures Ordering.SortedDesc(r, DateOf)
    ensures forall o :: o in r <==> o in orders && MatchesFilters(o, client, status)
    ensures forall o :: multiset(r)[o] == if MatchesFilters(o, client, status) then multiset(orders)[o] else 0
  {
    Ordering.Query(orders, (o: Order) => MatchesFilters(o, client, status), DateOf)
  }

  /** Without filters the list is every order, newest first. */
  lemma ListUnfiltered(orders: seq<Order>)
    ensures multiset(ListOrders(orders, None, None)) == multiset(orders)
  {
    var r := ListOrders(orders, None, None);
    forall o ensures multiset(r)[o] == multiset(orders)[o] {
    }
  }

  /** `por_estado`: the orders whose status contains the requested text
      case-insensitively, `pendiente` when none is requested, newest first. */
  function ByStatus(orders: seq<Order>, status: Option<string>): (r: seq<Order>)
    ensures Ordering.SortedDesc(r, DateOf)
    ensures forall o :: o in r <==> o in orders && IContains(o.status, if status.None? then "pendiente" else status.value)
    ensures forall o :: multiset(r)[o] == (if IContains(o.status, if status.None? then "pendiente" else status.value)
                                           then multiset(orders)[o] else 0)
  {
    var wanted := if status.None? then "pendiente" else status.value;
    Ordering.Query(orders, (o: Order) => IContains(o.status, wanted), DateOf)
  }

  /** An empty status given explicitly matches every order. */
  lemma ByStatusEmptyMatchesAll(orders: seq<Order>)
    ensures forall o :: o in ByStatus(orders, Some("")) <==> o in orders
  {
    forall o | o in orders ensures IContains(o.status, "") {
      EmptyContained(Lower(o.status));
    }
  }

  /** `por_cliente`: a client id is required and must name a client; the
      answer is that client's orders, newest first. */
  function ByClient(orders: seq<Order>, clients: set<ClientId>, client: Option<ClientId>): (r: Result<seq<Order>>)
    ensures client.None? ==> r == Err(MissingParameter)
    ensures client.Some? && client.value !in clients ==> r == Err(NotFound)
    ensures r.Ok? ==> client.Some? && client.value in clients
    ensures r.Ok? ==> Ordering.SortedDesc(r.value, DateOf)
    ensures r.Ok? ==> forall o :: o in r.value <==> o in orders && o.client == client.value
    ensures r.Ok? ==> forall o :: multiset(r.value)[o] == if o.client == client.value then multiset(orders)[o] else 0
  {
    if client.None? then Err(MissingParameter)
    else if client.value !in clients then Err(NotFound)
    else Ok(Ordering.Query(orders, (o: Order) => o.client == client.value, DateOf))
  }

  /** The position of the order with primary key `id` (`get_object`). */
  function FindOrder(orders: seq<Order>, id: int): (r: Option<nat>)
    ensures r.Some? ==> r.value < |orders| && orders[r.value].id == id
    ensures r.None? ==> forall o :: o in orders ==> o.id != id
  {
    if orders == [] then None
    else if orders[0].id == id then Some(0)
    else match FindOrder(orders[1..], id)
      case None => None
      case Some(k) => Some(k + 1)
  }

  /** `cambiar_estado`: a non-empty status is required; its lower case must be
      an allowed status, and that is what the order stores. */
  function ChangeStatusSpec(orders: seq<Order>, id: int, status: Option<string>): (Result<Order>, seq<Order>) {
    match FindOrder(orders, id)
    case None => (Err(NotFound), orders)
    case Some(i) =>
      if status.None? || status.value == [] then (Err(MissingParameter), orders)
      else if Lower(status.value) !in Statuses then (Err(InvalidStatus), orders)
      else
        var o := orders[i].(status := Lower(status.value));
        (Ok(o), orders[i := o])
  }

  /** The order table, updated in place by `cambiar_estado`. */
  class OrderBook {
    var orders: seq<Order>

    constructor(orders: seq<Order>)
      ensures this.orders == orders
    {
      this.orders := orders;
    }

    method ChangeStatus(id: int, status: Option<string>) returns (r: Result<Order>)
      modifies this
      ensures (r, orders) == ChangeStatusSpec(old(orders), id, status)
    {
      var i := 0;
      while i < |orders| && orders[i].id != id
        invariant 0 <= i <= |orders|
        invariant FindOrder(orders, id) == (match FindOrder(orders[i..], id) case None => None case Some(k) => Some(k + i))
      {
        assert orders[i..][1..] == orders[i + 1..];
        i := i + 1;
      }
      if i == |orders| {
        return Err(NotFound);
      }
      if status.None? || status.value == [] {
        return Err(MissingParameter);
      }
      var lowered := Lower(status.value);
      if lowered !in Statuses {
        return Err(InvalidStatus);
      }
      var o := orders[i].(status := lowered);
      orders := orders[i := o];
      return Ok(o);
    }
  }

  /** After a successful change the stored status is one of the allowed five,
      only that order changed, and only in its status. */
  lemma ChangeStatusStoresAllowed(orders: seq<Order>, id: int, status: Option<string>)
    requires ChangeStatusSpec(orders, id, status).0.Ok?
    ensures var (r, after) := ChangeStatusSpec(orders, id, status);
      var i := FindOrder(orders, id).value;
      r.value.status in Statuses && after == orders[i := orders[i].(status := r.value.status)]
  {
  }

  /** A missing, empty or unknown status is refused and no order changes. */
  lemma ChangeStatusRefused(orders: seq<Order>, id: int, status: Option<string>)
    requires status.None? || status.value == [] || Lower(status.value) !in Statuses
    ensures ChangeStatusSpec(orders, id, status).1 == orders
    ensures ChangeStatusSpec(orders, id, status).0.Err?
  {
  }

  /** There is no transition order: any allowed status, in any capitalisation,
      replaces whatever status the order has. */
  lemma AnyStatusToAny(orders: seq<Order>, i: nat, status: string)
    requires i < |orders| && forall k :: 0 <= k < i ==> orders[k].id != orders[i].id
    requires Lower(status) in Statuses
    ensures ChangeStatusSpec(orders, orders[i].id, Some(status)).0 == Ok(orders[i].(status := Lower(status)))
  {
    FindOrderFirst(orders, orders[i].id, i);
  }

  lemma {:induction false} FindOrderFirst(orders: seq<Order>, id: int, i: nat)
    requires i < |orders| && orders[i].id == id
    requires forall k :: 0 <= k < i ==> orders[k].id != id
    ensures FindOrder(orders, id) == Some(i)
  {
    if i > 0 {
      FindOrderFirst(orders[1..], id, i - 1);
    }
  }
}

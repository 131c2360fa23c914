/**
 * The order service: the order table, status updates by direct assignment, cancellation,
 * creation, and the paged order history. Status is assigned without any transition check,
 * so every status, Delivered and Cancelled included, can be moved to any other.
 */
module Orders {
  import opened Wrappers
  import opened Numerics
  import Sequences

  datatype OrderStatus = Pending | Confirmed | Preparing | OutForDelivery | Delivered | Cancelled

  /** The enum's underlying value, as stored in the Status column. */
  function StatusCode(s: OrderStatus): (code: int)
    ensures 0 <= code <= 5
    ensures s == Pending <==> code == 0
    ensures s == Cancelled <==> code == 5
  {
    match s
    case Pending => 0
    case Confirmed => 1
    case Preparing => 2
    case OutForDelivery => 3
    case Delivered => 4
    case Cancelled => 5
  }

  /** The inverse of `StatusCode`; values outside 0..5 name no status. */
  function StatusOfCode(code: int): (r: Option<OrderStatus>)
    ensures r.Some? <==> 0 <= code <= 5
    ensures r.Some? ==> StatusCode(r.value) == code
  {
    if code == 0 then Some(Pending)
    else if code == 1 then Some(Confirmed)
    else if code == 2 then Some(Preparing)
    else if code == 3 then Some(OutForDelivery)
    else if code == 4 then Some(Delivered)
    else if code == 5 then Some(Cancelled)
    else None
  }

  lemma StatusCodeRoundTrip(s: OrderStatus)
    ensures StatusOfCode(StatusCode(s)) == Some(s)
  {
  }

  type OrderId = Int64

  /** An order as stored: customer and product are snapshots taken at creation time. */
  datatype Order = Order(id: OrderId, customerInfo: string, productInfo: string, status: OrderStatus, created: int)

  datatype CreateOrderRequest = CreateOrderRequest(customerInfo: string, productInfo: string, totalAmount: real, notes: Option<string>)

  /** `OrderByDescending(o => o.Created)`: newer orders first. */
  function NewerFirst(a: Order, b: Order): bool
  {
    a.created >= b.created
  }

  lemma NewerFirstIsOrdering()
    ensures Sequences.Total(NewerFirst) && Sequences.Transitive(NewerFirst)
  {
  }

  /** The rows to skip: `(page - 1) * pageSize` in wrapping 32-bit arithmetic, or 0 from page 0 down. */
  function HistorySkip(page: Int32, pageSize: Int32): (skip: Int32)
    ensures page <= 0 ==> skip == 0
    ensures page > 0 && INT32_MIN <= (page - 1) * pageSize <= INT32_MAX ==> skip == (page - 1) * pageSize
  {
    if page <= 0 then 0 else Wrap32(Wrap32(page as int - 1) * pageSize)
  }

  /** The page of the history the query returns; no customer appears in it. */
  function HistoryPage(orders: seq<Order>, page: Int32, pageSize: Int32): seq<Order>
  {
    Sequences.Take(Sequences.Skip(Sequences.SortBy(orders, NewerFirst), HistorySkip(page, pageSize)), pageSize)
  }

  /** Every page is newest-first, holds at most `pageSize` orders, and holds only stored orders. */
  lemma HistoryPageProperties(orders: seq<Order>, page: Int32, pageSize: Int32)
    ensures var r := HistoryPage(orders, page, pageSize);
            Sequences.SortedBy(r, NewerFirst) && |r| <= |orders|
            && (pageSize >= 0 ==> |r| <= pageSize)
            && multiset(r) <= multiset(orders)
  {
    NewerFirstIsOrdering();
    Sequences.SortBySorted(orders, NewerFirst);
    Sequences.PageOfSorted(Sequences.SortBy(orders, NewerFirst), HistorySkip(page, pageSize), pageSize, NewerFirst);
  }

  /** Pages 0 and 1 (and every non-positive page) return the same first page. */
  lemma NonPositivePageIsFirst(orders: seq<Order>, page: Int32, pageSize: Int32)
    requires page <= 0
    ensures HistoryPage(orders, page, pageSize) == HistoryPage(orders, 1, pageSize)
  {
  }

  /** Page p followed by page p + 1 is the double-size page at p's offset, while the offset fits in an int. */
  lemma ConsecutiveHistoryPages(orders: seq<Order>, page: Int32, pageSize: Int32)
    requires 1 <= page < INT32_MAX && 0 <= pageSize && page * pageSize <= INT32_MAX
    ensures HistoryPage(orders, page, pageSize) + HistoryPage(orders, (page + 1) as Int32, pageSize)
         == Sequences.Take(Sequences.Skip(Sequences.SortBy(orders, NewerFirst), (page - 1) * pageSize), 2 * pageSize)
  {
    var offset := (page - 1) * pageSize;
    assert 0 <= offset <= page * pageSize by {
      assert offset == page * pageSize - pageSize;
    }
    assert HistorySkip(page, pageSize) == offset;
    assert HistorySkip((page + 1) as Int32, pageSize) == offset + pageSize by {
      assert ((page + 1) - 1) * pageSize == page * pageSize == offset + pageSize;
    }
    Sequences.ConsecutivePages(Sequences.SortBy(orders, NewerFirst), offset, pageSize);
  }

  /** The ids in the table are distinct, so a lookup by id finds at most one order. */
  ghost predicate DistinctIds(orders: seq<Order>)
  {
    forall i, j :: 0 <= i < j < |orders| ==> orders[i].id != orders[j].id
  }

  predicate HasOrder(orders: seq<Order>, orderId: OrderId)
  {
    exists i :: 0 <= i < |orders| && orders[i].id == orderId
  }

  /** `FirstOrDefault(o => o.Id == orderId)`. */
  function FindOrder(orders: seq<Order>, orderId: OrderId): (r: Option<nat>)
    ensures r.Some? <==> HasOrder(orders, orderId)
    ensures r.Some? ==> r.value < |orders| && orders[r.value].id == orderId
                        && forall k :: 0 <= k < r.value ==> orders[k].id != orderId
  {
    if orders == [] then None
    else if orders[0].id == orderId then Some(0)
    else match FindOrder(orders[1..], orderId)
      case None =>
        forall i | 0 < i < |orders| ensures orders[i].id != orderId {
          assert orders[1..][i - 1] == orders[i];
        }
        None
      case Some(i) =>
        assert orders[1..][i] == orders[i + 1];
        Some(i + 1)
  }

  class OrderService {
    /** The Orders table, in insertion order. */
    var orders: seq<Order>
    /** The next identity value the database hands out. */
    var nextId: OrderId
    /** The static `_activeOperations` counter. */
    var activeOperations: Int32

    ghost predicate Valid()
      reads this
    {
      DistinctIds(orders) && forall i :: 0 <= i < |orders| ==> orders[i].id < nextId
    }

    constructor ()
      ensures Valid() && orders == [] && nextId == 1 && activeOperations == 0
    {
      orders := [];
      nextId := 1;
      activeOperations := 0;
    }

    /** `GetOrderByIdAsync`: the order with that id, or null. */
    function GetOrderById(orderId: OrderId): (r: Option<Order>)
      reads this
      ensures r.Some? <==> HasOrder(orders, orderId)
      ensures r.Some? ==> r.value.id == orderId && r.value in orders
    {
      match FindOrder(orders, orderId)
      case None => None
      case Some(i) => Some(orders[i])
    }

    /**
     * `UpdateOrderStatusAsync`: a missing order is reported and nothing changes; otherwise the
     * order's status becomes `newStatus` whatever it was, and no other order changes.
     */
    method UpdateOrderStatus(orderId: OrderId, newStatus: OrderStatus) returns (ok: bool)
      requires Valid()
      modifies this`orders
      ensures Valid()
      ensures ok <==> HasOrder(old(orders), orderId)
      ensures |orders| == |old(orders)|
      ensures forall i :: 0 <= i < |orders| ==>
        orders[i] == if old(orders)[i].id == orderId then old(orders)[i].(status := newStatus) else old(orders)[i]
    {
      var found := FindOrder(orders, orderId);
      if found.None? {
        return false;
      }
      var i := found.value;
      orders := orders[i := orders[i].(status := newStatus)];
      return true;
    }

    /**
     * `CancelOrderAsync`: a missing order gives false; otherwise the order is set to Cancelled
     * from any status, Delivered and Cancelled included. The requesting user is only logged.
     */
    method CancelOrder(orderId: OrderId, requestingUserId: Int64) returns (ok: bool)
      requires Valid()
      modifies this`orders
      ensures Valid()
      ensures ok <==> HasOrder(old(orders), orderId)
      ensures |orders| == |old(orders)|
      ensures forall i :: 0 <= i < |orders| ==>
        orders[i] == if old(orders)[i].id == orderId then old(orders)[i].(status := Cancelled) else old(orders)[i]
    {
      var found := FindOrder(orders, orderId);
      if found.None? {
        return false;
      }
      ok := UpdateOrderStatus(orderId, Cancelled);
      return true;
    }

    /**
     * `CreateOrderAsync`: exactly one new Pending order is stored with the request's customer and
     * product and a fresh id; the active-operation counter ends where it started.
     */
    method CreateOrder(request: CreateOrderRequest, now: int) returns (order: Order)
      requires Valid() && nextId < INT64_MAX
      modifies this
      ensures Valid()
      ensures order == Order(old(nextId), request.customerInfo, request.productInfo, Pending, now)
      ensures orders == old(orders) + [order]
      ensures nextId == old(nextId) + 1
      ensures activeOperations == old(activeOperations)
    {
      activeOperations := Wrap32(activeOperations + 1);
      order := Order(nextId, request.customerInfo, request.productInfo, Pending, now);
      orders := orders + [order];
      nextId := nextId + 1;
      ghost var before := old(activeOperations);
      Wrap32Sum(before as int + 1, -1);
      activeOperations := Wrap32(activeOperations - 1);
    }

    /**
     * `GetOrderHistoryAsync`: the `pageSize` orders after the first `skip`, newest first, taken
     * from all orders; the customer id takes no part.
     */
    method GetOrderHistory(customerId: Int64, page: Int32, pageSize: Int32) returns (r: seq<Order>)
      ensures r == HistoryPage(orders, page, pageSize)
      ensures Sequences.SortedBy(r, NewerFirst)
      ensures pageSize >= 0 ==> |r| <= pageSize
      ensures multiset(r) <= multiset(orders)
    {
      var p := page;
      var skip := Wrap32(Wrap32(p as int - 1) * pageSize);
      if p <= 0 {
        p := 1;
        skip := 0;
      }
      var sorted := Sequences.SortBy(orders, NewerFirst);
      r := Sequences.Take(Sequences.Skip(sorted, skip), pageSize);
      HistoryPageProperties(orders, page, pageSize);
    }
  }

  /** A delivered order can still be cancelled: nothing guards the transition. */
  method DeliveredOrderCanBeCancelled() returns (status: OrderStatus)
    ensures status == Cancelled
  {
    var service := new OrderService();
    var order := service.CreateOrder(CreateOrderRequest("customer", "product", 100.0, None), 0);
    var updated := service.UpdateOrderStatus(order.id, Delivered);
    assert service.orders[0].status == Delivered;
    var cancelled := service.CancelOrder(order.id, 7);
    assert cancelled;
    cancelled := service.CancelOrder(order.id, 7);
    assert cancelled;
    status := service.orders[0].status;
  }
}

/** The in-memory order book: the list of orders, id assignment, lookup,
    creation, cancellation and the background processing of a new order,
    each publishing its status changes through the listener. */
module Store {
  import opened Wrappers
  import opened Numerals
  import opened Market
  import opened Lifecycle
  import opened Validator
  import opened Relay

  /** A stored order: the request's pair and quantity, with the id, rate and
      status the service adds. */
  datatype Order = Order(id: int, stoks: Stoks, quantity: Json, rate: nat, status: OrderStatus)

  predicate IdsUnique(orders: seq<Order>) {
    forall i, j :: 0 <= i < j < |orders| ==> orders[i].id != orders[j].id
  }

  predicate IdsPositive(orders: seq<Order>) {
    forall i :: 0 <= i < |orders| ==> orders[i].id >= 1
  }

  /** The largest id in a non-empty list of orders. */
  function MaxId(orders: seq<Order>): (m: int)
    requires orders != []
    ensures exists i :: 0 <= i < |orders| && orders[i].id == m
    ensures forall i :: 0 <= i < |orders| ==> orders[i].id <= m
  {
    if |orders| == 1 then orders[0].id
    else
      var rest := MaxId(orders[1..]);
      assert forall i :: 1 <= i < |orders| ==> orders[i] == orders[1..][i - 1];
      if orders[0].id >= rest then orders[0].id else rest
  }

  /** The id for the next order: 1 for an empty book, otherwise one more than
      the largest id in use, so it is larger than every stored id. */
  function NextId(orders: seq<Order>): (r: int)
    ensures orders == [] ==> r == 1
    ensures forall i :: 0 <= i < |orders| ==> orders[i].id < r
    ensures orders != [] ==> exists i :: 0 <= i < |orders| && orders[i].id == r - 1
    ensures IdsPositive(orders) ==> r >= 1
  {
    if orders == [] then 1 else MaxId(orders) + 1
  }

  /** Appending an order under the next id keeps ids unique and positive. */
  lemma NextIdKeepsIdsUnique(orders: seq<Order>, o: Order)
    requires IdsUnique(orders) && IdsPositive(orders) && o.id == NextId(orders)
    ensures IdsUnique(orders + [o]) && IdsPositive(orders + [o])
  {
  }

  /** The position of the first order with id `id`, or `|orders|`. */
  function IndexOfId(orders: seq<Order>, id: int): (k: nat)
    ensures k <= |orders| && (k < |orders| ==> orders[k].id == id)
    ensures forall j :: 0 <= j < k ==> orders[j].id != id
  {
    if orders == [] then 0
    else if orders[0].id == id then 0
    else 1 + IndexOfId(orders[1..], id)
  }

  /** With unique ids, the first order with an id is the only one. */
  lemma IndexOfUniqueId(orders: seq<Order>, k: nat)
    requires IdsUnique(orders) && k < |orders|
    ensures IndexOfId(orders, orders[k].id) == k
  {
  }

  /** The order just appended under the next id is the one a lookup by its
      id reaches, as the background processing of a new order needs. */
  lemma NewOrderIsFound(orders: seq<Order>, o: Order)
    requires IdsUnique(orders) && o.id == NextId(orders)
    ensures IndexOfId(orders + [o], o.id) == |orders|
  {
    IndexOfUniqueId(orders + [o], |orders|);
  }

  /** The two not-found errors: an id `int()` rejects, found out while
      scanning a non-empty book, and an id no order has. */
  datatype NotFoundError = OrderNotFound | NoOrderWithId(rawId: string)

  /** Where a lookup by a raw id ends. */
  datatype Lookup = At(index: nat) | Missing(error: NotFoundError)

  /** The lookup shared by fetching and cancelling an order: the first order
      whose id equals `int(rawId)`. A raw id that `int()` rejects gives
      OrderNotFound only when the book is non-empty; on an empty book nothing
      is converted and the answer is NoOrderWithId. */
  function FindOrder(orders: seq<Order>, rawId: string): (r: Lookup)
    ensures r.At? || r == Missing(OrderNotFound) || r == Missing(NoOrderWithId(rawId))
    ensures r.At? ==> r.index < |orders| && ParseInt(rawId) == Some(orders[r.index].id) &&
                      forall j :: 0 <= j < r.index ==> orders[j].id != orders[r.index].id
    ensures r == Missing(OrderNotFound) <==> orders != [] && ParseInt(rawId).None?
    ensures r == Missing(NoOrderWithId(rawId)) <==>
      orders == [] || (ParseInt(rawId).Some? && forall j :: 0 <= j < |orders| ==> orders[j].id != ParseInt(rawId).value)
  {
    if orders == [] then Missing(NoOrderWithId(rawId))
    else match ParseInt(rawId)
      case None => Missing(OrderNotFound)
      case Some(n) =>
        var k := IndexOfId(orders, n);
        if k < |orders| then At(k) else Missing(NoOrderWithId(rawId))
  }

  /** With unique ids, the id rendered from a stored order finds that order. */
  lemma FindRenderedId(orders: seq<Order>, k: nat)
    requires IdsUnique(orders) && k < |orders|
    ensures FindOrder(orders, IntToString(orders[k].id)) == At(k)
  {
    ParseIntOfRendering(orders[k].id);
    IndexOfUniqueId(orders, k);
  }

  /** An id no order has is not found, and so is a non-numeric id: with a
      different error on a non-empty book, with the same one on an empty book. */
  lemma NotFoundCases(orders: seq<Order>, n: int)
    requires forall j :: 0 <= j < |orders| ==> orders[j].id != n
    ensures FindOrder(orders, IntToString(n)) == Missing(NoOrderWithId(IntToString(n)))
    ensures orders != [] ==> FindOrder(orders, "5dc") == Missing(OrderNotFound)
    ensures FindOrder([], "5dc") == Missing(NoOrderWithId("5dc"))
  {
    ParseIntOfRendering(n);
    NonNumericIdExample();
  }

  /** The reply to fetching or cancelling an order. */
  datatype Reply = Found(order: Order) | NotFound(error: NotFoundError)

  /** The reply to creating an order; rejection carries every validation error. */
  datatype AddReply = Created(order: Order) | Rejected(errors: seq<VerifyError>)

  const NewOrderPrefix := "A new order is added -> id: "
  const StatusUpdatePrefix := "Order status is updated -> id: "
  const StatusInfix := " status: "

  /** An event's text: its fixed opening, the order id and the status value. */
  function EventText(prefix: string, id: int, status: OrderStatus): string {
    prefix + IntToString(id) + StatusInfix + StatusText(status)
  }

  /** Reads the order id and status back from an event's text that starts
      with `prefix`; `None` for any other text. */
  function ReadEvent(prefix: string, msg: string): Option<(int, OrderStatus)> {
    if |msg| < |prefix| || msg[..|prefix|] != prefix then None
    else
      var rest := msg[|prefix|..];
      var k := FindAny(rest, {' '});
      var tail := rest[k..];
      if |tail| < |StatusInfix| || tail[..|StatusInfix|] != StatusInfix then None
      else match (ParseInt(rest[..k]), StatusOf(tail[|StatusInfix|..]))
        case (Some(n), Some(status)) => Some((n, status))
        case _ => None
  }

  /** An event's text carries its order id and status: both can be read back. */
  lemma EventRoundTrip(prefix: string, id: int, status: OrderStatus)
    ensures ReadEvent(prefix, EventText(prefix, id, status)) == Some((id, status))
  {
    var digits := IntToString(id);
    var msg := EventText(prefix, id, status);
    assert msg == prefix + (digits + StatusInfix + StatusText(status));
    ParseIntOfRendering(id);
    ReadEventOf(prefix, digits, StatusText(status), msg);
  }

  /** Reading an event whose id part holds no space splits it at the
      space that opens the status part. */
  lemma ReadEventOf(prefix: string, idText: string, statusText: string, msg: string)
    requires forall i :: 0 <= i < |idText| ==> idText[i] != ' '
    requires msg == prefix + (idText + StatusInfix + statusText)
    ensures ReadEvent(prefix, msg) ==
      match (ParseInt(idText), StatusOf(statusText))
      case (Some(n), Some(status)) => Some((n, status))
      case _ => None
  {
    assert msg[..|prefix|] == prefix;
    var rest := msg[|prefix|..];
    assert rest == idText + StatusInfix + statusText;
    forall i | 0 <= i < |idText| ensures rest[i] !in {' '} {
      assert rest[i] == idText[i];
    }
    FindAnyAt(rest, {' '}, |idText|);
    assert rest[..|idText|] == idText;
    var tail := rest[|idText|..];
    assert tail == StatusInfix + statusText;
    assert tail[..|StatusInfix|] == StatusInfix;
    assert tail[|StatusInfix|..] == statusText;
  }

  /** The event published when an order is created. */
  function NewOrderMessage(id: int, status: OrderStatus): string {
    EventText(NewOrderPrefix, id, status)
  }

  /** The event published when an order's status is changed. */
  function StatusUpdateMessage(id: int, status: OrderStatus): string {
    EventText(StatusUpdatePrefix, id, status)
  }

  /** A creation event names the new order's id and status. */
  lemma NewOrderEventReadsBack(id: int, status: OrderStatus)
    ensures ReadEvent(NewOrderPrefix, NewOrderMessage(id, status)) == Some((id, status))
  {
    EventRoundTrip(NewOrderPrefix, id, status);
  }

  /** A status-update event names the order's id and the status set. */
  lemma StatusUpdateEventReadsBack(id: int, status: OrderStatus)
    ensures ReadEvent(StatusUpdatePrefix, StatusUpdateMessage(id, status)) == Some((id, status))
  {
    EventRoundTrip(StatusUpdatePrefix, id, status);
  }

  /** A status-update event tells statuses apart: in particular the EXECUTED
      event that a clawback publishes again is not the CANCELLED event. */
  lemma StatusUpdateNamesStatus(id: int, a: OrderStatus, b: OrderStatus)
    ensures StatusUpdateMessage(id, a) == StatusUpdateMessage(id, b) <==> a == b
  {
    StatusUpdateEventReadsBack(id, a);
    StatusUpdateEventReadsBack(id, b);
  }

  /** A creation event is never a status-update event. */
  lemma EventKindsDiffer(id: int, a: OrderStatus, other: int, b: OrderStatus)
    ensures NewOrderMessage(id, a) != StatusUpdateMessage(other, b)
  {
    assert NewOrderMessage(id, a)[0] == 'A';
    assert StatusUpdateMessage(other, b)[0] == 'O';
  }

  /** What one subscriber receives while order `id` is processed, for a
      queue subscribed `n` times: the status event for the first status set,
      and on a clawback that same event again. */
  function ProcessingEvents(id: int, durationIndex: nat, die: nat, n: nat): (events: seq<string>)
    requires durationIndex < |Durations|
    ensures |events| == (if ClawsBack(FirstStatus(durationIndex), die) then 2 * n else n)
    ensures forall i :: 0 <= i < |events| ==> events[i] == StatusUpdateMessage(id, FirstStatus(durationIndex))
  {
    var msg := StatusUpdateMessage(id, FirstStatus(durationIndex));
    Repeat(msg, n) + (if ClawsBack(FirstStatus(durationIndex), die) then Repeat(msg, n) else [])
  }

  /** On a clawback the order ends CANCELLED, yet both events it publishes
      name EXECUTED, not CANCELLED. */
  lemma ClawbackEventIsStale(id: int, durationIndex: nat, die: nat, n: nat)
    requires durationIndex < |Durations| && ClawsBack(FirstStatus(durationIndex), die)
    ensures FinalStatus(durationIndex, die) == Cancelled
    ensures ProcessingEvents(id, durationIndex, die, n) == Repeat(StatusUpdateMessage(id, Executed), 2 * n)
    ensures StatusUpdateMessage(id, Executed) != StatusUpdateMessage(id, FinalStatus(durationIndex, die))
  {
    StatusUpdateNamesStatus(id, Executed, Cancelled);
  }

  /** How the book may change over time: orders are only appended, and a
      stored order changes only its status, by an allowed transition. */
  predicate Evolves(before: seq<Order>, after: seq<Order>) {
    |before| <= |after| &&
    forall i :: 0 <= i < |before| ==>
      after[i] == before[i].(status := after[i].status) && Transition(before[i].status, after[i].status)
  }

  /** Any succession of operations evolves the book; a CANCELLED order stays
      CANCELLED and an EXECUTED one is EXECUTED or CANCELLED later on. */
  lemma EvolvesTransitive(a: seq<Order>, b: seq<Order>, c: seq<Order>)
    requires Evolves(a, b) && Evolves(b, c)
    ensures Evolves(a, c)
    ensures forall i :: 0 <= i < |a| && a[i].status == Cancelled ==> c[i].status == Cancelled
    ensures forall i :: 0 <= i < |a| && a[i].status == Executed ==> c[i].status in {Executed, Cancelled}
  {
    forall i | 0 <= i < |a|
      ensures c[i] == a[i].(status := c[i].status) && Transition(a[i].status, c[i].status)
    {
      CancelledIsFinal(a[i].status, b[i].status);
      CancelledIsFinal(b[i].status, c[i].status);
      CancelledIsFinal(a[i].status, c[i].status);
    }
  }

  class OrderBook {
    var orders: seq<Order>
    const listener: Listener

    ghost predicate Valid()
      reads this
    {
      IdsUnique(orders) && IdsPositive(orders)
    }

    constructor (listener: Listener)
      ensures Valid() && orders == [] && this.listener == listener
    {
      orders := [];
      this.listener := listener;
    }

    /** Validates a request and, if it passes, stores it as a new PENDING
        order with the next id and the pair's rate and publishes one
        "new order" event; a rejected request changes nothing. */
    method AddOrder(request: Json) returns (r: AddReply)
      requires Valid() && InScope(request)
      modifies this, listener.Queues()
      ensures Valid() && Evolves(old(orders), orders)
      ensures Verify(request) != [] ==>
        r == Rejected(Verify(request)) && orders == old(orders) &&
        forall q :: q in listener.subscribers ==> q.items == old(q.items)
      ensures Verify(request) == [] ==>
        r.Created? && orders == old(orders) + [r.order] &&
        r.order.id == NextId(old(orders)) && r.order.status == Pending &&
        Code(r.order.stoks) == request.fields[StoksKey].s && r.order.quantity == request.fields[QuantityKey] &&
        r.order.rate == MockRate(r.order.stoks) &&
        forall q :: q in listener.subscribers ==>
          q.items == old(q.items) + Repeat(NewOrderMessage(r.order.id, Pending), multiset(listener.subscribers)[q])
    {
      var errors := Verify(request);
      if errors != [] {
        return Rejected(errors);
      }
      var code := request.fields[StoksKey].s;
      var stoks := StoksOf(code).value;
      var rate := FetchRate(code);
      var order := Order(NextId(orders), stoks, request.fields[QuantityKey], rate.value, Pending);
      NextIdKeepsIdsUnique(orders, order);
      orders := orders + [order];
      listener.Publish(NewOrderMessage(order.id, order.status));
      r := Created(order);
    }

    /** The scan that fetch and cancel share: the position of the first
        order whose id is `int(rawId)`, or why there is none. The conversion
        is pure, so it is done once; its failure is still reported only when
        the scan reaches a first order. */
    method Locate(rawId: string) returns (l: Lookup)
      ensures l == FindOrder(orders, rawId)
    {
      var n := ParseInt(rawId);
      var i := 0;
      while i < |orders|
        invariant 0 <= i <= |orders|
        invariant i > 0 ==> n.Some?
        invariant forall j :: 0 <= j < i ==> Some(orders[j].id) != n
      {
        if n.None? {
          return Missing(OrderNotFound);
        }
        if orders[i].id == n.value {
          return At(i);
        }
        i := i + 1;
      }
      return Missing(NoOrderWithId(rawId));
    }

    /** Fetches the first order whose id is `int(rawId)`. */
    method GetOrder(rawId: string) returns (r: Reply)
      ensures match FindOrder(orders, rawId)
        case At(k) => r == Found(orders[k])
        case Missing(e) => r == NotFound(e)
    {
      var l := Locate(rawId);
      match l
      case At(k) => r := Found(orders[k]);
      case Missing(e) => r := NotFound(e);
    }

    /** Cancels the first order whose id is `int(rawId)`: a not yet
        CANCELLED order becomes CANCELLED and one status event is published;
        an already CANCELLED order is left as it is and nothing is
        published; no other order changes. */
    method CancelOrder(rawId: string) returns (r: Reply)
      requires Valid()
      modifies this, listener.Queues()
      ensures Valid() && Evolves(old(orders), orders)
      ensures match FindOrder(old(orders), rawId)
        case Missing(e) =>
          r == NotFound(e) && orders == old(orders) &&
          forall q :: q in listener.subscribers ==> q.items == old(q.items)
        case At(k) =>
          var o := old(orders)[k];
          orders == old(orders)[k := o.(status := Cancelled)] && r == Found(orders[k]) &&
          forall q :: q in listener.subscribers ==>
            q.items == old(q.items) +
              (if o.status == Cancelled then [] else Repeat(StatusUpdateMessage(o.id, Cancelled), multiset(listener.subscribers)[q]))
    {
      var l := Locate(rawId);
      r := CancelLocated(l);
    }

    /** Cancel once the scan has run: a miss changes nothing, a hit cancels
        the order at that position and returns it. */
    method CancelLocated(l: Lookup) returns (r: Reply)
      requires Valid() && (l.At? ==> l.index < |orders|)
      modifies this, listener.Queues()
      ensures Valid() && Evolves(old(orders), orders)
      ensures match l
        case Missing(e) =>
          r == NotFound(e) && orders == old(orders) &&
          forall q :: q in listener.subscribers ==> q.items == old(q.items)
        case At(k) =>
          var o := old(orders)[k];
          orders == old(orders)[k := o.(status := Cancelled)] && r == Found(orders[k]) &&
          forall q :: q in listener.subscribers ==>
            q.items == old(q.items) +
              (if o.status == Cancelled then [] else Repeat(StatusUpdateMessage(o.id, Cancelled), multiset(listener.subscribers)[q]))
    {
      match l
      case Missing(e) =>
        r := NotFound(e);
      case At(k) =>
        CancelAt(k);
        r := Found(orders[k]);
    }

    /** The body of a successful cancel: the order at `k` becomes CANCELLED
        and one status event is published, unless it already was CANCELLED. */
    method CancelAt(k: nat)
      requires Valid() && k < |orders|
      modifies this, listener.Queues()
      ensures Valid() && Evolves(old(orders), orders)
      ensures orders == old(orders)[k := old(orders)[k].(status := Cancelled)]
      ensures forall q :: q in listener.subscribers ==>
        q.items == old(q.items) +
          (if old(orders)[k].status == Cancelled then []
           else Repeat(StatusUpdateMessage(old(orders)[k].id, Cancelled), multiset(listener.subscribers)[q]))
    {
      if orders[k].status != Cancelled {
        orders := orders[k := orders[k].(status := Cancelled)];
        listener.Publish(StatusUpdateMessage(orders[k].id, orders[k].status));
      } else {
        assert orders == orders[k := orders[k].(status := Cancelled)];
      }
    }

    /** The background processing of order `orderId`, with the random draws
        given: the index of the processing duration and the clawback die. The
        first order with that id, if it is PENDING, is processed as
        `ProcessAt` says; an order that is not PENDING, or an id with no
        order, is left alone. */
    method ProcessOrder(orderId: int, durationIndex: nat, die: nat)
      requires Valid()
      requires durationIndex < |Durations| && die <= 5
      modifies this, listener.Queues()
      ensures Valid() && Evolves(old(orders), orders)
      ensures var k := IndexOfId(old(orders), orderId);
        if k == |old(orders)| || old(orders)[k].status != Pending then
          orders == old(orders) && forall q :: q in listener.subscribers ==> q.items == old(q.items)
        else
          orders == old(orders)[k := old(orders)[k].(status := FinalStatus(durationIndex, die))] &&
          forall q :: q in listener.subscribers ==>
            q.items == old(q.items) + ProcessingEvents(orderId, durationIndex, die, multiset(listener.subscribers)[q])
    {
      ghost var k := IndexOfId(orders, orderId);
      var i := 0;
      while i < |orders|
        invariant 0 <= i <= |orders| == |old(orders)|
        invariant Valid()
        invariant i <= k ==> orders == old(orders) && forall q :: q in listener.subscribers ==> q.items == old(q.items)
        invariant k < i ==>
          old(orders)[k].status == Pending &&
          orders == old(orders)[k := old(orders)[k].(status := FinalStatus(durationIndex, die))] &&
          forall q :: q in listener.subscribers ==>
            q.items == old(q.items) + ProcessingEvents(orderId, durationIndex, die, multiset(listener.subscribers)[q])
      {
        if orders[i].id == orderId {
          if orders[i].status != Pending {
            break;
          }
          ProcessAt(i, durationIndex, die);
        }
        i := i + 1;
      }
    }

    /** Processing the PENDING order at `k`: it becomes EXECUTED (duration
        under the timeout) or CANCELLED and one status event is published;
        on a clawback the EXECUTED order then becomes CANCELLED and the same
        event, still naming EXECUTED, is published again. */
    method ProcessAt(k: nat, durationIndex: nat, die: nat)
      requires Valid() && k < |orders| && orders[k].status == Pending
      requires durationIndex < |Durations|
      modifies this, listener.Queues()
      ensures Valid()
      ensures orders == old(orders)[k := old(orders)[k].(status := FinalStatus(durationIndex, die))]
      ensures forall q :: q in listener.subscribers ==>
        q.items == old(q.items) + ProcessingEvents(orders[k].id, durationIndex, die, multiset(listener.subscribers)[q])
    {
      if Durations[durationIndex] < Timeout {
        orders := orders[k := orders[k].(status := Executed)];
      } else {
        orders := orders[k := orders[k].(status := Cancelled)];
      }
      var msg := StatusUpdateMessage(orders[k].id, orders[k].status);
      listener.Publish(msg);
      if orders[k].status == Executed && die == 5 {
        orders := orders[k := orders[k].(status := Cancelled)];
        listener.Publish(msg);
      }
    }
  }
}

/** What the order book is a view of: the orders that are live on the exchange. Nothing here knows
    about ladders, cursors or the index. */
module Orders {
  import opened Machine
  import opened BookModel
  import opened Events

  datatype Order = Order(side: Side, price: int, qty: int)

  /** Which orders a sum ranges over: one price of one side, or a whole side. */
  datatype Scope = At(side: Side, price: int) | Whole(side: Side) {
    predicate Covers(o: Order) {
      o.side == side && (At? ==> o.price == price)
    }
  }

  datatype Tally = Tally(added: int, traded: int, cancelled: int) {
    function Outstanding(): int {
      added - traded - cancelled
    }

    function Took(how: Removal, q: int): Tally {
      if how.Trade? then this.(traded := traded + q) else this.(cancelled := cancelled + q)
    }
  }

  /** `named` are the order numbers a report may not use unless they are live: those added before and
      not forgotten since. */
  datatype Market = Market(orders: map<int64, Order>, named: set<int64>, bid: Tally, ask: Tally) {
    function TallyOf(side: Side): Tally {
      if side.Bid? then bid else ask
    }

    function WithTally(side: Side, t: Tally): Market {
      if side.Bid? then this.(bid := t) else this.(ask := t)
    }
  }

  function NoOrders(): Market {
    Market(map[], {}, Tally(0, 0, 0), Tally(0, 0, 0))
  }

  // ---------- sums over live orders ----------

  function Weight(o: Order, scope: Scope): int {
    if scope.Covers(o) then o.qty else 0
  }

  ghost function Pick(orders: map<int64, Order>): (no: int64)
    requires orders != map[]
    ensures no in orders
  {
    var no :| no in orders;
    no
  }

  ghost function Sum(orders: map<int64, Order>, scope: Scope): int
    decreases |orders|
  {
    if orders == map[] then 0 else
    var no := Pick(orders);
    assert (orders - {no}).Keys == orders.Keys - {no};
    Weight(orders[no], scope) + Sum(orders - {no}, scope)
  }

  /** The order in which a sum visits the orders does not matter. */
  lemma {:induction false} SumSplit(orders: map<int64, Order>, no: int64, scope: Scope)
    requires no in orders
    ensures Sum(orders, scope) == Weight(orders[no], scope) + Sum(orders - {no}, scope)
    decreases |orders|
  {
    var k := Pick(orders);
    if k == no {
    } else {
      assert (orders - {k}).Keys == orders.Keys - {k};
      assert (orders - {no}).Keys == orders.Keys - {no};
      SumSplit(orders - {k}, no, scope);
      SumSplit(orders - {no}, k, scope);
      assert orders - {k} - {no} == orders - {no} - {k};
    }
  }

  lemma SumInsert(orders: map<int64, Order>, no: int64, o: Order, scope: Scope)
    requires no !in orders
    ensures Sum(orders[no := o], scope) == Sum(orders, scope) + Weight(o, scope)
  {
    SumSplit(orders[no := o], no, scope);
    assert orders[no := o] - {no} == orders;
  }

  lemma SumUpdate(orders: map<int64, Order>, no: int64, o: Order, scope: Scope)
    requires no in orders
    ensures Sum(orders[no := o], scope) == Sum(orders, scope) - Weight(orders[no], scope) + Weight(o, scope)
  {
    SumSplit(orders, no, scope);
    SumSplit(orders[no := o], no, scope);
    assert orders[no := o] - {no} == orders - {no};
  }

  ghost predicate Positive(orders: map<int64, Order>) {
    forall no :: no in orders ==> orders[no].qty > 0
  }

  /** With positive orders a sum is at least each of its members, and it is positive only if it has one. */
  lemma {:induction false} SumBounds(orders: map<int64, Order>, scope: Scope)
    requires Positive(orders)
    ensures Sum(orders, scope) >= 0
    ensures forall no :: no in orders && scope.Covers(orders[no]) ==> orders[no].qty <= Sum(orders, scope)
    ensures Sum(orders, scope) > 0 ==> exists no :: no in orders && scope.Covers(orders[no])
    decreases |orders|
  {
    if orders == map[] {
    } else {
      var k := Pick(orders);
      assert (orders - {k}).Keys == orders.Keys - {k};
      SumBounds(orders - {k}, scope);
      if Sum(orders - {k}, scope) > 0 {
        var no :| no in orders - {k} && scope.Covers((orders - {k})[no]);
        assert no in orders && scope.Covers(orders[no]);
      }
      forall no | no in orders && scope.Covers(orders[no])
        ensures orders[no].qty <= Sum(orders, scope)
      {
        if no != k { assert no in orders - {k}; }
      }
    }
  }

  // ---------- what a message means ----------

  function AddOrder(mk: Market, side: Side, no: int64, price: int, q: int): Market {
    var t := mk.TallyOf(side);
    mk.(orders := mk.orders[no := Order(side, price, q)], named := mk.named + {no})
      .WithTally(side, t.(added := t.added + q))
  }

  /** Take `q` from a live order; an order with nothing left is no longer live. */
  function Reduce(mk: Market, how: Removal, no: int64, q: int): Market {
    if no !in mk.orders then mk else
    var o := mk.orders[no];
    mk.(orders := if o.qty - q <= 0 then mk.orders - {no} else mk.orders[no := o.(qty := o.qty - q)])
      .WithTally(o.side, mk.TallyOf(o.side).Took(how, q))
  }

  /** Reduction by a number in a trade or cancel report, where zero stands for "no order". A number is
      forgotten when its report leaves nothing at its price. */
  ghost function ReduceNo(mk: Market, how: Removal, no: int64, q: int): Market {
    if no <= 0 || no !in mk.orders then mk else
    var o, mk' := mk.orders[no], Reduce(mk, how, no, q);
    if Sum(mk'.orders, At(o.side, o.price)) <= 0 then mk'.(named := mk'.named - {no}) else mk'
  }

  ghost function ReduceBoth(mk: Market, how: Removal, buyNo: int64, sellNo: int64, q: int): Market {
    ReduceNo(ReduceNo(mk, how, buyNo, q), how, sellNo, q)
  }

  ghost function Happens(mk: Market, e: Event): Market {
    match e
    case Nothing => mk
    case Added(side, no, price, q) => AddOrder(mk, side, no, price, q)
    case Deleted(_, no, _, q) => Reduce(mk, Cancel, no, q)
    case Taken(how, buyNo, sellNo, q) => ReduceBoth(mk, how, buyNo, sellNo, q)
  }

  /** The effect of a message on the live orders. */
  ghost function Apply(low: uint32, high: uint32, mk: Market, m: Body): Market {
    Happens(mk, Meaning(low, high, m))
  }

  // ---------- what a well-behaved feed sends ----------

  /** A number in a report is zero, live on its own side with enough left, or not named: never added,
      or forgotten when it finished. */
  predicate ValidRemoval(mk: Market, side: Side, no: int64, q: int) {
    no > 0 ==>
      if no in mk.orders then mk.orders[no].side == side && 0 <= q <= mk.orders[no].qty
      else no !in mk.named
  }

  /** Feed discipline, with no assumption about prices crossing or about the order of execution: a new
      order's number is not live, its quantity positive and its price within the limits; a delete names
      a live order with its own side and price; nothing takes more than an order has left. */
  predicate ValidEvent(low: uint32, high: uint32, mk: Market, e: Event) {
    match e
    case Nothing => true
    case Added(_, no, price, q) => no !in mk.orders && q > 0 && low <= price <= high
    case Deleted(side, no, price, q) =>
      && no in mk.orders && mk.orders[no].side == side && mk.orders[no].price == price
      && 0 <= q <= mk.orders[no].qty
    case Taken(_, buyNo, sellNo, q) => ValidRemoval(mk, Bid, buyNo, q) && ValidRemoval(mk, Ask, sellNo, q)
  }

  predicate Valid(low: uint32, high: uint32, mk: Market, m: Body) {
    ValidEvent(low, high, mk, Meaning(low, high, m))
  }

  /** No live order on the same side has a better price. */
  ghost predicate AtBest(mk: Market, side: Side, no: int64) {
    no > 0 && no in mk.orders ==>
      forall k :: k in mk.orders && mk.orders[k].side == side ==> !side.Better(mk.orders[k].price, mk.orders[no].price)
  }

  /** Price priority: a trade takes from the best price of the given side. */
  ghost predicate Priority(low: uint32, high: uint32, mk: Market, side: Side, m: Body) {
    var e := Meaning(low, high, m);
    e.Taken? && e.how == Trade ==> AtBest(mk, side, if side.Bid? then e.buyNo else e.sellNo)
  }

  /** A Shenzhen cancel of a sell order at the best sell price takes everything left at that price. */
  ghost predicate Drains(low: uint32, high: uint32, mk: Market, m: Body) {
    var e := Meaning(low, high, m);
    e.Taken? && e.how == Cancel && e.sellNo > 0 && e.sellNo in mk.orders && AtBest(mk, Ask, e.sellNo) ==>
      e.q == Sum(mk.orders, At(Ask, mk.orders[e.sellNo].price))
  }

  ghost function ApplyAll(low: uint32, high: uint32, mk: Market, ms: seq<Body>): Market
    decreases |ms|
  {
    if ms == [] then mk else ApplyAll(low, high, Apply(low, high, mk, ms[0]), ms[1..])
  }

  /** How much of the feed's discipline a run keeps. */
  datatype Discipline = Discipline(bidPriority: bool, askPriority: bool, drains: bool)

  ghost predicate Keeps(low: uint32, high: uint32, mk: Market, d: Discipline, m: Body) {
    && Valid(low, high, mk, m)
    && (d.bidPriority ==> Priority(low, high, mk, Bid, m))
    && (d.askPriority ==> Priority(low, high, mk, Ask, m))
    && (d.drains ==> Drains(low, high, mk, m))
  }

  ghost predicate KeepsAll(low: uint32, high: uint32, mk: Market, d: Discipline, ms: seq<Body>)
    decreases |ms|
  {
    ms != [] ==> Keeps(low, high, mk, d, ms[0]) && KeepsAll(low, high, Apply(low, high, mk, ms[0]), d, ms[1..])
  }
}

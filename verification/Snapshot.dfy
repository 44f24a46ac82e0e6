/** The depth snapshot: walking the ladders from the cursors, against the definition of the best
    price levels of the live orders. */
module Snapshot {
  import opened Machine
  import opened BookModel
  import opened Events
  import opened Orders
  import opened Refinement
  import opened Cursors
  import opened Runs

  datatype Quote = Quote(price: uint32, qty: int)

  datatype Record = Record(asks: seq<Quote>, bids: seq<Quote>) {
    function Of(side: Side): seq<Quote> {
      if side.Bid? then bids else asks
    }
  }

  /** The positive levels met from `from` towards worse prices, at most `room` of them. */
  function Walk(side: Side, low: uint32, qty: seq<int>, from: int, room: nat): seq<Quote>
    requires if side.Bid? then -1 <= from < |qty| else 0 <= from <= |qty|
    decreases if side.Bid? then from + 1 else |qty| - from
  {
    if from < 0 || from >= |qty| || room == 0 then []
    else if qty[from] > 0 then
      [Quote(PriceOf(low, from), qty[from])] + Walk(side, low, qty, side.Worse(from), room - 1)
    else Walk(side, low, qty, side.Worse(from), room)
  }

  /** One side of a snapshot. The loop pushes before it looks at the depth, so depth 0 acts as 1. */
  function Quotes(side: Side, low: uint32, h: Half, depth: nat): seq<Quote>
    requires HalfOk(h, |h.qty|)
  {
    if h.best == NULL then [] else Walk(side, low, h.qty, h.best, Max(1, depth))
  }

  function GetPxList(b: Book, depth: nat): Record
    requires WellFormed(b)
  {
    Record(Quotes(Ask, b.low, b.ask, depth), Quotes(Bid, b.low, b.bid, depth))
  }

  // ---------- what a walk lists ----------

  /** A price is in the list, or it is worse than everything in a list that is full. */
  ghost predicate Accounts(side: Side, out: seq<Quote>, room: nat, price: int) {
    || (exists i :: 0 <= i < |out| && out[i].price == price)
    || (|out| == room && forall i :: 0 <= i < |out| ==> side.Better(out[i].price, price))
  }

  /** `out` lists positive levels not better than `from`, best first, at most `room`, and leaves out
      a positive level there only when it is full of better ones. */
  ghost predicate Lists(side: Side, low: int, qty: seq<int>, from: int, room: nat, out: seq<Quote>) {
    && |out| <= room
    && (forall i :: 0 <= i < |out| ==>
          && 0 <= out[i].price - low < |qty|
          && !side.Better(out[i].price - low, from)
          && out[i].qty == qty[out[i].price - low] > 0)
    && (forall i, j :: 0 <= i < j < |out| ==> side.Better(out[i].price, out[j].price))
    && (forall price {:trigger Accounts(side, out, room, price)} ::
          0 <= price - low < |qty| && !side.Better(price - low, from) && qty[price - low] > 0 ==>
            Accounts(side, out, room, price))
  }

  lemma AccountsCons(side: Side, q: Quote, rest: seq<Quote>, room: nat, price: int)
    requires room > 0 && (price == q.price || (side.Better(q.price, price) && Accounts(side, rest, room - 1, price)))
    ensures Accounts(side, [q] + rest, room, price)
  {
    var out := [q] + rest;
    if price == q.price {
      assert out[0].price == price;
    } else if i :| 0 <= i < |rest| && rest[i].price == price {
      assert out[i + 1].price == price;
    }
  }

  lemma ListsCons(side: Side, low: uint32, qty: seq<int>, from: int, room: nat, rest: seq<Quote>)
    requires 0 <= from < |qty| && low + |qty| <= TWO_32 && qty[from] > 0 && room > 0
    requires Lists(side, low, qty, side.Worse(from), room - 1, rest)
    ensures Lists(side, low, qty, from, room, [Quote(low + from, qty[from])] + rest)
  {
    var q := Quote(low + from, qty[from]);
    var out := [q] + rest;
    forall i | 0 <= i < |out|
      ensures 0 <= out[i].price - low < |qty| && !side.Better(out[i].price - low, from)
      ensures out[i].qty == qty[out[i].price - low] > 0
      ensures i > 0 ==> side.Better(q.price, out[i].price)
    {
      if i > 0 {
        assert out[i] == rest[i - 1];
        assert !side.Better(rest[i - 1].price - low, side.Worse(from));
      }
    }
    forall i, j | 0 <= i < j < |out| ensures side.Better(out[i].price, out[j].price) {
      if i > 0 { assert out[i] == rest[i - 1] && out[j] == rest[j - 1]; }
    }
    forall price | 0 <= price - low < |qty| && !side.Better(price - low, from) && qty[price - low] > 0
      ensures Accounts(side, out, room, price)
    {
      if price != low + from { assert Accounts(side, rest, room - 1, price); }
      AccountsCons(side, q, rest, room, price);
    }
  }

  lemma ListsSkip(side: Side, low: uint32, qty: seq<int>, from: int, room: nat, out: seq<Quote>)
    requires 0 <= from < |qty| && qty[from] <= 0
    requires Lists(side, low, qty, side.Worse(from), room, out)
    ensures Lists(side, low, qty, from, room, out)
  {
  }

  lemma {:induction false} WalkLists(side: Side, low: uint32, qty: seq<int>, from: int, room: nat)
    requires if side.Bid? then -1 <= from < |qty| else 0 <= from <= |qty|
    requires low + |qty| <= TWO_32
    ensures Lists(side, low, qty, from, room, Walk(side, low, qty, from, room))
    decreases if side.Bid? then from + 1 else |qty| - from
  {
    var out := Walk(side, low, qty, from, room);
    if from < 0 || from >= |qty| || room == 0 {
      assert out == [];
      assert Lists(side, low, qty, from, room, out);
    } else if qty[from] > 0 {
      WalkLists(side, low, qty, side.Worse(from), room - 1);
      ListsCons(side, low, qty, from, room, Walk(side, low, qty, side.Worse(from), room - 1));
      assert PriceOf(low, from) == low + from;
      assert out == [Quote(low + from, qty[from])] + Walk(side, low, qty, side.Worse(from), room - 1);
      assert Lists(side, low, qty, from, room, out);
    } else {
      WalkLists(side, low, qty, side.Worse(from), room);
      assert out == Walk(side, low, qty, side.Worse(from), room);
      ListsSkip(side, low, qty, from, room, out);
      assert Lists(side, low, qty, from, room, out);
    }
  }

  /** A smaller depth lists a prefix of a larger one. */
  lemma {:induction false} WalkPrefix(side: Side, low: uint32, qty: seq<int>, from: int, room: nat, more: nat)
    requires if side.Bid? then -1 <= from < |qty| else 0 <= from <= |qty|
    requires room <= more
    ensures Walk(side, low, qty, from, room) <= Walk(side, low, qty, from, more)
    decreases if side.Bid? then from + 1 else |qty| - from
  {
    if from < 0 || from >= |qty| || room == 0 {
    } else {
      WalkPrefix(side, low, qty, side.Worse(from), if qty[from] > 0 then room - 1 else room,
                 if qty[from] > 0 then more - 1 else more);
    }
  }

  /** The shape of every snapshot of a book whose cursors are merely alive: it starts at the cursor and
      skips no filled level from there on. */
  lemma SnapshotShape(b: Book, side: Side, depth: nat)
    requires Sane(b) && depth >= 1
    ensures var h, out := b.Of(side), GetPxList(b, depth).Of(side);
            if h.best == NULL then out == []
            else out != [] && out[0].price == b.low + h.best && Lists(side, b.low, h.qty, h.best, depth, out)
  {
    LevelCorrespondence(b.low, b.high, 0);
    var h := b.Of(side);
    if h.best != NULL {
      WalkLists(side, b.low, h.qty, h.best, depth);
      assert PriceOf(b.low, h.best) == b.low + h.best;
    }
  }

  /** A snapshot keeps to its depth if and only if the depth is not 0 or there is nothing to show: at
      depth 0 a live cursor still yields one level. */
  lemma DepthIsKept(b: Book, side: Side, depth: nat)
    requires Sane(b)
    ensures |GetPxList(b, depth).Of(side)| <= depth <==> depth >= 1 || b.Of(side).best == NULL
    ensures GetPxList(b, 0) == GetPxList(b, 1)
  {
    SnapshotShape(b, side, Max(1, depth));
  }

  lemma SnapshotPrefix(b: Book, side: Side, depth: nat, more: nat)
    requires WellFormed(b) && depth <= more
    ensures GetPxList(b, depth).Of(side) <= GetPxList(b, more).Of(side)
  {
    var h := b.Of(side);
    if h.best != NULL { WalkPrefix(side, b.low, h.qty, h.best, Max(1, depth), Max(1, more)); }
  }

  // ---------- the best levels of the live orders ----------

  /** `out` is the best `depth` price levels of one side: each with the total of the live orders there,
      best first, and every live order's price listed unless it is worse than `depth` listed ones. */
  ghost predicate IsDepth(orders: map<int64, Order>, side: Side, depth: nat, out: seq<Quote>) {
    && |out| <= depth
    && (forall i :: 0 <= i < |out| ==> out[i].qty == Sum(orders, At(side, out[i].price)) && out[i].qty > 0)
    && (forall i, j :: 0 <= i < j < |out| ==> side.Better(out[i].price, out[j].price))
    && (forall no :: no in orders && orders[no].side == side ==> Accounts(side, out, depth, orders[no].price))
  }

  /** At most one list is the best `depth` levels, so `IsDepth` says all there is to say. */
  lemma {:induction false} DepthAgrees(orders: map<int64, Order>, side: Side, depth: nat,
                                       x: seq<Quote>, y: seq<Quote>, n: nat)
    requires Positive(orders) && IsDepth(orders, side, depth, x) && IsDepth(orders, side, depth, y)
    requires n <= |x|
    ensures n <= |y| && x[..n] == y[..n]
  {
    if n == 0 {
    } else {
      DepthAgrees(orders, side, depth, x, y, n - 1);
      var k := n - 1;
      NextNotWorse(orders, side, depth, x, y, k);
      NextNotWorse(orders, side, depth, y, x, k);
    }
  }

  lemma NextNotWorse(orders: map<int64, Order>, side: Side, depth: nat,
                     x: seq<Quote>, y: seq<Quote>, k: nat)
    requires Positive(orders) && IsDepth(orders, side, depth, x) && IsDepth(orders, side, depth, y)
    requires k < |x| && k <= |y| && x[..k] == y[..k]
    ensures k < |y| && !side.Better(x[k].price, y[k].price)
  {
    SumBounds(orders, At(side, x[k].price));
    var no :| no in orders && At(side, x[k].price).Covers(orders[no]);
    assert Accounts(side, y, depth, orders[no].price);
    assert forall i :: 0 <= i < k ==> x[i] == x[..k][i] == y[..k][i] == y[i];
  }

  lemma DepthIsUnique(orders: map<int64, Order>, side: Side, depth: nat, x: seq<Quote>, y: seq<Quote>)
    requires Positive(orders) && IsDepth(orders, side, depth, x) && IsDepth(orders, side, depth, y)
    ensures x == y
  {
    DepthAgrees(orders, side, depth, x, y, |x|);
    DepthAgrees(orders, side, depth, y, x, |y|);
  }

  lemma RightCursorSnapshot(b: Book, mk: Market, side: Side, depth: nat)
    requires Refines(b, mk) && Sane(b) && depth >= 1 && BestCursor(side, b.Of(side))
    ensures IsDepth(mk.orders, side, depth, GetPxList(b, depth).Of(side))
  {
    var h, out := b.Of(side), GetPxList(b, depth).Of(side);
    SnapshotShape(b, side, depth);
    forall no | no in mk.orders && mk.orders[no].side == side
      ensures h.best != NULL && Accounts(side, out, depth, mk.orders[no].price)
    {
      LiveWithinLevel(b, mk, no);
      assert b.low + (mk.orders[no].price - b.low) == mk.orders[no].price;
    }
    if h.best != NULL { ListsIsDepth(b, mk, side, depth, out); }
  }

  /** The levels of a ladder are the totals of the live orders. */
  lemma ListsIsDepth(b: Book, mk: Market, side: Side, depth: nat, out: seq<Quote>)
    requires Refines(b, mk) && Lists(side, b.low, b.Of(side).qty, b.Of(side).best, depth, out)
    requires forall no :: no in mk.orders && mk.orders[no].side == side ==>
               Accounts(side, out, depth, mk.orders[no].price)
    ensures IsDepth(mk.orders, side, depth, out)
  {
    forall i | 0 <= i < |out| ensures out[i].qty == Sum(mk.orders, At(side, out[i].price)) && out[i].qty > 0 {
      assert b.Of(side).qty[out[i].price - b.low] == Sum(mk.orders, At(side, b.low + (out[i].price - b.low)));
    }
  }

  /** A filled level ahead of the cursor is not accounted for by the snapshot. */
  lemma BehindCursor(b: Book, side: Side, depth: nat, l: int)
    requires Sane(b) && depth >= 1
    requires b.Of(side).best == NULL || side.Better(l, b.Of(side).best)
    ensures !Accounts(side, GetPxList(b, depth).Of(side), depth, b.low + l)
  {
    var h, out := b.Of(side), GetPxList(b, depth).Of(side);
    SnapshotShape(b, side, depth);
    forall i | 0 <= i < |out| ensures out[i].price != b.low + l && !side.Better(out[i].price, b.low + l) {
      assert !side.Better(out[i].price - b.low, h.best);
    }
    assert h.best != NULL ==> !side.Better(out[0].price, b.low + l);
  }

  lemma FilledAhead(side: Side, h: Half) returns (l: int)
    requires LiveCursor(h) && !BestCursor(side, h)
    ensures 0 <= l < |h.qty| && h.qty[l] > 0 && (h.best == NULL || side.Better(l, h.best))
  {
    l :| 0 <= l < |h.qty| && h.qty[l] > 0 && (h.best == NULL || side.Better(l, h.best));
  }

  /** A filled level has an order in it. */
  lemma FilledIsLive(b: Book, mk: Market, side: Side, l: int) returns (k: int64)
    requires Refines(b, mk) && 0 <= l < |b.Of(side).qty| && b.Of(side).qty[l] > 0
    ensures k in mk.orders && mk.orders[k].side == side && mk.orders[k].price == b.low + l
  {
    assert b.Of(side).qty[l] == Sum(mk.orders, At(side, b.low + l));
    SumBounds(mk.orders, At(side, b.low + l));
    k :| k in mk.orders && At(side, b.low + l).Covers(mk.orders[k]);
  }

  lemma UnaccountedIsNotDepth(orders: map<int64, Order>, side: Side, depth: nat, out: seq<Quote>, no: int64)
    requires no in orders && orders[no].side == side && !Accounts(side, out, depth, orders[no].price)
    ensures !IsDepth(orders, side, depth, out)
  {
  }

  lemma WrongCursorSnapshot(b: Book, mk: Market, side: Side, depth: nat)
    requires Refines(b, mk) && Sane(b) && depth >= 1 && !BestCursor(side, b.Of(side))
    ensures !IsDepth(mk.orders, side, depth, GetPxList(b, depth).Of(side))
  {
    var l := FilledAhead(side, b.Of(side));
    var no := FilledIsLive(b, mk, side, l);
    BehindCursor(b, side, depth, l);
    UnaccountedIsNotDepth(mk.orders, side, depth, GetPxList(b, depth).Of(side), no);
  }

  /** For a book in step with its live orders and a cursor that is alive, the snapshot is the best
      levels if and only if the cursor is at the best one. */
  lemma SnapshotIffCursor(b: Book, mk: Market, side: Side, depth: nat)
    requires Refines(b, mk) && Sane(b) && depth >= 1
    ensures IsDepth(mk.orders, side, depth, GetPxList(b, depth).Of(side)) <==> BestCursor(side, b.Of(side))
  {
    SnapshotShape(b, side, depth);
    if BestCursor(side, b.Of(side)) {
      RightCursorSnapshot(b, mk, side, depth);
    } else if IsDepth(mk.orders, side, depth, GetPxList(b, depth).Of(side)) {
      WrongCursorSnapshot(b, mk, side, depth);
    }
  }

  // ---------- after one message, and after a run ----------

  /** From a right cursor, the snapshot after a valid message is the best levels of the live orders if
      and only if its trades respect price priority and a Shenzhen sell cancel at the best price
      drains it. */
  lemma StepSnapshot(b: Book, mk: Market, side: Side, m: Body, depth: nat)
    requires Refines(b, mk) && Sane(b) && BestCursor(side, b.Of(side)) && Valid(b.low, b.high, mk, m) && depth >= 1
    ensures Legal(b, m)
    ensures IsDepth(Apply(b.low, b.high, mk, m).orders, side, depth, GetPxList(Step(Exact, b, m), depth).Of(side))
            <==> Priority(b.low, b.high, mk, side, m) && (side.Ask? ==> Drains(b.low, b.high, mk, m))
  {
    StepRefines(b, mk, m);
    ValidIsSafe(b, mk, m);
    StepSane(Exact, b, m);
    StepBest(b, mk, side, m);
    SnapshotIffCursor(Step(Exact, b, m), Apply(b.low, b.high, mk, m), side, depth);
  }

  lemma {:induction false} ValidRunSane(b: Book, mk: Market, d: Discipline, ms: seq<Body>)
    requires Refines(b, mk) && Sane(b) && KeepsAll(b.low, b.high, mk, d, ms)
    ensures SafeRun(Exact, b, ms)
    decreases |ms|
  {
    if ms == [] {
    } else {
      StepRefines(b, mk, ms[0]);
      ValidIsSafe(b, mk, ms[0]);
      StepSane(Exact, b, ms[0]);
      ValidRunSane(Step(Exact, b, ms[0]), Apply(b.low, b.high, mk, ms[0]), d, ms[1..]);
    }
  }

  lemma SnapshotInMachine(b: Book, mk: Market, d: Discipline, ms: seq<Body>, depth: nat)
    requires Refines(b, mk) && Sane(b) && Cursored(b, d) && depth >= 1
    requires KeepsAll(b.low, b.high, mk, d, ms) && FitsAll(b.low, b.high, mk, ms)
    ensures LegalRun(Wrapping, b, ms)
    ensures ShowsBest(b.low, b.high, mk, d, ms, depth, GetPxList(Run(Wrapping, b, ms), depth))
  {
    RunInMachine(b, mk, d, ms);
    RunNarrows(b, mk, d, ms);
    ValidRunSane(b, mk, d, ms);
    RunSane(Exact, b, ms);
    SnapshotIffCursor(Run(Wrapping, b, ms), ApplyAll(b.low, b.high, mk, ms), Bid, depth);
    SnapshotIffCursor(Run(Wrapping, b, ms), ApplyAll(b.low, b.high, mk, ms), Ask, depth);
  }

  /** A record lists the best levels of the orders live after a run, on the sides the discipline
      covers: the ask side needs Shenzhen sell cancels at the best price to drain it, the bid side does
      not. */
  ghost predicate ShowsBest(low: uint32, high: uint32, mk: Market, d: Discipline, ms: seq<Body>,
                            depth: nat, r: Record) {
    var live := ApplyAll(low, high, mk, ms).orders;
    && (d.bidPriority ==> IsDepth(live, Bid, depth, r.bids))
    && (d.askPriority && d.drains ==> IsDepth(live, Ask, depth, r.asks))
  }

  lemma MachineRunSane(low: uint32, high: uint32, d: Discipline, ms: seq<Body>)
    requires ProperLimits(low, high)
    requires KeepsAll(low, high, NoOrders(), d, ms) && FitsAll(low, high, NoOrders(), ms)
    ensures WellFormed(Empty(low, high)) && LegalRun(Wrapping, Empty(low, high), ms)
    ensures Sane(Run(Wrapping, Empty(low, high), ms))
  {
    var none := Discipline(false, false, false);
    EmptyRefines(low, high, none);
    EmptySane(low, high);
    RunNarrows(Empty(low, high), NoOrders(), d, ms);
    ValidRunSane(Empty(low, high), NoOrders(), d, ms);
    RunSane(Exact, Empty(low, high), ms);
  }

  lemma EmptySane(low: uint32, high: uint32)
    requires ProperLimits(low, high)
    ensures Sane(Empty(low, high))
  {
    LevelCorrespondence(low, high, 0);
  }

  /** The whole-run theorem for the machine's own arithmetic: after every run that keeps price
      priority and fits in 32 bits, a snapshot lists exactly the best `depth` levels of the live
      orders. */
  lemma SnapshotAfterRun(low: uint32, high: uint32, d: Discipline, ms: seq<Body>, depth: nat)
    requires ProperLimits(low, high) && depth >= 1
    requires KeepsAll(low, high, NoOrders(), d, ms) && FitsAll(low, high, NoOrders(), ms)
    ensures WellFormed(Empty(low, high)) && LegalRun(Wrapping, Empty(low, high), ms)
    ensures ShowsBest(low, high, NoOrders(), d, ms, depth, GetPxList(Run(Wrapping, Empty(low, high), ms), depth))
  {
    EmptyRefines(low, high, d);
    EmptySane(low, high);
    SnapshotInMachine(Empty(low, high), NoOrders(), d, ms, depth);
  }
}

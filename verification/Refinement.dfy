/** The ladders, the cursors and the index against the live orders they stand for: one message at a
    time, then over whole runs. */
module Refinement {
  import opened Machine
  import opened BookModel
  import opened Events
  import opened Orders

  // ---------- the invariants ----------

  /** Every level of a ladder holds the sum of the live orders at its side and price. */
  ghost predicate Levels(low: int, side: Side, h: Half, orders: map<int64, Order>) {
    forall l :: 0 <= l < |h.qty| ==> h.qty[l] == Sum(orders, At(side, low + l))
  }

  /** The index sends every live order to its own side and level, and knows exactly the named numbers. */
  ghost predicate Indexed(b: Book, mk: Market) {
    && (forall no :: no in mk.orders ==>
          && mk.orders[no].qty > 0
          && b.low <= mk.orders[no].price <= b.high
          && no in b.index && b.index[no] == Entry(mk.orders[no].side, mk.orders[no].price - b.low))
    && b.index.Keys == mk.named
  }

  ghost function Total(qty: seq<int>): int {
    if qty == [] then 0 else Total(qty[..|qty| - 1]) + qty[|qty| - 1]
  }

  /** What a ladder holds in all is what was added less what was traded and cancelled. */
  ghost predicate Conserved(b: Book, mk: Market) {
    && Total(b.bid.qty) == mk.bid.Outstanding()
    && Total(b.ask.qty) == mk.ask.Outstanding()
  }

  ghost predicate Refines(b: Book, mk: Market) {
    && WellFormed(b)
    && Levels(b.low, Bid, b.bid, mk.orders)
    && Levels(b.low, Ask, b.ask, mk.orders)
    && Indexed(b, mk)
    && Conserved(b, mk)
  }

  /** The cursor is null exactly when the ladder is empty, and otherwise at its best positive level. */
  ghost predicate BestCursor(side: Side, h: Half) {
    if h.best == NULL then forall l :: 0 <= l < |h.qty| ==> h.qty[l] <= 0
    else 0 <= h.best < |h.qty| && h.qty[h.best] > 0
         && forall l :: 0 <= l < |h.qty| && side.Better(l, h.best) ==> h.qty[l] <= 0
  }

  // ---------- ladder totals ----------

  lemma {:induction false} TotalUpdate(qty: seq<int>, p: nat, v: int)
    requires p < |qty|
    ensures Total(qty[p := v]) == Total(qty) - qty[p] + v
  {
    var n := |qty| - 1;
    if p == n {
      assert qty[p := v][..n] == qty[..n];
    } else {
      assert qty[p := v][..n] == qty[..n][p := v];
      TotalUpdate(qty[..n], p, v);
    }
  }

  predicate OnlyAt(x: seq<int>, y: seq<int>, p: nat) {
    |x| == |y| && forall l :: 0 <= l < |x| && l != p ==> x[l] == y[l]
  }

  lemma LevelConserves(x: seq<int>, p: nat, v: int)
    requires p < |x|
    ensures OnlyAt(x, x[p := v], p) && x[p := v][p] == v && Total(x[p := v]) == Total(x) - x[p] + v
  {
    TotalUpdate(x, p, v);
  }

  /** Whatever the quantity, and wherever the cursor, an order adds it to the ladder's total at one level. */
  lemma AddConserves(side: Side, h: Half, p: nat, q: int)
    requires HalfOk(h, |h.qty|) && p < |h.qty|
    ensures var x := AddHalf(Exact, side, h, p, q).qty; OnlyAt(h.qty, x, p) && Total(x) == Total(h.qty) + q
  {
    LevelConserves(h.qty, p, h.qty[p] + q);
  }

  /** A report takes it, below zero if need be. */
  lemma TakeConserves(side: Side, h: Half, p: nat, q: int, how: Removal, own: bool)
    requires HalfOk(h, |h.qty|) && p < |h.qty|
    ensures var x := TakeHalf(Exact, how, own, side, h, p, q).qty; OnlyAt(h.qty, x, p) && Total(x) == Total(h.qty) - q
  {
    LevelConserves(h.qty, p, h.qty[p] - q);
  }

  /** A delete takes no more than there is. */
  lemma DeleteConserves(side: Side, h: Half, p: nat, q: int)
    requires HalfOk(h, |h.qty|) && p < |h.qty|
    ensures var x := DeleteHalf(Exact, side, h, p, q).qty;
            && OnlyAt(h.qty, x, p) && x[p] >= 0
            && Total(x) == Total(h.qty) - if q <= h.qty[p] then q else h.qty[p]
  {
    LevelConserves(h.qty, p, Max(0, h.qty[p] - q));
  }

  lemma {:induction false} TotalZero(qty: seq<int>)
    requires forall l :: 0 <= l < |qty| ==> qty[l] == 0
    ensures Total(qty) == 0
  {
    if qty == [] {
    } else {
      TotalZero(qty[..|qty| - 1]);
    }
  }

  // ---------- one operation ----------

  lemma AddKeepsLevels(low: int, side: Side, h: Half, h': Half, orders: map<int64, Order>, no: int64, o: Order)
    requires Levels(low, side, h, orders) && no !in orders && |h'.qty| == |h.qty|
    requires forall l :: 0 <= l < |h.qty| ==> h'.qty[l] == h.qty[l] + Weight(o, At(side, low + l))
    ensures Levels(low, side, h', orders[no := o])
  {
    forall l | 0 <= l < |h.qty| ensures h'.qty[l] == Sum(orders[no := o], At(side, low + l)) {
      SumInsert(orders, no, o, At(side, low + l));
    }
  }

  lemma AddKeepsIndexed(b: Book, mk: Market, side: Side, no: int64, p: nat, q: int)
    requires WellFormed(b) && Indexed(b, mk) && no !in mk.orders && q > 0 && p < b.Span()
    ensures Indexed(Add(Exact, b, side, no, p, q), AddOrder(mk, side, no, b.low + p, q))
  {
    LevelCorrespondence(b.low, b.high, 0);
    var b', mk' := Add(Exact, b, side, no, p, q), AddOrder(mk, side, no, b.low + p, q);
    assert b'.index == b.index[no := Entry(side, p)] && b'.low == b.low && b'.high == b.high;
    assert mk'.orders == mk.orders[no := Order(side, b.low + p, q)] && mk'.named == mk.named + {no};
  }

  lemma AddLevels(b: Book, mk: Market, side: Side, no: int64, p: nat, q: int)
    requires Refines(b, mk) && no !in mk.orders && p < b.Span()
    ensures var b', orders := Add(Exact, b, side, no, p, q), mk.orders[no := Order(side, b.low + p, q)];
            Levels(b.low, Bid, b'.bid, orders) && Levels(b.low, Ask, b'.ask, orders)
  {
    var b', o := Add(Exact, b, side, no, p, q), Order(side, b.low + p, q);
    AddKeepsLevels(b.low, Bid, b.bid, b'.bid, mk.orders, no, o);
    AddKeepsLevels(b.low, Ask, b.ask, b'.ask, mk.orders, no, o);
  }

  lemma AddRefines(b: Book, mk: Market, side: Side, no: int64, p: nat, q: int)
    requires Refines(b, mk) && no !in mk.orders && q > 0 && p < b.Span()
    ensures Refines(Add(Exact, b, side, no, p, q), AddOrder(mk, side, no, b.low + p, q))
  {
    AddLevels(b, mk, side, no, p, q);
    AddKeepsIndexed(b, mk, side, no, p, q);
    TotalUpdate(b.Of(side).qty, p, b.Of(side).qty[p] + q);
  }

  lemma ReduceKeepsLevels(low: int, side: Side, h: Half, h': Half, mk: Market, how: Removal, no: int64, q: int)
    requires Levels(low, side, h, mk.orders) && |h'.qty| == |h.qty|
    requires no in mk.orders && 0 <= q <= mk.orders[no].qty
    requires forall l :: 0 <= l < |h.qty| ==>
               h'.qty[l] == h.qty[l] - Weight(mk.orders[no].(qty := q), At(side, low + l))
    ensures Levels(low, side, h', Reduce(mk, how, no, q).orders)
  {
    var o := mk.orders[no];
    forall l | 0 <= l < |h.qty|
      ensures h'.qty[l] == Sum(Reduce(mk, how, no, q).orders, At(side, low + l))
    {
      SumSplit(mk.orders, no, At(side, low + l));
      SumUpdate(mk.orders, no, o.(qty := o.qty - q), At(side, low + l));
    }
  }

  /** A live order's quantity is within its level's quantity. */
  lemma LiveWithinLevel(b: Book, mk: Market, no: int64)
    requires Refines(b, mk) && no in mk.orders
    ensures var o := mk.orders[no];
            && 0 <= o.price - b.low < b.Span() && 0 < o.qty <= b.Of(o.side).qty[o.price - b.low]
            && b.Of(o.side).qty[o.price - b.low] == Sum(mk.orders, At(o.side, o.price))
  {
    var o := mk.orders[no];
    SumBounds(mk.orders, At(o.side, o.price));
    assert b.Of(o.side).qty[o.price - b.low] == Sum(mk.orders, At(o.side, b.low + (o.price - b.low)));
  }

  /** `b'` is `b` with `q` taken from the level of live order `no`, whose index entry is kept unless the
      order is finished. */
  ghost predicate TakesFrom(b: Book, b': Book, mk: Market, how: Removal, no: int64, q: int) {
    && WellFormed(b) && SameShape(b, b') && no in mk.orders && 0 <= q <= mk.orders[no].qty
    && var o := mk.orders[no];
       var p := o.price - b.low;
    && 0 <= p < b.Span()
    && b'.Of(o.side.Opposite()).qty == b.Of(o.side.Opposite()).qty
    && b'.Of(o.side).qty == b.Of(o.side).qty[p := b.Of(o.side).qty[p] - q]
    && (b'.index == b.index || (b'.index == b.index - {no} && no !in Reduce(mk, how, no, q).orders))
  }

  lemma ReduceLevels(b: Book, b': Book, mk: Market, how: Removal, no: int64, q: int)
    requires Refines(b, mk) && TakesFrom(b, b', mk, how, no, q)
    ensures Levels(b.low, Bid, b'.bid, Reduce(mk, how, no, q).orders)
    ensures Levels(b.low, Ask, b'.ask, Reduce(mk, how, no, q).orders)
  {
    ReduceKeepsLevels(b.low, Bid, b.bid, b'.bid, mk, how, no, q);
    ReduceKeepsLevels(b.low, Ask, b.ask, b'.ask, mk, how, no, q);
  }

  lemma ReduceIndexed(b: Book, b': Book, mk: Market, how: Removal, no: int64, q: int)
    requires WellFormed(b) && Indexed(b, mk) && TakesFrom(b, b', mk, how, no, q)
    ensures Indexed(b', Reduce(mk, how, no, q).(named := b'.index.Keys))
  {
  }

  lemma ReduceConserved(b: Book, b': Book, mk: Market, how: Removal, no: int64, q: int)
    requires WellFormed(b) && Conserved(b, mk) && TakesFrom(b, b', mk, how, no, q)
    ensures Conserved(b', Reduce(mk, how, no, q))
  {
    var o := mk.orders[no];
    var p := o.price - b.low;
    TotalUpdate(b.Of(o.side).qty, p, b.Of(o.side).qty[p] - q);
  }

  lemma ReduceRefines(b: Book, b': Book, mk: Market, how: Removal, no: int64, q: int)
    requires Refines(b, mk) && TakesFrom(b, b', mk, how, no, q)
    ensures Refines(b', Reduce(mk, how, no, q).(named := b'.index.Keys))
  {
    ReduceLevels(b, b', mk, how, no, q);
    ReduceIndexed(b, b', mk, how, no, q);
    ReduceConserved(b, b', mk, how, no, q);
  }

  lemma DeleteRefines(b: Book, mk: Market, no: int64, o: Order, q: int)
    requires Refines(b, mk) && no in mk.orders && o == mk.orders[no] && 0 <= q <= o.qty
    ensures 0 <= o.price - b.low < b.Span()
    ensures Refines(Delete(Exact, b, o.side, o.price - b.low, q), Reduce(mk, Cancel, no, q))
  {
    LiveWithinLevel(b, mk, no);
    ReduceRefines(b, Delete(Exact, b, o.side, o.price - b.low, q), mk, Cancel, no, q);
  }

  /** Erasing on an empty level loses no live order: whatever is live at that level afterwards would
      make it non-empty. */
  lemma EraseLosesNothing(b: Book, mk: Market, how: Removal, no: int64, q: int)
    requires Refines(b, mk) && no in mk.orders && 0 <= q <= mk.orders[no].qty
    requires var o := mk.orders[no];
             0 <= o.price - b.low < b.Span() && b.Of(o.side).qty[o.price - b.low] - q <= 0
    ensures no !in Reduce(mk, how, no, q).orders
  {
    LiveWithinLevel(b, mk, no);
  }

  /** The index and the market forget a number together: its level is empty when its price is. */
  lemma ForgetsTogether(b: Book, mk: Market, how: Removal, no: int64, q: int)
    requires Refines(b, mk) && no > 0 && no in mk.orders && 0 <= q <= mk.orders[no].qty
    ensures ReduceNo(mk, how, no, q)
            == Reduce(mk, how, no, q).(named := Remove(Exact, how, b, mk.orders[no].side, no, q).index.Keys)
  {
    var o := mk.orders[no];
    LiveWithinLevel(b, mk, no);
    SumSplit(mk.orders, no, At(o.side, o.price));
    SumUpdate(mk.orders, no, o.(qty := o.qty - q), At(o.side, o.price));
  }

  lemma LiveRemovalRefines(b: Book, mk: Market, how: Removal, no: int64, q: int)
    requires Refines(b, mk) && no > 0 && no in mk.orders && 0 <= q <= mk.orders[no].qty
    ensures Indexes(b, mk.orders[no].side, no)
    ensures Refines(Remove(Exact, how, b, mk.orders[no].side, no, q), ReduceNo(mk, how, no, q))
  {
    var o := mk.orders[no];
    LiveWithinLevel(b, mk, no);
    if b.Of(o.side).qty[o.price - b.low] - q <= 0 { EraseLosesNothing(b, mk, how, no, q); }
    var b' := Remove(Exact, how, b, o.side, no, q);
    assert TakesFrom(b, b', mk, how, no, q);
    ReduceRefines(b, b', mk, how, no, q);
    ForgetsTogether(b, mk, how, no, q);
  }

  lemma RemoveRefines(b: Book, mk: Market, how: Removal, side: Side, no: int64, q: int)
    requires Refines(b, mk) && ValidRemoval(mk, side, no, q)
    ensures Indexes(b, side, no)
    ensures Refines(Remove(Exact, how, b, side, no, q), ReduceNo(mk, how, no, q))
    ensures Remove(Exact, how, b, side, no, q).Of(side.Opposite()) == b.Of(side.Opposite())
  {
    if no > 0 && no in mk.orders { LiveRemovalRefines(b, mk, how, no, q); }
  }

  /** The buyer's half leaves the seller's report valid: they are different orders. */
  lemma ReduceKeepsOther(mk: Market, how: Removal, buyNo: int64, sellNo: int64, q: int)
    requires ValidRemoval(mk, Bid, buyNo, q) && ValidRemoval(mk, Ask, sellNo, q)
    ensures ValidRemoval(ReduceNo(mk, how, buyNo, q), Ask, sellNo, q)
  {
  }

  lemma RemoveBothRefines(b: Book, mk: Market, how: Removal, buyNo: int64, sellNo: int64, q: int)
    requires Refines(b, mk) && ValidRemoval(mk, Bid, buyNo, q) && ValidRemoval(mk, Ask, sellNo, q)
    ensures OwnSides(b, buyNo, sellNo)
    ensures Refines(RemoveBoth(Exact, how, b, buyNo, sellNo, q), ReduceBoth(mk, how, buyNo, sellNo, q))
  {
    RemoveRefines(b, mk, how, Bid, buyNo, q);
    RemoveRefines(b, mk, how, Ask, sellNo, q);
    ReduceKeepsOther(mk, how, buyNo, sellNo, q);
    RemoveRefines(Remove(Exact, how, b, Bid, buyNo, q), ReduceNo(mk, how, buyNo, q), how, Ask, sellNo, q);
  }

  // ---------- one message ----------

  lemma AddedRefines(b: Book, mk: Market, e: Event)
    requires Refines(b, mk) && e.Added? && ValidEvent(b.low, b.high, mk, e)
    ensures LegalEvent(b, e) && Refines(StepEvent(Exact, b, e), Happens(mk, e))
  {
    AddRefines(b, mk, e.side, e.no, e.price - b.low, e.q);
  }

  lemma SameRefines(b: Book, mk: Market, b': Book, mk': Market)
    requires Refines(b, mk) && b' == b && mk' == mk
    ensures Refines(b', mk')
  {
  }

  lemma DeletedIsReduced(b: Book, mk: Market, e: Event, o: Order)
    requires WellFormed(b) && e.Deleted? && ValidEvent(b.low, b.high, mk, e) && o == mk.orders[e.no]
    requires 0 <= o.price - b.low < b.Span()
    ensures LegalEvent(b, e) && StepEvent(Exact, b, e) == Delete(Exact, b, o.side, o.price - b.low, e.q)
    ensures Happens(mk, e) == Reduce(mk, Cancel, e.no, e.q)
  {
    StepIsDelete(Exact, b, e, o.side, o.price - b.low, e.q);
  }

  lemma DeletedRefines(b: Book, mk: Market, e: Event)
    requires Refines(b, mk) && e.Deleted? && ValidEvent(b.low, b.high, mk, e)
    ensures LegalEvent(b, e) && Refines(StepEvent(Exact, b, e), Happens(mk, e))
  {
    var o := mk.orders[e.no];
    DeleteRefines(b, mk, e.no, o, e.q);
    DeletedIsReduced(b, mk, e, o);
    SameRefines(Delete(Exact, b, o.side, o.price - b.low, e.q), Reduce(mk, Cancel, e.no, e.q),
                StepEvent(Exact, b, e), Happens(mk, e));
  }

  lemma TakenRefines(b: Book, mk: Market, e: Event)
    requires Refines(b, mk) && e.Taken? && ValidEvent(b.low, b.high, mk, e)
    ensures LegalEvent(b, e) && Refines(StepEvent(Exact, b, e), Happens(mk, e))
  {
    RemoveBothRefines(b, mk, e.how, e.buyNo, e.sellNo, e.q);
  }

  lemma EventRefines(b: Book, mk: Market, e: Event)
    requires Refines(b, mk) && ValidEvent(b.low, b.high, mk, e)
    ensures LegalEvent(b, e)
    ensures Refines(StepEvent(Exact, b, e), Happens(mk, e))
  {
    match e
    case Nothing =>
    case Added(_, _, _, _) => AddedRefines(b, mk, e);
    case Deleted(_, _, _, _) => DeletedRefines(b, mk, e);
    case Taken(_, _, _, _) => TakenRefines(b, mk, e);
  }

  /** Every valid message finds the levels and ladders it needs, and leaves the book in step with the
      live orders: levels, index and totals. Price priority is not needed for this. */
  lemma StepRefines(b: Book, mk: Market, m: Body)
    requires Refines(b, mk) && Valid(b.low, b.high, mk, m)
    ensures Legal(b, m)
    ensures Refines(Step(Exact, b, m), Apply(b.low, b.high, mk, m))
  {
    EventRefines(b, mk, Meaning(b.low, b.high, m));
    HandlersFollowMeaning(Exact, b, m);
  }
}

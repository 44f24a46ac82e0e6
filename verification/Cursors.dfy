/** The best-price cursors: exactly when each operation keeps them at the best live price, and what
    survives when the feed breaks price priority. */
module Cursors {
  import opened Machine
  import opened BookModel
  import opened Events
  import opened Orders
  import opened Refinement

  ghost predicate NonNegative(h: Half) {
    forall l :: 0 <= l < |h.qty| ==> h.qty[l] >= 0
  }

  // ---------- one ladder ----------

  lemma AddKeepsBest(side: Side, h: Half, p: nat, q: int)
    requires BestCursor(side, h) && NonNegative(h) && p < |h.qty| && q > 0
    ensures BestCursor(side, AddHalf(Exact, side, h, p, q))
  {
  }

  lemma DeleteKeepsBest(side: Side, h: Half, p: nat, q: int)
    requires BestCursor(side, h) && NonNegative(h) && p < |h.qty| && 0 <= q <= h.qty[p]
    ensures BestCursor(side, DeleteHalf(Exact, side, h, p, q))
  {
    if p == h.best { ScanSkipsEmpty(side, h.qty[p := h.qty[p] - q], side.Worse(p)); }
  }

  /** A trade assigns the cursor without looking, so it is right exactly at the best level. */
  lemma TradeKeepsBest(side: Side, h: Half, p: nat, q: int)
    requires BestCursor(side, h) && NonNegative(h) && p < |h.qty| && 0 <= q <= h.qty[p] && h.qty[p] > 0
    ensures BestCursor(side, TradeHalf(Exact, side, h, p, q)) <==> p == h.best
  {
    var h' := TradeHalf(Exact, side, h, p, q);
    ScanSkipsEmpty(side, h.qty[p := h.qty[p] - q], p);
    if p != h.best {
      assert h'.qty[h.best] > 0 && side.Better(h.best, p);
    }
  }

  lemma BuyCancelKeepsBest(h: Half, p: nat, q: int)
    requires BestCursor(Bid, h) && p < |h.qty| && 0 <= q <= h.qty[p]
    ensures BestCursor(Bid, CancelHalf(Exact, Bid, h, p, q))
  {
    var h' := CancelHalf(Exact, Bid, h, p, q);
    if p == h.best {
      ScanSkipsEmpty(Bid, h'.qty, p);
      forall l | 0 <= l < |h.qty| && (h'.best == NULL || l > h'.best) ensures h'.qty[l] <= 0 {
        if l > p { assert h.qty[l] <= 0; }
      }
    }
  }

  lemma SellCancelKeepsBest(h: Half, p: nat, q: int)
    requires BestCursor(Ask, h) && p < |h.qty| && 0 <= q <= h.qty[p]
    ensures BestCursor(Ask, CancelHalf(Exact, Ask, h, p, q)) <==> p != h.best || q == h.qty[p]
  {
    var h' := CancelHalf(Exact, Ask, h, p, q);
    if p == h.best {
      ScanSkipsEmpty(Ask, h'.qty, p + 1);
      assert h'.best == NULL || h'.best > p;
      if q < h.qty[p] {
        assert h'.qty[p] > 0;
      } else {
        forall l | 0 <= l < |h.qty| && (h'.best == NULL || l < h'.best) ensures h'.qty[l] <= 0 {
          if l < p { assert h.qty[l] <= 0; }
        }
      }
    }
  }

  /** A buy cancel always leaves the cursor right; a sell cancel at the best level steps over it, which
      is right exactly when the level is drained. */
  lemma CancelKeepsBest(side: Side, h: Half, p: nat, q: int)
    requires BestCursor(side, h) && NonNegative(h) && p < |h.qty| && 0 <= q <= h.qty[p]
    ensures BestCursor(side, CancelHalf(Exact, side, h, p, q)) <==> side.Bid? || p != h.best || q == h.qty[p]
  {
    if side.Bid? { BuyCancelKeepsBest(h, p, q); } else { SellCancelKeepsBest(h, p, q); }
  }

  // ---------- one book ----------

  lemma LevelsNonNegative(low: int, side: Side, h: Half, orders: map<int64, Order>)
    requires Levels(low, side, h, orders) && Positive(orders)
    ensures NonNegative(h)
  {
    forall l | 0 <= l < |h.qty| ensures h.qty[l] >= 0 { SumBounds(orders, At(side, low + l)); }
  }

  lemma BookNonNegative(b: Book, mk: Market)
    requires Refines(b, mk)
    ensures NonNegative(b.bid) && NonNegative(b.ask)
  {
    LevelsNonNegative(b.low, Bid, b.bid, mk.orders);
    LevelsNonNegative(b.low, Ask, b.ask, mk.orders);
  }

  /** Where the cursor is right, it is at an order's level exactly when no live order beats that one. */
  lemma BestIsCursor(b: Book, mk: Market, side: Side, no: int64)
    requires Refines(b, mk) && BestCursor(side, b.Of(side))
    requires no > 0 && no in mk.orders && mk.orders[no].side == side
    ensures AtBest(mk, side, no) <==> mk.orders[no].price - b.low == b.Of(side).best
  {
    var h, p := b.Of(side), mk.orders[no].price - b.low;
    LiveWithinLevel(b, mk, no);
    SumBounds(mk.orders, At(side, b.low + h.best));
    var k :| k in mk.orders && At(side, b.low + h.best).Covers(mk.orders[k]);
    if p == h.best && !AtBest(mk, side, no) {
      var j :| j in mk.orders && mk.orders[j].side == side && side.Better(mk.orders[j].price, mk.orders[no].price);
      LiveWithinLevel(b, mk, j);
    }
  }

  /** The condition under which one removal keeps the cursor of its side. */
  ghost predicate RemovalOk(mk: Market, how: Removal, side: Side, no: int64, q: int) {
    no > 0 && no in mk.orders ==>
      if how.Trade? then AtBest(mk, side, no)
      else side.Ask? && AtBest(mk, side, no) ==> q == Sum(mk.orders, At(side, mk.orders[no].price))
  }

  lemma RemoveAt(a: Arithmetic, how: Removal, b: Book, side: Side, no: int64, p: nat, q: int)
    requires WellFormed(b) && no > 0 && no in b.index && b.index[no] == Entry(side, p)
    ensures Remove(a, how, b, side, no, q).Of(side) == RemoveHalf(a, how, side, b.Of(side), p, q)
  {
  }

  lemma LadderKeepsBest(how: Removal, side: Side, h: Half, p: nat, q: int)
    requires BestCursor(side, h) && NonNegative(h) && p < |h.qty| && 0 <= q <= h.qty[p] && h.qty[p] > 0
    ensures BestCursor(side, RemoveHalf(Exact, how, side, h, p, q))
            <==> if how.Trade? then p == h.best else side.Bid? || p != h.best || q == h.qty[p]
  {
    match how
    case Trade => TradeKeepsBest(side, h, p, q);
    case Cancel => CancelKeepsBest(side, h, p, q);
  }

  lemma RemoveBest(b: Book, mk: Market, how: Removal, side: Side, no: int64, q: int)
    requires Refines(b, mk) && BestCursor(side, b.Of(side)) && ValidRemoval(mk, side, no, q)
    ensures Indexes(b, side, no)
    ensures BestCursor(side, Remove(Exact, how, b, side, no, q).Of(side)) <==> RemovalOk(mk, how, side, no, q)
  {
    if no > 0 && no in mk.orders {
      BestIsCursor(b, mk, side, no);
      LiveWithinLevel(b, mk, no);
      BookNonNegative(b, mk);
      var p := mk.orders[no].price - b.low;
      assert b.Of(side).qty[p] == Sum(mk.orders, At(side, b.low + p));
      RemoveAt(Exact, how, b, side, no, p, q);
      LadderKeepsBest(how, side, b.Of(side), p, q);
    }
  }

  lemma OtherHalfKept(a: Arithmetic, how: Removal, b: Book, side: Side, no: int64, other: int64, q: int)
    requires WellFormed(b) && Indexes(b, side, no) && Indexes(b, side.Opposite(), other)
    ensures var r := Remove(a, how, b, side, no, q);
            && r.Of(side.Opposite()) == b.Of(side.Opposite()) && Indexes(r, side.Opposite(), other)
            && (other > 0 ==> (other in r.index <==> other in b.index))
            && (other > 0 && other in b.index ==> r.index[other] == b.index[other])
  {
  }

  /** What a report does to one ladder is what its own half does. */
  lemma HalfOfBoth(a: Arithmetic, how: Removal, b: Book, buyNo: int64, sellNo: int64, q: int, side: Side)
    requires WellFormed(b) && OwnSides(b, buyNo, sellNo)
    ensures RemoveBoth(a, how, b, buyNo, sellNo, q).Of(side)
            == Remove(a, how, b, side, if side.Bid? then buyNo else sellNo, q).Of(side)
  {
    var r := Remove(a, how, b, Bid, buyNo, q);
    OtherHalfKept(a, how, b, Bid, buyNo, sellNo, q);
    if side.Bid? { OtherHalfKept(a, how, r, Ask, sellNo, 0, q); }
  }

  lemma RemoveBothBest(b: Book, mk: Market, how: Removal, buyNo: int64, sellNo: int64, q: int, side: Side)
    requires Refines(b, mk) && BestCursor(side, b.Of(side))
    requires ValidRemoval(mk, Bid, buyNo, q) && ValidRemoval(mk, Ask, sellNo, q)
    ensures OwnSides(b, buyNo, sellNo)
    ensures BestCursor(side, RemoveBoth(Exact, how, b, buyNo, sellNo, q).Of(side))
            <==> RemovalOk(mk, how, side, if side.Bid? then buyNo else sellNo, q)
  {
    RemoveBothRefines(b, mk, how, buyNo, sellNo, q);
    HalfOfBoth(Exact, how, b, buyNo, sellNo, q, side);
    RemoveBest(b, mk, how, side, if side.Bid? then buyNo else sellNo, q);
  }

  lemma AddBest(b: Book, mk: Market, to: Side, no: int64, p: nat, q: int, side: Side)
    requires Refines(b, mk) && BestCursor(side, b.Of(side)) && p < b.Span() && q > 0
    ensures BestCursor(side, Add(Exact, b, to, no, p, q).Of(side))
  {
    BookNonNegative(b, mk);
    if to == side { AddKeepsBest(side, b.Of(side), p, q); }
  }

  lemma DeleteBest(b: Book, mk: Market, no: int64, q: int, side: Side)
    requires Refines(b, mk) && BestCursor(side, b.Of(side))
    requires no in mk.orders && 0 <= q <= mk.orders[no].qty
    ensures var o := mk.orders[no];
            && 0 <= o.price - b.low < b.Span()
            && BestCursor(side, Delete(Exact, b, o.side, o.price - b.low, q).Of(side))
  {
    BookNonNegative(b, mk);
    LiveWithinLevel(b, mk, no);
    var o := mk.orders[no];
    if o.side == side { DeleteKeepsBest(side, b.Of(side), o.price - b.low, q); }
  }

  ghost predicate EventOk(mk: Market, side: Side, e: Event) {
    e.Taken? ==> RemovalOk(mk, e.how, side, if side.Bid? then e.buyNo else e.sellNo, e.q)
  }

  lemma AddedBest(b: Book, mk: Market, side: Side, e: Event)
    requires Refines(b, mk) && BestCursor(side, b.Of(side)) && e.Added? && ValidEvent(b.low, b.high, mk, e)
    ensures LegalEvent(b, e)
    ensures BestCursor(side, StepEvent(Exact, b, e).Of(side)) <==> EventOk(mk, side, e)
  {
    AddBest(b, mk, e.side, e.no, e.price - b.low, e.q, side);
  }

  lemma DeletedBest(b: Book, mk: Market, side: Side, e: Event)
    requires Refines(b, mk) && BestCursor(side, b.Of(side)) && e.Deleted? && ValidEvent(b.low, b.high, mk, e)
    ensures LegalEvent(b, e)
    ensures BestCursor(side, StepEvent(Exact, b, e).Of(side)) <==> EventOk(mk, side, e)
  {
    LiveWithinLevel(b, mk, e.no);
    StepIsDelete(Exact, b, e, e.side, e.price - b.low, e.q);
    DeleteBest(b, mk, e.no, e.q, side);
  }

  lemma TakenBest(b: Book, mk: Market, side: Side, e: Event)
    requires Refines(b, mk) && BestCursor(side, b.Of(side)) && e.Taken? && ValidEvent(b.low, b.high, mk, e)
    ensures LegalEvent(b, e)
    ensures BestCursor(side, StepEvent(Exact, b, e).Of(side)) <==> EventOk(mk, side, e)
  {
    RemoveBothBest(b, mk, e.how, e.buyNo, e.sellNo, e.q, side);
  }

  lemma EventBest(b: Book, mk: Market, side: Side, e: Event)
    requires Refines(b, mk) && BestCursor(side, b.Of(side)) && ValidEvent(b.low, b.high, mk, e)
    ensures LegalEvent(b, e)
    ensures BestCursor(side, StepEvent(Exact, b, e).Of(side)) <==> EventOk(mk, side, e)
  {
    match e
    case Nothing =>
    case Added(_, _, _, _) => AddedBest(b, mk, side, e);
    case Deleted(_, _, _, _) => DeletedBest(b, mk, side, e);
    case Taken(_, _, _, _) => TakenBest(b, mk, side, e);
  }

  /** From a right cursor, a valid message leaves it right if and only if its trades on that side
      respect price priority and, on the ask side, a Shenzhen cancel at the best price drains it. */
  lemma StepBest(b: Book, mk: Market, side: Side, m: Body)
    requires Refines(b, mk) && BestCursor(side, b.Of(side)) && Valid(b.low, b.high, mk, m)
    ensures Legal(b, m)
    ensures BestCursor(side, Step(Exact, b, m).Of(side))
            <==> Priority(b.low, b.high, mk, side, m) && (side.Ask? ==> Drains(b.low, b.high, mk, m))
  {
    HandlersFollowMeaning(Exact, b, m);
    EventBest(b, mk, side, Meaning(b.low, b.high, m));
  }

  // ---------- without price priority ----------

  /** The cursor is null or at a level with something in it; it need not be the best one. */
  ghost predicate LiveCursor(h: Half) {
    HalfOk(h, |h.qty|) && (h.best != NULL ==> h.qty[h.best] > 0)
  }

  ghost predicate Sane(b: Book) {
    && WellFormed(b)
    && NonNegative(b.bid) && NonNegative(b.ask)
    && LiveCursor(b.bid) && LiveCursor(b.ask)
  }

  /** A level value the arithmetic can represent without going negative. */
  predicate Holds(a: Arithmetic, level: int) {
    0 <= level && (a.Wrapping? ==> level <= MAX_INT32)
  }

  predicate SafeRemoval(a: Arithmetic, b: Book, side: Side, no: int64, q: int)
    requires WellFormed(b)
  {
    no > 0 && no in b.index ==> Holds(a, b.Of(side).qty[b.index[no].level] - q)
  }

  /** Adds are positive, numbers are on their own sides and removals by number do not exceed their level;
      Shanghai deletes, which are
      clamped, may carry any quantity. Nothing is assumed about priority or live orders. */
  predicate SafeEvent(a: Arithmetic, b: Book, e: Event)
    requires WellFormed(b) && LegalEvent(b, e)
  {
    match e
    case Added(side, _, price, q) => q > 0 && Holds(a, b.Of(side).qty[price - b.low] + q)
    case Taken(_, buyNo, sellNo, q) =>
      OwnSides(b, buyNo, sellNo) && SafeRemoval(a, b, Bid, buyNo, q) && SafeRemoval(a, b, Ask, sellNo, q)
    case _ => true
  }

  predicate Safe(a: Arithmetic, b: Book, m: Body)
    requires WellFormed(b)
  {
    var e := Meaning(b.low, b.high, m);
    LegalEvent(b, e) && SafeEvent(a, b, e)
  }

  lemma AddStaysLive(a: Arithmetic, side: Side, h: Half, p: nat, q: int)
    requires LiveCursor(h) && NonNegative(h) && p < |h.qty| && q > 0 && Holds(a, h.qty[p] + q)
    ensures LiveCursor(AddHalf(a, side, h, p, q)) && NonNegative(AddHalf(a, side, h, p, q))
  {
    NarrowingIsExact(a, h.qty[p], q);
  }

  lemma DeleteStaysLive(a: Arithmetic, side: Side, h: Half, p: nat, q: int)
    requires LiveCursor(h) && NonNegative(h) && p < |h.qty|
    ensures LiveCursor(DeleteHalf(a, side, h, p, q)) && NonNegative(DeleteHalf(a, side, h, p, q))
  {
  }

  lemma RemoveStaysLive(a: Arithmetic, how: Removal, side: Side, h: Half, p: nat, q: int)
    requires LiveCursor(h) && NonNegative(h) && p < |h.qty| && Holds(a, h.qty[p] - q)
    ensures LiveCursor(RemoveHalf(a, how, side, h, p, q)) && NonNegative(RemoveHalf(a, how, side, h, p, q))
  {
    NarrowingIsExact(a, h.qty[p], q);
  }

  lemma RemoveBothSane(a: Arithmetic, how: Removal, b: Book, buyNo: int64, sellNo: int64, q: int)
    requires Sane(b) && OwnSides(b, buyNo, sellNo)
    requires SafeRemoval(a, b, Bid, buyNo, q) && SafeRemoval(a, b, Ask, sellNo, q)
    ensures Sane(RemoveBoth(a, how, b, buyNo, sellNo, q))
  {
    if buyNo > 0 && buyNo in b.index { RemoveStaysLive(a, how, Bid, b.bid, b.index[buyNo].level, q); }
    if sellNo > 0 && sellNo in b.index { RemoveStaysLive(a, how, Ask, b.ask, b.index[sellNo].level, q); }
  }

  lemma AddedSane(a: Arithmetic, b: Book, e: Event)
    requires Sane(b) && e.Added? && LegalEvent(b, e) && SafeEvent(a, b, e)
    ensures Sane(StepEvent(a, b, e))
  {
    AddStaysLive(a, e.side, b.Of(e.side), e.price - b.low, e.q);
  }

  lemma DeletedSane(a: Arithmetic, b: Book, e: Event)
    requires Sane(b) && e.Deleted? && LegalEvent(b, e) && SafeEvent(a, b, e)
    ensures Sane(StepEvent(a, b, e))
  {
    DeleteStaysLive(a, e.side, b.Of(e.side), e.price - b.low, e.q);
  }

  lemma EventSane(a: Arithmetic, b: Book, e: Event)
    requires Sane(b) && LegalEvent(b, e) && SafeEvent(a, b, e)
    ensures Sane(StepEvent(a, b, e))
  {
    match e
    case Nothing =>
    case Added(_, _, _, _) => AddedSane(a, b, e);
    case Deleted(_, _, _, _) => DeletedSane(a, b, e);
    case Taken(how, buyNo, sellNo, q) => RemoveBothSane(a, how, b, buyNo, sellNo, q);
  }

  /** Quantities stay non-negative and cursors stay at filled levels, whatever the prices traded. */
  lemma StepSane(a: Arithmetic, b: Book, m: Body)
    requires Sane(b) && Safe(a, b, m)
    ensures Legal(b, m) && Sane(Step(a, b, m))
  {
    HandlersFollowMeaning(a, b, m);
    EventSane(a, b, Meaning(b.low, b.high, m));
  }

  ghost predicate SafeRun(a: Arithmetic, b: Book, ms: seq<Body>)
    requires WellFormed(b)
    decreases |ms|
  {
    ms != [] ==>
      && Safe(a, b, ms[0])
      && (HandlersFollowMeaning(a, b, ms[0]); SafeRun(a, Step(a, b, ms[0]), ms[1..]))
  }

  lemma {:induction false} RunSane(a: Arithmetic, b: Book, ms: seq<Body>)
    requires Sane(b) && SafeRun(a, b, ms)
    ensures LegalRun(a, b, ms) && Sane(Run(a, b, ms))
    decreases |ms|
  {
    if ms == [] {
    } else {
      StepSane(a, b, ms[0]);
      RunSane(a, Step(a, b, ms[0]), ms[1..]);
    }
  }

  lemma RemovalIsSafe(b: Book, mk: Market, side: Side, no: int64, q: int)
    requires Refines(b, mk) && ValidRemoval(mk, side, no, q)
    ensures SafeRemoval(Exact, b, side, no, q)
  {
    if no > 0 && no in mk.orders { LiveWithinLevel(b, mk, no); }
  }

  /** Feed discipline implies the weaker safety used here. */
  lemma ValidIsSafe(b: Book, mk: Market, m: Body)
    requires Refines(b, mk) && Valid(b.low, b.high, mk, m)
    ensures Safe(Exact, b, m)
  {
    var e := Meaning(b.low, b.high, m);
    EventRefines(b, mk, e);
    match e
    case Added(side, no, price, q) => BookNonNegative(b, mk);
    case Taken(how, buyNo, sellNo, q) =>
      RemoveBothRefines(b, mk, how, buyNo, sellNo, q);
      RemovalIsSafe(b, mk, Bid, buyNo, q);
      RemovalIsSafe(b, mk, Ask, sellNo, q);
    case _ =>
  }
}

/** Whole runs from the empty book, and the 32-bit arithmetic they really use. */
module Runs {
  import opened Machine
  import opened BookModel
  import opened Events
  import opened Orders
  import opened Refinement
  import opened Cursors

  /** The cursors a discipline is strong enough to keep right. */
  ghost predicate Cursored(b: Book, d: Discipline) {
    && (d.bidPriority ==> BestCursor(Bid, b.bid))
    && (d.askPriority && d.drains ==> BestCursor(Ask, b.ask))
  }

  lemma EmptyRefines(low: uint32, high: uint32, d: Discipline)
    requires ProperLimits(low, high)
    ensures Refines(Empty(low, high), NoOrders()) && Cursored(Empty(low, high), d)
  {
    LevelCorrespondence(low, high, 0);
    TotalZero(Empty(low, high).bid.qty);
  }

  lemma {:induction false} RunRefines(b: Book, mk: Market, d: Discipline, ms: seq<Body>)
    requires Refines(b, mk) && Cursored(b, d) && KeepsAll(b.low, b.high, mk, d, ms)
    ensures LegalRun(Exact, b, ms)
    ensures Refines(Run(Exact, b, ms), ApplyAll(b.low, b.high, mk, ms))
    ensures Cursored(Run(Exact, b, ms), d)
    decreases |ms|
  {
    if ms == [] {
    } else {
      StepRefines(b, mk, ms[0]);
      if d.bidPriority { StepBest(b, mk, Bid, ms[0]); }
      if d.askPriority && d.drains { StepBest(b, mk, Ask, ms[0]); }
      RunRefines(Step(Exact, b, ms[0]), Apply(b.low, b.high, mk, ms[0]), d, ms[1..]);
    }
  }

  // ---------- 32-bit quantities ----------

  /** No price has more outstanding than a signed 32-bit level can hold. */
  ghost predicate Fits(mk: Market) {
    forall side, price :: Sum(mk.orders, At(side, price)) <= MAX_INT32
  }

  ghost predicate FitsAll(low: uint32, high: uint32, mk: Market, ms: seq<Body>)
    decreases |ms|
  {
    Fits(mk) && (ms != [] ==> FitsAll(low, high, Apply(low, high, mk, ms[0]), ms[1..]))
  }

  ghost predicate HalfFits(h: Half) {
    forall l :: 0 <= l < |h.qty| ==> h.qty[l] <= MAX_INT32
  }

  /** A book in step with its market fits exactly when the market does. */
  lemma FitsIsHalfFits(b: Book, mk: Market)
    requires Refines(b, mk)
    ensures Fits(mk) <==> HalfFits(b.bid) && HalfFits(b.ask)
  {
    if HalfFits(b.bid) && HalfFits(b.ask) {
      forall side, price ensures Sum(mk.orders, At(side, price)) <= MAX_INT32 {
        SumBounds(mk.orders, At(side, price));
        if Sum(mk.orders, At(side, price)) > 0 {
          var no :| no in mk.orders && At(side, price).Covers(mk.orders[no]);
          LiveWithinLevel(b, mk, no);
          assert b.Of(side).qty[price - b.low] == Sum(mk.orders, At(side, b.low + (price - b.low)));
        }
      }
    } else {
      assert forall l :: 0 <= l < |b.bid.qty| ==> b.bid.qty[l] == Sum(mk.orders, At(Bid, b.low + l));
      assert forall l :: 0 <= l < |b.ask.qty| ==> b.ask.qty[l] == Sum(mk.orders, At(Ask, b.low + l));
    }
  }

  lemma HalfStaysFit(side: Side, h: Half, p: nat, q: int, how: Removal)
    requires HalfOk(h, |h.qty|) && p < |h.qty| && HalfFits(h)
    ensures HalfFits(AddHalf(Wrapping, side, h, p, q))
    ensures HalfFits(DeleteHalf(Wrapping, side, h, p, q))
    ensures HalfFits(RemoveHalf(Wrapping, how, side, h, p, q))
  {
  }

  lemma RemoveStaysFit(b: Book, how: Removal, side: Side, no: int64, q: int)
    requires WellFormed(b) && HalfFits(b.bid) && HalfFits(b.ask) && (how.Trade? ==> Indexes(b, side, no))
    ensures HalfFits(Remove(Wrapping, how, b, side, no, q).bid) && HalfFits(Remove(Wrapping, how, b, side, no, q).ask)
  {
    if no > 0 && no in b.index {
      HalfStaysFit(b.index[no].side, b.Of(b.index[no].side), b.index[no].level, q, how);
    }
  }

  /** Whatever arrives, 32-bit levels stay 32-bit. */
  lemma EventStaysFit(b: Book, e: Event)
    requires WellFormed(b) && LegalEvent(b, e) && HalfFits(b.bid) && HalfFits(b.ask)
    ensures HalfFits(StepEvent(Wrapping, b, e).bid) && HalfFits(StepEvent(Wrapping, b, e).ask)
  {
    match e
    case Nothing =>
    case Added(side, _, price, q) => HalfStaysFit(side, b.Of(side), price - b.low, q, Trade);
    case Deleted(side, _, price, q) => HalfStaysFit(side, b.Of(side), price - b.low, q, Trade);
    case Taken(how, buyNo, sellNo, q) =>
      RemoveStaysFit(b, how, Bid, buyNo, q);
      RemoveStaysFit(Remove(Wrapping, how, b, Bid, buyNo, q), how, Ask, sellNo, q);
  }

  lemma AddNarrows(b: Book, side: Side, no: int64, p: nat, q: int)
    requires WellFormed(b) && p < b.Span()
    requires NonNegative(b.Of(side)) && q > 0
    requires b.Of(side).qty[p] + q <= MAX_INT32
    ensures Add(Wrapping, b, side, no, p, q) == Add(Exact, b, side, no, p, q)
  {
    NarrowingIsExact(Wrapping, b.Of(side).qty[p], q);
  }

  lemma RemoveNarrows(b: Book, mk: Market, how: Removal, side: Side, no: int64, q: int)
    requires Refines(b, mk) && ValidRemoval(mk, side, no, q) && HalfFits(b.Of(side))
    ensures Indexes(b, side, no)
    ensures Remove(Wrapping, how, b, side, no, q) == Remove(Exact, how, b, side, no, q)
  {
    if no > 0 && no in mk.orders {
      LiveWithinLevel(b, mk, no);
      var level := b.Of(side).qty[mk.orders[no].price - b.low];
      NarrowingIsExact(Wrapping, level, q);
      assert Wrapping.Minus(level, q) == Exact.Minus(level, q);
    }
  }

  lemma RemoveBothNarrows(b: Book, mk: Market, how: Removal, buyNo: int64, sellNo: int64, q: int)
    requires Refines(b, mk) && ValidRemoval(mk, Bid, buyNo, q) && ValidRemoval(mk, Ask, sellNo, q)
    requires HalfFits(b.bid) && HalfFits(b.ask)
    ensures OwnSides(b, buyNo, sellNo)
    ensures RemoveBoth(Wrapping, how, b, buyNo, sellNo, q) == RemoveBoth(Exact, how, b, buyNo, sellNo, q)
  {
    RemoveRefines(b, mk, how, Ask, sellNo, q);
    RemoveRefines(b, mk, how, Bid, buyNo, q);
    ReduceKeepsOther(mk, how, buyNo, sellNo, q);
    RemoveNarrows(b, mk, how, Bid, buyNo, q);
    RemoveNarrows(Remove(Exact, how, b, Bid, buyNo, q), ReduceNo(mk, how, buyNo, q), how, Ask, sellNo, q);
  }

  lemma DeleteNarrows(b: Book, mk: Market, no: int64, q: int)
    requires Refines(b, mk) && no in mk.orders && 0 <= q <= mk.orders[no].qty
    requires HalfFits(b.bid) && HalfFits(b.ask)
    ensures var o := mk.orders[no];
            && 0 <= o.price - b.low < b.Span()
            && Delete(Wrapping, b, o.side, o.price - b.low, q) == Delete(Exact, b, o.side, o.price - b.low, q)
  {
    LiveWithinLevel(b, mk, no);
    NarrowingIsExact(Wrapping, b.Of(mk.orders[no].side).qty[mk.orders[no].price - b.low], q);
  }

  lemma ResultFits(b: Book, mk: Market, e: Event)
    requires Refines(b, mk) && e.Added? && ValidEvent(b.low, b.high, mk, e) && Fits(Happens(mk, e))
    ensures b.Of(e.side).qty[e.price - b.low] + e.q <= MAX_INT32
  {
    assert b.Of(e.side).qty[e.price - b.low] == Sum(mk.orders, At(e.side, b.low + (e.price - b.low)));
    SumInsert(mk.orders, e.no, Order(e.side, e.price, e.q), At(e.side, e.price));
    assert Sum(Happens(mk, e).orders, At(e.side, e.price)) <= MAX_INT32;
  }

  lemma AddEventNarrows(b: Book, e: Event, p: nat)
    requires WellFormed(b) && e.Added? && p == e.price - b.low && p < b.Span()
    requires NonNegative(b.Of(e.side)) && e.q > 0 && b.Of(e.side).qty[p] + e.q <= MAX_INT32
    ensures StepEvent(Wrapping, b, e) == StepEvent(Exact, b, e)
  {
    AddNarrows(b, e.side, e.no, p, e.q);
  }

  lemma AddedNarrows(b: Book, mk: Market, e: Event)
    requires Refines(b, mk) && e.Added? && ValidEvent(b.low, b.high, mk, e) && Fits(mk) && Fits(Happens(mk, e))
    ensures LegalEvent(b, e)
    ensures StepEvent(Wrapping, b, e) == StepEvent(Exact, b, e)
  {
    BookNonNegative(b, mk);
    ResultFits(b, mk, e);
    AddEventNarrows(b, e, e.price - b.low);
  }

  lemma DeletedNarrows(b: Book, mk: Market, e: Event)
    requires Refines(b, mk) && e.Deleted? && ValidEvent(b.low, b.high, mk, e) && Fits(mk) && Fits(Happens(mk, e))
    ensures LegalEvent(b, e)
    ensures StepEvent(Wrapping, b, e) == StepEvent(Exact, b, e)
  {
    FitsIsHalfFits(b, mk);
    DeleteNarrows(b, mk, e.no, e.q);
  }

  lemma TakenNarrows(b: Book, mk: Market, e: Event)
    requires Refines(b, mk) && e.Taken? && ValidEvent(b.low, b.high, mk, e) && Fits(mk) && Fits(Happens(mk, e))
    ensures LegalEvent(b, e)
    ensures StepEvent(Wrapping, b, e) == StepEvent(Exact, b, e)
  {
    FitsIsHalfFits(b, mk);
    RemoveBothNarrows(b, mk, e.how, e.buyNo, e.sellNo, e.q);
  }

  lemma EventNarrows(b: Book, mk: Market, e: Event)
    requires Refines(b, mk) && ValidEvent(b.low, b.high, mk, e) && Fits(mk)
    ensures LegalEvent(b, e)
    ensures StepEvent(Wrapping, b, e) == StepEvent(Exact, b, e) <==> Fits(Happens(mk, e))
  {
    EventRefines(b, mk, e);
    if Fits(Happens(mk, e)) {
      match e
      case Nothing =>
      case Added(_, _, _, _) => AddedNarrows(b, mk, e);
      case Deleted(_, _, _, _) => DeletedNarrows(b, mk, e);
      case Taken(_, _, _, _) => TakenNarrows(b, mk, e);
    } else {
      FitsIsHalfFits(b, mk);
      FitsIsHalfFits(StepEvent(Exact, b, e), Happens(mk, e));
      EventStaysFit(b, e);
    }
  }

  /** On a valid message the machine computes the mathematical book if and only if every level of the
      result fits in 32 bits: nothing depends on how large the 64-bit message quantity is. */
  lemma StepNarrows(b: Book, mk: Market, m: Body)
    requires Refines(b, mk) && Valid(b.low, b.high, mk, m) && Fits(mk)
    ensures Legal(b, m)
    ensures Step(Wrapping, b, m) == Step(Exact, b, m) <==> Fits(Apply(b.low, b.high, mk, m))
  {
    EventNarrows(b, mk, Meaning(b.low, b.high, m));
    HandlersFollowMeaning(Wrapping, b, m);
    HandlersFollowMeaning(Exact, b, m);
  }

  lemma FittingStep(b: Book, mk: Market, m: Body)
    requires Refines(b, mk) && Valid(b.low, b.high, mk, m) && Fits(mk) && Fits(Apply(b.low, b.high, mk, m))
    ensures Legal(b, m) && Step(Wrapping, b, m) == Step(Exact, b, m)
    ensures Refines(Step(Exact, b, m), Apply(b.low, b.high, mk, m))
  {
    StepRefines(b, mk, m);
    StepNarrows(b, mk, m);
  }

  /** A valid run whose levels always fit gives the same book in 32 bits as in mathematics. */
  lemma {:induction false} RunNarrows(b: Book, mk: Market, d: Discipline, ms: seq<Body>)
    requires Refines(b, mk) && KeepsAll(b.low, b.high, mk, d, ms) && FitsAll(b.low, b.high, mk, ms)
    ensures LegalRun(Wrapping, b, ms) && LegalRun(Exact, b, ms)
    ensures Run(Wrapping, b, ms) == Run(Exact, b, ms)
    decreases |ms|
  {
    if ms == [] {
    } else {
      FittingStep(b, mk, ms[0]);
      RunNarrows(Step(Exact, b, ms[0]), Apply(b.low, b.high, mk, ms[0]), d, ms[1..]);
    }
  }

  lemma RunInMachine(b: Book, mk: Market, d: Discipline, ms: seq<Body>)
    requires Refines(b, mk) && Cursored(b, d)
    requires KeepsAll(b.low, b.high, mk, d, ms) && FitsAll(b.low, b.high, mk, ms)
    ensures LegalRun(Wrapping, b, ms)
    ensures Refines(Run(Wrapping, b, ms), ApplyAll(b.low, b.high, mk, ms)) && Cursored(Run(Wrapping, b, ms), d)
  {
    RunRefines(b, mk, d, ms);
    RunNarrows(b, mk, d, ms);
  }

  /** Every state the machine reaches on a valid run that fits, from the empty book: each level is the
      sum of its live orders, every live order is indexed at its own level, nothing is created or lost,
      and the cursors the discipline supports are at the best live prices. */
  lemma MachineRunRefines(low: uint32, high: uint32, d: Discipline, ms: seq<Body>)
    requires ProperLimits(low, high)
    requires KeepsAll(low, high, NoOrders(), d, ms) && FitsAll(low, high, NoOrders(), ms)
    ensures WellFormed(Empty(low, high)) && LegalRun(Wrapping, Empty(low, high), ms)
    ensures Refines(Run(Wrapping, Empty(low, high), ms), ApplyAll(low, high, NoOrders(), ms))
    ensures Cursored(Run(Wrapping, Empty(low, high), ms), d)
  {
    EmptyRefines(low, high, d);
    RunInMachine(Empty(low, high), NoOrders(), d, ms);
  }

  // ---------- the clamp ----------

  lemma DeletedLevel(b: Book, mk: Market, m: Body)
    requires Refines(b, mk) && Valid(b.low, b.high, mk, m)
    requires m.OrderSH? && m.ordType == 'D' && SideSH(m.side).Known?
    ensures var h, p := b.Of(SideSH(m.side).side), LevelOf(b.low, m.price);
            p < |h.qty| && 0 <= m.orderQty <= h.qty[p]
  {
    assert Meaning(b.low, b.high, m) == Deleted(SideSH(m.side).side, m.orderNo, ToUint32(m.price), m.orderQty);
    LiveWithinLevel(b, mk, m.orderNo);
    LevelCorrespondence(b.low, b.high, m.price);
  }

  lemma ClampOfLevel(a: Arithmetic, level: int, q: int)
    requires 0 <= q <= level && (a.Wrapping? ==> level <= MAX_INT32)
    ensures Max(0, a.Minus(level, q)) == level - q
  {
    NarrowingIsExact(a, level, q);
  }

  /** On a valid Shanghai delete the clamp at zero changes nothing, in mathematics and, where the levels
      fit, in 32 bits. */
  lemma ClampIsIdle(a: Arithmetic, b: Book, mk: Market, m: Body)
    requires Refines(b, mk) && Valid(b.low, b.high, mk, m) && (a.Wrapping? ==> Fits(mk))
    requires m.OrderSH? && m.ordType == 'D' && SideSH(m.side).Known?
    ensures var h, p := b.Of(SideSH(m.side).side), LevelOf(b.low, m.price);
            p < |h.qty| && Max(0, a.Minus(h.qty[p], m.orderQty)) == h.qty[p] - m.orderQty
  {
    DeletedLevel(b, mk, m);
    FitsIsHalfFits(b, mk);
    ClampOfLevel(a, b.Of(SideSH(m.side).side).qty[LevelOf(b.low, m.price)], m.orderQty);
  }

  /** The clamp changes nothing in any state the machine reaches on a valid run that fits. */
  lemma ClampStaysIdle(low: uint32, high: uint32, d: Discipline, ms: seq<Body>, m: Body)
    requires ProperLimits(low, high)
    requires KeepsAll(low, high, NoOrders(), d, ms) && FitsAll(low, high, NoOrders(), ms)
    requires Valid(low, high, ApplyAll(low, high, NoOrders(), ms), m)
    requires m.OrderSH? && m.ordType == 'D' && SideSH(m.side).Known?
    ensures WellFormed(Empty(low, high)) && LegalRun(Wrapping, Empty(low, high), ms)
    ensures var h, p := Run(Wrapping, Empty(low, high), ms).Of(SideSH(m.side).side), LevelOf(low, m.price);
            p < |h.qty| && Max(0, Wrapping.Minus(h.qty[p], m.orderQty)) == h.qty[p] - m.orderQty
  {
    MachineRunRefines(low, high, d, ms);
    LastFits(low, high, NoOrders(), ms);
    ClampIsIdle(Wrapping, Run(Wrapping, Empty(low, high), ms), ApplyAll(low, high, NoOrders(), ms), m);
  }

  lemma {:induction false} LastFits(low: uint32, high: uint32, mk: Market, ms: seq<Body>)
    requires FitsAll(low, high, mk, ms)
    ensures Fits(ApplyAll(low, high, mk, ms))
    decreases |ms|
  {
    if ms == [] {
    } else {
      LastFits(low, high, Apply(low, high, mk, ms[0]), ms[1..]);
    }
  }
}

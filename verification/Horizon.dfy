/** What a snapshot shows after any valid run, right or wrong. Each side has a horizon: a price such that
    the snapshot is exactly the best levels of the live orders not better than it. Which messages move it,
    and where to, is said of the live orders alone. */
module Horizon {
  import opened Machine
  import opened BookModel
  import opened Events
  import opened Orders
  import opened Refinement
  import opened Cursors
  import opened Runs
  import opened Snapshot

  // ---------- one ladder ----------

  /** The cursor is the first filled level at or after `from`, towards worse prices; null if and only if
      there is none. */
  ghost predicate Sees(side: Side, h: Half, from: int) {
    && HalfOk(h, |h.qty|)
    && (h.best != NULL ==> h.qty[h.best] > 0 && !side.Better(h.best, from))
    && forall l :: 0 <= l < |h.qty| && !side.Better(l, from) && (h.best == NULL || side.Better(l, h.best)) ==>
         h.qty[l] <= 0
  }

  /** The quantities and `from` leave no choice of cursor. */
  lemma SeesOneCursor(side: Side, x: Half, y: Half, from: int)
    requires Sees(side, x, from) && Sees(side, y, from) && x.qty == y.qty
    ensures x == y
  {
  }

  lemma AddSees(a: Arithmetic, side: Side, h: Half, p: nat, q: int, from: int)
    requires Sees(side, h, from) && p < |h.qty| && a.Plus(h.qty[p], q) > 0
    ensures Sees(side, AddHalf(a, side, h, p, q), if h.best == NULL || side.Better(p, h.best) then p else from)
  {
  }

  /** A delete of any quantity, however much more than there is, keeps what the cursor looks for. */
  lemma DeleteSees(a: Arithmetic, side: Side, h: Half, p: nat, q: int, from: int)
    requires Sees(side, h, from) && p < |h.qty| && a.Minus(h.qty[p], q) <= h.qty[p]
    ensures Sees(side, DeleteHalf(a, side, h, p, q), from)
  {
    if p == h.best { ScanSkipsEmpty(side, h.qty[p := 0], side.Worse(p)); }
  }

  /** A trade of any quantity, from any cursor: the first filled level from the traded one on. */
  lemma TradeSees(a: Arithmetic, side: Side, h: Half, p: nat, q: int)
    requires HalfOk(h, |h.qty|) && p < |h.qty|
    ensures Sees(side, TradeHalf(a, side, h, p, q), p)
  {
    ScanSkipsEmpty(side, h.qty[p := a.Minus(h.qty[p], q)], p);
  }

  /** A buy cancel keeps what the cursor looks for; a sell cancel at the cursor looks past it, whether or
      not anything is left there. */
  lemma CancelSees(a: Arithmetic, side: Side, h: Half, p: nat, q: int, from: int)
    requires Sees(side, h, from) && p < |h.qty| && a.Minus(h.qty[p], q) <= h.qty[p]
    ensures Sees(side, CancelHalf(a, side, h, p, q), if side.Ask? && p == h.best then p + 1 else from)
  {
    if p == h.best { ScanSkipsEmpty(side, h.qty[p := a.Minus(h.qty[p], q)], if side.Bid? then p else p + 1); }
  }

  /** A cancel by a number of the other ladder moves no cursor, which is still right for what it looked
      for exactly if it does not drain the cursor's level. */
  lemma ElsewhereSees(a: Arithmetic, how: Removal, side: Side, h: Half, p: nat, q: int, from: int)
    requires Sees(side, h, from) && p < |h.qty| && a.Minus(h.qty[p], q) <= h.qty[p]
    ensures Sees(side, TakeHalf(a, how, false, side, h, p, q), from) <==> p != h.best || a.Minus(h.qty[p], q) > 0
  {
    var h' := TakeHalf(a, how, false, side, h, p, q);
    if p == h.best { assert h'.best == p; }
  }

  // ---------- the live orders a side shows ----------

  predicate IsShown(side: Side, from: int, o: Order) {
    o.side == side && !side.Better(o.price, from)
  }

  /** The live orders of a side at or behind its horizon. */
  function Shown(orders: map<int64, Order>, side: Side, from: int): map<int64, Order> {
    map no | no in orders && IsShown(side, from, orders[no]) :: orders[no]
  }

  /** Leaving out orders a sum does not cover does not change it. */
  lemma {:induction false} SumKept(orders: map<int64, Order>, kept: map<int64, Order>, scope: Scope)
    requires forall no :: no in kept ==> no in orders && kept[no] == orders[no]
    requires forall no :: no in orders && no !in kept ==> !scope.Covers(orders[no])
    ensures Sum(kept, scope) == Sum(orders, scope)
    decreases |orders|
  {
    if orders == map[] {
      assert kept == map[];
    } else {
      var no := Pick(orders);
      assert (orders - {no}).Keys == orders.Keys - {no};
      SumSplit(orders, no, scope);
      if no in kept {
        SumSplit(kept, no, scope);
        SumKept(orders - {no}, kept - {no}, scope);
      } else {
        SumKept(orders - {no}, kept, scope);
      }
    }
  }

  lemma SumShown(orders: map<int64, Order>, side: Side, from: int, price: int)
    requires !side.Better(price, from)
    ensures Sum(Shown(orders, side, from), At(side, price)) == Sum(orders, At(side, price))
  {
    SumKept(orders, Shown(orders, side, from), At(side, price));
  }

  ghost predicate BookSees(b: Book, side: Side, from: int) {
    Sees(side, b.Of(side), from - b.low)
  }

  /** A shown order is at the cursor or behind it. */
  lemma ShownIsBehind(b: Book, mk: Market, side: Side, from: int, no: int64)
    requires Refines(b, mk) && BookSees(b, side, from) && no in mk.orders && IsShown(side, from, mk.orders[no])
    ensures b.Of(side).best != NULL && !side.Better(mk.orders[no].price - b.low, b.Of(side).best)
    ensures 0 <= mk.orders[no].price - b.low < |b.Of(side).qty| && b.Of(side).qty[mk.orders[no].price - b.low] > 0
  {
    LiveWithinLevel(b, mk, no);
  }

  /** The snapshot of a side is the best levels of what its horizon shows. */
  lemma SnapshotOfShown(b: Book, mk: Market, side: Side, from: int, depth: nat)
    requires Refines(b, mk) && Sane(b) && BookSees(b, side, from) && depth >= 1
    ensures IsDepth(Shown(mk.orders, side, from), side, depth, GetPxList(b, depth).Of(side))
  {
    var h, out, shown := b.Of(side), GetPxList(b, depth).Of(side), Shown(mk.orders, side, from);
    SnapshotShape(b, side, depth);
    forall no | no in shown && shown[no].side == side ensures Accounts(side, out, depth, shown[no].price) {
      ShownIsBehind(b, mk, side, from, no);
      assert Lists(side, b.low, h.qty, h.best, depth, out);
    }
    forall i | 0 <= i < |out| ensures out[i].qty == Sum(shown, At(side, out[i].price)) && out[i].qty > 0 {
      assert h.qty[out[i].price - b.low] == Sum(mk.orders, At(side, b.low + (out[i].price - b.low)));
      SumShown(mk.orders, side, from, out[i].price);
    }
    if h.best == NULL { assert out == []; }
  }

  // ---------- where the horizon goes ----------

  /** Everything a side shows is worse than this price. */
  ghost predicate AheadOfShown(mk: Market, side: Side, from: int, price: int) {
    forall k :: k in mk.orders && IsShown(side, from, mk.orders[k]) ==> side.Better(price, mk.orders[k].price)
  }

  /** Order `no` is shown, and nothing shown is better. */
  ghost predicate FirstShown(mk: Market, side: Side, from: int, no: int64)
    requires no in mk.orders
  {
    && IsShown(side, from, mk.orders[no])
    && forall k :: k in mk.orders && IsShown(side, from, mk.orders[k]) ==>
         !side.Better(mk.orders[k].price, mk.orders[no].price)
  }

  function NumberOf(e: Event, side: Side): int64
    requires e.Taken?
  {
    if side.Bid? then e.buyNo else e.sellNo
  }

  /** The horizon after an event. An order better than all that is shown brings it to its price; a trade
      brings it to the traded price; a cancel of the best sell order shown takes it one price further;
      nothing else moves it. */
  ghost function Next(mk: Market, side: Side, from: int, e: Event): int {
    match e
    case Nothing => from
    case Deleted(_, _, _, _) => from
    case Added(to, _, price, _) => if to == side && AheadOfShown(mk, side, from, price) then price else from
    case Taken(how, _, _, _) =>
      var no := NumberOf(e, side);
      if no <= 0 || no !in mk.orders then from
      else if how.Trade? then mk.orders[no].price
      else if side.Ask? && FirstShown(mk, side, from, no) then mk.orders[no].price + 1
      else from
  }

  lemma AheadIsAhead(b: Book, mk: Market, side: Side, from: int, price: int)
    requires Refines(b, mk) && BookSees(b, side, from)
    ensures AheadOfShown(mk, side, from, price)
            <==> b.Of(side).best == NULL || side.Better(price - b.low, b.Of(side).best)
  {
    var best := b.Of(side).best;
    if best == NULL || side.Better(price - b.low, best) {
      forall k | k in mk.orders && IsShown(side, from, mk.orders[k]) ensures side.Better(price, mk.orders[k].price) {
        ShownIsBehind(b, mk, side, from, k);
      }
    } else {
      var k := FilledIsLive(b, mk, side, best);
      assert IsShown(side, from, mk.orders[k]);
    }
  }

  lemma FirstIsAtCursor(b: Book, mk: Market, side: Side, from: int, no: int64)
    requires Refines(b, mk) && BookSees(b, side, from) && no in mk.orders && mk.orders[no].side == side
    ensures FirstShown(mk, side, from, no) <==> mk.orders[no].price - b.low == b.Of(side).best
  {
    var best := b.Of(side).best;
    LiveWithinLevel(b, mk, no);
    if mk.orders[no].price - b.low == best {
      forall k | k in mk.orders && IsShown(side, from, mk.orders[k])
        ensures !side.Better(mk.orders[k].price, mk.orders[no].price)
      {
        ShownIsBehind(b, mk, side, from, k);
      }
    } else if FirstShown(mk, side, from, no) {
      ShownIsBehind(b, mk, side, from, no);
      var k := FilledIsLive(b, mk, side, best);
      assert IsShown(side, from, mk.orders[k]);
    }
  }

  lemma AddedSees(b: Book, mk: Market, side: Side, from: int, e: Event)
    requires Refines(b, mk) && BookSees(b, side, from) && e.Added? && ValidEvent(b.low, b.high, mk, e)
    ensures LegalEvent(b, e) && BookSees(StepEvent(Exact, b, e), side, Next(mk, side, from, e))
  {
    var p := e.price - b.low;
    StepIsAdd(Exact, b, e, e.side, p, e.q);
    if e.side == side {
      AheadIsAhead(b, mk, side, from, e.price);
      BookNonNegative(b, mk);
      AddSees(Exact, side, b.Of(side), p, e.q, from - b.low);
    }
  }

  lemma DeletedSees(b: Book, mk: Market, side: Side, from: int, e: Event)
    requires Refines(b, mk) && BookSees(b, side, from) && e.Deleted? && ValidEvent(b.low, b.high, mk, e)
    ensures LegalEvent(b, e) && BookSees(StepEvent(Exact, b, e), side, Next(mk, side, from, e))
  {
    LiveWithinLevel(b, mk, e.no);
    var p := e.price - b.low;
    StepIsDelete(Exact, b, e, e.side, p, e.q);
    if e.side == side { DeleteSees(Exact, side, b.Of(side), p, e.q, from - b.low); }
  }

  lemma LadderSees(b: Book, mk: Market, how: Removal, side: Side, from: int, no: int64, p: nat, q: int)
    requires Refines(b, mk) && BookSees(b, side, from) && no in mk.orders && mk.orders[no].side == side
    requires p == mk.orders[no].price - b.low && 0 <= q <= mk.orders[no].qty
    ensures p < |b.Of(side).qty|
    ensures Sees(side, RemoveHalf(Exact, how, side, b.Of(side), p, q),
                 if how.Trade? then p else if side.Ask? && FirstShown(mk, side, from, no) then p + 1 else from - b.low)
  {
    LiveWithinLevel(b, mk, no);
    FirstIsAtCursor(b, mk, side, from, no);
    match how
    case Trade => TradeSees(Exact, side, b.Of(side), p, q);
    case Cancel => CancelSees(Exact, side, b.Of(side), p, q, from - b.low);
  }

  lemma RemovalSees(b: Book, mk: Market, how: Removal, side: Side, from: int, no: int64, q: int, next: int)
    requires Refines(b, mk) && BookSees(b, side, from) && ValidRemoval(mk, side, no, q)
    requires next == if no <= 0 || no !in mk.orders then from
                     else if how.Trade? then mk.orders[no].price
                     else if side.Ask? && FirstShown(mk, side, from, no) then mk.orders[no].price + 1
                     else from
    ensures Indexes(b, side, no) && BookSees(Remove(Exact, how, b, side, no, q), side, next)
  {
    if no > 0 && no in mk.orders {
      var p := mk.orders[no].price - b.low;
      LadderSees(b, mk, how, side, from, no, p, q);
      RemoveAt(Exact, how, b, side, no, p, q);
    }
  }

  lemma ValidOwnSides(b: Book, mk: Market, buyNo: int64, sellNo: int64, q: int)
    requires Refines(b, mk) && ValidRemoval(mk, Bid, buyNo, q) && ValidRemoval(mk, Ask, sellNo, q)
    ensures OwnSides(b, buyNo, sellNo)
  {
  }

  lemma StepIsOwnHalf(b: Book, e: Event, side: Side, no: int64)
    requires WellFormed(b) && e.Taken? && OwnSides(b, e.buyNo, e.sellNo) && no == NumberOf(e, side)
    ensures LegalEvent(b, e) && StepEvent(Exact, b, e).low == Remove(Exact, e.how, b, side, no, e.q).low
    ensures StepEvent(Exact, b, e).Of(side) == Remove(Exact, e.how, b, side, no, e.q).Of(side)
  {
    HalfOfBoth(Exact, e.how, b, e.buyNo, e.sellNo, e.q, side);
  }

  lemma TakenSees(b: Book, mk: Market, side: Side, from: int, e: Event)
    requires Refines(b, mk) && BookSees(b, side, from) && e.Taken? && ValidEvent(b.low, b.high, mk, e)
    ensures LegalEvent(b, e) && BookSees(StepEvent(Exact, b, e), side, Next(mk, side, from, e))
  {
    ValidOwnSides(b, mk, e.buyNo, e.sellNo, e.q);
    StepIsOwnHalf(b, e, side, NumberOf(e, side));
    RemovalSees(b, mk, e.how, side, from, NumberOf(e, side), e.q, Next(mk, side, from, e));
  }

  lemma EventSees(b: Book, mk: Market, side: Side, from: int, e: Event)
    requires Refines(b, mk) && BookSees(b, side, from) && ValidEvent(b.low, b.high, mk, e)
    ensures LegalEvent(b, e) && BookSees(StepEvent(Exact, b, e), side, Next(mk, side, from, e))
  {
    match e
    case Nothing =>
    case Added(_, _, _, _) => AddedSees(b, mk, side, from, e);
    case Deleted(_, _, _, _) => DeletedSees(b, mk, side, from, e);
    case Taken(_, _, _, _) => TakenSees(b, mk, side, from, e);
  }

  lemma StepSees(b: Book, mk: Market, side: Side, from: int, m: Body)
    requires Refines(b, mk) && BookSees(b, side, from) && Valid(b.low, b.high, mk, m)
    ensures Legal(b, m)
    ensures BookSees(Step(Exact, b, m), side, Next(mk, side, from, Meaning(b.low, b.high, m)))
  {
    HandlersFollowMeaning(Exact, b, m);
    EventSees(b, mk, side, from, Meaning(b.low, b.high, m));
  }

  /** One valid message, from any cursor: the snapshot is the best levels of the orders then live that the
      moved horizon shows. */
  lemma StepShows(b: Book, mk: Market, side: Side, from: int, m: Body, depth: nat)
    requires Refines(b, mk) && Sane(b) && BookSees(b, side, from) && Valid(b.low, b.high, mk, m) && depth >= 1
    ensures Legal(b, m)
    ensures IsDepth(Shown(Apply(b.low, b.high, mk, m).orders, side, Next(mk, side, from, Meaning(b.low, b.high, m))),
                    side, depth, GetPxList(Step(Exact, b, m), depth).Of(side))
  {
    StepSees(b, mk, side, from, m);
    StepRefines(b, mk, m);
    ValidIsSafe(b, mk, m);
    StepSane(Exact, b, m);
    SnapshotOfShown(Step(Exact, b, m), Apply(b.low, b.high, mk, m), side,
                    Next(mk, side, from, Meaning(b.low, b.high, m)), depth);
  }

  /** Any live cursor is right for some horizon: its own price, or one past the ladder. */
  function HorizonOf(b: Book, side: Side): int {
    var best := b.Of(side).best;
    if best != NULL then b.low + best else if side.Bid? then b.low - 1 else b.high + 1
  }

  lemma HorizonIsSeen(b: Book, side: Side)
    requires Sane(b)
    ensures BookSees(b, side, HorizonOf(b, side))
  {
  }

  // ---------- the two handlers that lose sight ----------

  lemma NextOfTrade(mk: Market, side: Side, from: int, e: Event, no: int64)
    requires e.Taken? && e.how.Trade? && no == NumberOf(e, side) && no > 0 && no in mk.orders
    ensures Next(mk, side, from, e) == mk.orders[no].price
  {
  }

  /** From any live cursor, right or wrong, a trade of a live order leaves in the snapshot exactly the best
      levels of what is then live at its price or worse. */
  lemma TradeShows(b: Book, mk: Market, side: Side, m: Body, e: Event, no: int64, depth: nat)
    requires Refines(b, mk) && Sane(b) && Valid(b.low, b.high, mk, m) && depth >= 1
    requires e == Meaning(b.low, b.high, m) && e.Taken? && e.how.Trade? && no == NumberOf(e, side)
    requires no > 0 && no in mk.orders
    ensures Legal(b, m)
    ensures IsDepth(Shown(Apply(b.low, b.high, mk, m).orders, side, mk.orders[no].price), side, depth,
                    GetPxList(Step(Exact, b, m), depth).Of(side))
  {
    HorizonIsSeen(b, side);
    NextOfTrade(mk, side, HorizonOf(b, side), e, no);
    StepShows(b, mk, side, HorizonOf(b, side), m, depth);
  }

  lemma BestIsFirst(b: Book, mk: Market, side: Side, no: int64)
    requires Refines(b, mk) && no > 0 && no in mk.orders && mk.orders[no].side == side && AtBest(mk, side, no)
    ensures FirstShown(mk, side, Everything(b.low, b.high, side), no)
  {
    LiveWithinLevel(b, mk, no);
  }

  lemma NextOfSellCancel(mk: Market, side: Side, from: int, e: Event, no: int64)
    requires e.Taken? && e.how.Cancel? && side == Ask && no == e.sellNo
    requires no > 0 && no in mk.orders && FirstShown(mk, side, from, no)
    ensures Next(mk, side, from, e) == mk.orders[no].price + 1
  {
  }

  lemma OwnOrder(mk: Market, low: uint32, high: uint32, m: Body, e: Event, side: Side, no: int64)
    requires e == Meaning(low, high, m) && Valid(low, high, mk, m) && e.Taken? && no == NumberOf(e, side)
    requires no > 0 && no in mk.orders
    ensures mk.orders[no].side == side
  {
  }

  /** From a right ask cursor, a Shenzhen cancel of a sell order at the best price leaves in the snapshot
      exactly the best levels of the asks above that price, however much is still live at it. */
  lemma SellCancelShows(b: Book, mk: Market, side: Side, m: Body, e: Event, no: int64, depth: nat)
    requires Refines(b, mk) && Sane(b) && Valid(b.low, b.high, mk, m) && depth >= 1
    requires side == Ask && BestCursor(side, b.Of(side))
    requires e == Meaning(b.low, b.high, m) && e.Taken? && e.how.Cancel? && no == NumberOf(e, side)
    requires no > 0 && no in mk.orders && AtBest(mk, side, no)
    ensures Legal(b, m)
    ensures IsDepth(Shown(Apply(b.low, b.high, mk, m).orders, side, mk.orders[no].price + 1), side, depth,
                    GetPxList(Step(Exact, b, m), depth).Of(side))
  {
    BestIsSeen(b, side);
    OwnOrder(mk, b.low, b.high, m, e, side, no);
    BestIsFirst(b, mk, side, no);
    NextOfSellCancel(mk, side, Everything(b.low, b.high, side), e, no);
    StepShows(b, mk, side, Everything(b.low, b.high, side), m, depth);
  }

  /** A cancel that names one number in both places: the buyer's half comes first, and if it drains the
      level the seller's half finds nothing. So the bid cursor moves on, and an ask cursor stays where it
      is, right exactly if it was elsewhere. */
  lemma SameNumberTwice(a: Arithmetic, b: Book, side: Side, no: int64, p: nat, q: int, from: int)
    requires WellFormed(b) && BookSees(b, side, from) && no > 0 && no in b.index && b.index[no] == Entry(side, p)
    requires a.Minus(b.Of(side).qty[p], q) <= 0 <= b.Of(side).qty[p]
    ensures BookSees(RemoveBoth(a, Cancel, b, no, no, q), side, from) <==> side.Bid? || p != b.Of(side).best
  {
    var r := Remove(a, Cancel, b, Bid, no, q);
    assert no !in r.index && RemoveBoth(a, Cancel, b, no, no, q) == r;
    assert r.Of(side) == TakeHalf(a, Cancel, side.Bid?, side, b.Of(side), p, q);
    if side.Bid? {
      CancelSees(a, side, b.Of(side), p, q, from - b.low);
    } else {
      ElsewhereSees(a, Cancel, side, b.Of(side), p, q, from - b.low);
    }
  }

  // ---------- every run ----------

  /** The horizon that shows every price within the limits. */
  function Everything(low: uint32, high: uint32, side: Side): int {
    if side.Bid? then high else low
  }

  /** A cursor is right when it is right for that horizon. */
  lemma BestIsSeen(b: Book, side: Side)
    requires WellFormed(b)
    ensures BestCursor(side, b.Of(side)) <==> BookSees(b, side, Everything(b.low, b.high, side))
  {
  }

  ghost function After(low: uint32, high: uint32, mk: Market, side: Side, from: int, ms: seq<Body>): int
    decreases |ms|
  {
    if ms == [] then from
    else After(low, high, Apply(low, high, mk, ms[0]), side, Next(mk, side, from, Meaning(low, high, ms[0])), ms[1..])
  }

  lemma {:induction false} RunSees(b: Book, mk: Market, side: Side, from: int, d: Discipline, ms: seq<Body>)
    requires Refines(b, mk) && BookSees(b, side, from) && KeepsAll(b.low, b.high, mk, d, ms)
    ensures LegalRun(Exact, b, ms) && Refines(Run(Exact, b, ms), ApplyAll(b.low, b.high, mk, ms))
    ensures BookSees(Run(Exact, b, ms), side, After(b.low, b.high, mk, side, from, ms))
    decreases |ms|
  {
    if ms == [] {
    } else {
      StepSees(b, mk, side, from, ms[0]);
      StepRefines(b, mk, ms[0]);
      RunSees(Step(Exact, b, ms[0]), Apply(b.low, b.high, mk, ms[0]), side,
              Next(mk, side, from, Meaning(b.low, b.high, ms[0])), d, ms[1..]);
    }
  }

  /** The orders a side shows after a run from the empty book. */
  ghost function ShownAfter(low: uint32, high: uint32, side: Side, ms: seq<Body>): map<int64, Order> {
    Shown(ApplyAll(low, high, NoOrders(), ms).orders, side,
          After(low, high, NoOrders(), side, Everything(low, high, side), ms))
  }

  /** Both sides of a record list the best levels of what is shown. */
  ghost predicate ShowsHorizon(low: uint32, high: uint32, ms: seq<Body>, depth: nat, r: Record) {
    && IsDepth(ShownAfter(low, high, Bid, ms), Bid, depth, r.Of(Bid))
    && IsDepth(ShownAfter(low, high, Ask, ms), Ask, depth, r.Of(Ask))
  }

  lemma EmptySees(low: uint32, high: uint32, side: Side)
    requires ProperLimits(low, high)
    ensures BookSees(Empty(low, high), side, Everything(low, high, side))
  {
    LevelCorrespondence(low, high, 0);
  }

  /** From any state of the book: after a valid run that fits, each side shows what its moved horizon says. */
  lemma RunShows(b: Book, mk: Market, side: Side, from: int, d: Discipline, ms: seq<Body>, depth: nat)
    requires Refines(b, mk) && Sane(b) && BookSees(b, side, from) && depth >= 1
    requires KeepsAll(b.low, b.high, mk, d, ms) && FitsAll(b.low, b.high, mk, ms)
    ensures LegalRun(Wrapping, b, ms)
    ensures IsDepth(Shown(ApplyAll(b.low, b.high, mk, ms).orders, side, After(b.low, b.high, mk, side, from, ms)),
                    side, depth, GetPxList(Run(Wrapping, b, ms), depth).Of(side))
  {
    RunSees(b, mk, side, from, d, ms);
    ValidRunSane(b, mk, d, ms);
    RunSane(Exact, b, ms);
    RunNarrows(b, mk, d, ms);
    SnapshotOfShown(Run(Exact, b, ms), ApplyAll(b.low, b.high, mk, ms), side,
                    After(b.low, b.high, mk, side, from, ms), depth);
  }

  lemma SideOfEveryRun(low: uint32, high: uint32, b: Book, side: Side, d: Discipline, ms: seq<Body>, depth: nat)
    requires b.low == low && b.high == high && depth >= 1
    requires Refines(b, NoOrders()) && Sane(b) && BookSees(b, side, Everything(low, high, side))
    requires KeepsAll(low, high, NoOrders(), d, ms) && FitsAll(low, high, NoOrders(), ms)
    ensures LegalRun(Wrapping, b, ms)
    ensures IsDepth(ShownAfter(low, high, side, ms), side, depth, GetPxList(Run(Wrapping, b, ms), depth).Of(side))
  {
    RunShows(b, NoOrders(), side, Everything(low, high, side), d, ms, depth);
  }

  lemma BothSidesOfEveryRun(low: uint32, high: uint32, b: Book, d: Discipline, ms: seq<Body>, depth: nat)
    requires b.low == low && b.high == high && depth >= 1 && Refines(b, NoOrders()) && Sane(b)
    requires BookSees(b, Bid, Everything(low, high, Bid)) && BookSees(b, Ask, Everything(low, high, Ask))
    requires KeepsAll(low, high, NoOrders(), d, ms) && FitsAll(low, high, NoOrders(), ms)
    ensures LegalRun(Wrapping, b, ms) && ShowsHorizon(low, high, ms, depth, GetPxList(Run(Wrapping, b, ms), depth))
  {
    SideOfEveryRun(low, high, b, Bid, d, ms, depth);
    SideOfEveryRun(low, high, b, Ask, d, ms, depth);
  }

  lemma EmptyStarts(low: uint32, high: uint32, b: Book)
    requires ProperLimits(low, high) && b == Empty(low, high)
    ensures b.low == low && b.high == high && Refines(b, NoOrders()) && Sane(b)
    ensures BookSees(b, Bid, Everything(low, high, Bid)) && BookSees(b, Ask, Everything(low, high, Ask))
  {
    EmptyRefines(low, high, Discipline(false, false, false));
    EmptySane(low, high);
    EmptySees(low, high, Bid);
    EmptySees(low, high, Ask);
  }

  lemma EveryRunOf(low: uint32, high: uint32, b: Book, d: Discipline, ms: seq<Body>, depth: nat)
    requires ProperLimits(low, high) && depth >= 1 && b == Empty(low, high)
    requires KeepsAll(low, high, NoOrders(), d, ms) && FitsAll(low, high, NoOrders(), ms)
    ensures WellFormed(b) && LegalRun(Wrapping, b, ms)
    ensures ShowsHorizon(low, high, ms, depth, GetPxList(Run(Wrapping, b, ms), depth))
  {
    EmptyStarts(low, high, b);
    BothSidesOfEveryRun(low, high, b, d, ms, depth);
  }

  /** After every valid run that fits in 32 bits, no other discipline assumed, the snapshot of any depth is
      exactly the best levels of the orders shown. */
  lemma SnapshotOfEveryRun(low: uint32, high: uint32, d: Discipline, ms: seq<Body>, depth: nat)
    requires ProperLimits(low, high) && depth >= 1
    requires KeepsAll(low, high, NoOrders(), d, ms) && FitsAll(low, high, NoOrders(), ms)
    ensures WellFormed(Empty(low, high)) && LegalRun(Wrapping, Empty(low, high), ms)
    ensures ShowsHorizon(low, high, ms, depth, GetPxList(Run(Wrapping, Empty(low, high), ms), depth))
  {
    EveryRunOf(low, high, Empty(low, high), d, ms, depth);
  }
}

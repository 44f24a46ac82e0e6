/** After a cursor has gone wrong: exactly which messages put it right again. */
module Recovery {
  import opened Machine
  import opened BookModel
  import opened Events
  import opened Orders
  import opened Refinement
  import opened Cursors
  import opened Runs
  import opened Snapshot

  // ---------- one ladder ----------

  /** Nothing filled on the ladder is better than level `p`. */
  ghost predicate NoneAhead(side: Side, h: Half, p: int) {
    forall l :: 0 <= l < |h.qty| && h.qty[l] > 0 ==> !side.Better(l, p)
  }

  /** Level `p` apart, nothing filled is better than the cursor; from a null cursor, nothing is filled. */
  ghost predicate OnlyAhead(side: Side, h: Half, p: int) {
    forall l :: 0 <= l < |h.qty| && h.qty[l] > 0 && l != p ==> h.best != NULL && !side.Better(l, h.best)
  }

  lemma AddRecovers(side: Side, h: Half, p: nat, q: int)
    requires LiveCursor(h) && NonNegative(h) && !BestCursor(side, h) && p < |h.qty| && q > 0
    ensures BestCursor(side, AddHalf(Exact, side, h, p, q)) <==> NoneAhead(side, h, p)
  {
    var h' := AddHalf(Exact, side, h, p, q);
    var ahead := FilledAhead(side, h);
    assert h'.qty[ahead] > 0;
    if !NoneAhead(side, h, p) {
      var l :| 0 <= l < |h.qty| && h.qty[l] > 0 && side.Better(l, p);
      assert h'.qty[l] > 0;
    }
  }

  /** A trade puts the cursor right from anywhere, if and only if nothing was better than its level. */
  lemma TradeRecovers(side: Side, h: Half, p: nat, q: int)
    requires LiveCursor(h) && NonNegative(h) && p < |h.qty| && 0 <= q <= h.qty[p] && h.qty[p] > 0
    ensures BestCursor(side, TradeHalf(Exact, side, h, p, q)) <==> NoneAhead(side, h, p)
  {
    var h' := TradeHalf(Exact, side, h, p, q);
    ScanSkipsEmpty(side, h.qty[p := h.qty[p] - q], p);
    if !NoneAhead(side, h, p) {
      var l :| 0 <= l < |h.qty| && h.qty[l] > 0 && side.Better(l, p);
      assert h'.qty[l] > 0;
    }
  }

  /** Taking from a level without moving the cursor puts it right if and only if that level was all
      there was ahead of it, and is drained. */
  lemma QuantityRecovers(side: Side, h: Half, p: nat, left: int)
    requires LiveCursor(h) && NonNegative(h) && !BestCursor(side, h) && p < |h.qty| && p != h.best
    requires 0 <= left <= h.qty[p]
    ensures BestCursor(side, h.(qty := h.qty[p := left])) <==> left == 0 && OnlyAhead(side, h, p)
  {
    var h' := h.(qty := h.qty[p := left]);
    var ahead := FilledAhead(side, h);
    if BestCursor(side, h') {
      assert h'.qty[ahead] <= 0 && ahead == p;
      forall l | 0 <= l < |h.qty| && h.qty[l] > 0 && l != p ensures h.best != NULL && !side.Better(l, h.best) {
        assert h'.qty[l] > 0;
      }
    }
  }

  /** Taking from the level of a wrong cursor leaves what is ahead of it where it was. */
  lemma AtWrongCursor(side: Side, h: Half, h': Half, p: nat)
    requires LiveCursor(h) && !BestCursor(side, h) && p == h.best
    requires HalfOk(h', |h.qty|) && (h'.best != NULL ==> !side.Better(h'.best, p))
    requires forall l :: 0 <= l < |h.qty| && l != p ==> h'.qty[l] == h.qty[l]
    ensures !BestCursor(side, h') && !OnlyAhead(side, h, p)
  {
    var ahead := FilledAhead(side, h);
    assert h'.qty[ahead] > 0;
  }

  lemma DeleteRecovers(side: Side, h: Half, p: nat, q: int)
    requires LiveCursor(h) && NonNegative(h) && !BestCursor(side, h) && p < |h.qty| && 0 <= q <= h.qty[p]
    ensures BestCursor(side, DeleteHalf(Exact, side, h, p, q)) <==> q == h.qty[p] && OnlyAhead(side, h, p)
  {
    if p == h.best {
      AtWrongCursor(side, h, DeleteHalf(Exact, side, h, p, q), p);
    } else {
      QuantityRecovers(side, h, p, h.qty[p] - q);
    }
  }

  lemma CancelRecovers(side: Side, h: Half, p: nat, q: int)
    requires LiveCursor(h) && NonNegative(h) && !BestCursor(side, h) && p < |h.qty| && 0 <= q <= h.qty[p]
    ensures BestCursor(side, CancelHalf(Exact, side, h, p, q)) <==> q == h.qty[p] && OnlyAhead(side, h, p)
  {
    if p == h.best {
      AtWrongCursor(side, h, CancelHalf(Exact, side, h, p, q), p);
    } else {
      QuantityRecovers(side, h, p, h.qty[p] - q);
    }
  }

  // ---------- one book ----------

  /** No live order of the side has a price better than this one. */
  ghost predicate NoBetterPrice(mk: Market, side: Side, price: int) {
    forall k :: k in mk.orders && mk.orders[k].side == side ==> !side.Better(mk.orders[k].price, price)
  }

  /** Taking `q` from order `no` empties its price, and no other live price is better than the cursor. */
  ghost predicate ClearsAhead(b: Book, mk: Market, side: Side, no: int64, q: int)
    requires no in mk.orders
  {
    && q == Sum(mk.orders, At(side, mk.orders[no].price))
    && forall k :: k in mk.orders && mk.orders[k].side == side && mk.orders[k].price != mk.orders[no].price ==>
         b.Of(side).best != NULL && !side.Better(mk.orders[k].price, b.low + b.Of(side).best)
  }

  lemma NoneAheadIsNoBetter(b: Book, mk: Market, side: Side, price: int)
    requires Refines(b, mk)
    ensures NoneAhead(side, b.Of(side), price - b.low) <==> NoBetterPrice(mk, side, price)
  {
    if NoneAhead(side, b.Of(side), price - b.low) {
      forall k | k in mk.orders && mk.orders[k].side == side ensures !side.Better(mk.orders[k].price, price) {
        LiveWithinLevel(b, mk, k);
      }
    } else {
      var l :| 0 <= l < |b.Of(side).qty| && b.Of(side).qty[l] > 0 && side.Better(l, price - b.low);
      var k := FilledIsLive(b, mk, side, l);
    }
  }

  lemma OnlyAheadIsClears(b: Book, mk: Market, side: Side, no: int64, q: int)
    requires Refines(b, mk) && no in mk.orders && mk.orders[no].side == side
    ensures var p := mk.orders[no].price - b.low;
            && 0 <= p < |b.Of(side).qty|
            && (q == b.Of(side).qty[p] && OnlyAhead(side, b.Of(side), p) <==> ClearsAhead(b, mk, side, no, q))
  {
    var h, p := b.Of(side), mk.orders[no].price - b.low;
    LiveWithinLevel(b, mk, no);
    if OnlyAhead(side, h, p) {
      forall k | k in mk.orders && mk.orders[k].side == side && mk.orders[k].price != mk.orders[no].price
        ensures h.best != NULL && !side.Better(mk.orders[k].price, b.low + h.best)
      {
        LiveWithinLevel(b, mk, k);
        assert h.qty[mk.orders[k].price - b.low] > 0;
      }
    } else {
      var l :| 0 <= l < |h.qty| && h.qty[l] > 0 && l != p && !(h.best != NULL && !side.Better(l, h.best));
      var k := FilledIsLive(b, mk, side, l);
    }
  }

  /** The events that put a wrong cursor of a side right: an order at least as good as every live one, a
      trade at the best price, or a cancel that drains the only price ahead of the cursor. */
  ghost predicate Recovers(b: Book, mk: Market, side: Side, e: Event) {
    match e
    case Nothing => false
    case Added(to, _, price, _) => to == side && NoBetterPrice(mk, side, price)
    case Deleted(from, no, _, q) => from == side && no in mk.orders && ClearsAhead(b, mk, side, no, q)
    case Taken(how, buyNo, sellNo, q) =>
      var no := if side.Bid? then buyNo else sellNo;
      && no > 0 && no in mk.orders
      && if how.Trade? then NoBetterPrice(mk, side, mk.orders[no].price) else ClearsAhead(b, mk, side, no, q)
  }

  /** In step with the live orders, with a wrong cursor on this side. */
  ghost predicate Astray(b: Book, mk: Market, side: Side) {
    Refines(b, mk) && Sane(b) && !BestCursor(side, b.Of(side))
  }

  lemma OtherAdd(a: Arithmetic, b: Book, side: Side, no: int64, p: nat, q: int)
    requires WellFormed(b) && p < b.Span()
    ensures Add(a, b, side, no, p, q).Of(side.Opposite()) == b.Of(side.Opposite())
  {
  }

  lemma AddedRecovers(b: Book, mk: Market, side: Side, e: Event)
    requires Astray(b, mk, side) && e.Added? && ValidEvent(b.low, b.high, mk, e)
    ensures LegalEvent(b, e) && (BestCursor(side, StepEvent(Exact, b, e).Of(side)) <==> Recovers(b, mk, side, e))
  {
    var p := e.price - b.low;
    StepIsAdd(Exact, b, e, e.side, p, e.q);
    if e.side == side {
      AddRecovers(side, b.Of(side), p, e.q);
      NoneAheadIsNoBetter(b, mk, side, e.price);
    } else {
      OtherAdd(Exact, b, e.side, e.no, p, e.q);
    }
  }

  lemma DeletionRecovers(b: Book, mk: Market, side: Side, no: int64, p: nat, q: int)
    requires Astray(b, mk, side) && no in mk.orders && mk.orders[no].side == side
    requires 0 <= q <= mk.orders[no].qty && p == mk.orders[no].price - b.low
    ensures p < b.Span()
    ensures BestCursor(side, Delete(Exact, b, side, p, q).Of(side)) <==> ClearsAhead(b, mk, side, no, q)
  {
    LiveWithinLevel(b, mk, no);
    DeleteRecovers(side, b.Of(side), p, q);
    OnlyAheadIsClears(b, mk, side, no, q);
  }

  lemma OtherDelete(a: Arithmetic, b: Book, side: Side, p: nat, q: int)
    requires WellFormed(b) && p < b.Span()
    ensures Delete(a, b, side, p, q).Of(side.Opposite()) == b.Of(side.Opposite())
  {
  }

  lemma DeletedRecovers(b: Book, mk: Market, side: Side, e: Event)
    requires Astray(b, mk, side) && e.Deleted? && ValidEvent(b.low, b.high, mk, e)
    ensures LegalEvent(b, e) && (BestCursor(side, StepEvent(Exact, b, e).Of(side)) <==> Recovers(b, mk, side, e))
  {
    LiveWithinLevel(b, mk, e.no);
    var p := e.price - b.low;
    StepIsDelete(Exact, b, e, e.side, p, e.q);
    if e.side == side { DeletionRecovers(b, mk, side, e.no, p, e.q); } else { OtherDelete(Exact, b, e.side, p, e.q); }
  }

  lemma TradeAtRecovers(b: Book, mk: Market, side: Side, no: int64, q: int)
    requires Astray(b, mk, side) && no > 0 && no in mk.orders && ValidRemoval(mk, side, no, q)
    ensures Indexes(b, side, no)
    ensures BestCursor(side, Remove(Exact, Trade, b, side, no, q).Of(side))
            <==> NoBetterPrice(mk, side, mk.orders[no].price)
  {
    LiveWithinLevel(b, mk, no);
    RemoveAt(Exact, Trade, b, side, no, mk.orders[no].price - b.low, q);
    TradeRecovers(side, b.Of(side), mk.orders[no].price - b.low, q);
    NoneAheadIsNoBetter(b, mk, side, mk.orders[no].price);
  }

  lemma CancelAtRecovers(b: Book, mk: Market, side: Side, no: int64, q: int)
    requires Astray(b, mk, side) && no > 0 && no in mk.orders && ValidRemoval(mk, side, no, q)
    ensures BestCursor(side, Remove(Exact, Cancel, b, side, no, q).Of(side)) <==> ClearsAhead(b, mk, side, no, q)
  {
    LiveWithinLevel(b, mk, no);
    RemoveAt(Exact, Cancel, b, side, no, mk.orders[no].price - b.low, q);
    CancelRecovers(side, b.Of(side), mk.orders[no].price - b.low, q);
    OnlyAheadIsClears(b, mk, side, no, q);
  }

  lemma RemovalRecovers(b: Book, mk: Market, how: Removal, side: Side, no: int64, q: int)
    requires Astray(b, mk, side) && no > 0 && no in mk.orders && ValidRemoval(mk, side, no, q)
    ensures Indexes(b, side, no)
    ensures BestCursor(side, Remove(Exact, how, b, side, no, q).Of(side))
            <==> if how.Trade? then NoBetterPrice(mk, side, mk.orders[no].price) else ClearsAhead(b, mk, side, no, q)
  {
    match how
    case Trade => TradeAtRecovers(b, mk, side, no, q);
    case Cancel => CancelAtRecovers(b, mk, side, no, q);
  }

  lemma TakenRecovers(b: Book, mk: Market, side: Side, e: Event)
    requires Astray(b, mk, side) && e.Taken? && ValidEvent(b.low, b.high, mk, e)
    ensures LegalEvent(b, e) && (BestCursor(side, StepEvent(Exact, b, e).Of(side)) <==> Recovers(b, mk, side, e))
  {
    var no := if side.Bid? then e.buyNo else e.sellNo;
    RemoveBothRefines(b, mk, e.how, e.buyNo, e.sellNo, e.q);
    HalfOfBoth(Exact, e.how, b, e.buyNo, e.sellNo, e.q, side);
    if no > 0 && no in mk.orders { RemovalRecovers(b, mk, e.how, side, no, e.q); }
  }

  lemma EventRecovers(b: Book, mk: Market, side: Side, e: Event)
    requires Astray(b, mk, side) && ValidEvent(b.low, b.high, mk, e)
    ensures LegalEvent(b, e) && (BestCursor(side, StepEvent(Exact, b, e).Of(side)) <==> Recovers(b, mk, side, e))
  {
    match e
    case Nothing =>
    case Added(_, _, _, _) => AddedRecovers(b, mk, side, e);
    case Deleted(_, _, _, _) => DeletedRecovers(b, mk, side, e);
    case Taken(_, _, _, _) => TakenRecovers(b, mk, side, e);
  }

  /** When a message leaves the cursor of a side right, from any state a valid run reaches: from a right
      cursor, if it keeps the side's discipline; from a wrong one, if it recovers. */
  ghost predicate LeavesRight(b: Book, mk: Market, side: Side, m: Body) {
    if BestCursor(side, b.Of(side)) then
      Priority(b.low, b.high, mk, side, m) && (side.Ask? ==> Drains(b.low, b.high, mk, m))
    else Recovers(b, mk, side, Meaning(b.low, b.high, m))
  }

  /** Right cursor or wrong, a valid message is followed by a right snapshot of a side exactly when it
      leaves that side's cursor right. */
  lemma StepFromAnywhere(b: Book, mk: Market, side: Side, m: Body, depth: nat)
    requires Refines(b, mk) && Sane(b) && Valid(b.low, b.high, mk, m) && depth >= 1
    ensures Legal(b, m)
    ensures BestCursor(side, Step(Exact, b, m).Of(side)) <==> LeavesRight(b, mk, side, m)
    ensures IsDepth(Apply(b.low, b.high, mk, m).orders, side, depth, GetPxList(Step(Exact, b, m), depth).Of(side))
            <==> LeavesRight(b, mk, side, m)
  {
    CursorFromAnywhere(b, mk, side, m);
    StepRefines(b, mk, m);
    ValidIsSafe(b, mk, m);
    StepSane(Exact, b, m);
    SnapshotIffCursor(Step(Exact, b, m), Apply(b.low, b.high, mk, m), side, depth);
  }

  lemma CursorFromAnywhere(b: Book, mk: Market, side: Side, m: Body)
    requires Refines(b, mk) && Sane(b) && Valid(b.low, b.high, mk, m)
    ensures Legal(b, m)
    ensures BestCursor(side, Step(Exact, b, m).Of(side)) <==> LeavesRight(b, mk, side, m)
  {
    if BestCursor(side, b.Of(side)) {
      StepBest(b, mk, side, m);
    } else {
      EventRecovers(b, mk, side, Meaning(b.low, b.high, m));
      HandlersFollowMeaning(Exact, b, m);
    }
  }

  /** No discipline but validity: after any run that fits in 32 bits, the snapshot following one more
      message is right exactly when that message leaves the cursor right. */
  lemma SnapshotAfterAnyRun(low: uint32, high: uint32, ms: seq<Body>, m: Body, side: Side, depth: nat)
    requires ProperLimits(low, high) && depth >= 1
    requires KeepsAll(low, high, NoOrders(), Discipline(false, false, false), ms) && FitsAll(low, high, NoOrders(), ms)
    requires var mk := ApplyAll(low, high, NoOrders(), ms);
             Valid(low, high, mk, m) && Fits(mk) && Fits(Apply(low, high, mk, m))
    ensures WellFormed(Empty(low, high)) && LegalRun(Wrapping, Empty(low, high), ms)
    ensures var b, mk := Run(Wrapping, Empty(low, high), ms), ApplyAll(low, high, NoOrders(), ms);
            && Legal(b, m)
            && (IsDepth(Apply(low, high, mk, m).orders, side, depth, GetPxList(Step(Wrapping, b, m), depth).Of(side))
                <==> LeavesRight(b, mk, side, m))
  {
    var d := Discipline(false, false, false);
    MachineRunRefines(low, high, d, ms);
    MachineRunSane(low, high, d, ms);
    var b, mk := Run(Wrapping, Empty(low, high), ms), ApplyAll(low, high, NoOrders(), ms);
    StepNarrows(b, mk, m);
    StepFromAnywhere(b, mk, side, m, depth);
  }
}

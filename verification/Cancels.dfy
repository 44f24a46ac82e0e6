/** The two ways an order leaves the book: a Shanghai delete names its price, a Shenzhen cancel names
    its number. They agree except for a sell cancel that leaves something at the best ask. */
module Cancels {
  import opened Machine
  import opened BookModel
  import opened Events
  import opened Orders
  import opened Refinement
  import opened Cursors

  /** The Shanghai and the Shenzhen message that take `q` from order `no`. */
  predicate SameCancel(mk: Market, no: int64, q: int, sh: Body, sz: Body) {
    && no > 0 && no in mk.orders
    && sh.OrderSH? && sh.ordType == 'D' && sh.orderNo == no && sh.orderQty == q
    && sh.side == (if mk.orders[no].side.Bid? then 'B' else 'S')
    && sz.TradeSZ? && sz.execType == '4' && sz.lastQty == q
    && (if mk.orders[no].side.Bid? then sz.bidNo == no && sz.offerNo == 0 else sz.bidNo == 0 && sz.offerNo == no)
  }

  lemma HalvesAgree(side: Side, h: Half, p: nat, q: int)
    requires HalfOk(h, |h.qty|) && p < |h.qty| && 0 <= q <= h.qty[p]
    ensures var x, y := DeleteHalf(Exact, side, h, p, q), CancelHalf(Exact, side, h, p, q);
            x.qty == y.qty && (x.best == y.best <==> side.Bid? || p != h.best || q == h.qty[p])
  {
    if p == h.best && side.Ask? && q < h.qty[p] {
      assert DeleteHalf(Exact, side, h, p, q).best == p;
    }
  }

  lemma EventOfDelete(low: uint32, high: uint32, mk: Market, no: int64, q: int, sh: Body, sz: Body)
    requires SameCancel(mk, no, q, sh, sz)
    ensures Meaning(low, high, sh) == Deleted(mk.orders[no].side, no, ToUint32(sh.price), q)
  {
  }

  lemma StepOfEvent(b: Book, mk: Market, no: int64, o: Order, q: int, m: Body, e: Event)
    requires WellFormed(b) && Valid(b.low, b.high, mk, m) && 0 <= o.price - b.low < b.Span()
    requires e == Meaning(b.low, b.high, m) && e.Deleted? && e.no == no && e.q == q
    requires no in mk.orders && o == mk.orders[no]
    ensures Legal(b, m) && Step(Exact, b, m) == Delete(Exact, b, o.side, o.price - b.low, q)
    ensures Apply(b.low, b.high, mk, m) == Reduce(mk, Cancel, no, q)
  {
    DeletedIsReduced(b, mk, e, o);
    HandlersFollowMeaning(Exact, b, m);
  }

  lemma StepOfDelete(b: Book, mk: Market, no: int64, o: Order, q: int, sh: Body, sz: Body)
    requires Refines(b, mk) && SameCancel(mk, no, q, sh, sz) && Valid(b.low, b.high, mk, sh)
    requires o == mk.orders[no]
    ensures 0 <= o.price - b.low < b.Span()
    ensures Legal(b, sh) && Step(Exact, b, sh) == Delete(Exact, b, o.side, o.price - b.low, q)
    ensures Apply(b.low, b.high, mk, sh) == Reduce(mk, Cancel, no, q)
  {
    EventOfDelete(b.low, b.high, mk, no, q, sh, sz);
    LiveWithinLevel(b, mk, no);
    StepOfEvent(b, mk, no, o, q, sh, Meaning(b.low, b.high, sh));
  }

  lemma StepOfCancel(b: Book, mk: Market, no: int64, o: Order, q: int, sh: Body, sz: Body)
    requires Refines(b, mk) && SameCancel(mk, no, q, sh, sz) && Valid(b.low, b.high, mk, sz)
    requires o == mk.orders[no]
    ensures Legal(b, sz) && Step(Exact, b, sz) == Remove(Exact, Cancel, b, o.side, no, q)
    ensures Apply(b.low, b.high, mk, sz).orders == Reduce(mk, Cancel, no, q).orders
  {
    HandlersFollowMeaning(Exact, b, sz);
  }

  lemma CancelIndexesAgree(b: Book, mk: Market, no: int64, q: int, sh: Body, sz: Body)
    requires Refines(b, mk) && SameCancel(mk, no, q, sh, sz)
    requires Valid(b.low, b.high, mk, sh) && Valid(b.low, b.high, mk, sz)
    ensures Legal(b, sh) && Legal(b, sz)
    ensures forall k :: k in Reduce(mk, Cancel, no, q).orders ==>
              && k in Step(Exact, b, sh).index && k in Step(Exact, b, sz).index
              && Step(Exact, b, sh).index[k] == Step(Exact, b, sz).index[k]
  {
    StepOfDelete(b, mk, no, mk.orders[no], q, sh, sz);
    StepOfCancel(b, mk, no, mk.orders[no], q, sh, sz);
    StepRefines(b, mk, sh);
    StepRefines(b, mk, sz);
  }

  lemma CancelBooksAgree(b: Book, mk: Market, no: int64, o: Order, q: int, x: Book, y: Book)
    requires Refines(b, mk) && no > 0 && no in mk.orders && o == mk.orders[no] && 0 <= q <= o.qty
    requires 0 <= o.price - b.low < b.Span()
    requires x == Delete(Exact, b, o.side, o.price - b.low, q) && y == Remove(Exact, Cancel, b, o.side, no, q)
    ensures x.bid.qty == y.bid.qty && x.ask.qty == y.ask.qty
    ensures x.bid.best == y.bid.best && x.ask.best == y.ask.best
            <==> o.side.Bid? || o.price - b.low != b.ask.best || q == Sum(mk.orders, At(Ask, o.price))
  {
    LiveWithinLevel(b, mk, no);
    HalvesAgree(o.side, b.Of(o.side), o.price - b.low, q);
  }

  /** Both paths leave the same levels, and the same index entries for the orders still live; the
      cursors agree too, unless a sell order's cancel at the cursor leaves its level filled. */
  lemma CancelPathsAgree(b: Book, mk: Market, no: int64, q: int, sh: Body, sz: Body)
    requires Refines(b, mk) && SameCancel(mk, no, q, sh, sz)
    requires Valid(b.low, b.high, mk, sh) && Valid(b.low, b.high, mk, sz)
    ensures Legal(b, sh) && Legal(b, sz)
    ensures var x, y, o := Step(Exact, b, sh), Step(Exact, b, sz), mk.orders[no];
            && x.bid.qty == y.bid.qty && x.ask.qty == y.ask.qty
            && (x.bid.best == y.bid.best && x.ask.best == y.ask.best
                <==> o.side.Bid? || o.price - b.low != b.ask.best || q == Sum(mk.orders, At(Ask, o.price)))
            && forall k :: k in Reduce(mk, Cancel, no, q).orders ==>
                 k in x.index && k in y.index && x.index[k] == y.index[k]
  {
    CancelIndexesAgree(b, mk, no, q, sh, sz);
    StepOfDelete(b, mk, no, mk.orders[no], q, sh, sz);
    StepOfCancel(b, mk, no, mk.orders[no], q, sh, sz);
    CancelBooksAgree(b, mk, no, mk.orders[no], q, Step(Exact, b, sh), Step(Exact, b, sz));
  }
}

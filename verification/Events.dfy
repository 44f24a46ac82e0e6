/** What the exchange messages say, apart from how each exchange encodes it: an order added, an order
    deleted at its price, an amount taken from a buyer's and a seller's order, or nothing. */
module Events {
  import opened Machine
  import opened BookModel

  datatype Event =
    | Nothing
    | Added(side: Side, no: int64, price: uint32, q: int)
    | Deleted(side: Side, no: int64, price: uint32, q: int)
    | Taken(how: Removal, buyNo: int64, sellNo: int64, q: int)

  /** Messages the system ignores by design (unknown kinds and codes, Shanghai trades flagged neither
      buy nor sell, Shenzhen prices out of range) mean nothing. */
  function Meaning(low: uint32, high: uint32, m: Body): Event {
    match m
    case OrderSH(t, s, no, price, q) =>
      if SideSH(s).Ignored? then Nothing
      else if t == 'A' then Added(SideSH(s).side, no, ToUint32(price), q)
      else if t == 'D' then Deleted(SideSH(s).side, no, ToUint32(price), q)
      else Nothing
    case OrderSZ(s, no, price, q) =>
      if SideSZ(s).Known? && InRange(low, high, price) then Added(SideSZ(s).side, no, ToUint32(price), q) else Nothing
    case TradeSH(f, buyNo, sellNo, q) =>
      if SideSH(f).Known? then Taken(Trade, buyNo, sellNo, q) else Nothing
    case TradeSZ(e, bidNo, offerNo, px, q) =>
      if e == '4' then Taken(Cancel, bidNo, offerNo, q)
      else if e == 'F' && InRange(low, high, px) then Taken(Trade, bidNo, offerNo, q)
      else Nothing
    case Other => Nothing
  }

  /** Which codes say what, on either exchange, and whose the numbers are. */
  lemma ExchangeCodes(low: uint32, high: uint32, m: Body)
    ensures var e := Meaning(low, high, m);
            && (e.Added? <==> || (m.OrderSH? && m.ordType == 'A' && m.side in {'B', 'S'})
                              || (m.OrderSZ? && m.side in {'1', '2'} && InRange(low, high, m.price)))
            && (e.Deleted? <==> m.OrderSH? && m.ordType == 'D' && m.side in {'B', 'S'})
            && (e.Added? || e.Deleted? ==> e.no == m.orderNo && e.q == m.orderQty && e.price == ToUint32(m.price)
                                           && (e.side == Bid <==> m.side in {'B', '1'}))
            && (e.Taken? && e.how == Trade <==> || (m.TradeSH? && m.bsFlag in {'B', 'S'})
                                                || (m.TradeSZ? && m.execType == 'F' && InRange(low, high, m.lastPx)))
            && (e.Taken? && e.how == Cancel <==> m.TradeSZ? && m.execType == '4')
            && (e.Taken? ==> e.q == m.lastQty)
            && (e.Taken? && m.TradeSH? ==> e.buyNo == m.buyNo && e.sellNo == m.sellNo)
            && (e.Taken? && m.TradeSZ? ==> e.buyNo == m.bidNo && e.sellNo == m.offerNo)
  {
  }

  predicate LegalEvent(b: Book, e: Event) {
    match e
    case Nothing => true
    case Added(_, _, price, _) => b.low <= price <= b.high
    case Deleted(_, _, price, _) => b.low <= price <= b.high
    case Taken(how, buyNo, sellNo, _) => how.Trade? ==> OwnSides(b, buyNo, sellNo)
  }

  /** The book after an event. */
  function StepEvent(a: Arithmetic, b: Book, e: Event): (r: Book)
    requires WellFormed(b) && LegalEvent(b, e)
    ensures SameShape(b, r)
  {
    match e
    case Nothing => b
    case Added(side, no, price, q) => Add(a, b, side, no, price - b.low, q)
    case Deleted(side, _, price, q) => Delete(a, b, side, price - b.low, q)
    case Taken(how, buyNo, sellNo, q) => RemoveBoth(a, how, b, buyNo, sellNo, q)
  }

  lemma StepIsAdd(a: Arithmetic, b: Book, e: Event, side: Side, p: nat, q: int)
    requires WellFormed(b) && e.Added? && e.side == side && e.q == q && p == e.price - b.low && p < b.Span()
    ensures StepEvent(a, b, e) == Add(a, b, side, e.no, p, q)
  {
  }

  lemma StepIsDelete(a: Arithmetic, b: Book, e: Event, side: Side, p: nat, q: int)
    requires WellFormed(b) && e.Deleted? && e.side == side && e.q == q && p == e.price - b.low && p < b.Span()
    ensures StepEvent(a, b, e) == Delete(a, b, side, p, q)
  {
  }

  /** The handlers, 32-bit level arithmetic and guards included, can carry out a message exactly when
      its event has a price within the limits and numbers on the ladders a trade needs; they then do to
      the book what the event says. */
  lemma HandlersFollowMeaning(a: Arithmetic, b: Book, m: Body)
    requires WellFormed(b)
    ensures Legal(b, m) <==> LegalEvent(b, Meaning(b.low, b.high, m))
    ensures Legal(b, m) ==> Step(a, b, m) == StepEvent(a, b, Meaning(b.low, b.high, m))
  {
    match m
    case OrderSH(_, _, _, price, _) => LevelCorrespondence(b.low, b.high, price);
    case OrderSZ(_, _, price, _) => LevelCorrespondence(b.low, b.high, price);
    case _ =>
  }
}

/** The order book of one symbol as a value, and what each exchange message does to it.

    A book is two dense price-indexed ladders of aggregate quantities, one cached cursor per ladder,
    and an index from order number to ladder level. Level `l` stands for price `low + l`. */
module BookModel {
  import opened Machine

  /** The null cursor. */
  const NULL: int := -1

  datatype Side = Bid | Ask {
    function Opposite(): Side {
      if Bid? then Ask else Bid
    }

    /** `x` is a strictly better price (or level) than `y` on this side. */
    predicate Better(x: int, y: int) {
      if Bid? then x > y else x < y
    }

    /** The neighbour of level `l` in the direction of worse prices. */
    function Worse(l: int): int {
      if Bid? then l - 1 else l + 1
    }
  }

  /** The side a one-character code stands for; other codes are ignored. */
  datatype Coded = Known(side: Side) | Ignored

  function SideSH(c: char): Coded {
    if c == 'B' then Known(Bid) else if c == 'S' then Known(Ask) else Ignored
  }

  function SideSZ(c: char): Coded {
    if c == '1' then Known(Bid) else if c == '2' then Known(Ask) else Ignored
  }

  datatype Entry = Entry(side: Side, level: nat)

  /** One ladder and its cursor. */
  datatype Half = Half(qty: seq<int>, best: int)

  datatype Book = Book(low: uint32, high: uint32, bid: Half, ask: Half, index: map<int64, Entry>) {
    function Of(side: Side): Half {
      if side.Bid? then bid else ask
    }

    function With(side: Side, h: Half): Book {
      if side.Bid? then this.(bid := h) else this.(ask := h)
    }

    /** The number of levels; `PxSpan` is how the program computes it. */
    function Span(): int {
      high - low + 1
    }
  }

  datatype Body =
    | OrderSH(ordType: char, side: char, orderNo: int64, price: int32, orderQty: int64)
    | OrderSZ(side: char, orderNo: int64, price: int32, orderQty: int64)
    | TradeSH(bsFlag: char, buyNo: int64, sellNo: int64, lastQty: int64)
    | TradeSZ(execType: char, bidNo: int64, offerNo: int64, lastPx: int32, lastQty: int64)
    | Other  // any other message type or exchange: ignored

  /** The number of levels, computed in 32 bits. */
  function PxSpan(low: uint32, high: uint32): uint32 {
    ToUint32(high - low + 1)
  }

  /** The level a price indexes: the difference wraps modulo 2^32. */
  function LevelOf(low: uint32, price: int32): uint32 {
    ToUint32(price - low)
  }

  /** The price of a level: `get_px`. */
  function PriceOf(low: uint32, level: nat): uint32 {
    ToUint32(low + level)
  }

  /** The range guard of the Shenzhen handlers. Comparing a signed price with an unsigned bound
      converts the price to unsigned first. */
  predicate InRange(low: uint32, high: uint32, price: int32) {
    low <= ToUint32(price) <= high
  }

  /** Price limits whose level count is representable and not zero. */
  predicate ProperLimits(low: uint32, high: uint32) {
    low <= high && high - low < TWO_32 - 1
  }

  predicate HalfOk(h: Half, span: int) {
    |h.qty| == span && -1 <= h.best < span
  }

  predicate WellFormed(b: Book) {
    && ProperLimits(b.low, b.high)
    && HalfOk(b.bid, b.Span())
    && HalfOk(b.ask, b.Span())
    && (forall n :: n in b.index ==> b.index[n].level < b.Span())
  }

  /** What every handler keeps: well-formedness and the price limits. */
  predicate SameShape(b: Book, r: Book) {
    WellFormed(r) && r.low == b.low && r.high == b.high
  }

  /** The book as created: zero quantities, null cursors, empty index. */
  function Empty(low: uint32, high: uint32): Book {
    var h := Half(seq(PxSpan(low, high), _ => 0), NULL);
    Book(low, high, h, h, map[])
  }

  /** The first level with a positive quantity, from `from` towards worse prices; null if none. */
  function Scan(side: Side, qty: seq<int>, from: int): (j: int)
    requires if side.Bid? then -1 <= from < |qty| else 0 <= from <= |qty|
    ensures -1 <= j < |qty|
    ensures j != NULL ==> qty[j] > 0 && !side.Better(j, from)
    decreases if side.Bid? then from + 1 else |qty| - from
  {
    if from < 0 || from >= |qty| then NULL
    else if qty[from] > 0 then from
    else Scan(side, qty, side.Worse(from))
  }

  /** A scan passes over nothing that is filled. */
  lemma {:induction false} ScanSkipsEmpty(side: Side, qty: seq<int>, from: int)
    requires if side.Bid? then -1 <= from < |qty| else 0 <= from <= |qty|
    ensures var j := Scan(side, qty, from);
            forall k :: 0 <= k < |qty| && !side.Better(k, from) && (j == NULL || side.Better(k, j)) ==> qty[k] <= 0
    decreases if side.Bid? then from + 1 else |qty| - from
  {
    if from < 0 || from >= |qty| || qty[from] > 0 {
    } else {
      ScanSkipsEmpty(side, qty, side.Worse(from));
    }
  }

  function Max(x: int, y: int): int {
    if x < y then y else x
  }

  /** A new order of quantity `q` at level `p`. */
  function AddHalf(a: Arithmetic, side: Side, h: Half, p: nat, q: int): (r: Half)
    requires HalfOk(h, |h.qty|) && p < |h.qty|
    ensures HalfOk(r, |h.qty|)
  {
    Half(h.qty[p := a.Plus(h.qty[p], q)],
         if h.best == NULL || side.Better(p, h.best) then p else h.best)
  }

  /** Shanghai delete: by price, clamped at zero. */
  function DeleteHalf(a: Arithmetic, side: Side, h: Half, p: nat, q: int): (r: Half)
    requires HalfOk(h, |h.qty|) && p < |h.qty|
    ensures HalfOk(r, |h.qty|)
  {
    var left := Max(0, a.Minus(h.qty[p], q));
    var qty := h.qty[p := left];
    Half(qty, if p == h.best && left <= 0 then Scan(side, qty, side.Worse(p)) else h.best)
  }

  /** A trade against level `p`: the cursor is assigned, not compared. */
  function TradeHalf(a: Arithmetic, side: Side, h: Half, p: nat, q: int): (r: Half)
    requires HalfOk(h, |h.qty|) && p < |h.qty|
    ensures HalfOk(r, |h.qty|)
  {
    var left := a.Minus(h.qty[p], q);
    var qty := h.qty[p := left];
    Half(qty, if left <= 0 then Scan(side, qty, p) else p)
  }

  /** Shenzhen cancel at level `p`: a buy cancel rescans from the level itself, a sell cancel from
      the level after it. */
  function CancelHalf(a: Arithmetic, side: Side, h: Half, p: nat, q: int): (r: Half)
    requires HalfOk(h, |h.qty|) && p < |h.qty|
    ensures HalfOk(r, |h.qty|)
  {
    var qty := h.qty[p := a.Minus(h.qty[p], q)];
    Half(qty, if p == h.best then Scan(side, qty, if side.Bid? then p else p + 1) else h.best)
  }

  datatype Removal = Trade | Cancel

  function RemoveHalf(a: Arithmetic, how: Removal, side: Side, h: Half, p: nat, q: int): (r: Half)
    requires HalfOk(h, |h.qty|) && p < |h.qty|
    ensures HalfOk(r, |h.qty|)
  {
    if how.Trade? then TradeHalf(a, side, h, p, q) else CancelHalf(a, side, h, p, q)
  }

  /** What a removal makes of the ladder its number leads to: away from the report's own side only the
      level changes. */
  function TakeHalf(a: Arithmetic, how: Removal, own: bool, side: Side, h: Half, p: nat, q: int): (r: Half)
    requires HalfOk(h, |h.qty|) && p < |h.qty|
    ensures HalfOk(r, |h.qty|)
  {
    if own then RemoveHalf(a, how, side, h, p, q) else h.(qty := h.qty[p := a.Minus(h.qty[p], q)])
  }

  function Add(a: Arithmetic, b: Book, side: Side, no: int64, p: nat, q: int): (r: Book)
    requires WellFormed(b) && p < b.Span()
    ensures SameShape(b, r)
  {
    b.With(side, AddHalf(a, side, b.Of(side), p, q)).(index := b.index[no := Entry(side, p)])
  }

  function Delete(a: Arithmetic, b: Book, side: Side, p: nat, q: int): (r: Book)
    requires WellFormed(b) && p < b.Span()
    ensures SameShape(b, r)
  {
    b.With(side, DeleteHalf(a, side, b.Of(side), p, q))
  }

  /** The number, if the index knows it, leads to that side's own ladder; zero and negative numbers
      stand for "no order". */
  predicate Indexes(b: Book, side: Side, no: int64) {
    no > 0 && no in b.index ==> b.index[no].side == side
  }

  /** A report's buyer is indexed among the bids and its seller among the asks. */
  predicate OwnSides(b: Book, buyNo: int64, sellNo: int64) {
    Indexes(b, Bid, buyNo) && Indexes(b, Ask, sellNo)
  }

  /** Trade or cancel by order number, in the place a report has for `side`: unknown numbers are
      skipped, and the entry is erased when the whole level is empty. A cancel takes from whatever
      level the number leads to; on the other ladder that is not the cursor it compares with. A trade
      makes that level the side's cursor, so it has to be on the side's own ladder. */
  function Remove(a: Arithmetic, how: Removal, b: Book, side: Side, no: int64, q: int): (r: Book)
    requires WellFormed(b) && (how.Trade? ==> Indexes(b, side, no))
    ensures SameShape(b, r)
  {
    if no <= 0 || no !in b.index then b else
    var e := b.index[no];
    var h := b.Of(e.side);
    var left := a.Minus(h.qty[e.level], q);
    b.With(e.side, TakeHalf(a, how, e.side == side, e.side, h, e.level, q))
     .(index := if left <= 0 then b.index - {no} else b.index)
  }

  /** Buyer's half first, seller's half second. */
  function RemoveBoth(a: Arithmetic, how: Removal, b: Book, buyNo: int64, sellNo: int64, q: int): (r: Book)
    requires WellFormed(b) && (how.Trade? ==> OwnSides(b, buyNo, sellNo))
    ensures SameShape(b, r)
  {
    Remove(a, how, Remove(a, how, b, Bid, buyNo, q), Ask, sellNo, q)
  }

  /** The messages the handlers can carry out on this book: an order's level exists, and a trade's
      numbers lead to the ladders whose cursors it assigns. */
  predicate Legal(b: Book, m: Body) {
    match m
    case OrderSH(t, s, _, price, _) => (t == 'A' || t == 'D') && SideSH(s).Known? ==> LevelOf(b.low, price) < b.Span()
    case TradeSH(f, buyNo, sellNo, _) => SideSH(f).Known? ==> OwnSides(b, buyNo, sellNo)
    case TradeSZ(e, bidNo, offerNo, px, _) =>
      e == 'F' && InRange(b.low, b.high, px) ==> OwnSides(b, bidNo, offerNo)
    case _ => true
  }

  function OnOrderSH(a: Arithmetic, b: Book, m: Body): (r: Book)
    requires WellFormed(b) && m.OrderSH? && Legal(b, m)
    ensures SameShape(b, r)
  {
    var p := LevelOf(b.low, m.price);
    match SideSH(m.side)
    case Ignored => b
    case Known(side) =>
      if m.ordType == 'A' then Add(a, b, side, m.orderNo, p, m.orderQty)
      else if m.ordType == 'D' then Delete(a, b, side, p, m.orderQty)
      else b
  }

  function OnTradeSH(a: Arithmetic, b: Book, m: Body): (r: Book)
    requires WellFormed(b) && m.TradeSH? && Legal(b, m)
    ensures SameShape(b, r)
  {
    if SideSH(m.bsFlag).Known? then RemoveBoth(a, Trade, b, m.buyNo, m.sellNo, m.lastQty) else b
  }

  function OnOrderSZ(a: Arithmetic, b: Book, m: Body): (r: Book)
    requires WellFormed(b) && m.OrderSZ?
    ensures SameShape(b, r)
  {
    if !InRange(b.low, b.high, m.price) then b else
    LevelCorrespondence(b.low, b.high, m.price);
    match SideSZ(m.side)
    case Ignored => b
    case Known(side) => Add(a, b, side, m.orderNo, LevelOf(b.low, m.price), m.orderQty)
  }

  function OnTradeSZ(a: Arithmetic, b: Book, m: Body): (r: Book)
    requires WellFormed(b) && m.TradeSZ? && Legal(b, m)
    ensures SameShape(b, r)
  {
    if m.execType == '4' then RemoveBoth(a, Cancel, b, m.bidNo, m.offerNo, m.lastQty)
    else if m.execType == 'F' && InRange(b.low, b.high, m.lastPx) then
      RemoveBoth(a, Trade, b, m.bidNo, m.offerNo, m.lastQty)
    else b
  }

  function Step(a: Arithmetic, b: Book, m: Body): (r: Book)
    requires WellFormed(b) && Legal(b, m)
    ensures SameShape(b, r)
  {
    match m
    case OrderSH(_, _, _, _, _) => OnOrderSH(a, b, m)
    case OrderSZ(_, _, _, _) => OnOrderSZ(a, b, m)
    case TradeSH(_, _, _, _) => OnTradeSH(a, b, m)
    case TradeSZ(_, _, _, _, _) => OnTradeSZ(a, b, m)
    case Other => b
  }

  ghost predicate LegalRun(a: Arithmetic, b: Book, ms: seq<Body>)
    requires WellFormed(b)
    decreases |ms|
  {
    ms != [] ==>
      && Legal(b, ms[0])
      && LegalRun(a, Step(a, b, ms[0]), ms[1..])
  }

  /** The book after a run of messages. */
  ghost function Run(a: Arithmetic, b: Book, ms: seq<Body>): (r: Book)
    requires WellFormed(b) && LegalRun(a, b, ms)
    ensures SameShape(b, r)
    decreases |ms|
  {
    if ms == [] then b else Run(a, Step(a, b, ms[0]), ms[1..])
  }

  /** Under wrap-around the Shenzhen guard passes exactly for the prices whose wrapped level is in
      bounds, negative prices included, and the level then stands for that price. */
  lemma LevelCorrespondence(low: uint32, high: uint32, price: int32)
    requires ProperLimits(low, high)
    ensures InRange(low, high, price) <==> LevelOf(low, price) < PxSpan(low, high)
    ensures PxSpan(low, high) == high - low + 1
    ensures InRange(low, high, price) ==> PriceOf(low, LevelOf(low, price)) == ToUint32(price)
                                          && LevelOf(low, price) == ToUint32(price) - low
  {
    ModuloIs(high - low + 1, 0, high - low + 1);
    ModuloIs(price, if price < 0 then -1 else 0, ToUint32(price));
    var d := ToUint32(price) - low;
    var r := if d < 0 then d + 0x1_0000_0000 else d;
    ModuloIs(price - low, if price < 0 then (if d < 0 then -2 else -1) else if d < 0 then -1 else 0, r);
    if d >= 0 { ModuloIs(low + d, 0, low + d); }
  }
}

/** Runs within every rule but one, and what the program then gets wrong. The exact conditions are in
    `Cursors`, `Runs` and `Snapshot`; these are inputs on which they fail. */
module Shortfalls {
  import opened Machine
  import opened BookModel
  import opened Events
  import opened Orders
  import opened Refinement
  import opened Snapshot
  import opened Runs

  // ---------- a sell cancel that leaves something at the best ask ----------

  /** Sell order 1 of 5 at price 0, of which 3 are cancelled. */
  const SELL_FIVE: Body := OrderSZ('2', 1, 0, 5)
  const CANCEL_THREE: Body := TradeSZ('4', 0, 1, 0, 3)

  lemma BookAtStart()
    ensures var b := Empty(0, 0);
            WellFormed(b) && b.low == b.high == 0 && b.ask == Half([0], NULL) && b.index == map[]
  {
    assert PxSpan(0, 0) == 1;
  }

  lemma BookAfterSell(b: Book)
    requires WellFormed(b) && b.low == b.high == 0 && b.ask == Half([0], NULL) && b.index == map[]
    ensures Legal(b, SELL_FIVE) && Step(Exact, b, SELL_FIVE).ask == Half([5], 0)
    ensures Step(Exact, b, SELL_FIVE).index == map[1 := Entry(Ask, 0)]
  {
    assert Meaning(0, 0, SELL_FIVE) == Added(Ask, 1, 0, 5);
    HandlersFollowMeaning(Exact, b, SELL_FIVE);
    assert AddHalf(Exact, Ask, b.ask, 0, 5) == Half([5], 0);
  }

  lemma BookAfterCancel(b: Book)
    requires WellFormed(b) && b.low == b.high == 0 && b.ask == Half([5], 0) && b.index == map[1 := Entry(Ask, 0)]
    ensures Legal(b, CANCEL_THREE) && Step(Exact, b, CANCEL_THREE).ask == Half([2], NULL)
  {
    assert Meaning(0, 0, CANCEL_THREE) == Taken(Cancel, 0, 1, 3);
    HandlersFollowMeaning(Exact, b, CANCEL_THREE);
    assert CancelHalf(Exact, Ask, b.ask, 0, 3) == Half([2], NULL);
  }

  lemma MarketOfPartialCancel()
    ensures var mk1 := Apply(0, 0, NoOrders(), SELL_FIVE);
            && Keeps(0, 0, NoOrders(), Discipline(true, true, false), SELL_FIVE)
            && Keeps(0, 0, mk1, Discipline(true, true, false), CANCEL_THREE)
            && Apply(0, 0, mk1, CANCEL_THREE).orders == map[1 := Order(Ask, 0, 2)]
  {
    assert Meaning(0, 0, SELL_FIVE) == Added(Ask, 1, 0, 5);
    assert Meaning(0, 0, CANCEL_THREE) == Taken(Cancel, 0, 1, 3);
    assert Apply(0, 0, NoOrders(), SELL_FIVE).orders == map[1 := Order(Ask, 0, 5)];
  }

  /** Two of the five are still for sale, and the snapshot shows an empty ask side. */
  lemma PartialSellCancelHidesTheAsk(depth: nat)
    requires depth >= 1
    ensures var b, ms := Empty(0, 0), [SELL_FIVE, CANCEL_THREE];
            && KeepsAll(0, 0, NoOrders(), Discipline(true, true, false), ms)
            && ApplyAll(0, 0, NoOrders(), ms).orders == map[1 := Order(Ask, 0, 2)]
            && WellFormed(b) && LegalRun(Exact, b, ms)
            && GetPxList(Run(Exact, b, ms), depth).asks == []
  {
    var b0, ms := Empty(0, 0), [SELL_FIVE, CANCEL_THREE];
    assert ms[1..] == [CANCEL_THREE] && ms[1..][1..] == [];
    BookAtStart();
    BookAfterSell(b0);
    BookAfterCancel(Step(Exact, b0, SELL_FIVE));
    MarketOfPartialCancel();
    var b1, mk1 := Step(Exact, b0, SELL_FIVE), Apply(0, 0, NoOrders(), SELL_FIVE);
    assert Run(Exact, b1, ms[1..]) == Step(Exact, b1, CANCEL_THREE);
    assert ApplyAll(0, 0, mk1, ms[1..]) == Apply(0, 0, mk1, CANCEL_THREE);
  }

  // ---------- a trade away from the best price ----------

  /** Buy order 1 of 5 at price 1 and buy order 2 of 5 at price 0; then 3 of the worse one trade. */
  const BUY_HIGH: Body := OrderSH('A', 'B', 1, 1, 5)
  const BUY_LOW: Body := OrderSH('A', 'B', 2, 0, 5)
  const TRADE_LOW: Body := TradeSH('S', 2, 0, 3)

  lemma EmptyPair()
    ensures var b := Empty(0, 1);
            WellFormed(b) && b.low == 0 && b.high == 1 && b.bid == Half([0, 0], NULL) && b.index == map[]
  {
    assert PxSpan(0, 1) == 2;
    assert seq(2, _ => 0) == [0, 0];
  }

  lemma AfterBuyHigh(b: Book)
    requires WellFormed(b) && b.low == 0 && b.high == 1 && b.bid == Half([0, 0], NULL) && b.index == map[]
    ensures Legal(b, BUY_HIGH) && Step(Exact, b, BUY_HIGH).bid == Half([0, 5], 1)
    ensures Step(Exact, b, BUY_HIGH).index == map[1 := Entry(Bid, 1)]
  {
    assert Meaning(0, 1, BUY_HIGH) == Added(Bid, 1, 1, 5);
    HandlersFollowMeaning(Exact, b, BUY_HIGH);
    assert AddHalf(Exact, Bid, b.bid, 1, 5) == Half([0, 5], 1);
  }

  lemma AfterBuyLow(b: Book)
    requires WellFormed(b) && b.low == 0 && b.high == 1 && b.bid == Half([0, 5], 1)
    requires b.index == map[1 := Entry(Bid, 1)]
    ensures Legal(b, BUY_LOW) && Step(Exact, b, BUY_LOW).bid == Half([5, 5], 1)
    ensures Step(Exact, b, BUY_LOW).index == map[1 := Entry(Bid, 1), 2 := Entry(Bid, 0)]
  {
    assert Meaning(0, 1, BUY_LOW) == Added(Bid, 2, 0, 5);
    HandlersFollowMeaning(Exact, b, BUY_LOW);
    assert AddHalf(Exact, Bid, b.bid, 0, 5) == Half([5, 5], 1);
  }

  lemma AfterTradeLow(b: Book)
    requires WellFormed(b) && b.low == 0 && b.high == 1 && b.bid == Half([5, 5], 1)
    requires b.index == map[1 := Entry(Bid, 1), 2 := Entry(Bid, 0)]
    ensures Legal(b, TRADE_LOW) && Step(Exact, b, TRADE_LOW).bid == Half([2, 5], 0)
  {
    assert Meaning(0, 1, TRADE_LOW) == Taken(Trade, 2, 0, 3);
    HandlersFollowMeaning(Exact, b, TRADE_LOW);
    assert TradeHalf(Exact, Bid, b.bid, 0, 3) == Half([2, 5], 0);
  }

  lemma MarketOfTradeLow()
    ensures var mk1 := Apply(0, 1, NoOrders(), BUY_HIGH);
            var mk2 := Apply(0, 1, mk1, BUY_LOW);
            && Valid(0, 1, NoOrders(), BUY_HIGH) && Valid(0, 1, mk1, BUY_LOW) && Valid(0, 1, mk2, TRADE_LOW)
            && Apply(0, 1, mk2, TRADE_LOW).orders == map[1 := Order(Bid, 1, 5), 2 := Order(Bid, 0, 2)]
  {
    assert Meaning(0, 1, BUY_HIGH) == Added(Bid, 1, 1, 5);
    assert Meaning(0, 1, BUY_LOW) == Added(Bid, 2, 0, 5);
    assert Meaning(0, 1, TRADE_LOW) == Taken(Trade, 2, 0, 3);
    var mk2 := Apply(0, 1, Apply(0, 1, NoOrders(), BUY_HIGH), BUY_LOW);
    assert mk2.orders == map[1 := Order(Bid, 1, 5), 2 := Order(Bid, 0, 5)];
  }

  /** A run from its first message on. */
  lemma RunFrom(b: Book, m: Body, rest: seq<Body>)
    requires WellFormed(b) && Legal(b, m) && LegalRun(Exact, Step(Exact, b, m), rest)
    ensures LegalRun(Exact, b, [m] + rest)
    ensures Run(Exact, b, [m] + rest) == Run(Exact, Step(Exact, b, m), rest)
  {
    assert ([m] + rest)[1..] == rest;
  }

  lemma RunOfThree(b: Book, m1: Body, m2: Body, m3: Body)
    requires WellFormed(b) && Legal(b, m1)
    requires var b1 := Step(Exact, b, m1); Legal(b1, m2) && Legal(Step(Exact, b1, m2), m3)
    ensures LegalRun(Exact, b, [m1, m2, m3])
    ensures Run(Exact, b, [m1, m2, m3]) == Step(Exact, Step(Exact, Step(Exact, b, m1), m2), m3)
  {
    var b1 := Step(Exact, b, m1);
    RunFrom(Step(Exact, b1, m2), m3, []);
    RunFrom(b1, m2, [m3] + []);
    RunFrom(b, m1, [m2] + ([m3] + []));
    assert [m1, m2, m3] == [m1] + ([m2] + ([m3] + []));
  }

  lemma MarketFrom(mk: Market, d: Discipline, m: Body, rest: seq<Body>)
    requires Keeps(0, 1, mk, d, m) && KeepsAll(0, 1, Apply(0, 1, mk, m), d, rest)
    ensures KeepsAll(0, 1, mk, d, [m] + rest)
    ensures ApplyAll(0, 1, mk, [m] + rest) == ApplyAll(0, 1, Apply(0, 1, mk, m), rest)
  {
    assert ([m] + rest)[1..] == rest;
  }

  lemma MarketOfTradeAway()
    ensures var ms := [BUY_HIGH, BUY_LOW, TRADE_LOW];
            && KeepsAll(0, 1, NoOrders(), Discipline(false, false, false), ms)
            && ApplyAll(0, 1, NoOrders(), ms).orders == map[1 := Order(Bid, 1, 5), 2 := Order(Bid, 0, 2)]
  {
    var d := Discipline(false, false, false);
    MarketOfTradeLow();
    var mk1 := Apply(0, 1, NoOrders(), BUY_HIGH);
    MarketFrom(Apply(0, 1, mk1, BUY_LOW), d, TRADE_LOW, []);
    MarketFrom(mk1, d, BUY_LOW, [TRADE_LOW] + []);
    MarketFrom(NoOrders(), d, BUY_HIGH, [BUY_LOW] + ([TRADE_LOW] + []));
    assert [BUY_HIGH, BUY_LOW, TRADE_LOW] == [BUY_HIGH] + ([BUY_LOW] + ([TRADE_LOW] + []));
  }

  /** Five are bid for at price 1, and the snapshot starts with the two left at price 0. */
  lemma TradeAwayHidesTheBid(depth: nat)
    requires depth >= 1
    ensures var b, ms := Empty(0, 1), [BUY_HIGH, BUY_LOW, TRADE_LOW];
            && KeepsAll(0, 1, NoOrders(), Discipline(false, false, false), ms)
            && ApplyAll(0, 1, NoOrders(), ms).orders == map[1 := Order(Bid, 1, 5), 2 := Order(Bid, 0, 2)]
            && WellFormed(b) && LegalRun(Exact, b, ms)
            && GetPxList(Run(Exact, b, ms), depth).bids == [Quote(0, 2)]
  {
    var b0 := Empty(0, 1);
    EmptyPair();
    AfterBuyHigh(b0);
    var b1 := Step(Exact, b0, BUY_HIGH);
    AfterBuyLow(b1);
    AfterTradeLow(Step(Exact, b1, BUY_LOW));
    RunOfThree(b0, BUY_HIGH, BUY_LOW, TRADE_LOW);
    MarketOfTradeAway();
    assert Walk(Bid, 0, [2, 5], 0, depth) == [Quote(0, 2)] + Walk(Bid, 0, [2, 5], -1, depth - 1);
  }

  // ---------- one order too large for a level ----------

  /** A single valid order of 2^31. */
  const BUY_TOO_MUCH: Body := OrderSH('A', 'B', 1, 0, 0x8000_0000)

  lemma LevelOverflows()
    ensures Exact.Plus(0, 0x8000_0000) == 0x8000_0000 && Wrapping.Plus(0, 0x8000_0000) == -0x8000_0000
  {
  }

  lemma BookOfOverflow(b: Book)
    requires WellFormed(b) && b.low == b.high == 0 && b.bid == Half([0], NULL)
    ensures Legal(b, BUY_TOO_MUCH)
    ensures Step(Exact, b, BUY_TOO_MUCH).bid == Half([0x8000_0000], 0)
    ensures Step(Wrapping, b, BUY_TOO_MUCH).bid == Half([-0x8000_0000], 0)
  {
    assert Meaning(0, 0, BUY_TOO_MUCH) == Added(Bid, 1, 0, 0x8000_0000);
    HandlersFollowMeaning(Exact, b, BUY_TOO_MUCH);
    HandlersFollowMeaning(Wrapping, b, BUY_TOO_MUCH);
    LevelOverflows();
  }

  /** The machine's level goes negative, its book differs from the mathematical one, and its snapshot
      shows no bid at all. */
  lemma OverflowHidesTheBid(depth: nat)
    requires depth >= 1
    ensures var b := Empty(0, 0);
            && WellFormed(b) && Legal(b, BUY_TOO_MUCH)
            && Keeps(0, 0, NoOrders(), Discipline(true, true, true), BUY_TOO_MUCH)
            && Apply(0, 0, NoOrders(), BUY_TOO_MUCH).orders == map[1 := Order(Bid, 0, 0x8000_0000)]
            && Step(Wrapping, b, BUY_TOO_MUCH) != Step(Exact, b, BUY_TOO_MUCH)
            && GetPxList(Step(Wrapping, b, BUY_TOO_MUCH), depth).bids == []
  {
    assert Meaning(0, 0, BUY_TOO_MUCH) == Added(Bid, 1, 0, 0x8000_0000);
    BookAtStart();
    assert Empty(0, 0).bid == Half([0], NULL);
    BookOfOverflow(Empty(0, 0));
  }
}

/** Buying and selling are mirror images: reflect every price inside the limits and swap the sides,
    and every handler commutes with the reflection. The Shenzhen cancel does so exactly when it touches
    no side's cursor or drains the level there. */
module Mirror {
  import opened Machine
  import opened BookModel
  import opened Events

  // ---------- reflections ----------

  function Reversed(s: seq<int>): (r: seq<int>)
    ensures |r| == |s| && forall i :: 0 <= i < |s| ==> r[i] == s[|s| - 1 - i]
  {
    seq(|s|, i requires 0 <= i < |s| => s[|s| - 1 - i])
  }

  function MirrorCursor(n: nat, best: int): int {
    if best == NULL then NULL else n - 1 - best
  }

  function MirrorHalf(h: Half): Half {
    Half(Reversed(h.qty), MirrorCursor(|h.qty|, h.best))
  }

  function MirrorEntry(span: nat, e: Entry): Entry
    requires e.level < span
  {
    Entry(e.side.Opposite(), span - 1 - e.level)
  }

  function MirrorIndex(span: nat, index: map<int64, Entry>): (r: map<int64, Entry>)
    requires forall n :: n in index ==> index[n].level < span
    ensures r.Keys == index.Keys && forall n :: n in index ==> r[n] == MirrorEntry(span, index[n])
  {
    map n | n in index :: MirrorEntry(span, index[n])
  }

  function MirrorBook(b: Book): (r: Book)
    requires WellFormed(b)
    ensures WellFormed(r) && r.Span() == b.Span()
  {
    Book(b.low, b.high, MirrorHalf(b.ask), MirrorHalf(b.bid), MirrorIndex(b.Span(), b.index))
  }

  function MirrorPrice(low: uint32, high: uint32, price: int32): int32 {
    ToInt32(low + high - price)
  }

  function Swap(c: char, x: char, y: char): char {
    if c == x then y else if c == y then x else c
  }

  function MirrorBody(low: uint32, high: uint32, m: Body): Body {
    match m
    case OrderSH(t, s, no, price, q) => OrderSH(t, Swap(s, 'B', 'S'), no, MirrorPrice(low, high, price), q)
    case OrderSZ(s, no, price, q) => OrderSZ(Swap(s, '1', '2'), no, MirrorPrice(low, high, price), q)
    case TradeSH(f, buyNo, sellNo, q) => TradeSH(Swap(f, 'B', 'S'), sellNo, buyNo, q)
    case TradeSZ(e, bidNo, offerNo, px, q) => TradeSZ(e, offerNo, bidNo, MirrorPrice(low, high, px), q)
    case Other => Other
  }

  predicate IsCancelSZ(m: Body) {
    m.TradeSZ? && m.execType == '4'
  }

  // ---------- prices ----------

  /** Narrowing to `int32_t` first does not change a later conversion to `uint32_t`. */
  lemma NarrowThenUnsigned(x: int, low: int)
    ensures ToUint32(ToInt32(x) - low) == ToUint32(x - low)
  {
    var k := NarrowingShifts(x);
    ConversionsShift(x - low, k);
  }

  lemma ReflectedUnsigned(d: int, d': int, span: int)
    requires 0 < span < 0x1_0000_0000 && d' == span - 1 - d
    ensures ToUint32(d) < span <==> ToUint32(d') < span
    ensures ToUint32(d) < span ==> ToUint32(d') == span - 1 - ToUint32(d)
  {
    var k, r := d / 0x1_0000_0000, d % 0x1_0000_0000;
    if r < span {
      ModuloIs(d', -k, span - 1 - r);
    } else {
      ModuloIs(d', -k - 1, span - 1 - r + 0x1_0000_0000);
    }
  }

  lemma MirrorLevelOf(low: uint32, high: uint32, price: int32)
    ensures LevelOf(low, MirrorPrice(low, high, price)) == ToUint32(high - price)
  {
    NarrowThenUnsigned(low + high - price, low);
  }

  lemma ReflectedLevel(low: uint32, high: uint32, price: int32, span: int)
    requires ProperLimits(low, high) && span == high - low + 1
    ensures var l, l' := LevelOf(low, price), LevelOf(low, MirrorPrice(low, high, price));
            (l < span <==> l' < span) && (l < span ==> l' == span - 1 - l)
  {
    MirrorLevelOf(low, high, price);
    ReflectedUnsigned(price - low, high - price, span);
  }

  /** A price is in bounds exactly when its reflection is, and then their levels are reflections. */
  lemma MirrorLevel(low: uint32, high: uint32, price: int32)
    requires ProperLimits(low, high)
    ensures var price', span := MirrorPrice(low, high, price), PxSpan(low, high);
            && (LevelOf(low, price) < span <==> LevelOf(low, price') < span)
            && (LevelOf(low, price) < span ==> LevelOf(low, price') == span - 1 - LevelOf(low, price))
            && (InRange(low, high, price) <==> InRange(low, high, price'))
  {
    LevelCorrespondence(low, high, price);
    LevelCorrespondence(low, high, MirrorPrice(low, high, price));
    ReflectedLevel(low, high, price, PxSpan(low, high));
  }

  lemma MirrorUnsigned(low: uint32, high: uint32, price: int32)
    ensures ToUint32(MirrorPrice(low, high, price)) == ToUint32(low + high - ToUint32(price))
  {
    NarrowThenUnsigned(low + high - price, 0);
    ConversionsShift(low + high - price, price / 0x1_0000_0000);
  }

  /** Reflecting a price twice gives it back, in 32 bits. */
  lemma MirrorPriceTwice(low: uint32, high: uint32, price: int32)
    ensures MirrorPrice(low, high, MirrorPrice(low, high, price)) == price
  {
    var k := NarrowingShifts(low + high - price);
    ConversionsShift(price, -k);
    InRangeUnchanged(price);
  }

  // ---------- one ladder ----------

  lemma {:induction false} ScanMirror(side: Side, qty: seq<int>, from: int)
    requires if side.Bid? then -1 <= from < |qty| else 0 <= from <= |qty|
    ensures Scan(side.Opposite(), Reversed(qty), |qty| - 1 - from) == MirrorCursor(|qty|, Scan(side, qty, from))
    decreases if side.Bid? then from + 1 else |qty| - from
  {
    if from < 0 || from >= |qty| {
    } else {
      assert Reversed(qty)[|qty| - 1 - from] == qty[from];
      if qty[from] <= 0 { ScanMirror(side, qty, side.Worse(from)); }
    }
  }

  lemma ReversedUpdate(s: seq<int>, p: nat, v: int)
    requires p < |s|
    ensures Reversed(s[p := v]) == Reversed(s)[|s| - 1 - p := v]
  {
  }

  lemma AddMirror(a: Arithmetic, side: Side, h: Half, p: nat, p': nat, q: int)
    requires HalfOk(h, |h.qty|) && p < |h.qty| && p' == |h.qty| - 1 - p
    ensures MirrorHalf(AddHalf(a, side, h, p, q)) == AddHalf(a, side.Opposite(), MirrorHalf(h), p', q)
  {
    ReversedUpdate(h.qty, p, a.Plus(h.qty[p], q));
  }

  lemma Drained(a: Arithmetic, side: Side, h: Half, p: nat, q: int)
    requires HalfOk(h, |h.qty|) && p < |h.qty| && p == h.best && a.Minus(h.qty[p], q) <= 0
    ensures DeleteHalf(a, side, h, p, q) == Half(h.qty[p := 0], Scan(side, h.qty[p := 0], side.Worse(p)))
  {
  }

  /** A delete that empties the cursor's level rescans in mirrored directions. */
  lemma DrainMirror(a: Arithmetic, side: Side, h: Half, p: nat, q: int)
    requires HalfOk(h, |h.qty|) && p < |h.qty| && p == h.best && a.Minus(h.qty[p], q) <= 0
    ensures MirrorHalf(DeleteHalf(a, side, h, p, q))
            == DeleteHalf(a, side.Opposite(), MirrorHalf(h), |h.qty| - 1 - p, q)
  {
    var qty, p' := h.qty[p := 0], |h.qty| - 1 - p;
    Drained(a, side, h, p, q);
    Drained(a, side.Opposite(), MirrorHalf(h), p', q);
    ReversedUpdate(h.qty, p, 0);
    ScanMirror(side, qty, side.Worse(p));
    assert |h.qty| - 1 - side.Worse(p) == side.Opposite().Worse(p');
  }

  lemma DeleteMirror(a: Arithmetic, side: Side, h: Half, p: nat, p': nat, q: int)
    requires HalfOk(h, |h.qty|) && p < |h.qty| && p' == |h.qty| - 1 - p
    ensures MirrorHalf(DeleteHalf(a, side, h, p, q)) == DeleteHalf(a, side.Opposite(), MirrorHalf(h), p', q)
  {
    if p == h.best && a.Minus(h.qty[p], q) <= 0 {
      DrainMirror(a, side, h, p, q);
    } else {
      ReversedUpdate(h.qty, p, Max(0, a.Minus(h.qty[p], q)));
    }
  }

  lemma TradeMirror(a: Arithmetic, side: Side, h: Half, p: nat, q: int)
    requires HalfOk(h, |h.qty|) && p < |h.qty|
    ensures MirrorHalf(TradeHalf(a, side, h, p, q))
            == TradeHalf(a, side.Opposite(), MirrorHalf(h), |h.qty| - 1 - p, q)
  {
    var left := a.Minus(h.qty[p], q);
    ReversedUpdate(h.qty, p, left);
    ScanMirror(side, h.qty[p := left], p);
  }

  /** Where a Shenzhen cancel at the cursor starts to rescan. */
  function RescanFrom(side: Side, p: nat): nat {
    if side.Bid? then p else p + 1
  }

  lemma ScanAt(side: Side, qty: seq<int>, p: nat)
    requires p < |qty|
    ensures Scan(side, qty, p) == if qty[p] > 0 then p else Scan(side, qty, side.Worse(p))
  {
  }

  /** Scanning from a level and from the one after it meet exactly when the level is empty. */
  lemma ScansMeet(side: Side, qty: seq<int>, p: nat)
    requires p < |qty|
    ensures Scan(side, qty, p) == Scan(side, qty, side.Worse(p)) <==> qty[p] <= 0
  {
    ScanAt(side, qty, p);
    var next := Scan(side, qty, side.Worse(p));
    assert next != NULL ==> !side.Better(next, side.Worse(p));
  }

  lemma CursorsMeet(n: nat, x: int, y: int)
    requires NULL <= x < n && NULL <= y < n
    ensures MirrorCursor(n, x) == MirrorCursor(n, y) <==> x == y
  {
  }

  lemma BelowMirror(qty: seq<int>, p: nat)
    requires p < |qty|
    ensures Scan(Ask, Reversed(qty), |qty| - p) == MirrorCursor(|qty|, Scan(Bid, qty, p - 1))
  {
    ScanMirror(Bid, qty, p - 1);
  }

  lemma BidRescanMirror(qty: seq<int>, p: nat)
    requires p < |qty|
    ensures MirrorCursor(|qty|, Scan(Bid, qty, p)) == Scan(Ask, Reversed(qty), |qty| - p) <==> qty[p] <= 0
  {
    ScansMeet(Bid, qty, p);
    BelowMirror(qty, p);
    CursorsMeet(|qty|, Scan(Bid, qty, p), Scan(Bid, qty, p - 1));
  }

  lemma AskRescanMirror(qty: seq<int>, p: nat)
    requires p < |qty|
    ensures MirrorCursor(|qty|, Scan(Ask, qty, p + 1)) == Scan(Bid, Reversed(qty), |qty| - 1 - p) <==> qty[p] <= 0
  {
    ScansMeet(Ask, qty, p);
    ScanMirror(Ask, qty, p);
    CursorsMeet(|qty|, Scan(Ask, qty, p), Scan(Ask, qty, p + 1));
  }

  /** At the cursor, the two sides' rescans meet exactly on a drained level. */
  lemma RescansMirror(side: Side, qty: seq<int>, p: nat)
    requires p < |qty|
    ensures MirrorCursor(|qty|, Scan(side, qty, RescanFrom(side, p)))
            == Scan(side.Opposite(), Reversed(qty), RescanFrom(side.Opposite(), |qty| - 1 - p))
            <==> qty[p] <= 0
  {
    match side
    case Bid => BidRescanMirror(qty, p);
    case Ask => AskRescanMirror(qty, p);
  }

  /** The Shenzhen cancels are mirror images exactly away from the cursor or on a drained level. */
  lemma CancelMirror(a: Arithmetic, side: Side, h: Half, p: nat, q: int)
    requires HalfOk(h, |h.qty|) && p < |h.qty|
    ensures MirrorHalf(CancelHalf(a, side, h, p, q))
            == CancelHalf(a, side.Opposite(), MirrorHalf(h), |h.qty| - 1 - p, q)
            <==> p != h.best || a.Minus(h.qty[p], q) <= 0
  {
    var left := a.Minus(h.qty[p], q);
    ReversedUpdate(h.qty, p, left);
    RescansMirror(side, h.qty[p := left], p);
  }

  // ---------- one book ----------

  lemma IndexMirror(b: Book, no: int64, e: Entry)
    requires WellFormed(b) && e.level < b.Span()
    ensures MirrorIndex(b.Span(), b.index[no := e])
            == MirrorBook(b).index[no := Entry(e.side.Opposite(), b.Span() - 1 - e.level)]
    ensures MirrorIndex(b.Span(), b.index - {no}) == MirrorBook(b).index - {no}
  {
  }

  lemma BooksAreReflections(r: Book, r': Book, side: Side)
    requires WellFormed(r) && r'.low == r.low && r'.high == r.high
    requires r'.Of(side) == MirrorHalf(r.Of(side.Opposite())) && r'.Of(side.Opposite()) == MirrorHalf(r.Of(side))
    requires r'.index == MirrorIndex(r.Span(), r.index)
    ensures r' == MirrorBook(r)
  {
  }

  /** Two books whose indexes and other ladders reflect are reflections when this ladder does. */
  lemma BooksReflect(r: Book, r': Book, side: Side)
    requires WellFormed(r) && r'.low == r.low && r'.high == r.high
    requires r'.Of(side) == MirrorHalf(r.Of(side.Opposite())) && r'.index == MirrorIndex(r.Span(), r.index)
    ensures r' == MirrorBook(r) <==> r'.Of(side.Opposite()) == MirrorHalf(r.Of(side))
  {
  }

  lemma AddParts(a: Arithmetic, b: Book, side: Side, no: int64, p: nat, q: int, h: Half)
    requires WellFormed(b) && p < b.Span() && h == b.Of(side)
    ensures var r := Add(a, b, side, no, p, q);
            && r.Of(side) == AddHalf(a, side, h, p, q)
            && r.Of(side.Opposite()) == b.Of(side.Opposite())
            && r.index == b.index[no := Entry(side, p)]
  {
  }

  lemma MirrorOf(b: Book, side: Side)
    requires WellFormed(b)
    ensures MirrorBook(b).Of(side.Opposite()) == MirrorHalf(b.Of(side))
  {
  }

  lemma BookAddMirror(a: Arithmetic, b: Book, side: Side, no: int64, p: nat, q: int)
    requires WellFormed(b) && p < b.Span()
    ensures MirrorBook(Add(a, b, side, no, p, q)) == Add(a, MirrorBook(b), side.Opposite(), no, b.Span() - 1 - p, q)
  {
    var p' := b.Span() - 1 - p;
    var r, r' := Add(a, b, side, no, p, q), Add(a, MirrorBook(b), side.Opposite(), no, p', q);
    MirrorOf(b, side);
    MirrorOf(b, side.Opposite());
    AddParts(a, b, side, no, p, q, b.Of(side));
    AddParts(a, MirrorBook(b), side.Opposite(), no, p', q, MirrorHalf(b.Of(side)));
    AddMirror(a, side, b.Of(side), p, p', q);
    IndexMirror(b, no, Entry(side, p));
    BooksAreReflections(r, r', side);
  }

  lemma DeleteParts(a: Arithmetic, b: Book, side: Side, p: nat, q: int, h: Half)
    requires WellFormed(b) && p < b.Span() && h == b.Of(side)
    ensures var r := Delete(a, b, side, p, q);
            && r.Of(side) == DeleteHalf(a, side, h, p, q)
            && r.Of(side.Opposite()) == b.Of(side.Opposite())
            && r.index == b.index
  {
  }

  lemma BookDeleteMirror(a: Arithmetic, b: Book, side: Side, p: nat, q: int)
    requires WellFormed(b) && p < b.Span()
    ensures MirrorBook(Delete(a, b, side, p, q)) == Delete(a, MirrorBook(b), side.Opposite(), b.Span() - 1 - p, q)
  {
    var p' := b.Span() - 1 - p;
    var r, r' := Delete(a, b, side, p, q), Delete(a, MirrorBook(b), side.Opposite(), p', q);
    MirrorOf(b, side);
    MirrorOf(b, side.Opposite());
    DeleteParts(a, b, side, p, q, b.Of(side));
    DeleteParts(a, MirrorBook(b), side.Opposite(), p', q, MirrorHalf(b.Of(side)));
    DeleteMirror(a, side, b.Of(side), p, p', q);
    BooksAreReflections(r, r', side);
  }

  /** The index leads from this number to a level. */
  predicate Known(b: Book, no: int64) {
    no > 0 && no in b.index
  }

  /** When the reflection of a removal is the removal from the reflection: always for a trade and for a
      number on the other ladder; a cancel on its own ladder has to stay off the cursor or drain the
      level there. */
  predicate Reflects(a: Arithmetic, how: Removal, b: Book, side: Side, no: int64, q: int)
    requires WellFormed(b)
  {
    how.Cancel? && Known(b, no) && b.index[no].side == side ==>
      b.index[no].level != b.Of(side).best || a.Minus(b.Of(side).qty[b.index[no].level], q) <= 0
  }

  lemma TakingMirror(a: Arithmetic, how: Removal, own: bool, side: Side, h: Half, p: nat, q: int)
    requires HalfOk(h, |h.qty|) && p < |h.qty|
    ensures MirrorHalf(TakeHalf(a, how, own, side, h, p, q))
            == TakeHalf(a, how, own, side.Opposite(), MirrorHalf(h), |h.qty| - 1 - p, q)
            <==> how.Cancel? && own ==> p != h.best || a.Minus(h.qty[p], q) <= 0
  {
    if !own {
      ReversedUpdate(h.qty, p, a.Minus(h.qty[p], q));
    } else if how.Trade? {
      TradeMirror(a, side, h, p, q);
    } else {
      CancelMirror(a, side, h, p, q);
    }
  }

  /** The index after a removal by a known number: erased when its level is empty. */
  function IndexAfter(a: Arithmetic, b: Book, no: int64, q: int): (r: map<int64, Entry>)
    requires WellFormed(b) && Known(b, no)
    ensures forall n :: n in r ==> n in b.index && r[n] == b.index[n]
  {
    var e := b.index[no];
    if a.Minus(b.Of(e.side).qty[e.level], q) <= 0 then b.index - {no} else b.index
  }

  /** A removal by a known number, part by part. */
  lemma RemoveParts(a: Arithmetic, how: Removal, b: Book, side: Side, no: int64, q: int, e: Entry, own: bool, h: Half)
    requires WellFormed(b) && Known(b, no) && (how.Trade? ==> Indexes(b, side, no))
    requires e == b.index[no] && own == (e.side == side) && h == b.Of(e.side)
    ensures var r := Remove(a, how, b, side, no, q);
            && r.Of(e.side) == TakeHalf(a, how, own, e.side, h, e.level, q)
            && r.Of(e.side.Opposite()) == b.Of(e.side.Opposite())
            && r.index == IndexAfter(a, b, no, q)
  {
  }

  lemma MirroredNumber(b: Book, no: int64)
    requires WellFormed(b) && Known(b, no)
    ensures var b', e := MirrorBook(b), b.index[no];
            && Known(b', no) && b'.index[no] == Entry(e.side.Opposite(), b.Span() - 1 - e.level)
            && b'.Of(e.side.Opposite()) == MirrorHalf(b.Of(e.side))
            && b'.Of(e.side.Opposite()).qty[b.Span() - 1 - e.level] == b.Of(e.side).qty[e.level]
  {
  }

  lemma IndexAfterMirror(a: Arithmetic, b: Book, no: int64, q: int)
    requires WellFormed(b) && Known(b, no)
    ensures IndexAfter(a, MirrorBook(b), no, q) == MirrorIndex(b.Span(), IndexAfter(a, b, no, q))
  {
    MirroredNumber(b, no);
    IndexMirror(b, no, b.index[no]);
  }

  /** The same removal from the reflected book. */
  lemma RemoveFromMirror(a: Arithmetic, how: Removal, b: Book, side: Side, no: int64, q: int, e: Entry, own: bool,
                         h: Half)
    requires WellFormed(b) && Known(b, no) && (how.Trade? ==> Indexes(b, side, no))
    requires e == b.index[no] && own == (e.side == side) && h == b.Of(e.side)
    ensures how.Trade? ==> Indexes(MirrorBook(b), side.Opposite(), no)
    ensures var r' := Remove(a, how, MirrorBook(b), side.Opposite(), no, q);
            && r'.Of(e.side.Opposite()) == TakeHalf(a, how, own, e.side.Opposite(), MirrorHalf(h),
                                                  b.Span() - 1 - e.level, q)
            && r'.Of(e.side) == MirrorHalf(b.Of(e.side.Opposite()))
            && r'.index == MirrorIndex(b.Span(), IndexAfter(a, b, no, q))
  {
    MirroredNumber(b, no);
    MirrorOf(b, e.side);
    MirrorOf(b, e.side.Opposite());
    IndexAfterMirror(a, b, no, q);
    RemoveParts(a, how, MirrorBook(b), side.Opposite(), no, q,
                Entry(e.side.Opposite(), b.Span() - 1 - e.level), own, MirrorHalf(h));
  }

  /** Two ladders that came out as `h` and `k`. */
  lemma LaddersReflect(r: Book, r': Book, side: Side, h: Half, k: Half, cond: bool)
    requires r.Of(side) == h && r'.Of(side.Opposite()) == k && (MirrorHalf(h) == k <==> cond)
    ensures r'.Of(side.Opposite()) == MirrorHalf(r.Of(side)) <==> cond
  {
  }

  lemma ReflectsAt(a: Arithmetic, how: Removal, b: Book, side: Side, no: int64, q: int, own: bool, h: Half, p: nat)
    requires WellFormed(b) && Known(b, no) && b.index[no].level == p
    requires own == (b.index[no].side == side) && h == b.Of(b.index[no].side)
    ensures Reflects(a, how, b, side, no, q) <==> (how.Cancel? && own ==> p != h.best || a.Minus(h.qty[p], q) <= 0)
  {
  }

  lemma TakingReflects(a: Arithmetic, how: Removal, b: Book, side: Side, no: int64, q: int, e: Entry, own: bool,
                       h: Half)
    requires WellFormed(b) && Known(b, no) && e == b.index[no] && own == (e.side == side) && h == b.Of(e.side)
    ensures MirrorHalf(TakeHalf(a, how, own, e.side, h, e.level, q))
            == TakeHalf(a, how, own, e.side.Opposite(), MirrorHalf(h), b.Span() - 1 - e.level, q)
            <==> Reflects(a, how, b, side, no, q)
  {
    TakingMirror(a, how, own, e.side, h, e.level, q);
    ReflectsAt(a, how, b, side, no, q, own, h, e.level);
  }

  /** One half of a report: the ladder it takes from reflects exactly when it should. */
  lemma LadderMirror(a: Arithmetic, how: Removal, b: Book, side: Side, no: int64, q: int, e: Entry)
    requires WellFormed(b) && Known(b, no) && (how.Trade? ==> Indexes(b, side, no)) && e == b.index[no]
    ensures how.Trade? ==> Indexes(MirrorBook(b), side.Opposite(), no)
    ensures var r, r' := Remove(a, how, b, side, no, q), Remove(a, how, MirrorBook(b), side.Opposite(), no, q);
            r'.Of(e.side.Opposite()) == MirrorHalf(r.Of(e.side)) <==> Reflects(a, how, b, side, no, q)
  {
    var own, h := e.side == side, b.Of(e.side);
    RemoveParts(a, how, b, side, no, q, e, own, h);
    RemoveFromMirror(a, how, b, side, no, q, e, own, h);
    TakingReflects(a, how, b, side, no, q, e, own, h);
    LaddersReflect(Remove(a, how, b, side, no, q), Remove(a, how, MirrorBook(b), side.Opposite(), no, q), e.side,
                   TakeHalf(a, how, own, e.side, h, e.level, q),
                   TakeHalf(a, how, own, e.side.Opposite(), MirrorHalf(h), b.Span() - 1 - e.level, q),
                   Reflects(a, how, b, side, no, q));
  }

  /** The whole book reflects exactly when that ladder does. */
  lemma KnownMirror(a: Arithmetic, how: Removal, b: Book, side: Side, no: int64, q: int, on: Side)
    requires WellFormed(b) && Known(b, no) && (how.Trade? ==> Indexes(b, side, no)) && on == b.index[no].side
    ensures how.Trade? ==> Indexes(MirrorBook(b), side.Opposite(), no)
    ensures var r, r' := Remove(a, how, b, side, no, q), Remove(a, how, MirrorBook(b), side.Opposite(), no, q);
            r' == MirrorBook(r) <==> r'.Of(on.Opposite()) == MirrorHalf(r.Of(on))
  {
    RemoveParts(a, how, b, side, no, q, b.index[no], on == side, b.Of(on));
    RemoveFromMirror(a, how, b, side, no, q, b.index[no], on == side, b.Of(on));
    BooksReflect(Remove(a, how, b, side, no, q), Remove(a, how, MirrorBook(b), side.Opposite(), no, q), on);
  }

  lemma RemoveMirror(a: Arithmetic, how: Removal, b: Book, side: Side, no: int64, q: int)
    requires WellFormed(b) && (how.Trade? ==> Indexes(b, side, no))
    ensures how.Trade? ==> Indexes(MirrorBook(b), side.Opposite(), no)
    ensures Remove(a, how, MirrorBook(b), side.Opposite(), no, q) == MirrorBook(Remove(a, how, b, side, no, q))
            <==> Reflects(a, how, b, side, no, q)
  {
    if Known(b, no) {
      LadderMirror(a, how, b, side, no, q, b.index[no]);
      KnownMirror(a, how, b, side, no, q, b.index[no].side);
    }
  }

  /** A report's two numbers, if both known, lead to different ladders. */
  predicate Apart(b: Book, buyNo: int64, sellNo: int64) {
    Known(b, buyNo) && Known(b, sellNo) ==> b.index[buyNo].side != b.index[sellNo].side
  }

  /** A removal changes no ladder but the one its number leads to. */
  lemma OtherLadderKept(a: Arithmetic, how: Removal, b: Book, side: Side, no: int64, q: int, other: Side)
    requires WellFormed(b) && (how.Trade? ==> Indexes(b, side, no))
    requires Known(b, no) ==> b.index[no].side != other
    ensures Remove(a, how, b, side, no, q).Of(other) == b.Of(other)
  {
  }

  /** One half of a report decides nothing of the other half's reflection. */
  lemma OtherHalfReflects(a: Arithmetic, how: Removal, b: Book, side: Side, no: int64, other: int64, q: int)
    requires WellFormed(b) && Apart(b, no, other) && (how.Trade? ==> Indexes(b, side, no))
    ensures var r := Remove(a, how, b, side, no, q);
            && Known(r, other) == Known(b, other)
            && (Known(b, other) ==> r.index[other] == b.index[other])
            && Reflects(a, how, r, side.Opposite(), other, q) == Reflects(a, how, b, side.Opposite(), other, q)
  {
    if Known(b, other) { OtherLadderKept(a, how, b, side, no, q, b.index[other].side); }
  }

  /** The buyer's and the seller's half of a report commute. */
  lemma HalvesCommute(a: Arithmetic, how: Removal, b: Book, buyNo: int64, sellNo: int64, q: int)
    requires WellFormed(b) && Apart(b, buyNo, sellNo) && (how.Trade? ==> OwnSides(b, buyNo, sellNo))
    ensures Remove(a, how, Remove(a, how, b, Bid, buyNo, q), Ask, sellNo, q)
            == Remove(a, how, Remove(a, how, b, Ask, sellNo, q), Bid, buyNo, q)
  {
    if Known(b, buyNo) && Known(b, sellNo) {
      assert b.index - {buyNo} - {sellNo} == b.index - {sellNo} - {buyNo};
    }
  }

  lemma ApartMirror(b: Book, buyNo: int64, sellNo: int64)
    requires WellFormed(b)
    ensures Apart(b, buyNo, sellNo) ==> Apart(MirrorBook(b), sellNo, buyNo)
  {
  }

  lemma OwnSidesMirror(b: Book, buyNo: int64, sellNo: int64)
    requires WellFormed(b)
    ensures OwnSides(b, buyNo, sellNo) ==> OwnSides(MirrorBook(b), sellNo, buyNo)
  {
  }

  /** Both halves reflect: so does the report. */
  lemma BothMirror(a: Arithmetic, how: Removal, b: Book, buyNo: int64, sellNo: int64, q: int)
    requires WellFormed(b) && Apart(b, buyNo, sellNo) && (how.Trade? ==> OwnSides(b, buyNo, sellNo))
    requires Reflects(a, how, b, Bid, buyNo, q) && Reflects(a, how, b, Ask, sellNo, q)
    ensures how.Trade? ==> OwnSides(MirrorBook(b), sellNo, buyNo)
    ensures RemoveBoth(a, how, MirrorBook(b), sellNo, buyNo, q) == MirrorBook(RemoveBoth(a, how, b, buyNo, sellNo, q))
  {
    ApartMirror(b, buyNo, sellNo);
    OwnSidesMirror(b, buyNo, sellNo);
    HalvesCommute(a, how, MirrorBook(b), sellNo, buyNo, q);
    RemoveMirror(a, how, b, Bid, buyNo, q);
    OtherHalfReflects(a, how, b, Bid, buyNo, sellNo, q);
    RemoveMirror(a, how, Remove(a, how, b, Bid, buyNo, q), Ask, sellNo, q);
  }

  /** Two cancels in a row. */
  function CancelTwo(a: Arithmetic, b: Book, side: Side, no: int64, other: int64, q: int): (r: Book)
    requires WellFormed(b)
    ensures SameShape(b, r)
  {
    Remove(a, Cancel, Remove(a, Cancel, b, side, no, q), side.Opposite(), other, q)
  }

  /** A cancel that does not reflect shows on its ladder, whatever the other one does. */
  lemma MustReflect(a: Arithmetic, b: Book, side: Side, no: int64, other: int64, q: int)
    requires WellFormed(b) && Apart(b, no, other)
    requires CancelTwo(a, MirrorBook(b), side.Opposite(), no, other, q)
             == MirrorBook(CancelTwo(a, b, side, no, other, q))
    ensures Reflects(a, Cancel, b, side, no, q)
  {
    if Known(b, no) {
      var on := b.index[no].side;
      LadderMirror(a, Cancel, b, side, no, q, b.index[no]);
      OtherHalfReflects(a, Cancel, b, side, no, other, q);
      OtherLadderKept(a, Cancel, Remove(a, Cancel, b, side, no, q), side.Opposite(), other, q, on);
      ApartMirror(b, no, other);
      MirroredNumber(b, no);
      var b' := MirrorBook(b);
      OtherHalfReflects(a, Cancel, b', side.Opposite(), no, other, q);
      OtherLadderKept(a, Cancel, Remove(a, Cancel, b', side.Opposite(), no, q), side, other, q, on.Opposite());
    }
  }

  /** A Shenzhen cancel commutes with the reflection exactly when both its numbers do. */
  lemma CancelsMirror(a: Arithmetic, b: Book, buyNo: int64, sellNo: int64, q: int)
    requires WellFormed(b) && Apart(b, buyNo, sellNo)
    ensures RemoveBoth(a, Cancel, MirrorBook(b), sellNo, buyNo, q)
            == MirrorBook(RemoveBoth(a, Cancel, b, buyNo, sellNo, q))
            <==> Reflects(a, Cancel, b, Bid, buyNo, q) && Reflects(a, Cancel, b, Ask, sellNo, q)
  {
    if Reflects(a, Cancel, b, Bid, buyNo, q) && Reflects(a, Cancel, b, Ask, sellNo, q) {
      BothMirror(a, Cancel, b, buyNo, sellNo, q);
    } else if RemoveBoth(a, Cancel, MirrorBook(b), sellNo, buyNo, q)
              == MirrorBook(RemoveBoth(a, Cancel, b, buyNo, sellNo, q)) {
      ApartMirror(b, buyNo, sellNo);
      HalvesCommute(a, Cancel, b, buyNo, sellNo, q);
      HalvesCommute(a, Cancel, MirrorBook(b), sellNo, buyNo, q);
      MustReflect(a, b, Bid, buyNo, sellNo, q);
      MustReflect(a, b, Ask, sellNo, buyNo, q);
    }
  }

  /** The reflection of an event. */
  function MirrorEvent(low: uint32, high: uint32, e: Event): Event {
    match e
    case Nothing => Nothing
    case Added(side, no, price, q) => Added(side.Opposite(), no, ToUint32(low + high - price), q)
    case Deleted(side, no, price, q) => Deleted(side.Opposite(), no, ToUint32(low + high - price), q)
    case Taken(how, buyNo, sellNo, q) => Taken(how, sellNo, buyNo, q)
  }

  lemma MeaningMirror(low: uint32, high: uint32, m: Body)
    requires ProperLimits(low, high)
    ensures Meaning(low, high, MirrorBody(low, high, m)) == MirrorEvent(low, high, Meaning(low, high, m))
  {
    match m
    case OrderSH(_, _, _, price, _) => MirrorUnsigned(low, high, price);
    case OrderSZ(_, _, price, _) =>
      MirrorUnsigned(low, high, price);
      MirrorLevel(low, high, price);
    case TradeSZ(_, _, _, px, _) => MirrorLevel(low, high, px);
    case _ =>
  }

  /** Within the limits the reflected price is exact, and so is its level. */
  lemma ReflectedPrice(b: Book, price: uint32)
    requires WellFormed(b) && b.low <= price <= b.high
    ensures var price' := ToUint32(b.low + b.high - price);
            b.low <= price' <= b.high && price' - b.low == b.Span() - 1 - (price - b.low)
  {
    ModuloIs(b.low + b.high - price, 0, b.low + b.high - price);
  }

  lemma AddedAt(a: Arithmetic, b: Book, e: Event, e': Event)
    requires WellFormed(b) && e.Added? && LegalEvent(b, e) && e'.Added?
    requires e'.side == e.side.Opposite() && e'.no == e.no && e'.q == e.q
    requires e'.price - b.low == b.Span() - 1 - (e.price - b.low)
    ensures StepEvent(a, MirrorBook(b), e') == MirrorBook(StepEvent(a, b, e))
  {
    var p := e.price - b.low;
    StepIsAdd(a, b, e, e.side, p, e.q);
    StepIsAdd(a, MirrorBook(b), e', e.side.Opposite(), b.Span() - 1 - p, e.q);
    BookAddMirror(a, b, e.side, e.no, p, e.q);
  }

  lemma AddedMirror(a: Arithmetic, b: Book, e: Event)
    requires WellFormed(b) && e.Added? && LegalEvent(b, e)
    ensures var e' := MirrorEvent(b.low, b.high, e);
            LegalEvent(MirrorBook(b), e') && StepEvent(a, MirrorBook(b), e') == MirrorBook(StepEvent(a, b, e))
  {
    ReflectedPrice(b, e.price);
    AddedAt(a, b, e, MirrorEvent(b.low, b.high, e));
  }

  lemma DeletedAt(a: Arithmetic, b: Book, e: Event, e': Event)
    requires WellFormed(b) && e.Deleted? && LegalEvent(b, e) && e'.Deleted?
    requires e'.side == e.side.Opposite() && e'.no == e.no && e'.q == e.q
    requires e'.price - b.low == b.Span() - 1 - (e.price - b.low)
    ensures StepEvent(a, MirrorBook(b), e') == MirrorBook(StepEvent(a, b, e))
  {
    var p := e.price - b.low;
    StepIsDelete(a, b, e, e.side, p, e.q);
    StepIsDelete(a, MirrorBook(b), e', e.side.Opposite(), b.Span() - 1 - p, e.q);
    BookDeleteMirror(a, b, e.side, p, e.q);
  }

  lemma DeletedMirror(a: Arithmetic, b: Book, e: Event)
    requires WellFormed(b) && e.Deleted? && LegalEvent(b, e)
    ensures var e' := MirrorEvent(b.low, b.high, e);
            LegalEvent(MirrorBook(b), e') && StepEvent(a, MirrorBook(b), e') == MirrorBook(StepEvent(a, b, e))
  {
    ReflectedPrice(b, e.price);
    DeletedAt(a, b, e, MirrorEvent(b.low, b.high, e));
  }

  /** The one event that may not reflect: a cancel. */
  predicate EventReflects(a: Arithmetic, b: Book, e: Event)
    requires WellFormed(b)
  {
    e.Taken? && e.how.Cancel? ==>
      Reflects(a, Cancel, b, Bid, e.buyNo, e.q) && Reflects(a, Cancel, b, Ask, e.sellNo, e.q)
  }

  lemma TakenMirror(a: Arithmetic, b: Book, e: Event)
    requires WellFormed(b) && e.Taken? && LegalEvent(b, e) && Apart(b, e.buyNo, e.sellNo)
    ensures var e' := MirrorEvent(b.low, b.high, e);
            && LegalEvent(MirrorBook(b), e')
            && (StepEvent(a, MirrorBook(b), e') == MirrorBook(StepEvent(a, b, e)) <==> EventReflects(a, b, e))
  {
    match e.how
    case Trade => BothMirror(a, Trade, b, e.buyNo, e.sellNo, e.q);
    case Cancel => CancelsMirror(a, b, e.buyNo, e.sellNo, e.q);
  }

  lemma EventMirror(a: Arithmetic, b: Book, e: Event)
    requires WellFormed(b) && LegalEvent(b, e)
    requires e.Taken? ==> Apart(b, e.buyNo, e.sellNo)
    ensures var e' := MirrorEvent(b.low, b.high, e);
            && LegalEvent(MirrorBook(b), e')
            && (StepEvent(a, MirrorBook(b), e') == MirrorBook(StepEvent(a, b, e)) <==> EventReflects(a, b, e))
  {
    match e
    case Nothing =>
    case Added(_, _, _, _) => AddedMirror(a, b, e);
    case Deleted(_, _, _, _) => DeletedMirror(a, b, e);
    case Taken(_, _, _, _) => TakenMirror(a, b, e);
  }

  // ---------- every message ----------

  /** Reflecting a book twice gives it back. */
  lemma MirrorTwice(b: Book)
    requires WellFormed(b)
    ensures MirrorBook(MirrorBook(b)) == b
  {
    assert Reversed(Reversed(b.bid.qty)) == b.bid.qty;
    assert Reversed(Reversed(b.ask.qty)) == b.ask.qty;
  }

  lemma BodyTwice(low: uint32, high: uint32, m: Body)
    ensures MirrorBody(low, high, MirrorBody(low, high, m)) == m
  {
    match m
    case OrderSH(_, _, _, price, _) => MirrorPriceTwice(low, high, price);
    case OrderSZ(_, _, price, _) => MirrorPriceTwice(low, high, price);
    case TradeSZ(_, _, _, px, _) => MirrorPriceTwice(low, high, px);
    case _ =>
  }

  lemma LegalOrderReflects(b: Book, m: Body)
    requires WellFormed(b) && Legal(b, m) && m.OrderSH?
    ensures Legal(MirrorBook(b), MirrorBody(b.low, b.high, m))
  {
    MirrorLevel(b.low, b.high, m.price);
  }

  lemma LegalTradeReflects(b: Book, m: Body)
    requires WellFormed(b) && Legal(b, m) && m.TradeSZ?
    ensures Legal(MirrorBook(b), MirrorBody(b.low, b.high, m))
  {
    OwnSidesMirror(b, m.bidNo, m.offerNo);
    MirrorLevel(b.low, b.high, m.lastPx);
  }

  lemma LegalReflects(b: Book, m: Body)
    requires WellFormed(b) && Legal(b, m)
    ensures Legal(MirrorBook(b), MirrorBody(b.low, b.high, m))
  {
    match m
    case OrderSH(_, _, _, _, _) => LegalOrderReflects(b, m);
    case TradeSH(_, buyNo, sellNo, _) => OwnSidesMirror(b, buyNo, sellNo);
    case TradeSZ(_, _, _, _, _) => LegalTradeReflects(b, m);
    case _ =>
  }

  /** The handlers can carry out a message exactly when they can carry out its reflection. */
  lemma LegalMirror(b: Book, m: Body)
    requires WellFormed(b)
    ensures Legal(b, m) <==> Legal(MirrorBook(b), MirrorBody(b.low, b.high, m))
  {
    MirrorTwice(b);
    BodyTwice(b.low, b.high, m);
    if Legal(b, m) {
      LegalReflects(b, m);
    } else if Legal(MirrorBook(b), MirrorBody(b.low, b.high, m)) {
      LegalReflects(MirrorBook(b), MirrorBody(b.low, b.high, m));
    }
  }

  /** What a message must be to reflect: anything but a Shenzhen cancel that leaves something at the
      cursor of the side it names. */
  predicate MessageReflects(a: Arithmetic, b: Book, m: Body)
    requires WellFormed(b)
  {
    IsCancelSZ(m) ==>
      Reflects(a, Cancel, b, Bid, m.bidNo, m.lastQty) && Reflects(a, Cancel, b, Ask, m.offerNo, m.lastQty)
  }

  /** The two numbers of a Shenzhen cancel, if both known, lead to different ladders. */
  predicate CancelsApart(b: Book, m: Body) {
    IsCancelSZ(m) ==> Apart(b, m.bidNo, m.offerNo)
  }

  /** A message commutes with the reflection exactly when it is not such a cancel. */
  lemma StepMirror(a: Arithmetic, b: Book, m: Body)
    requires WellFormed(b) && Legal(b, m) && CancelsApart(b, m)
    ensures var m' := MirrorBody(b.low, b.high, m);
            && Legal(MirrorBook(b), m')
            && (Step(a, MirrorBook(b), m') == MirrorBook(Step(a, b, m)) <==> MessageReflects(a, b, m))
  {
    HandlersFollowMeaning(a, b, m);
    LegalMirror(b, m);
    HandlersFollowMeaning(a, MirrorBook(b), MirrorBody(b.low, b.high, m));
    MeaningMirror(b.low, b.high, m);
    EventMirror(a, b, Meaning(b.low, b.high, m));
  }

  function MirrorAll(low: uint32, high: uint32, ms: seq<Body>): (r: seq<Body>)
    ensures |r| == |ms|
  {
    if ms == [] then [] else [MirrorBody(low, high, ms[0])] + MirrorAll(low, high, ms[1..])
  }

  /** Every message of the run reflects on the book it meets. */
  ghost predicate RunReflects(a: Arithmetic, b: Book, ms: seq<Body>)
    requires WellFormed(b) && LegalRun(a, b, ms)
    decreases |ms|
  {
    ms != [] ==>
      && CancelsApart(b, ms[0]) && MessageReflects(a, b, ms[0])
      && RunReflects(a, Step(a, b, ms[0]), ms[1..])
  }

  /** Such a run, reflected, ends in the reflection of its book: levels, cursors and index. */
  lemma {:induction false} RunMirror(a: Arithmetic, b: Book, ms: seq<Body>)
    requires WellFormed(b) && LegalRun(a, b, ms) && RunReflects(a, b, ms)
    ensures LegalRun(a, MirrorBook(b), MirrorAll(b.low, b.high, ms))
    ensures Run(a, MirrorBook(b), MirrorAll(b.low, b.high, ms)) == MirrorBook(Run(a, b, ms))
    decreases |ms|
  {
    if ms == [] {
    } else {
      StepMirror(a, b, ms[0]);
      RunMirror(a, Step(a, b, ms[0]), ms[1..]);
      assert MirrorAll(b.low, b.high, ms)[1..] == MirrorAll(b.low, b.high, ms[1..]);
    }
  }

  /** Runs without Shenzhen cancels reflect; in particular every Shanghai run does. */
  lemma {:induction false} NoCancelsReflect(a: Arithmetic, b: Book, ms: seq<Body>)
    requires WellFormed(b) && LegalRun(a, b, ms) && forall m :: m in ms ==> !IsCancelSZ(m)
    ensures RunReflects(a, b, ms)
    decreases |ms|
  {
    if ms == [] {
    } else {
      NoCancelsReflect(a, Step(a, b, ms[0]), ms[1..]);
    }
  }
}

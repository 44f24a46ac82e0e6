/** Dispatch of a mixed-symbol feed to the books, one per symbol, and the objects that hold them. */
module Service {
  import opened Machine
  import opened BookModel
  import opened Orders
  import opened Runs
  import opened Snapshot
  import opened Horizon
  import opened PxLists

  datatype Message = Message(securityID: uint32, body: Body)

  /** One slot of the book vector; symbols outside the work list have none. */
  datatype Slot = Absent | Present(book: Book)

  predicate Sound(books: seq<Slot>) {
    forall s :: 0 <= s < |books| && books[s].Present? ==> WellFormed(books[s].book)
  }

  predicate LegalMessage(books: seq<Slot>, m: Message) {
    m.securityID < |books| && books[m.securityID].Present? ==> Legal(books[m.securityID].book, m.body)
  }

  /** `onMessage`: unknown symbols are dropped, others reach their own book. */
  function Dispatch(a: Arithmetic, books: seq<Slot>, m: Message): (r: seq<Slot>)
    requires Sound(books) && LegalMessage(books, m)
    ensures Sound(r) && |r| == |books|
  {
    if m.securityID >= |books| || books[m.securityID].Absent? then books
    else books[m.securityID := Present(Step(a, books[m.securityID].book, m.body))]
  }

  ghost predicate LegalAll(a: Arithmetic, books: seq<Slot>, ms: seq<Message>)
    requires Sound(books)
    decreases |ms|
  {
    ms != [] ==> LegalMessage(books, ms[0]) && LegalAll(a, Dispatch(a, books, ms[0]), ms[1..])
  }

  ghost function DispatchAll(a: Arithmetic, books: seq<Slot>, ms: seq<Message>): (r: seq<Slot>)
    requires Sound(books) && LegalAll(a, books, ms)
    ensures Sound(r) && |r| == |books|
    decreases |ms|
  {
    if ms == [] then books else DispatchAll(a, Dispatch(a, books, ms[0]), ms[1..])
  }

  // ---------- isolation ----------

  /** The messages of one symbol, in feed order. */
  function OfSymbol(s: nat, ms: seq<Message>): seq<Body> {
    if ms == [] then []
    else (if ms[0].securityID == s then [ms[0].body] else []) + OfSymbol(s, ms[1..])
  }

  ghost predicate LegalFor(a: Arithmetic, books: seq<Slot>, ms: seq<Message>, s: nat)
    requires Sound(books)
  {
    s < |books| && books[s].Present? ==> LegalRun(a, books[s].book, OfSymbol(s, ms))
  }

  lemma OwnMessage(a: Arithmetic, books: seq<Slot>, ms: seq<Message>, s: nat)
    requires Sound(books) && ms != [] && LegalMessage(books, ms[0])
    requires ms[0].securityID == s && s < |books| && books[s].Present?
    ensures Dispatch(a, books, ms[0])[s] == Present(Step(a, books[s].book, ms[0].body))
    ensures OfSymbol(s, ms) == [ms[0].body] + OfSymbol(s, ms[1..])
  {
  }

  lemma OtherMessage(a: Arithmetic, books: seq<Slot>, ms: seq<Message>, s: nat)
    requires Sound(books) && ms != [] && LegalMessage(books, ms[0])
    requires s < |books| && ms[0].securityID != s
    ensures Dispatch(a, books, ms[0])[s] == books[s]
    ensures OfSymbol(s, ms) == OfSymbol(s, ms[1..])
  {
    assert [] + OfSymbol(s, ms[1..]) == OfSymbol(s, ms[1..]);
  }

  lemma RunOne(a: Arithmetic, b: Book, m: Body, rest: seq<Body>)
    requires WellFormed(b) && Legal(b, m)
    ensures LegalRun(a, b, [m] + rest) <==> LegalRun(a, Step(a, b, m), rest)
    ensures LegalRun(a, b, [m] + rest) ==> Run(a, b, [m] + rest) == Run(a, Step(a, b, m), rest)
  {
    assert ([m] + rest)[0] == m && ([m] + rest)[1..] == rest;
  }

  /** What one dispatched message leaves for symbol `s`. */
  lemma DispatchOne(a: Arithmetic, books: seq<Slot>, ms: seq<Message>, s: nat)
    requires Sound(books) && ms != [] && LegalMessage(books, ms[0])
    ensures LegalFor(a, books, ms, s) <==> LegalFor(a, Dispatch(a, books, ms[0]), ms[1..], s)
    ensures s < |books| && books[s].Present? && LegalFor(a, books, ms, s) ==>
              var books' := Dispatch(a, books, ms[0]);
              && books'[s].Present?
              && Run(a, books[s].book, OfSymbol(s, ms)) == Run(a, books'[s].book, OfSymbol(s, ms[1..]))
  {
    if s < |books| && books[s].Present? {
      if ms[0].securityID == s {
        OwnMessage(a, books, ms, s);
        RunOne(a, books[s].book, ms[0].body, OfSymbol(s, ms[1..]));
      } else {
        OtherMessage(a, books, ms, s);
      }
    }
  }

  /** A mixed run is in bounds exactly when each symbol's own messages are. */
  lemma {:induction false} LegalIsPerSymbol(a: Arithmetic, books: seq<Slot>, ms: seq<Message>)
    requires Sound(books)
    ensures LegalAll(a, books, ms) <==> forall s: nat :: LegalFor(a, books, ms, s)
    decreases |ms|
  {
    if ms == [] {
    } else {
      var s := ms[0].securityID;
      if LegalFor(a, books, ms, s) && s < |books| && books[s].Present? {
        assert OfSymbol(s, ms)[0] == ms[0].body;
      }
      if LegalMessage(books, ms[0]) {
        LegalIsPerSymbol(a, Dispatch(a, books, ms[0]), ms[1..]);
        forall s: nat ensures LegalFor(a, books, ms, s) <==> LegalFor(a, Dispatch(a, books, ms[0]), ms[1..], s) {
          DispatchOne(a, books, ms, s);
        }
      } else {
        assert !LegalFor(a, books, ms, s);
      }
    }
  }

  /** After a mixed run each book is what its own messages alone make of it. */
  lemma {:induction false} Projection(a: Arithmetic, books: seq<Slot>, ms: seq<Message>, s: nat)
    requires Sound(books) && LegalAll(a, books, ms) && s < |books|
    ensures LegalFor(a, books, ms, s)
    ensures DispatchAll(a, books, ms)[s]
            == if books[s].Absent? then Absent else Present(Run(a, books[s].book, OfSymbol(s, ms)))
    decreases |ms|
  {
    if ms == [] {
    } else {
      Projection(a, Dispatch(a, books, ms[0]), ms[1..], s);
      DispatchOne(a, books, ms, s);
    }
  }

  /** Two interleavings that agree on every symbol leave the same books. */
  lemma InterleavingsAgree(a: Arithmetic, books: seq<Slot>, xs: seq<Message>, ys: seq<Message>)
    requires Sound(books) && LegalAll(a, books, xs)
    requires forall s: nat :: s < |books| ==> OfSymbol(s, xs) == OfSymbol(s, ys)
    ensures LegalAll(a, books, ys) && DispatchAll(a, books, xs) == DispatchAll(a, books, ys)
  {
    LegalIsPerSymbol(a, books, xs);
    LegalIsPerSymbol(a, books, ys);
    assert forall s: nat :: LegalFor(a, books, xs, s) ==> LegalFor(a, books, ys, s);
    forall s | 0 <= s < |books| ensures DispatchAll(a, books, xs)[s] == DispatchAll(a, books, ys)[s] {
      Projection(a, books, xs, s);
      Projection(a, books, ys, s);
    }
  }

  // ---------- start-up ----------

  /** Listed symbols have slots, and price limits, if any, that leave a level. */
  predicate ProperConfig(lobnum: uint32, symbols: seq<uint32>, limits: map<uint32, (uint32, uint32)>) {
    forall s :: s in symbols ==> s < lobnum && (s in limits ==> ProperLimits(limits[s].0, limits[s].1))
  }

  /** A listed symbol has the empty book of its own limits, or of zeros if none are configured for it;
      others have no book. */
  predicate IsInitial(books: seq<Slot>, lobnum: uint32, symbols: seq<uint32>, limits: map<uint32, (uint32, uint32)>) {
    && |books| == lobnum
    && (forall s :: s in symbols && s in limits && s < lobnum ==> books[s] == Present(Empty(limits[s].0, limits[s].1)))
    && (forall s :: s in symbols && s !in limits && s < lobnum ==> books[s] == Present(Empty(0, 0)))
    && (forall s: uint32 :: s < lobnum && s !in symbols ==> books[s] == Absent)
  }

  /** The messages of one symbol keep a discipline and fit in 32 bits. */
  ghost predicate KeepsOwn(low: uint32, high: uint32, s: uint32, d: Discipline, ms: seq<Message>) {
    && KeepsAll(low, high, NoOrders(), d, OfSymbol(s, ms))
    && FitsAll(low, high, NoOrders(), OfSymbol(s, ms))
  }

  /** Every listed symbol keeps a discipline of its own, within its own limits. */
  ghost predicate KeepsEach(symbols: seq<uint32>, limits: map<uint32, (uint32, uint32)>,
                            ds: map<uint32, Discipline>, ms: seq<Message>) {
    forall s :: s in symbols ==>
      s in ds && if s in limits then KeepsOwn(limits[s].0, limits[s].1, s, ds[s], ms) else KeepsOwn(0, 0, s, ds[s], ms)
  }

  lemma OwnRunIsLegal(books: seq<Slot>, s: uint32, low: uint32, high: uint32, d: Discipline, ms: seq<Message>)
    requires Sound(books) && s < |books| && books[s] == Present(Empty(low, high)) && ProperLimits(low, high)
    requires KeepsOwn(low, high, s, d, ms)
    ensures LegalFor(Wrapping, books, ms, s)
  {
    MachineRunRefines(low, high, d, OfSymbol(s, ms));
  }

  lemma FeedIsLegal(books: seq<Slot>, lobnum: uint32, symbols: seq<uint32>, limits: map<uint32, (uint32, uint32)>,
                    ds: map<uint32, Discipline>, ms: seq<Message>)
    requires ProperConfig(lobnum, symbols, limits) && IsInitial(books, lobnum, symbols, limits) && Sound(books)
    requires KeepsEach(symbols, limits, ds, ms)
    ensures LegalAll(Wrapping, books, ms)
  {
    forall s: nat ensures LegalFor(Wrapping, books, ms, s) {
      if s < |books| && s in symbols {
        if s in limits {
          OwnRunIsLegal(books, s, limits[s].0, limits[s].1, ds[s], ms);
        } else {
          OwnRunIsLegal(books, s, 0, 0, ds[s], ms);
        }
      }
    }
    LegalIsPerSymbol(Wrapping, books, ms);
  }

  /** A record shows the best levels of the orders live after a symbol's own messages, where the discipline
      covers a side, and of those its horizon shows in any case. */
  ghost predicate ShowsOwn(low: uint32, high: uint32, s: uint32, d: Discipline, ms: seq<Message>,
                           depth: nat, r: Record) {
    && ShowsBest(low, high, NoOrders(), d, OfSymbol(s, ms), depth, r)
    && ShowsHorizon(low, high, OfSymbol(s, ms), depth, r)
  }

  /** After any mixed feed the program can carry out, the snapshot of a symbol whose messages keep a
      discipline shows its own live orders, whatever the other symbols received. */
  lemma SnapshotOfSymbol(books: seq<Slot>, s: uint32, low: uint32, high: uint32, d: Discipline,
                         ms: seq<Message>, depth: nat)
    requires Sound(books) && LegalAll(Wrapping, books, ms)
    requires s < |books| && books[s] == Present(Empty(low, high)) && ProperLimits(low, high)
    requires KeepsOwn(low, high, s, d, ms) && depth >= 1
    ensures DispatchAll(Wrapping, books, ms)[s].Present?
    ensures ShowsOwn(low, high, s, d, ms, depth,
                     Snapshot.GetPxList(DispatchAll(Wrapping, books, ms)[s].book, depth))
  {
    SnapshotAfterRun(low, high, d, OfSymbol(s, ms), depth);
    SnapshotOfEveryRun(low, high, d, OfSymbol(s, ms), depth);
    Projection(Wrapping, books, ms, s);
  }

  // ---------- the objects ----------

  ghost function StorageOf(books: seq<PxList?>): set<object> {
    (set i | 0 <= i < |books| && books[i] != null :: books[i] as object)
    + (set i | 0 <= i < |books| && books[i] != null :: books[i].bids as object)
    + (set i | 0 <= i < |books| && books[i] != null :: books[i].asks as object)
  }

  lemma StorageGrows(books: seq<PxList?>, s: nat, p: PxList)
    requires s < |books|
    ensures StorageOf(books[s := p]) <= StorageOf(books) + {p, p.bids, p.asks}
  {
    forall i | 0 <= i < |books| && books[s := p][i] != null
      ensures books[s := p][i] == p || (books[i] != null && books[s := p][i] == books[i])
    {
    }
  }

  class LobService {
    var pxlive: seq<PxList?>

    /** The books and their arrays. */
    ghost function Objects(): set<object>
      reads this
    {
      StorageOf(pxlive)
    }

    /** No two books share storage. */
    ghost predicate Apart()
      reads this
    {
      forall i, j :: 0 <= i < j < |pxlive| && pxlive[i] != null && pxlive[j] != null ==>
        && pxlive[i] != pxlive[j]
        && pxlive[i].bids != pxlive[j].bids && pxlive[i].bids != pxlive[j].asks
        && pxlive[i].asks != pxlive[j].bids && pxlive[i].asks != pxlive[j].asks
    }

    ghost predicate Valid()
      reads this, Objects()
    {
      && this !in Objects()
      && Apart()
      && forall i :: 0 <= i < |pxlive| && pxlive[i] != null ==> pxlive[i].Valid()
    }

    ghost function SlotOf(p: PxList?): Slot
      reads if p == null then {} else {p, p.bids, p.asks}
    {
      if p == null then Absent else Present(p.View())
    }

    ghost function Books(): (r: seq<Slot>)
      reads this, Objects()
      requires Valid()
      ensures Sound(r) && |r| == |pxlive|
      ensures forall i :: 0 <= i < |pxlive| ==> r[i] == SlotOf(pxlive[i])
    {
      seq(|pxlive|, i requires 0 <= i < |pxlive| reads this, Objects() => SlotOf(pxlive[i]))
    }

    method OnMessage(m: Message)
      requires Valid() && LegalMessage(Books(), m)
      modifies Objects()
      ensures Valid() && Books() == Dispatch(Wrapping, old(Books()), m)
    {
      if m.securityID >= |pxlive| {
        return;
      }
      var pxlist := pxlive[m.securityID];
      if pxlist == null {
        return;
      }
      pxlist.OnMessage(m.body);
      assert forall i :: 0 <= i < |pxlive| && i != m.securityID ==> SlotOf(pxlive[i]) == old(SlotOf(pxlive[i]));
    }

    /** What a worker makes of the messages it decodes, one after the other. */
    method ProcessAll(ms: seq<Message>)
      requires Valid() && LegalAll(Wrapping, Books(), ms)
      modifies Objects()
      ensures Valid() && Books() == DispatchAll(Wrapping, old(Books()), ms)
    {
      var i := 0;
      while i < |ms|
        invariant 0 <= i <= |ms|
        invariant Valid() && pxlive == old(pxlive)
        invariant LegalAll(Wrapping, Books(), ms[i..])
        invariant DispatchAll(Wrapping, Books(), ms[i..]) == DispatchAll(Wrapping, old(Books()), ms)
      {
        assert ms[i..][0] == ms[i] && ms[i..][1..] == ms[i + 1..];
        OnMessage(ms[i]);
        i := i + 1;
      }
    }

    /** One sampling round: a snapshot of every listed symbol, in list order. */
    method OnFanoutTimed(symbols: seq<uint32>, depth: nat) returns (records: seq<Record>)
      requires Valid() && forall i :: 0 <= i < |symbols| ==> symbols[i] < |pxlive| && pxlive[symbols[i]] != null
      ensures |records| == |symbols|
      ensures forall i :: 0 <= i < |symbols| ==>
                Books()[symbols[i]].Present?
                && records[i] == Snapshot.GetPxList(Books()[symbols[i]].book, depth)
    {
      records := [];
      for i := 0 to |symbols|
        invariant |records| == i
        invariant forall k :: 0 <= k < i ==> records[k] == Snapshot.GetPxList(Books()[symbols[k]].book, depth)
      {
        var pxlist := pxlive[symbols[i]];
        var pxr := pxlist.GetPxList(depth);
        records := records + [pxr];
      }
    }

    ghost predicate Unused(pxlist: PxList)
      reads this
    {
      pxlist !in Objects() && pxlist.bids !in Objects() && pxlist.asks !in Objects()
    }

    /** Put a new book into a symbol's slot. */
    method Store(s: uint32, pxlist: PxList)
      requires Valid() && s < |pxlive| && pxlist.Valid() && Unused(pxlist)
      modifies this
      ensures Valid() && pxlive == old(pxlive)[s := pxlist]
      ensures Books() == old(Books())[s := Present(pxlist.View())]
    {
      pxlive := pxlive[s := pxlist];
      assert Valid();
      assert Books()[s] == Present(pxlist.View());
      forall i | 0 <= i < |pxlive| && i != s ensures Books()[i] == old(Books())[i] {
        assert pxlive[i] == old(pxlive)[i];
      }
    }

    /** `createPxList`, stored in the symbol's slot. */
    method CreatePxList(s: uint32, low: uint32, high: uint32)
      requires Valid() && s < |pxlive| && ProperLimits(low, high)
      modifies this
      ensures Valid() && fresh(Objects() - old(Objects()))
      ensures Books() == old(Books())[s := Present(Empty(low, high))]
    {
      var pxlist := new PxList(low, high);
      assert Valid() && Books() == old(Books()) && Unused(pxlist);
      StorageGrows(pxlive, s, pxlist);
      Store(s, pxlist);
    }

    /** `getPxHighLow`: a symbol without limits keeps the zeros its record was allocated with. */
    static function GetPxHighLow(limits: map<uint32, (uint32, uint32)>, s: uint32): (uint32, uint32) {
      if s in limits then limits[s] else (0, 0)
    }

    /** Start-up: an empty vector of books, then one fresh book per listed symbol. */
    constructor (lobnum: uint32, symbols: seq<uint32>, limits: map<uint32, (uint32, uint32)>)
      requires ProperConfig(lobnum, symbols, limits)
      ensures Valid() && fresh(Objects()) && IsInitial(Books(), lobnum, symbols, limits)
    {
      pxlive := seq(lobnum, _ => null);
      new;
      for i := 0 to |symbols|
        invariant Valid() && fresh(Objects())
        invariant IsInitial(Books(), lobnum, symbols[..i], limits)
      {
        var (low, high) := GetPxHighLow(limits, symbols[i]);
        CreatePxList(symbols[i], low, high);
        assert symbols[..i + 1] == symbols[..i] + [symbols[i]];
      }
      assert symbols[..|symbols|] == symbols;
    }
  }

  ghost predicate OwnRecord(limits: map<uint32, (uint32, uint32)>, s: uint32, d: Discipline, ms: seq<Message>,
                            depth: nat, r: Record) {
    && (s in limits ==> ShowsOwn(limits[s].0, limits[s].1, s, d, ms, depth, r))
    && (s !in limits ==> ShowsOwn(0, 0, s, d, ms, depth, r))
  }

  /** End to end through the objects: start up, work through a mixed feed, sample. Every record shows
      the best levels of its own symbol's live orders as far as that symbol's own discipline goes, and of
      those its horizon shows in any case. */
  method SampleAfterFeed(lobnum: uint32, symbols: seq<uint32>, limits: map<uint32, (uint32, uint32)>,
                         ms: seq<Message>, depth: nat, ghost ds: map<uint32, Discipline>)
    returns (records: seq<Record>)
    requires ProperConfig(lobnum, symbols, limits) && KeepsEach(symbols, limits, ds, ms) && depth >= 1
    ensures |records| == |symbols|
    ensures forall i :: 0 <= i < |symbols| && symbols[i] in limits ==>
              ShowsOwn(limits[symbols[i]].0, limits[symbols[i]].1, symbols[i], ds[symbols[i]], ms, depth, records[i])
    ensures forall i :: 0 <= i < |symbols| && symbols[i] !in limits ==>
              ShowsOwn(0, 0, symbols[i], ds[symbols[i]], ms, depth, records[i])
  {
    var service := new LobService(lobnum, symbols, limits);
    ghost var books := service.Books();
    FeedIsLegal(books, lobnum, symbols, limits, ds, ms);
    service.ProcessAll(ms);
    forall i | 0 <= i < |symbols|
      ensures symbols[i] < |service.pxlive| && service.Books()[symbols[i]].Present?
      ensures OwnRecord(limits, symbols[i], ds[symbols[i]], ms, depth,
                        Snapshot.GetPxList(service.Books()[symbols[i]].book, depth))
    {
      var s := symbols[i];
      if s in limits {
        SnapshotOfSymbol(books, s, limits[s].0, limits[s].1, ds[s], ms, depth);
      } else {
        SnapshotOfSymbol(books, s, 0, 0, ds[s], ms, depth);
      }
    }
    records := service.OnFanoutTimed(symbols, depth);
  }
}

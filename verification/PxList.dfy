/** The order book as the program keeps it: two arrays updated in place, two cursors into them and an
    index. Each handler is proved to do what the value-level book says, in 32-bit arithmetic. */
module PxLists {
  import opened Machine
  import opened BookModel
  import opened Sequences
  import opened Snapshot

  class PxList {
    const low: uint32
    const high: uint32
    var seqPxs: map<int64, Entry>
    var ask1: int  // index into asks, NULL for the null pointer
    var bid1: int  // index into bids, NULL for the null pointer
    const bids: array<int32>
    const asks: array<int32>

    ghost function View(): Book
      reads this, bids, asks
    {
      Book(low, high, Half(bids[..], bid1), Half(asks[..], ask1), seqPxs)
    }

    ghost predicate Valid()
      reads this, bids, asks
    {
      bids != asks && WellFormed(View())
    }

    /** `createPxList`: price limits come from configuration, whatever they are; levels start at zero. */
    constructor (low: uint32, high: uint32)
      ensures View() == Empty(low, high) && (ProperLimits(low, high) ==> Valid())
      ensures fresh(bids) && fresh(asks)
    {
      if ProperLimits(low, high) { LevelCorrespondence(low, high, 0); }
      this.low, this.high := low, high;
      var span := PxSpan(low, high);
      bid1, ask1 := NULL, NULL;
      asks := new int32[span](_ => 0);
      bids := new int32[span](_ => 0);
      seqPxs := map[];
      new;
      assert bids[..] == Empty(low, high).bid.qty;
      assert asks[..] == Empty(low, high).ask.qty;
    }

    /** `onOrder` and `onTrade`: the handler of the message's kind and exchange. */
    method OnMessage(m: Body)
      requires Valid() && Legal(View(), m)
      modifies this, bids, asks
      ensures Valid() && View() == Step(Wrapping, old(View()), m)
    {
      match m
      case OrderSH(_, _, _, _, _) => OnOrderSH(m);
      case OrderSZ(_, _, _, _) => OnOrderSZ(m);
      case TradeSH(_, _, _, _) => OnTradeSH(m);
      case TradeSZ(_, _, _, _, _) => OnTradeSZ(m);
      case Other =>
    }

    method OnOrderSH(m: Body)
      requires Valid() && m.OrderSH? && Legal(View(), m)
      modifies this, bids, asks
      ensures Valid() && View() == BookModel.OnOrderSH(Wrapping, old(View()), m)
    {
      var p := LevelOf(low, m.price);
      if m.ordType == 'A' {
        if m.side == 'B' {
          AddBuyer(m.orderNo, p, m.orderQty);
        } else if m.side == 'S' {
          AddSeller(m.orderNo, p, m.orderQty);
        }
      } else if m.ordType == 'D' {
        if m.side == 'B' {
          DeleteBuyer(p, m.orderQty);
        } else if m.side == 'S' {
          DeleteSeller(p, m.orderQty);
        }
      }
    }

    method OnOrderSZ(m: Body)
      requires Valid() && m.OrderSZ?
      modifies this, bids, asks
      ensures Valid() && View() == BookModel.OnOrderSZ(Wrapping, old(View()), m)
    {
      var p := LevelOf(low, m.price);
      if ToUint32(m.price) < low || ToUint32(m.price) > high {
        return;
      }
      LevelCorrespondence(low, high, m.price);
      if m.side == '1' {
        AddBuyer(m.orderNo, p, m.orderQty);
      } else if m.side == '2' {
        AddSeller(m.orderNo, p, m.orderQty);
      }
    }

    method OnTradeSH(m: Body)
      requires Valid() && m.TradeSH? && Legal(View(), m)
      modifies this, bids, asks
      ensures Valid() && View() == BookModel.OnTradeSH(Wrapping, old(View()), m)
    {
      if m.bsFlag == 'B' || m.bsFlag == 'S' {
        TradeBuyer(m.buyNo, m.lastQty);
        TradeSeller(m.sellNo, m.lastQty);
      }
    }

    method OnTradeSZ(m: Body)
      requires Valid() && m.TradeSZ? && Legal(View(), m)
      modifies this, bids, asks
      ensures Valid() && View() == BookModel.OnTradeSZ(Wrapping, old(View()), m)
    {
      if m.execType == '4' {
        CancelBuyer(m.bidNo, m.lastQty);
        CancelSeller(m.offerNo, m.lastQty);
      }
      if m.execType == 'F' {
        if ToUint32(m.lastPx) < low || ToUint32(m.lastPx) > high {
          return;
        }
        TradeBuyer(m.bidNo, m.lastQty);
        TradeSeller(m.offerNo, m.lastQty);
      }
    }

    /** A new buy order, the same code in both order handlers. */
    method AddBuyer(no: int64, p: nat, q: int64)
      requires Valid() && p < View().Span()
      modifies this, bids
      ensures Valid() && View() == Add(Wrapping, old(View()), Bid, no, p, q)
    {
      seqPxs := seqPxs[no := Entry(Bid, p)];
      bids[p] := Wrapping.Plus(bids[p], q);
      if bid1 == NULL {
        bid1 := p;
      } else {
        if p > bid1 {
          bid1 := p;
        }
      }
    }

    method AddSeller(no: int64, p: nat, q: int64)
      requires Valid() && p < View().Span()
      modifies this, asks
      ensures Valid() && View() == Add(Wrapping, old(View()), Ask, no, p, q)
    {
      asks[p] := Wrapping.Plus(asks[p], q);
      seqPxs := seqPxs[no := Entry(Ask, p)];
      if ask1 == NULL {
        ask1 := p;
      } else {
        if p < ask1 {
          ask1 := p;
        }
      }
    }

    /** Shanghai delete of a buy order: by price, clamped, without touching the index. */
    method DeleteBuyer(p: nat, q: int64)
      requires Valid() && p < View().Span()
      modifies this, bids
      ensures Valid() && View() == Delete(Wrapping, old(View()), Bid, p, q)
    {
      bids[p] := Wrapping.Minus(bids[p], q);
      bids[p] := Max(0, bids[p]);
      assert bids[..] == old(bids[..])[p := Max(0, Wrapping.Minus(old(bids[p]), q))];
      if p == bid1 {
        if bids[p] <= 0 {
          RescanBids(bid1 - 1);
        }
      }
    }

    method DeleteSeller(p: nat, q: int64)
      requires Valid() && p < View().Span()
      modifies this, asks
      ensures Valid() && View() == Delete(Wrapping, old(View()), Ask, p, q)
    {
      asks[p] := Wrapping.Minus(asks[p], q);
      asks[p] := Max(0, asks[p]);
      assert asks[..] == old(asks[..])[p := Max(0, Wrapping.Minus(old(asks[p]), q))];
      if p == ask1 {
        if asks[p] <= 0 {
          RescanAsks(ask1 + 1);
        }
      }
    }

    /** The buyer's half of a trade, the same code in both trade handlers. */
    method TradeBuyer(no: int64, q: int64)
      requires Valid() && Indexes(View(), Bid, no)
      modifies this, bids
      ensures Valid() && View() == Remove(Wrapping, Trade, old(View()), Bid, no, q)
    {
      if no > 0 && no in seqPxs {
        var px := seqPxs[no].level;
        bids[px] := Wrapping.Minus(bids[px], q);
        if bids[px] <= 0 {
          seqPxs := seqPxs - {no};
          RescanBids(px);
        } else {
          bid1 := px;
        }
      }
    }

    method TradeSeller(no: int64, q: int64)
      requires Valid() && Indexes(View(), Ask, no)
      modifies this, asks
      ensures Valid() && View() == Remove(Wrapping, Trade, old(View()), Ask, no, q)
    {
      if no > 0 && no in seqPxs {
        var px := seqPxs[no].level;
        asks[px] := Wrapping.Minus(asks[px], q);
        if asks[px] <= 0 {
          seqPxs := seqPxs - {no};
          RescanAsks(px);
        } else {
          ask1 := px;
        }
      }
    }

    /** `px->qty -= q` through a pointer into either array. */
    method TakeFrom(px: Entry, q: int64) returns (left: int32)
      requires Valid() && px.level < View().Span()
      modifies bids, asks
      ensures left == Wrapping.Minus(old(View()).Of(px.side).qty[px.level], q)
      ensures View() == old(View()).With(px.side, old(View()).Of(px.side).(
                          qty := old(View()).Of(px.side).qty[px.level := left]))
    {
      if px.side == Bid {
        bids[px.level] := Wrapping.Minus(bids[px.level], q);
        left := bids[px.level];
      } else {
        asks[px.level] := Wrapping.Minus(asks[px.level], q);
        left := asks[px.level];
      }
    }

    method CancelBuyer(no: int64, q: int64)
      requires Valid()
      modifies this, bids, asks
      ensures Valid() && View() == Remove(Wrapping, Cancel, old(View()), Bid, no, q)
    {
      if no > 0 && no in seqPxs {
        var px := seqPxs[no];
        var left := TakeFrom(px, q);
        if left <= 0 {
          seqPxs := seqPxs - {no};
        }
        if px.side == Bid && px.level == bid1 {
          RescanBids(px.level);
        }
      }
    }

    method CancelSeller(no: int64, q: int64)
      requires Valid()
      modifies this, bids, asks
      ensures Valid() && View() == Remove(Wrapping, Cancel, old(View()), Ask, no, q)
    {
      if no > 0 && no in seqPxs {
        var px := seqPxs[no];
        var left := TakeFrom(px, q);
        if left <= 0 {
          seqPxs := seqPxs - {no};
        }
        if px.side == Ask && px.level == ask1 {
          RescanAsks(ask1 + 1);
        }
      }
    }

    /** Null the bid cursor, then step down from `from` to the first filled level. */
    method RescanBids(from: int)
      requires -1 <= from < bids.Length
      modifies this`bid1
      ensures bid1 == Scan(Bid, bids[..], from)
    {
      var px := from;
      bid1 := NULL;
      while px >= 0
        invariant -1 <= px < bids.Length && bid1 == NULL
        invariant Scan(Bid, bids[..], px) == Scan(Bid, bids[..], from)
      {
        if bids[px] > 0 {
          bid1 := px;
          break;
        }
        px := px - 1;
      }
    }

    /** Null the ask cursor, then step up from `from` to the first filled level. */
    method RescanAsks(from: int)
      requires 0 <= from <= asks.Length
      modifies this`ask1
      ensures ask1 == Scan(Ask, asks[..], from)
    {
      var px := from;
      ask1 := NULL;
      while px < asks.Length
        invariant 0 <= px <= asks.Length && ask1 == NULL
        invariant Scan(Ask, asks[..], px) == Scan(Ask, asks[..], from)
      {
        if asks[px] > 0 {
          ask1 := px;
          break;
        }
        px := px + 1;
      }
    }

    /** The depth snapshot, taken into an empty record. */
    method GetPxList(depth: nat) returns (pxr: Record)
      requires Valid()
      ensures pxr == Snapshot.GetPxList(View(), depth)
    {
      var askQuotes := AskQuotes(depth);
      var bidQuotes := BidQuotes(depth);
      pxr := Record(askQuotes, bidQuotes);
    }

    method AskQuotes(depth: nat) returns (out: seq<Quote>)
      requires Valid()
      ensures out == Quotes(Ask, low, View().ask, depth)
    {
      LevelCorrespondence(low, high, 0);
      out := [];
      if ask1 != NULL {
        var px := ask1;
        ghost var qty: seq<int>, room: nat := asks[..], Max(1, depth);
        while px < PxSpan(low, high)
          invariant 0 <= px <= |qty| && |out| < room
          invariant out + Walk(Ask, low, qty, px, room - |out|) == Walk(Ask, low, qty, ask1, room)
        {
          if asks[px] > 0 {
            ghost var rest := Walk(Ask, low, qty, px + 1, room - |out| - 1);
            var q := Quote(PriceOf(low, px), asks[px]);
            Regroup(out, [q], rest);
            out := out + [q];
            if |out| >= depth {
              break;
            }
          }
          px := px + 1;
        }
      }
    }

    method BidQuotes(depth: nat) returns (out: seq<Quote>)
      requires Valid()
      ensures out == Quotes(Bid, low, View().bid, depth)
    {
      LevelCorrespondence(low, high, 0);
      out := [];
      if bid1 != NULL {
        var px := bid1;
        ghost var qty: seq<int>, room: nat := bids[..], Max(1, depth);
        while px >= 0
          invariant -1 <= px < |qty| && |out| < room
          invariant out + Walk(Bid, low, qty, px, room - |out|) == Walk(Bid, low, qty, bid1, room)
        {
          if bids[px] > 0 {
            ghost var rest := Walk(Bid, low, qty, px - 1, room - |out| - 1);
            var q := Quote(PriceOf(low, px), bids[px]);
            Regroup(out, [q], rest);
            out := out + [q];
            if |out| >= depth {
              break;
            }
          }
          px := px - 1;
        }
      }
    }
  }
}

/** From the wire to the book: a parsed new-order message becomes a limit order. */
module Pipeline {
  import opened Bits
  import opened Options
  import opened FixMessage
  import opened FixMeaning
  import opened FixPrinter
  import opened BookModel
  import OrderBook

  const NEW_ORDER_SINGLE: Byte := 68   // 'D'

  /** The order a message places. */
  function OrderOf(m: Message): Op {
    Add(if m.side == 1 then Buy else Sell, m.priceTicks, m.orderQty, Limit)
  }

  predicate PlacesOrder(m: Message) { m.valid && m.msgType == NEW_ORDER_SINGLE }

  /** The code of a new-order message and of a buy, as the wire has them. */
  const TYPE_D: seq<Byte> := [68]
  const SIDE_BUY: Byte := 49

  /** The buffer splits into well-formed fields only, of which the last one-byte type is 'D'. */
  ghost predicate HoldsOrder(buf: seq<Byte>) {
    buf != [] && AllWellFormed(Fields(buf)) && LastValue(Fields(buf), 35, 1, Some(1)) == Some(TYPE_D)
  }

  /** A message places an order exactly when its buffer holds one. */
  lemma PlacesOrderIff(buf: seq<Byte>)
    ensures PlacesOrder(Parsed(buf)) <==> HoldsOrder(buf)
  {
    hide Fields, LastValue, WellFormed;
    ValidIff(buf);
    ParsedIsLastWins(buf);
    var fs := Fields(buf);
    if buf != [] && AllWellFormed(fs) {
      AllGood(fs);
      OneByte(fs);
    }
  }

  lemma OneByte(fs: seq<seq<Byte>>)
    requires AllWellFormed(fs)
    ensures var t := LastValue(fs, 35, 1, Some(1)); t.Some? ==> |t.value| == 1 && t.value == [t.value[0]]
  {
  }

  /**
   The order it places: a buy exactly when the last non-empty value of tag 54 starts with '1', at the
   price and the quantity that the last values of tags 44 and 38 stand for.
   */
  lemma OrderFromBuffer(buf: seq<Byte>)
    requires HoldsOrder(buf)
    ensures var fs := Fields(buf);
            var side := LastValue(fs, 54, 1, None);
            OrderOf(Parsed(buf)) ==
              Add(if side.Some? && side.value[0] == SIDE_BUY then Buy else Sell,
                  Ticks(Or(LastValue(fs, 44, 0, None), [])), Quantity(Or(LastValue(fs, 38, 0, None), [])), Limit)
  {
    hide Fields, LastValue, WellFormed, Ticks, Quantity;
    ParsedIsLastWins(buf);
    AllGood(Fields(buf));
  }

  /** The body of the pipeline loop: parse, and add the order if the message places one. */
  method Feed(book: OrderBook.OrderBook, buf: seq<Byte>)
    requires book.Valid() && (PlacesOrder(Parsed(buf)) ==> Apply(book.Model(), OrderOf(Parsed(buf))).Done?)
    modifies book, book.bids, book.asks, book.freeList, book.freeList.data, book.orderPool, book.orderIdToSlot
    ensures book.Valid()
    ensures book.Model() ==
            if PlacesOrder(Parsed(buf)) then Apply(old(book.Model()), OrderOf(Parsed(buf))).book else old(book.Model())
    ensures !HoldsOrder(buf) ==> book.Model() == old(book.Model())
  {
    PlacesOrderIff(buf);
    var msg := Parse(buf);
    if msg.valid && msg.msgType == NEW_ORDER_SINGLE {
      var side := if msg.side == 1 then Buy else Sell;
      var id := book.AddOrder(side, msg.priceTicks, msg.orderQty, Limit);
    }
  }

  /** The text of a buy is '1' and of a sell '2'. */
  function SideDigit(side: Side): Byte { if side.Buy? then 49 else 50 }

  /** What arrives of a printed order is the order. */
  lemma PrintedOrderArrives(orderId: nat, qty: nat, price: nat, side: Side)
    requires qty < TWO_32
    ensures var m := Parsed(Render(OrderFields(orderId, qty, price, SideDigit(side))));
            PlacesOrder(m) && OrderOf(m) == Add(side, price, qty, Limit)
  {
    PrintedOrderReads(orderId, qty, price, SideDigit(side));
  }

  /** Printing, parsing and adding an order leaves the book that adding it directly leaves. */
  method PrintParseAdd(book: OrderBook.OrderBook, orderId: nat, qty: nat, price: nat, side: Side)
    requires book.Valid() && qty < TWO_32 && Apply(book.Model(), Add(side, price, qty, Limit)).Done?
    modifies book, book.bids, book.asks, book.freeList, book.freeList.data, book.orderPool, book.orderIdToSlot
    ensures book.Valid()
    ensures book.Model() == Apply(old(book.Model()), Add(side, price, qty, Limit)).book
  {
    var msg := MakeFixMessage(orderId, qty, price, SideDigit(side));
    PrintedOrderArrives(orderId, qty, price, side);
    Feed(book, msg);
  }
}

/** Printing FIX messages, and the parser undoing it. */
module FixPrinter {
  import opened Bits
  import opened Options
  import opened FixMessage
  import opened FixMeaning

  /** The bytes of an ASCII text. */
  function Ascii(s: string): (v: seq<Byte>)
    requires forall i :: 0 <= i < |s| ==> s[i] as int < 128
    ensures |v| == |s| && forall i :: 0 <= i < |s| ==> v[i] == s[i] as int
  {
    seq(|s|, i requires 0 <= i < |s| => s[i] as int)
  }

  /** `std::to_string` of a number that is not negative. */
  function Decimal(n: nat): (v: seq<Byte>)
    ensures v != [] && AllDigits(v)
  {
    if n < 10 then [ZERO + n] else Decimal(n / 10) + [ZERO + n % 10]
  }

  /** Reading the digits of a number gives the number back. */
  lemma {:induction false} DecimalReads(n: nat)
    ensures Digits(Decimal(n)) == n
  {
    if n < 10 {
      assert Decimal(n) == [] + [ZERO + n];
      DigitsLast([], ZERO + n);
    } else {
      DecimalReads(n / 10);
      DigitsLast(Decimal(n / 10), ZERO + n % 10);
    }
  }

  lemma {:induction false} QuantityReads(v: seq<Byte>)
    requires AllDigits(v)
    ensures Quantity(v) == Digits(v) % TWO_32
  {
    if v == [] {
    } else {
      QuantityReads(v[..|v| - 1]);
      AppendDigit(Digits(v[..|v| - 1]), Quantity(v[..|v| - 1]), v[|v| - 1] - ZERO);
    }
  }

  datatype Pair = Pair(tag: nat, value: seq<Byte>)

  function RenderOne(p: Pair): seq<Byte> { Decimal(p.tag) + [EQUALS] + p.value }

  /** Every field followed by SOH. */
  function Render(ps: seq<Pair>): seq<Byte> {
    if ps == [] then [] else Render(ps[..|ps| - 1]) + RenderOne(ps[|ps| - 1]) + [SOH]
  }

  lemma RenderLast(ps: seq<Pair>, p: Pair)
    ensures Render(ps + [p]) == Render(ps) + RenderOne(p) + [SOH]
  {
    assert (ps + [p])[..|ps|] == ps;
  }

  predicate NoSoh(ps: seq<Pair>) {
    forall i :: 0 <= i < |ps| ==> SOH !in ps[i].value
  }

  function Rendered(ps: seq<Pair>): (r: seq<seq<Byte>>)
    ensures |r| == |ps| && forall i :: 0 <= i < |ps| ==> r[i] == RenderOne(ps[i])
  {
    seq(|ps|, i requires 0 <= i < |ps| => RenderOne(ps[i]))
  }

  /** A printed field is well formed and reads back as its tag and value. */
  lemma FieldReads(p: Pair)
    ensures var f := RenderOne(p); WellFormed(f) && Tag(f) == p.tag % TWO_32 && Value(f) == p.value
    ensures SOH !in p.value ==> SOH !in RenderOne(p)
  {
    var f, k := RenderOne(p), |Decimal(p.tag)|;
    assert f[..k] == Decimal(p.tag);
    TagEndUnique(f, k);
    DecimalReads(p.tag);
    assert f[k + 1..] == p.value;
  }

  lemma FirstField(buf: seq<Byte>, f: seq<Byte>, rest: seq<Byte>)
    requires SOH !in f && buf == f + [SOH] + rest
    ensures Fields(buf) == [f] + Fields(rest)
  {
    assert buf[..|f|] == f && buf[|f| + 1..] == rest;
    FieldEndUnique(buf, |f|);
  }

  lemma Regroup(g: seq<Byte>, s: seq<Byte>, rest: seq<Byte>, f: seq<Byte>)
    ensures (g + s + rest) + f + s == g + s + (rest + f + s)
  {
  }

  lemma AppendBehindFirst(g: seq<Byte>, rest: seq<Byte>, f: seq<Byte>)
    requires SOH !in g && Fields(rest + f + [SOH]) == Fields(rest) + [f]
    ensures Fields((g + [SOH] + rest) + f + [SOH]) == Fields(g + [SOH] + rest) + [f]
  {
    Regroup(g, [SOH], rest, f);
    FirstField(g + [SOH] + rest, g, rest);
    FirstField((g + [SOH] + rest) + f + [SOH], g, rest + f + [SOH]);
  }

  lemma FirstSoh(a: seq<Byte>) returns (g: seq<Byte>, rest: seq<Byte>)
    requires a != [] && a[|a| - 1] == SOH
    ensures a == g + [SOH] + rest && SOH !in g && (rest == [] || rest[|rest| - 1] == SOH)
  {
    var k := FieldEnd(a);
    assert a[..|a|] == a;
    g, rest := a[..k], a[k + 1..];
  }

  /** Splitting after one more field. */
  lemma {:induction false} FieldsAppend(a: seq<Byte>, f: seq<Byte>)
    requires SOH !in f && (a == [] || a[|a| - 1] == SOH)
    ensures Fields(a + f + [SOH]) == Fields(a) + [f]
    decreases |a|
  {
    if a == [] {
      FirstField(a + f + [SOH], f, []);
    } else {
      var g, rest := FirstSoh(a);
      FieldsAppend(rest, f);
      AppendBehindFirst(g, rest, f);
    }
  }

  lemma RenderEnds(ps: seq<Pair>)
    ensures Render(ps) == [] || Render(ps)[|Render(ps)| - 1] == SOH
  {
  }

  /** Splitting a printed message gives its printed fields. */
  lemma {:induction false} FieldsOfRender(ps: seq<Pair>)
    requires NoSoh(ps)
    ensures Fields(Render(ps)) == Rendered(ps)
  {
    hide Fields, RenderOne;
    if ps == [] {
      NoFields();
    } else {
      var k := |ps| - 1;
      FieldsOfRender(ps[..k]);
      FieldReads(ps[k]);
      RenderEnds(ps[..k]);
      FieldsAppend(Render(ps[..k]), RenderOne(ps[k]));
      assert Rendered(ps) == Rendered(ps[..k]) + [RenderOne(ps[k])];
    }
  }

  /** The effect of the fields, from left to right. */
  function Effect(ps: seq<Pair>, m: Message): Message {
    if ps == [] then m
    else Dispatch(Effect(ps[..|ps| - 1], m), ps[|ps| - 1].tag % TWO_32, ps[|ps| - 1].value)
  }

  lemma {:induction false} EffectIsFold(ps: seq<Pair>, m: Message)
    ensures AllWellFormed(Rendered(ps)) && Folded(Rendered(ps), m) == Effect(ps, m)
  {
    forall i | 0 <= i < |ps| ensures WellFormed(Rendered(ps)[i]) { FieldReads(ps[i]); }
    if ps == [] {
    } else {
      var k := |ps| - 1;
      EffectIsFold(ps[..k], m);
      assert Rendered(ps)[..k] == Rendered(ps[..k]);
      FieldReads(ps[k]);
    }
  }

  /** Parsing any printed list of fields dispatches exactly those fields, in order. */
  lemma ParseUndoesRender(ps: seq<Pair>)
    requires NoSoh(ps)
    ensures Parsed(Render(ps)) == Effect(ps, EMPTY).(valid := Effect(ps, EMPTY).msgType != 0)
  {
    FieldsOfRender(ps);
    EffectIsFold(ps, EMPTY);
    ParseIsFold(Rendered(ps), EMPTY);
    assert Good(Rendered(ps)) == Rendered(ps);
  }

  // ----- The order message of the benchmark -----

  function PriceText(price: nat): seq<Byte> {
    Decimal(price / 10000) + [POINT] + LastFour(price)
  }

  /** The fields of a new-order message. */
  function Header(): seq<Pair> {
    [Pair(8, Ascii("FIX.4.2")), Pair(9, Ascii("65")), Pair(35, Ascii("D")),
     Pair(49, Ascii("SENDER")), Pair(56, Ascii("TARGET"))]
  }

  function Names(orderId: nat): seq<Pair> {
    [Pair(34, Decimal(orderId)), Pair(11, Ascii("ORDER") + Decimal(orderId)), Pair(55, Ascii("AAPL"))]
  }

  function Terms(qty: nat, price: nat, side: Byte): seq<Pair> {
    [Pair(54, [side]), Pair(38, Decimal(qty)), Pair(44, PriceText(price))]
  }

  function Order(orderId: nat, qty: nat, price: nat, side: Byte): seq<Pair> {
    Names(orderId) + Terms(qty, price, side)
  }

  function Trailer(): seq<Pair> {
    [Pair(40, Ascii("2")), Pair(10, Ascii("123"))]
  }

  function OrderFields(orderId: nat, qty: nat, price: nat, side: Byte): seq<Pair> {
    Header() + Order(orderId, qty, price, side) + Trailer()
  }

  lemma DigitsOfFour(a: nat, b: nat, c: nat, d: nat)
    requires a < 10 && b < 10 && c < 10 && d < 10
    ensures Digits([ZERO + a, ZERO + b, ZERO + c, ZERO + d]) == 1000 * a + 100 * b + 10 * c + d
  {
    var v := [ZERO + a, ZERO + b, ZERO + c, ZERO + d];
    assert v == [] + [ZERO + a] + [ZERO + b] + [ZERO + c] + [ZERO + d];
    DigitsLast([], ZERO + a);
    DigitsLast([] + [ZERO + a], ZERO + b);
    DigitsLast([] + [ZERO + a] + [ZERO + b], ZERO + c);
    DigitsLast([] + [ZERO + a] + [ZERO + b] + [ZERO + c], ZERO + d);
  }

  /** Taking a number below 10^(k+1) apart at 10^k. */
  lemma Lower(n: nat, big: nat, small: nat)
    requires small > 0 && big == 10 * small
    ensures (n % big) / small < 10 && n % big == small * ((n % big) / small) + n % small
  {
    var q, r := n / big, n % big;
    assert n == (10 * q + r / small) * small + r % small;
    QuotientUnique(n, small, 10 * q + r / small, r % small);
    assert r == small * (r / small) + r % small;
  }

  function LastFour(price: nat): seq<Byte> {
    Decimal((price % 10000) / 1000) + Decimal((price % 1000) / 100) + Decimal((price % 100) / 10) + Decimal(price % 10)
  }

  lemma FourDigits(price: nat)
    ensures |LastFour(price)| == 4 && AllDigits(LastFour(price)) && Digits(LastFour(price)) == price % 10000
  {
    Lower(price, 10000, 1000);
    Lower(price, 1000, 100);
    Lower(price, 100, 10);
    var a, b, c, d := (price % 10000) / 1000, (price % 1000) / 100, (price % 100) / 10, price % 10;
    assert LastFour(price) == [ZERO + a, ZERO + b, ZERO + c, ZERO + d];
    DigitsOfFour(a, b, c, d);
  }

  /** The printed price converts back to the price in ticks. */
  lemma PriceReads(price: nat)
    ensures Ticks(PriceText(price)) == price
  {
    hide Digits, Pow10, Ticks, Decimal, LastFour;
    var i := Decimal(price / 10000);
    FourDigits(price);
    DecimalReads(price / 10000);
    DecimalTicks(i, LastFour(price));
    PowersOfTen();
  }

  /** `fs` reads as the pairs `ps`, field by field. */
  ghost predicate ReadsAs(fs: seq<seq<Byte>>, ps: seq<Pair>) {
    && |fs| == |ps| && AllWellFormed(fs)
    && forall i :: 0 <= i < |fs| ==> Tag(fs[i]) == ps[i].tag && Value(fs[i]) == ps[i].value
  }

  lemma RenderedReadsAs(ps: seq<Pair>)
    requires forall i :: 0 <= i < |ps| ==> ps[i].tag < TWO_32
    ensures ReadsAs(Rendered(ps), ps)
  {
    forall i | 0 <= i < |ps|
      ensures WellFormed(Rendered(ps)[i]) && Tag(Rendered(ps)[i]) == ps[i].tag && Value(Rendered(ps)[i]) == ps[i].value
    {
      FieldReads(ps[i]);
    }
  }

  /** The tags of an order message, and the sizes its one-byte and checksum values have. */
  ghost predicate OrderShaped(ps: seq<Pair>) {
    && |ps| == 13
    && ps[0].tag == 8 && ps[1].tag == 9 && ps[2].tag == 35 && ps[3].tag == 49 && ps[4].tag == 56
    && ps[5].tag == 34 && ps[6].tag == 11 && ps[7].tag == 55 && ps[8].tag == 54 && ps[9].tag == 38 && ps[10].tag == 44
    && ps[11].tag == 40 && ps[12].tag == 10
    && |ps[2].value| == 1 && |ps[8].value| == 1 && |ps[11].value| == 1 && |ps[12].value| == 3
  }

  lemma OrderTagsDiffer(ps: seq<Pair>)
    requires OrderShaped(ps)
    ensures forall i :: 0 <= i < |ps| ==> ps[i].tag < TWO_32
    ensures forall i, j :: 0 <= i < j < |ps| ==> ps[i].tag != ps[j].tag
  {
  }

  lemma OnlyField(fs: seq<seq<Byte>>, ps: seq<Pair>, k: nat, tag: nat, least: nat, most: Option<nat>)
    requires ReadsAs(fs, ps) && k < |ps| && ps[k].tag == tag
    requires |ps[k].value| >= least && (most.None? || |ps[k].value| <= most.value)
    requires forall i, j :: 0 <= i < j < |ps| ==> ps[i].tag != ps[j].tag
    ensures LastValue(fs, tag, least, most) == Some(ps[k].value)
  {
    LastField(fs, k, tag, least, most);
  }

  lemma OrderTexts(fs: seq<seq<Byte>>, ps: seq<Pair>)
    requires ReadsAs(fs, ps) && OrderShaped(ps)
    ensures LastValue(fs, 11, 0, None) == Some(ps[6].value) && LastValue(fs, 55, 0, None) == Some(ps[7].value)
    ensures LastValue(fs, 38, 0, None) == Some(ps[9].value) && LastValue(fs, 44, 0, None) == Some(ps[10].value)
  {
    OrderTagsDiffer(ps);
    OnlyField(fs, ps, 6, 11, 0, None);
    OnlyField(fs, ps, 7, 55, 0, None);
    OnlyField(fs, ps, 9, 38, 0, None);
    OnlyField(fs, ps, 10, 44, 0, None);
  }

  lemma OrderCodes(fs: seq<seq<Byte>>, ps: seq<Pair>)
    requires ReadsAs(fs, ps) && OrderShaped(ps)
    ensures LastValue(fs, 35, 1, Some(1)) == Some(ps[2].value) && LastValue(fs, 54, 1, None) == Some(ps[8].value)
    ensures LastValue(fs, 40, 1, None) == Some(ps[11].value) && LastValue(fs, 10, 2, None) == Some(ps[12].value)
  {
    OrderTagsDiffer(ps);
    OnlyField(fs, ps, 2, 35, 1, Some(1));
    OnlyField(fs, ps, 8, 54, 1, None);
    OnlyField(fs, ps, 11, 40, 1, None);
    OnlyField(fs, ps, 12, 10, 2, None);
  }

  lemma OrderFieldsAreShaped(orderId: nat, qty: nat, price: nat, side: Byte)
    ensures var ps := OrderFields(orderId, qty, price, side);
            && OrderShaped(ps)
            && ps[2].value == [68] && ps[6].value == Ascii("ORDER") + Decimal(orderId) && ps[7].value == Ascii("AAPL")
            && ps[8].value == [side] && ps[9].value == Decimal(qty) && ps[10].value == PriceText(price)
            && ps[11].value == [50] && ps[12].value == [49, 50, 51]
  {
  }

  /** The message whose fields are the values of an order's pairs. */
  function ShapedMessage(ps: seq<Pair>): Message
    requires OrderShaped(ps)
  {
    Message(ps[2].value[0], ps[6].value, ps[7].value, (ps[8].value[0] - ZERO) % 256, Quantity(ps[9].value),
            Ticks(ps[10].value), (ps[11].value[0] - ZERO) % 256, TwoDigits(ps[12].value), true)
  }

  lemma WinnersAreShaped(m: Message, fs: seq<seq<Byte>>, ps: seq<Pair>)
    requires ReadsAs(fs, ps) && OrderShaped(ps) && TextsWin(m, fs) && CodesWin(m, fs) && m.valid
    ensures m == ShapedMessage(ps)
  {
    hide LastValue, Quantity, Ticks, WellFormed;
    OrderTexts(fs, ps);
    OrderCodes(fs, ps);
  }

  lemma ShapedIsValid(buf: seq<Byte>, ps: seq<Pair>)
    requires buf != [] && ReadsAs(Fields(buf), ps) && OrderShaped(ps) && ps[2].value[0] != 0
    ensures Parsed(buf).valid
  {
    OrderCodes(Fields(buf), ps);
    ValidIff(buf);
  }

  /** Parsing a buffer whose fields read as an order's pairs. */
  lemma ShapedOrderReads(buf: seq<Byte>, ps: seq<Pair>)
    requires buf != [] && ReadsAs(Fields(buf), ps) && OrderShaped(ps) && ps[2].value[0] != 0
    ensures Parsed(buf) == ShapedMessage(ps)
  {
    AllGood(Fields(buf));
    ParsedIsLastWins(buf);
    ShapedIsValid(buf, ps);
    WinnersAreShaped(Parsed(buf), Fields(buf), ps);
  }

  lemma AllGood(fs: seq<seq<Byte>>)
    requires AllWellFormed(fs)
    ensures Good(fs) == fs
  {
  }

  lemma RenderNotEmpty(ps: seq<Pair>)
    requires ps != []
    ensures Render(ps) != []
  {
  }

  lemma OrderFieldsAreClean(orderId: nat, qty: nat, price: nat, side: Byte)
    requires side != SOH
    ensures NoSoh(OrderFields(orderId, qty, price, side))
  {
    FourDigits(price);
    assert SOH !in Decimal(orderId) && SOH !in Decimal(qty) && SOH !in PriceText(price) && SOH !in Ascii("ORDER");
    assert NoSoh(Header()) && NoSoh(Order(orderId, qty, price, side)) && NoSoh(Trailer());
  }

  /** The message `parse` makes of a printed order: every field of the order, unchanged. */
  function OrderMessage(orderId: nat, qty: nat, price: nat, side: Byte): Message
    requires ZERO <= side <= NINE
  {
    Message(68, Ascii("ORDER") + Decimal(orderId), Ascii("AAPL"), side - ZERO, qty, price, 2, 12, true)
  }

  /** The codes and numbers of an order, read back one by one. */
  lemma ShapedFrom(ps: seq<Pair>, side: Byte, q: nat, t: nat)
    requires OrderShaped(ps) && IsDigit(side) && ps[2].value == [68] && ps[8].value == [side]
    requires Quantity(ps[9].value) == q && Ticks(ps[10].value) == t && ps[11].value == [50]
    requires ps[12].value == [49, 50, 51]
    ensures ShapedMessage(ps) == Message(68, ps[6].value, ps[7].value, side - ZERO, q, t, 2, 12, true)
  {
    assert TwoDigits([49, 50, 51]) == 12;
  }

  lemma QuantityTextReads(qty: nat)
    requires qty < TWO_32
    ensures Quantity(Decimal(qty)) == qty
  {
    QuantityReads(Decimal(qty));
    DecimalReads(qty);
  }

  lemma RenderReadsAs(ps: seq<Pair>)
    requires OrderShaped(ps) && NoSoh(ps)
    ensures Render(ps) != [] && ReadsAs(Fields(Render(ps)), ps)
  {
    OrderTagsDiffer(ps);
    RenderedReadsAs(ps);
    FieldsOfRender(ps);
    RenderNotEmpty(ps);
  }

  lemma PrintedPairsRead(ps: seq<Pair>)
    requires OrderShaped(ps) && NoSoh(ps) && ps[2].value[0] != 0
    ensures Parsed(Render(ps)) == ShapedMessage(ps)
  {
    RenderReadsAs(ps);
    ShapedOrderReads(Render(ps), ps);
  }

  /** Parsing undoes printing, for every order id, 32-bit quantity, price and side digit. */
  lemma PrintedOrderReads(orderId: nat, qty: nat, price: nat, side: Byte)
    requires qty < TWO_32 && IsDigit(side)
    ensures Parsed(Render(OrderFields(orderId, qty, price, side))) == OrderMessage(orderId, qty, price, side)
  {
    var ps := OrderFields(orderId, qty, price, side);
    OrderFieldsAreClean(orderId, qty, price, side);
    OrderFieldsAreShaped(orderId, qty, price, side);
    PrintedPairsRead(ps);
    QuantityTextReads(qty);
    PriceReads(price);
    ShapedFrom(ps, side, qty, price);
  }

  lemma TagTexts()
    ensures Decimal(8) + [EQUALS] == Ascii("8=") && Decimal(9) + [EQUALS] == Ascii("9=")
    ensures Decimal(35) + [EQUALS] == Ascii("35=") && Decimal(49) + [EQUALS] == Ascii("49=")
    ensures Decimal(56) + [EQUALS] == Ascii("56=") && Decimal(34) + [EQUALS] == Ascii("34=")
    ensures Decimal(11) + [EQUALS] == Ascii("11=") && Decimal(55) + [EQUALS] == Ascii("55=")
    ensures Decimal(54) + [EQUALS] == Ascii("54=") && Decimal(38) + [EQUALS] == Ascii("38=")
    ensures Decimal(44) + [EQUALS] == Ascii("44=") && Decimal(40) + [EQUALS] == Ascii("40=")
    ensures Decimal(10) + [EQUALS] == Ascii("10=")
  {
  }

  /** The texts of an order's fields, as the printer writes them. */
  function PrintedTexts(orderId: nat, qty: nat, price: nat, side: Byte): seq<seq<Byte>> {
    [Ascii("8=FIX.4.2"), Ascii("9=65"), Ascii("35=D"), Ascii("49=SENDER"), Ascii("56=TARGET"),
     Ascii("34=") + Decimal(orderId), Ascii("11=ORDER") + Decimal(orderId), Ascii("55=AAPL"),
     Ascii("54=") + [side], Ascii("38=") + Decimal(qty), Ascii("44=") + PriceText(price),
     Ascii("40=2"), Ascii("10=123")]
  }

  /** Every text followed by SOH. */
  function Joined(ts: seq<seq<Byte>>): seq<Byte> {
    if ts == [] then [] else Joined(ts[..|ts| - 1]) + ts[|ts| - 1] + [SOH]
  }

  lemma {:induction false} RenderIsJoined(ps: seq<Pair>, ts: seq<seq<Byte>>)
    requires |ps| == |ts| && forall i :: 0 <= i < |ps| ==> RenderOne(ps[i]) == ts[i]
    ensures Render(ps) == Joined(ts)
  {
    if ps == [] {
    } else {
      RenderIsJoined(ps[..|ps| - 1], ts[..|ts| - 1]);
    }
  }

  lemma AsciiJoins(tag: nat, a: string, b: string, c: string)
    requires forall i :: 0 <= i < |a| ==> a[i] as int < 128
    requires forall i :: 0 <= i < |b| ==> b[i] as int < 128
    requires c == a + b && Decimal(tag) + [EQUALS] == Ascii(a)
    ensures forall i :: 0 <= i < |c| ==> c[i] as int < 128
    ensures RenderOne(Pair(tag, Ascii(b))) == Ascii(c)
  {
  }

  lemma TextJoins(tag: nat, a: string, v: seq<Byte>)
    requires forall i :: 0 <= i < |a| ==> a[i] as int < 128
    requires Decimal(tag) + [EQUALS] == Ascii(a)
    ensures RenderOne(Pair(tag, v)) == Ascii(a) + v
  {
  }

  lemma HeaderTexts()
    ensures RenderOne(Pair(8, Ascii("FIX.4.2"))) == Ascii("8=FIX.4.2")
    ensures RenderOne(Pair(9, Ascii("65"))) == Ascii("9=65")
    ensures RenderOne(Pair(35, Ascii("D"))) == Ascii("35=D")
    ensures RenderOne(Pair(49, Ascii("SENDER"))) == Ascii("49=SENDER")
    ensures RenderOne(Pair(56, Ascii("TARGET"))) == Ascii("56=TARGET")
  {
    hide Decimal, RenderOne;
    TagTexts();
    AsciiJoins(8, "8=", "FIX.4.2", "8=FIX.4.2");
    AsciiJoins(9, "9=", "65", "9=65");
    AsciiJoins(35, "35=", "D", "35=D");
    AsciiJoins(49, "49=", "SENDER", "49=SENDER");
    AsciiJoins(56, "56=", "TARGET", "56=TARGET");
  }

  lemma OtherTexts()
    ensures RenderOne(Pair(55, Ascii("AAPL"))) == Ascii("55=AAPL")
    ensures RenderOne(Pair(40, Ascii("2"))) == Ascii("40=2") && RenderOne(Pair(10, Ascii("123"))) == Ascii("10=123")
  {
    hide Decimal, RenderOne;
    TagTexts();
    AsciiJoins(55, "55=", "AAPL", "55=AAPL");
    AsciiJoins(40, "40=", "2", "40=2");
    AsciiJoins(10, "10=", "123", "10=123");
  }

  lemma IdTexts(orderId: nat)
    ensures RenderOne(Pair(34, Decimal(orderId))) == Ascii("34=") + Decimal(orderId)
    ensures RenderOne(Pair(11, Ascii("ORDER") + Decimal(orderId))) == Ascii("11=ORDER") + Decimal(orderId)
  {
    hide Decimal, RenderOne;
    TagTexts();
    TextJoins(34, "34=", Decimal(orderId));
    TextJoins(11, "11=", Ascii("ORDER") + Decimal(orderId));
    assert Ascii("11=") + Ascii("ORDER") == Ascii("11=ORDER");
    assert Ascii("11=") + (Ascii("ORDER") + Decimal(orderId)) == Ascii("11=") + Ascii("ORDER") + Decimal(orderId);
  }

  lemma TermTexts(qty: nat, price: nat, side: Byte)
    ensures RenderOne(Pair(54, [side])) == Ascii("54=") + [side]
    ensures RenderOne(Pair(38, Decimal(qty))) == Ascii("38=") + Decimal(qty)
    ensures RenderOne(Pair(44, PriceText(price))) == Ascii("44=") + PriceText(price)
  {
    hide Decimal, RenderOne, PriceText;
    TagTexts();
    TextJoins(54, "54=", [side]);
    TextJoins(38, "38=", Decimal(qty));
    TextJoins(44, "44=", PriceText(price));
  }

  /** The printed order, byte for byte: its thirteen texts, each followed by SOH. */
  lemma OrderPrintsAs(orderId: nat, qty: nat, price: nat, side: Byte)
    ensures Render(OrderFields(orderId, qty, price, side)) == Joined(PrintedTexts(orderId, qty, price, side))
  {
    hide Decimal, RenderOne, PriceText, Render, Joined;
    var ps, ts := OrderFields(orderId, qty, price, side), PrintedTexts(orderId, qty, price, side);
    OrderPairs(orderId, qty, price, side);
    HeaderTexts();
    OtherTexts();
    IdTexts(orderId);
    TermTexts(qty, price, side);
    hide OrderFields;
    forall i | 0 <= i < 13 ensures RenderOne(ps[i]) == ts[i] { }
    RenderIsJoined(ps, ts);
  }

  /** A printed number has no leading zero, and a number below ten one digit. */
  lemma {:induction false} NoLeadingZero(n: nat)
    ensures Decimal(n)[0] == ZERO <==> n == 0
    ensures |Decimal(n)| == 1 <==> n < 10
  {
    if n < 10 {
    } else {
      NoLeadingZero(n / 10);
      assert Decimal(n)[0] == Decimal(n / 10)[0];
    }
  }

  /** Appends one field and its SOH. */
  method AppendField(msg: seq<Byte>, p: Pair, ghost done: seq<Pair>) returns (r: seq<Byte>)
    requires msg == Render(done)
    ensures r == Render(done + [p])
  {
    RenderLast(done, p);
    r := msg + Decimal(p.tag) + [EQUALS] + p.value + [SOH];
    assert r == msg + RenderOne(p) + [SOH];
  }

  /** Appends the next three of the fields `ps`. */
  method AppendThree(msg: seq<Byte>, p: Pair, q: Pair, s: Pair, ghost ps: seq<Pair>, ghost k: nat)
    returns (r: seq<Byte>)
    requires k + 3 <= |ps| && p == ps[k] && q == ps[k + 1] && s == ps[k + 2] && msg == Render(ps[..k])
    ensures r == Render(ps[..k + 3])
  {
    r := AppendField(msg, p, ps[..k]);
    assert ps[..k] + [p] == ps[..k + 1];
    r := AppendField(r, q, ps[..k + 1]);
    assert ps[..k + 1] + [q] == ps[..k + 2];
    r := AppendField(r, s, ps[..k + 2]);
    assert ps[..k + 2] + [s] == ps[..k + 3];
  }

  lemma OrderPairs(orderId: nat, qty: nat, price: nat, side: Byte)
    ensures var ps := OrderFields(orderId, qty, price, side);
            && |ps| == 13
            && ps[0] == Pair(8, Ascii("FIX.4.2")) && ps[1] == Pair(9, Ascii("65")) && ps[2] == Pair(35, Ascii("D"))
            && ps[3] == Pair(49, Ascii("SENDER")) && ps[4] == Pair(56, Ascii("TARGET"))
            && ps[5] == Pair(34, Decimal(orderId)) && ps[6] == Pair(11, Ascii("ORDER") + Decimal(orderId))
            && ps[7] == Pair(55, Ascii("AAPL")) && ps[8] == Pair(54, [side])
            && ps[9] == Pair(38, Decimal(qty)) && ps[10] == Pair(44, PriceText(price)) && ps[11] == Pair(40, Ascii("2"))
            && ps[12] == Pair(10, Ascii("123"))
  {
  }

  /** `make_fix_message`: the text it builds is the order's fields, each followed by SOH. */
  method MakeFixMessage(orderId: nat, qty: nat, price: nat, side: Byte) returns (msg: seq<Byte>)
    ensures msg == Render(OrderFields(orderId, qty, price, side))
    ensures msg == Joined(PrintedTexts(orderId, qty, price, side))
  {
    OrderPrintsAs(orderId, qty, price, side);
    ghost var ps := OrderFields(orderId, qty, price, side);
    OrderPairs(orderId, qty, price, side);
    msg := AppendThree([], Pair(8, Ascii("FIX.4.2")), Pair(9, Ascii("65")), Pair(35, Ascii("D")), ps, 0);
    msg := AppendThree(msg, Pair(49, Ascii("SENDER")), Pair(56, Ascii("TARGET")), Pair(34, Decimal(orderId)), ps, 3);
    var clOrdId := Ascii("ORDER") + Decimal(orderId);
    msg := AppendThree(msg, Pair(11, clOrdId), Pair(55, Ascii("AAPL")), Pair(54, [side]), ps, 6);
    msg := AppendThree(msg, Pair(38, Decimal(qty)), Pair(44, PriceText(price)), Pair(40, Ascii("2")), ps, 9);
    msg := AppendField(msg, Pair(10, Ascii("123")), ps[..12]);
    assert ps[..12] + [ps[12]] == ps;
  }
}

/** What a parsed message says about the buffer it came from. */
module FixMeaning {
  import opened Bits
  import opened Options
  import opened FixMessage

  predicate AllWellFormed(fs: seq<seq<Byte>>) {
    forall i :: 0 <= i < |fs| ==> WellFormed(fs[i])
  }

  /** The fields before the first malformed one. */
  function Good(fs: seq<seq<Byte>>): (g: seq<seq<Byte>>)
    ensures |g| <= |fs| && g == fs[..|g|] && AllWellFormed(g)
    ensures |g| < |fs| ==> !WellFormed(fs[|g|])
  {
    if fs == [] || !WellFormed(fs[0]) then [] else [fs[0]] + Good(fs[1..])
  }

  /** The value of the last field with this tag and at least `least` and at most `most` bytes. */
  function LastValue(fs: seq<seq<Byte>>, tag: nat, least: nat, most: Option<nat>): (r: Option<seq<Byte>>)
    requires AllWellFormed(fs)
    ensures r.Some? ==> |r.value| >= least && (most.None? || |r.value| <= most.value)
  {
    if fs == [] then None
    else
      var f := fs[|fs| - 1];
      if Tag(f) == tag && |Value(f)| >= least && (most.None? || |Value(f)| <= most.value) then Some(Value(f))
      else LastValue(fs[..|fs| - 1], tag, least, most)
  }

  function Or<T>(o: Option<T>, d: T): T { if o.Some? then o.value else d }

  /** `m` with the effect of the fields, from left to right. */
  function Folded(fs: seq<seq<Byte>>, m: Message): Message
    requires AllWellFormed(fs)
  {
    if fs == [] then m
    else Dispatch(Folded(fs[..|fs| - 1], m), Tag(fs[|fs| - 1]), Value(fs[|fs| - 1]))
  }

  lemma {:induction false} FoldedFirst(f: seq<Byte>, fs: seq<seq<Byte>>, m: Message)
    requires WellFormed(f) && AllWellFormed(fs)
    ensures Folded([f] + fs, m) == Folded(fs, Dispatch(m, Tag(f), Value(f)))
    decreases |fs|
  {
    hide Dispatch, Tag, Value;
    if fs == [] {
      assert [f] + fs == [f];
      assert [f][..0] == [];
    } else {
      var k := |fs| - 1;
      assert ([f] + fs)[..k + 1] == [f] + fs[..k];
      FoldedFirst(f, fs[..k], m);
    }
  }

  /** The scan is a left fold over the good fields, valid exactly when all fields are good and a type was seen. */
  lemma {:induction false} ParseIsFold(fs: seq<seq<Byte>>, m: Message)
    requires !m.valid
    ensures var r := Folded(Good(fs), m);
            ParseFields(fs, m) == r.(valid := AllWellFormed(fs) && r.msgType != 0)
    decreases |fs|
  {
    if fs == [] {
    } else if !WellFormed(fs[0]) {
      assert !AllWellFormed(fs);
    } else {
      var m' := Dispatch(m, Tag(fs[0]), Value(fs[0]));
      ParseIsFold(fs[1..], m');
      FoldedFirst(fs[0], Good(fs[1..]), m);
      assert AllWellFormed(fs) <==> AllWellFormed(fs[1..]) by {
        assert forall i :: 0 < i < |fs| ==> fs[i] == fs[1..][i - 1];
        assert forall i :: 0 <= i < |fs[1..]| ==> fs[1..][i] == fs[i + 1];
      }
      FoldKeepsValid(Good(fs), m);
    }
  }

  lemma {:induction false} FoldKeepsValid(fs: seq<seq<Byte>>, m: Message)
    requires AllWellFormed(fs)
    ensures Folded(fs, m).valid == m.valid
  {
    if fs == [] {
    } else {
      FoldKeepsValid(fs[..|fs| - 1], m);
    }
  }

  /** Each text field, the quantity and the price come from the last field with their tag. */
  ghost predicate TextsWin(m: Message, fs: seq<seq<Byte>>)
    requires AllWellFormed(fs)
  {
    && m.clOrdId == Or(LastValue(fs, 11, 0, None), [])
    && m.symbol == Or(LastValue(fs, 55, 0, None), [])
    && m.orderQty == Quantity(Or(LastValue(fs, 38, 0, None), []))
    && m.priceTicks == Ticks(Or(LastValue(fs, 44, 0, None), []))
  }

  /**
   The type comes from the last one-byte value of its tag, side and order type from the last non-
   empty one, the checksum from the last of two bytes.
   */
  ghost predicate CodesWin(m: Message, fs: seq<seq<Byte>>)
    requires AllWellFormed(fs)
  {
    && m.msgType == Or(LastValue(fs, 35, 1, Some(1)), [0])[0]
    && m.side == (Or(LastValue(fs, 54, 1, None), [ZERO])[0] - ZERO) % 256
    && m.ordType == (Or(LastValue(fs, 40, 1, None), [ZERO])[0] - ZERO) % 256
    && m.checksum == TwoDigits(Or(LastValue(fs, 10, 2, None), [ZERO, ZERO]))
  }

  lemma LastValueStep(fs: seq<seq<Byte>>, tag: nat, least: nat, most: Option<nat>)
    requires AllWellFormed(fs) && fs != []
    ensures var f := fs[|fs| - 1];
            LastValue(fs, tag, least, most) ==
            if Tag(f) == tag && |Value(f)| >= least && (most.None? || |Value(f)| <= most.value) then Some(Value(f))
            else LastValue(fs[..|fs| - 1], tag, least, most)
  {
  }

  /** A field whose tag no later field has gives the last value of that tag. */
  lemma {:induction false} LastField(fs: seq<seq<Byte>>, k: nat, tag: nat, least: nat, most: Option<nat>)
    requires AllWellFormed(fs) && k < |fs| && Tag(fs[k]) == tag
    requires |Value(fs[k])| >= least && (most.None? || |Value(fs[k])| <= most.value)
    requires forall j :: k < j < |fs| ==> Tag(fs[j]) != tag
    ensures LastValue(fs, tag, least, most) == Some(Value(fs[k]))
    decreases |fs|
  {
    LastValueStep(fs, tag, least, most);
    if k < |fs| - 1 { LastField(fs[..|fs| - 1], k, tag, least, most); }
  }

  lemma TextsStep(m: Message, fs: seq<seq<Byte>>)
    requires AllWellFormed(fs) && fs != [] && TextsWin(m, fs[..|fs| - 1])
    ensures TextsWin(Dispatch(m, Tag(fs[|fs| - 1]), Value(fs[|fs| - 1])), fs)
  {
    hide LastValue, Quantity, Ticks, Tag;
    LastValueStep(fs, 11, 0, None);
    LastValueStep(fs, 55, 0, None);
    LastValueStep(fs, 38, 0, None);
    LastValueStep(fs, 44, 0, None);
  }

  lemma CodesStep(m: Message, fs: seq<seq<Byte>>)
    requires AllWellFormed(fs) && fs != [] && CodesWin(m, fs[..|fs| - 1])
    ensures CodesWin(Dispatch(m, Tag(fs[|fs| - 1]), Value(fs[|fs| - 1])), fs)
  {
    hide LastValue, Quantity, Ticks, Tag;
    LastValueStep(fs, 35, 1, Some(1));
    LastValueStep(fs, 54, 1, None);
    LastValueStep(fs, 40, 1, None);
    LastValueStep(fs, 10, 2, None);
  }

  /** The last field of a kind wins. */
  lemma {:induction false} FoldIsLastWins(fs: seq<seq<Byte>>)
    requires AllWellFormed(fs)
    ensures TextsWin(Folded(fs, EMPTY), fs) && CodesWin(Folded(fs, EMPTY), fs)
  {
    if fs == [] {
    } else {
      FoldIsLastWins(fs[..|fs| - 1]);
      TextsStep(Folded(fs[..|fs| - 1], EMPTY), fs);
      CodesStep(Folded(fs[..|fs| - 1], EMPTY), fs);
    }
  }

  /** Every field of the result is that of the last good field that sets it. */
  lemma ParsedIsLastWins(buf: seq<Byte>)
    ensures TextsWin(Parsed(buf), Good(Fields(buf))) && CodesWin(Parsed(buf), Good(Fields(buf)))
  {
    ParseIsFold(Fields(buf), EMPTY);
    FoldIsLastWins(Good(Fields(buf)));
  }

  /**
   A message is valid exactly when the buffer is not empty, every field of it is digits, `=` and a
   value, and the last one-byte value of tag 35 is there and not zero.
   */
  lemma ValidIff(buf: seq<Byte>)
    ensures Parsed(buf).valid <==>
              && buf != [] && AllWellFormed(Fields(buf))
              && var t := LastValue(Fields(buf), 35, 1, Some(1)); t.Some? && t.value[0] != 0
  {
    var fs := Fields(buf);
    ParseIsFold(fs, EMPTY);
    if AllWellFormed(fs) {
      assert Good(fs) == fs;
      FoldIsLastWins(fs);
    }
  }

  // ----- Prices -----

  predicate AllDigits(v: seq<Byte>) {
    forall i :: 0 <= i < |v| ==> IsDigit(v[i])
  }

  lemma DigitsLast(v: seq<Byte>, c: Byte)
    ensures Digits(v + [c]) == if IsDigit(c) then Digits(v) * 10 + (c - ZERO) else Digits(v)
    ensures Places(v + [c]) == Places(v) + (if POINT in v && IsDigit(c) then 1 else 0)
  {
    assert (v + [c])[..|v|] == v;
  }

  lemma ShiftedByDigit(x: nat, p: nat, y: nat, d: nat)
    ensures (x * p + y) * 10 + d == x * (10 * p) + (y * 10 + d)
  {
    assert x * (10 * p) == 10 * (x * p);
  }

  lemma DigitsAppendOne(a: seq<Byte>, b: seq<Byte>, c: Byte)
    requires IsDigit(c) && Digits(a + b) == Digits(a) * Pow10(|b|) + Digits(b)
    ensures Digits(a + b + [c]) == Digits(a) * (10 * Pow10(|b|)) + Digits(b + [c])
  {
    DigitsLast(a + b, c);
    DigitsLast(b, c);
    ShiftedByDigit(Digits(a), Pow10(|b|), Digits(b), c - ZERO);
  }

  lemma {:induction false} DigitsAppend(a: seq<Byte>, b: seq<Byte>)
    requires AllDigits(b)
    ensures Digits(a + b) == Digits(a) * Pow10(|b|) + Digits(b)
  {
    if b == [] {
      assert a + b == a;
    } else {
      var k := |b| - 1;
      DigitsAppend(a, b[..k]);
      assert b == b[..k] + [b[k]] && a + b == a + b[..k] + [b[k]];
      DigitsAppendOne(a, b[..k], b[k]);
      assert Pow10(|b|) == 10 * Pow10(k);
    }
  }

  lemma {:induction false} PlacesAppend(a: seq<Byte>, b: seq<Byte>)
    requires AllDigits(b)
    ensures Places(a + b) == Places(a) + (if POINT in a then |b| else 0)
  {
    if b == [] {
      assert a + b == a;
    } else {
      var k := |b| - 1;
      PlacesAppend(a, b[..k]);
      assert a + b == (a + b[..k]) + [b[k]];
      DigitsLast(a + b[..k], b[k]);
      assert POINT in a + b[..k] <==> POINT in a;
    }
  }

  lemma PlacesAfterPoint(i: seq<Byte>, f: seq<Byte>)
    requires AllDigits(i) && AllDigits(f)
    ensures Places(i) == 0 && Places(i + [POINT] + f) == |f|
  {
    PlacesAppend([], i);
    assert [] + i == i;
    DigitsLast(i, POINT);
    assert POINT in i + [POINT];
    PlacesAppend(i + [POINT], f);
  }

  /** All the digits of the text, read as one number. */
  function Unscaled(i: seq<Byte>, f: seq<Byte>): nat {
    Digits(i) * Pow10(|f|) + Digits(f)
  }

  /** The number a decimal text stands for, given its digits before and after the point. */
  ghost function DecimalValue(i: seq<Byte>, f: seq<Byte>): real {
    Unscaled(i, f) as real / Pow10(|f|) as real
  }

  lemma DigitsAroundPoint(i: seq<Byte>, f: seq<Byte>)
    requires AllDigits(f)
    ensures Digits(i + [POINT] + f) == Unscaled(i, f)
  {
    DigitsLast(i, POINT);
    DigitsAppend(i + [POINT], f);
  }

  lemma TicksFrom(v: seq<Byte>, d: nat, n: nat)
    requires Digits(v) == d && Places(v) == n
    ensures Ticks(v) == d * Pow10(if n < 4 then 4 - n else 0)
  {
  }

  lemma DecimalTicks(i: seq<Byte>, f: seq<Byte>)
    requires AllDigits(i) && AllDigits(f)
    ensures Ticks(i + [POINT] + f) == Unscaled(i, f) * Pow10(if |f| < 4 then 4 - |f| else 0)
  {
    hide Digits, Places, Pow10;
    PlacesAfterPoint(i, f);
    DigitsAroundPoint(i, f);
    TicksFrom(i + [POINT] + f, Unscaled(i, f), |f|);
  }

  lemma PowersOfTen()
    ensures Pow10(0) == 1 && Pow10(1) == 10 && Pow10(2) == 100 && Pow10(3) == 1000 && Pow10(4) == 10000
  {
    assert Pow10(1) == 10 * Pow10(0);
    assert Pow10(2) == 10 * Pow10(1);
    assert Pow10(3) == 10 * Pow10(2);
    assert Pow10(4) == 10 * Pow10(3);
  }

  lemma {:induction false} BigPower(k: nat)
    requires k > 4
    ensures Pow10(k) >= 100000
  {
    PowersOfTen();
    if k > 5 { BigPower(k - 1); }
  }

  lemma ScaleOnlyZero(v: nat, p: nat)
    requires p > 10000
    ensures v as real == v as real / p as real * 10000.0 <==> v == 0
    ensures v as real / p as real == 0.0 <==> v == 0
  {
    var x := v as real / p as real;
    assert x * p as real == v as real;
    if v as real == x * 10000.0 {
      assert x * (p as real - 10000.0) == 0.0;
      assert x == 0.0;
    }
  }

  lemma ScaleUpToFour(v: nat, n: nat)
    requires n <= 4
    ensures (v * Pow10(4 - n)) as real == v as real / Pow10(n) as real * 10000.0
  {
    PowersOfTen();
    match n
    case 0 =>
    case 1 =>
    case 2 =>
    case 3 =>
    case 4 =>
  }

  lemma ScaledExactlyIff(v: nat, n: nat)
    ensures (v * Pow10(if n < 4 then 4 - n else 0)) as real == v as real / Pow10(n) as real * 10000.0
            <==> n <= 4 || v as real / Pow10(n) as real == 0.0
  {
    if n <= 4 {
      ScaleUpToFour(v, n);
    } else {
      BigPower(n);
      ScaleOnlyZero(v, Pow10(n));
    }
  }

  /** A text without a point is a whole number of units. */
  lemma WholeTicks(i: seq<Byte>)
    requires AllDigits(i)
    ensures Ticks(i) == Digits(i) * 10000
  {
    PlacesAfterPoint(i, []);
    PowersOfTen();
  }

  /** `v` is a decimal text: digits `i`, and either a point and digits `f`, or neither of these. */
  predicate IsDecimal(v: seq<Byte>, i: seq<Byte>, f: seq<Byte>) {
    AllDigits(i) && AllDigits(f) && (v == i + [POINT] + f || (v == i && f == []))
  }

  lemma TicksOfDecimal(v: seq<Byte>, i: seq<Byte>, f: seq<Byte>)
    requires IsDecimal(v, i, f)
    ensures Ticks(v) == Unscaled(i, f) * Pow10(if |f| < 4 then 4 - |f| else 0)
  {
    hide Digits, Places;
    if v == i + [POINT] + f {
      DecimalTicks(i, f);
    } else {
      hide Pow10;
      WholeTicks(i);
      PowersOfTen();
      NoDigits();
      assert Unscaled(i, f) == Digits(i) * 1 + 0;
    }
  }

  lemma NoDigits()
    ensures Digits([]) == 0
  {
  }

  /**
   A decimal text, with a point or without, is converted to exactly ten thousand times its value if
   and only if it has at most four digits after the point, or its value is zero.
   */
  lemma TicksExactIff(v: seq<Byte>, i: seq<Byte>, f: seq<Byte>)
    requires IsDecimal(v, i, f)
    ensures Ticks(v) as real == DecimalValue(i, f) * 10000.0 <==> |f| <= 4 || DecimalValue(i, f) == 0.0
  {
    hide Ticks, Unscaled, Pow10;
    TicksOfDecimal(v, i, f);
    ScaledExactlyIff(Unscaled(i, f), |f|);
  }

  /** So up to four decimal places conversion keeps the order of prices, and tells different prices apart. */
  lemma TicksKeepOrder(v: seq<Byte>, i: seq<Byte>, f: seq<Byte>, w: seq<Byte>, j: seq<Byte>, g: seq<Byte>)
    requires IsDecimal(v, i, f) && |f| <= 4 && IsDecimal(w, j, g) && |g| <= 4
    ensures Ticks(v) < Ticks(w) <==> DecimalValue(i, f) < DecimalValue(j, g)
    ensures Ticks(v) == Ticks(w) <==> DecimalValue(i, f) == DecimalValue(j, g)
  {
    hide Ticks, DecimalValue, IsDecimal;
    TicksExactIff(v, i, f);
    TicksExactIff(w, j, g);
  }

  // ----- Values that are not plain numbers -----

  /** The digits among the bytes, in order. */
  function OnlyDigits(v: seq<Byte>): (d: seq<Byte>)
    ensures AllDigits(d)
  {
    if v == [] then [] else (if IsDigit(v[0]) then [v[0]] else []) + OnlyDigits(v[1..])
  }

  lemma {:induction false} OnlyDigitsLast(v: seq<Byte>, c: Byte)
    ensures OnlyDigits(v + [c]) == OnlyDigits(v) + (if IsDigit(c) then [c] else [])
  {
    if v == [] {
      assert [] + [c] == [c] && [c][1..] == [];
    } else {
      OnlyDigitsLast(v[1..], c);
      assert (v + [c])[1..] == v[1..] + [c];
      var head, tail := if IsDigit(v[0]) then [v[0]] else [], if IsDigit(c) then [c] else [];
      assert head + (OnlyDigits(v[1..]) + tail) == head + OnlyDigits(v[1..]) + tail;
    }
  }

  lemma {:induction false} DigitsSkipOthers(v: seq<Byte>)
    ensures Digits(v) == Digits(OnlyDigits(v))
  {
    if v == [] {
    } else {
      var w, c := v[..|v| - 1], v[|v| - 1];
      assert v == w + [c];
      DigitsSkipOthers(w);
      OnlyDigitsLast(w, c);
      DigitsLast(w, c);
      if IsDigit(c) {
        DigitsLast(OnlyDigits(w), c);
      } else {
        assert OnlyDigits(w) + [] == OnlyDigits(w);
      }
    }
  }

  lemma {:induction false} PlacesFromPoint(a: seq<Byte>, b: seq<Byte>)
    requires POINT !in a
    ensures Places(a) == 0 && Places(a + [POINT] + b) == |OnlyDigits(b)|
    decreases |b|
  {
    if b == [] {
      NoPointNoPlaces(a);
      DigitsLast(a, POINT);
      assert a + [POINT] + [] == a + [POINT];
    } else {
      var w, c := b[..|b| - 1], b[|b| - 1];
      assert b == w + [c] && a + [POINT] + b == a + [POINT] + w + [c];
      PlacesFromPoint(a, w);
      OnlyDigitsLast(w, c);
      DigitsLast(a + [POINT] + w, c);
      assert POINT in a + [POINT] + w;
    }
  }

  lemma {:induction false} NoPointNoPlaces(v: seq<Byte>)
    requires POINT !in v
    ensures Places(v) == 0
  {
    if v == [] {
    } else {
      NoPointNoPlaces(v[..|v| - 1]);
    }
  }

  /**
   Any text as a price: bytes that are neither digits nor the first point are passed over, and the
   places are the digits after the first point.
   */
  lemma TicksOfAny(a: seq<Byte>, b: seq<Byte>)
    requires POINT !in a
    ensures Ticks(a) == Digits(OnlyDigits(a)) * Pow10(4)
    ensures var n := |OnlyDigits(b)|;
            Ticks(a + [POINT] + b) == Digits(OnlyDigits(a + [POINT] + b)) * Pow10(if n < 4 then 4 - n else 0)
  {
    hide Digits, Places, Pow10, OnlyDigits;
    DigitsSkipOthers(a);
    DigitsSkipOthers(a + [POINT] + b);
    PlacesFromPoint(a, b);
  }

  /** The number a text would be if every byte were a digit, with its distance from '0' as a signed char. */
  function RawNumber(v: seq<Byte>): int {
    if v == [] then 0 else (SignedChar(v[0]) - ZERO) * Pow10(|v| - 1) + RawNumber(v[1..])
  }

  lemma RawDigit(x: int, p: int, y: int, d: int)
    ensures (x * p + y) * 10 + d == x * (10 * p) + (y * 10 + d)
  {
    assert x * (10 * p) == 10 * (x * p);
  }

  lemma {:induction false} RawLast(v: seq<Byte>, c: Byte)
    ensures RawNumber(v + [c]) == RawNumber(v) * 10 + (SignedChar(c) - ZERO)
  {
    if v == [] {
      assert [] + [c] == [c] && [c][1..] == [];
      assert Pow10(0) == 1 && RawNumber([]) == 0;
    } else {
      RawLast(v[1..], c);
      assert (v + [c])[1..] == v[1..] + [c];
      assert Pow10(|v|) == 10 * Pow10(|v| - 1);
      RawDigit(SignedChar(v[0]) - ZERO, Pow10(|v| - 1), RawNumber(v[1..]), SignedChar(c) - ZERO);
    }
  }

  /** The quantity of any text is that number in 32 bits. */
  lemma {:induction false} QuantityIsRaw(v: seq<Byte>)
    ensures Quantity(v) == RawNumber(v) % TWO_32
  {
    if v == [] {
    } else {
      var w, c := v[..|v| - 1], v[|v| - 1];
      assert v == w + [c];
      QuantityIsRaw(w);
      RawLast(w, c);
      ModStep(RawNumber(w), SignedChar(c) - ZERO);
    }
  }

  lemma ModStep(x: int, d: int)
    ensures (x % TWO_32 * 10 + d) % TWO_32 == (x * 10 + d) % TWO_32
  {
    var low := x % TWO_32 * 10 + d;
    QuotientUnique(x * 10 + d, TWO_32, x / TWO_32 * 10 + low / TWO_32, low % TWO_32);
  }

  /** What a byte of a checksum counts: its digit, or -1 if it is none. */
  function ChecksumDigit(c: Byte): int { if 48 <= c <= 57 then c - 48 else -1 }

  /** The checksum kept is two such digits, in 8 bits. */
  lemma ChecksumIsTwoDigits(v: seq<Byte>)
    requires |v| >= 2
    ensures TwoDigits(v) == (10 * ChecksumDigit(v[0]) + ChecksumDigit(v[1])) % 256
  {
    var a, b := AsciiToDigit(v[0]), AsciiToDigit(v[1]);
    var x, y := ChecksumDigit(v[0]), ChecksumDigit(v[1]);
    var j, k := if IsDigit(v[0]) then 0 else 1, if IsDigit(v[1]) then 0 else 1;
    assert a == x + 256 * j && b == y + 256 * k;
    SameByte(10 * x + y, 10 * j + k);
  }

  lemma SameByte(z: int, k: int)
    ensures (z + 256 * k) % 256 == z % 256
  {
    QuotientUnique(z + 256 * k, 256, z / 256 + k, z % 256);
  }

  /** The first price loop never exceeds the number it ends with. */
  lemma {:induction false} DigitsOfPrefix(v: seq<Byte>, k: nat)
    requires k <= |v|
    ensures Digits(v[..k]) <= Digits(v)
    decreases |v|
  {
    if k == |v| {
      assert v[..k] == v;
    } else {
      var w := v[..|v| - 1];
      DigitsOfPrefix(w, k);
      assert w[..k] == v[..k];
    }
  }

  lemma {:induction false} SmallerPower(x: nat, j: nat, n: nat)
    requires j <= n
    ensures x * Pow10(j) <= x * Pow10(n)
  {
    if j == n {
    } else {
      SmallerPower(x, j, n - 1);
      TenTimes(x, Pow10(n - 1));
    }
  }

  lemma TenTimes(x: nat, p: nat)
    ensures x * p <= x * (10 * p)
  {
    assert x * (10 * p) == 10 * (x * p);
  }

  /**
   No intermediate value of the two price loops exceeds their result, so 64-bit arithmetic is exact
   whenever the result fits: neither the first loop after `k` bytes, nor the second after `j` zeroes.
   */
  lemma PriceLoopsStayBelowResult(v: seq<Byte>, k: nat, j: nat)
    requires k <= |v| && (j == 0 || Places(v) + j <= 4)
    ensures Digits(v[..k]) <= Ticks(v)
    ensures Digits(v) * Pow10(j) <= Ticks(v)
  {
    var n := if Places(v) < 4 then 4 - Places(v) else 0;
    DigitsOfPrefix(v, k);
    PowersOfTen();
    SmallerPower(Digits(v), 0, n);
    SmallerPower(Digits(v), j, n);
  }
}

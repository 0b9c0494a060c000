/** The FIX tag=value parser: a scanner over the bytes, against a description by fields. */
module FixMessage {
  import opened Bits

  type Byte = b: int | 0 <= b < 256

  const SOH: Byte := 1
  const POINT: Byte := 46   // '.'
  const ZERO: Byte := 48    // '0'
  const NINE: Byte := 57    // '9'
  const EQUALS: Byte := 61  // '='

  /** A FIX message; `msgType` is 0 while unknown. */
  datatype Message = Message(
    msgType: Byte, clOrdId: seq<Byte>, symbol: seq<Byte>, side: Byte, orderQty: nat, priceTicks: int,
    ordType: Byte, checksum: Byte, valid: bool)

  const EMPTY: Message := Message(0, [], [], 0, 0, 0, 0, 0, false)

  predicate IsDigit(c: Byte) { ZERO <= c <= NINE }

  function AsciiToDigit(c: Byte): Byte { if IsDigit(c) then c - ZERO else 255 }

  /** `char` is signed on the platforms the engine is built for. */
  function SignedChar(c: Byte): (r: int)
    ensures -128 <= r < 128 && r % 256 == c
  {
    if c < 128 then c else c - 256
  }

  // ----- What the values mean -----

  /** The number written by the digits among the bytes. */
  function Digits(v: seq<Byte>): nat {
    if v == [] then 0
    else
      var c := v[|v| - 1];
      if IsDigit(c) then Digits(v[..|v| - 1]) * 10 + (c - ZERO) else Digits(v[..|v| - 1])
  }

  /** How many digits follow the first point. */
  function Places(v: seq<Byte>): nat {
    if v == [] then 0
    else
      var w := v[..|v| - 1];
      Places(w) + (if POINT in w && IsDigit(v[|v| - 1]) then 1 else 0)
  }

  function Pow10(k: nat): (r: nat)
    ensures r > 0
  {
    if k == 0 then 1 else 10 * Pow10(k - 1)
  }

  /** The price in ticks: the digits, padded to four decimal places. */
  function Ticks(v: seq<Byte>): nat {
    Digits(v) * Pow10(if Places(v) < 4 then 4 - Places(v) else 0)
  }

  /** The quantity, in 32-bit arithmetic and without a check that the bytes are digits. */
  function Quantity(v: seq<Byte>): (q: nat)
    ensures q < TWO_32
  {
    if v == [] then 0 else (Quantity(v[..|v| - 1]) * 10 + SignedChar(v[|v| - 1]) - ZERO) % TWO_32
  }

  /** The first two digits of a checksum, in 8-bit arithmetic. */
  function TwoDigits(v: seq<Byte>): Byte
    requires |v| >= 2
  {
    (AsciiToDigit(v[0]) * 10 + AsciiToDigit(v[1])) % 256
  }

  /** The switch on the tag. */
  function Dispatch(m: Message, tag: nat, v: seq<Byte>): Message {
    if tag == 35 then if |v| == 1 then m.(msgType := v[0]) else m
    else if tag == 11 then m.(clOrdId := v)
    else if tag == 55 then m.(symbol := v)
    else if tag == 54 then if |v| > 0 then m.(side := (v[0] - ZERO) % 256) else m
    else if tag == 38 then m.(orderQty := Quantity(v))
    else if tag == 44 then m.(priceTicks := Ticks(v))
    else if tag == 40 then if |v| > 0 then m.(ordType := (v[0] - ZERO) % 256) else m
    else if tag == 10 then
      if |v| >= 2 then m.(checksum := TwoDigits(v)) else m
    else m
  }

  // ----- The message as a list of fields -----

  /** Where the first field ends. */
  function FieldEnd(buf: seq<Byte>): (k: nat)
    ensures k <= |buf| && SOH !in buf[..k] && (k < |buf| ==> buf[k] == SOH)
  {
    if buf == [] || buf[0] == SOH then 0
    else
      var k := 1 + FieldEnd(buf[1..]);
      assert buf[..k] == [buf[0]] + buf[1..][..k - 1];
      k
  }

  /** The buffer split on SOH, with one trailing SOH allowed. */
  function Fields(buf: seq<Byte>): seq<seq<Byte>> {
    if buf == [] then []
    else
      var k := FieldEnd(buf);
      [buf[..k]] + (if k < |buf| then Fields(buf[k + 1..]) else [])
  }

  /** How many digits a field starts with. */
  function TagEnd(f: seq<Byte>): (k: nat)
    ensures k <= |f| && (forall i :: 0 <= i < k ==> IsDigit(f[i])) && (k < |f| ==> !IsDigit(f[k]))
  {
    if f == [] || !IsDigit(f[0]) then 0 else 1 + TagEnd(f[1..])
  }

  /** A field is digits, `=`, and anything. */
  predicate WellFormed(f: seq<Byte>) { TagEnd(f) < |f| && f[TagEnd(f)] == EQUALS }

  function Tag(f: seq<Byte>): nat { Digits(f[..TagEnd(f)]) % TWO_32 }

  function Value(f: seq<Byte>): seq<Byte>
    requires WellFormed(f)
  {
    f[TagEnd(f) + 1..]
  }

  /** Fields dispatched from left to right until one is malformed; the end of the list settles validity. */
  function ParseFields(fs: seq<seq<Byte>>, m: Message): Message {
    if fs == [] then m.(valid := m.msgType != 0)
    else if !WellFormed(fs[0]) then m
    else ParseFields(fs[1..], Dispatch(m, Tag(fs[0]), Value(fs[0])))
  }

  function Parsed(buf: seq<Byte>): Message {
    if buf == [] then EMPTY else ParseFields(Fields(buf), EMPTY)
  }

  // ----- The scanner -----

  lemma {:induction false} FieldEndUnique(buf: seq<Byte>, k: nat)
    requires k <= |buf| && SOH !in buf[..k] && (k < |buf| ==> buf[k] == SOH)
    ensures FieldEnd(buf) == k
    decreases k
  {
    if k == 0 {
    } else {
      assert buf[..k] == [buf[0]] + buf[1..][..k - 1];
      FieldEndUnique(buf[1..], k - 1);
    }
  }

  lemma {:induction false} TagEndUnique(f: seq<Byte>, k: nat)
    requires k <= |f| && (forall i :: 0 <= i < k ==> IsDigit(f[i])) && (k < |f| ==> !IsDigit(f[k]))
    ensures TagEnd(f) == k
    decreases k
  {
    if k == 0 {
    } else {
      TagEndUnique(f[1..], k - 1);
    }
  }

  /** The tag loop. */
  method ScanTag(buf: seq<Byte>, start: nat) returns (tag: nat, pos: nat)
    requires start <= |buf|
    ensures start <= pos <= |buf| && tag == Digits(buf[start..pos]) % TWO_32
    ensures (forall i :: start <= i < pos ==> IsDigit(buf[i])) && (pos < |buf| ==> !IsDigit(buf[pos]))
  {
    tag, pos := 0, start;
    while pos < |buf| && IsDigit(buf[pos])
      invariant start <= pos <= |buf| && tag == Digits(buf[start..pos]) % TWO_32
      invariant forall i :: start <= i < pos ==> IsDigit(buf[i])
    {
      assert buf[start..pos + 1][..pos - start] == buf[start..pos];
      AppendDigit(Digits(buf[start..pos]), tag, AsciiToDigit(buf[pos]));
      tag := (tag * 10 + AsciiToDigit(buf[pos])) % TWO_32;
      pos := pos + 1;
    }
  }

  lemma AppendDigit(whole: nat, tag: nat, d: nat)
    requires tag == whole % TWO_32
    ensures (tag * 10 + d) % TWO_32 == (whole * 10 + d) % TWO_32
  {
    var low := tag * 10 + d;
    QuotientUnique(whole * 10 + d, TWO_32, whole / TWO_32 * 10 + low / TWO_32, low % TWO_32);
  }

  /** The value loop. */
  method ScanValue(buf: seq<Byte>, start: nat) returns (pos: nat)
    requires start <= |buf|
    ensures start <= pos <= |buf| && SOH !in buf[start..pos] && (pos < |buf| ==> buf[pos] == SOH)
  {
    pos := start;
    while pos < |buf| && buf[pos] != SOH
      invariant start <= pos <= |buf| && SOH !in buf[start..pos]
    {
      pos := pos + 1;
    }
  }

  /** The quantity loop. */
  method ConvertQuantity(v: seq<Byte>) returns (q: nat)
    ensures q == Quantity(v)
  {
    q := 0;
    for i := 0 to |v|
      invariant q == Quantity(v[..i])
    {
      assert v[..i + 1][..i] == v[..i];
      q := (q * 10 + SignedChar(v[i]) - ZERO) % TWO_32;
    }
    assert v[..|v|] == v;
  }

  lemma ShiftPlace(ticks: nat, k: nat)
    requires k > 0
    ensures ticks * Pow10(k) == (ticks * 10) * Pow10(k - 1)
  {
  }

  /** The second price loop: zeroes for the decimal places that were not written. */
  method PadPlaces(ticks: nat, places: nat) returns (r: nat)
    ensures r == ticks * Pow10(if places < 4 then 4 - places else 0)
  {
    hide Pow10;
    var p := places;
    r := ticks;
    while p < 4
      invariant ticks * Pow10(if places < 4 then 4 - places else 0) == r * Pow10(if p < 4 then 4 - p else 0)
      decreases 4 - p
    {
      ShiftPlace(r, 4 - p);
      r := r * 10;
      p := p + 1;
    }
    NoPlaces();
  }

  lemma NoPlaces()
    ensures Pow10(0) == 1
  {
  }

  /** The two price loops. */
  method ConvertPrice(v: seq<Byte>) returns (ticks: nat)
    ensures ticks == Ticks(v)
  {
    var places, inDecimal := 0, false;
    ticks := 0;
    for i := 0 to |v|
      invariant ticks == Digits(v[..i]) && places == Places(v[..i]) && inDecimal == (POINT in v[..i])
    {
      assert v[..i + 1][..i] == v[..i];
      if v[i] == POINT {
        inDecimal := true;
      } else if IsDigit(v[i]) {
        ticks := ticks * 10 + (v[i] - ZERO);
        if inDecimal { places := places + 1; }
      }
    }
    assert v[..|v|] == v;
    ticks := PadPlaces(ticks, places);
  }

  /** One scanned piece of the buffer is its first field, and what follows its SOH holds the other fields. */
  lemma ScannedField(buf: seq<Byte>, start: nat, eq: nat, end: nat)
    requires start <= eq < end <= |buf| && buf[eq] == EQUALS
    requires forall i :: start <= i < eq ==> IsDigit(buf[i])
    requires SOH !in buf[eq + 1..end] && (end < |buf| ==> buf[end] == SOH)
    ensures WellFormed(buf[start..end]) && TagEnd(buf[start..end]) == eq - start
    ensures Fields(buf[start..]) == [buf[start..end]] + After(buf, end)
  {
    hide TagEnd, FieldEnd, Digits, Fields;
    TagEndUnique(buf[start..end], eq - start);
    NoSohBefore(buf, start, eq, end);
    FirstOfRest(buf, start, end);
  }

  lemma NoSohBefore(buf: seq<Byte>, start: nat, eq: nat, end: nat)
    requires start <= eq < end <= |buf| && buf[eq] == EQUALS
    requires (forall i :: start <= i < eq ==> IsDigit(buf[i])) && SOH !in buf[eq + 1..end]
    ensures SOH !in buf[start..end]
  {
    assert buf[start..end] == buf[start..eq] + [buf[eq]] + buf[eq + 1..end];
  }

  lemma FirstOfRest(buf: seq<Byte>, start: nat, end: nat)
    requires start < end <= |buf| && SOH !in buf[start..end] && (end < |buf| ==> buf[end] == SOH)
    ensures Fields(buf[start..]) == [buf[start..end]] + After(buf, end)
  {
    hide FieldEnd;
    var rest := buf[start..];
    assert rest[..end - start] == buf[start..end];
    FieldEndUnique(rest, end - start);
    assert end < |buf| ==> rest[end - start + 1..] == buf[end + 1..];
  }

  lemma ParseFirst(f: seq<Byte>, fs: seq<seq<Byte>>, m: Message)
    requires WellFormed(f)
    ensures ParseFields([f] + fs, m) == ParseFields(fs, Dispatch(m, Tag(f), Value(f)))
  {
    assert ([f] + fs)[1..] == fs;
  }

  /** The fields that follow a field ending at `end`. */
  function After(buf: seq<Byte>, end: nat): seq<seq<Byte>>
    requires end <= |buf|
  {
    if end < |buf| then Fields(buf[end + 1..]) else []
  }

  lemma ScannedStep(buf: seq<Byte>, start: nat, eq: nat, end: nat, m: Message)
    requires start <= eq < end <= |buf| && buf[eq] == EQUALS
    requires forall i :: start <= i < eq ==> IsDigit(buf[i])
    requires SOH !in buf[eq + 1..end] && (end < |buf| ==> buf[end] == SOH)
    ensures ParseFields(Fields(buf[start..]), m) ==
            ParseFields(After(buf, end), Dispatch(m, Digits(buf[start..eq]) % TWO_32, buf[eq + 1..end]))
  {
    hide Fields, Digits, ParseFields;
    ScannedField(buf, start, eq, end);
    var f := buf[start..end];
    assert f[..eq - start] == buf[start..eq] && Value(f) == buf[eq + 1..end];
    ParseFirst(f, After(buf, end), m);
  }

  /** A piece that is not digits and `=` is a malformed first field. */
  lemma ScannedNonField(buf: seq<Byte>, start: nat, pos: nat)
    requires start <= pos <= |buf| && start < |buf|
    requires forall i :: start <= i < pos ==> IsDigit(buf[i])
    requires (pos < |buf| ==> !IsDigit(buf[pos]) && buf[pos] != EQUALS)
    ensures Fields(buf[start..]) != [] && !WellFormed(Fields(buf[start..])[0])
  {
    var rest := buf[start..];
    var k := FieldEnd(rest);
    var f := rest[..k];
    assert forall i :: 0 <= i < pos - start ==> rest[i] != SOH;
    TagEndUnique(f, pos - start);
  }

  /** The dispatch, with its two conversions done by their loops. */
  method Assign(m: Message, tag: nat, v: seq<Byte>) returns (m': Message)
    ensures m' == Dispatch(m, tag, v)
  {
    if tag == 38 {
      var q := ConvertQuantity(v);
      return m.(orderQty := q);
    }
    if tag == 44 {
      var t := ConvertPrice(v);
      return m.(priceTicks := t);
    }
    return Dispatch(m, tag, v);
  }

  lemma NoFields()
    ensures Fields([]) == []
  {
  }

  /** One turn of the field loop: a malformed field ends it, a good one is dispatched. */
  method ParseField(buf: seq<Byte>, start: nat, m: Message) returns (ok: bool, pos: nat, m': Message)
    requires start < |buf|
    ensures !ok ==> m' == m == ParseFields(Fields(buf[start..]), m)
    ensures ok ==> start < pos <= |buf| && ParseFields(Fields(buf[start..]), m) == ParseFields(After(buf, pos), m')
  {
    hide Fields, Digits, Dispatch;
    m' := m;
    var tag;
    tag, pos := ScanTag(buf, start);
    if pos >= |buf| || buf[pos] != EQUALS {
      ScannedNonField(buf, start, pos);
      return false, pos, m;
    }
    pos := pos + 1;
    var from := pos;
    pos := ScanValue(buf, pos);
    ScannedStep(buf, start, from - 1, pos, m);
    m' := Assign(m, tag, buf[from..pos]);
    ok := true;
  }

  /** `parse`: its result is that of dispatching the fields in order. */
  method Parse(buf: seq<Byte>) returns (msg: Message)
    ensures msg == Parsed(buf)
  {
    hide Fields;
    msg := EMPTY;
    if buf == [] {
      return;
    }
    var pos := 0;
    assert buf[0..] == buf;
    while pos < |buf|
      invariant pos <= |buf|
      invariant Parsed(buf) == ParseFields(Fields(buf[pos..]), msg)
    {
      var ok;
      ok, pos, msg := ParseField(buf, pos, msg);
      if !ok {
        return;
      }
      if pos >= |buf| {
        break;
      }
      pos := pos + 1;
    }
    assert buf[pos..] == [];
    NoFields();
    msg := msg.(valid := msg.msgType != 0);
  }
}

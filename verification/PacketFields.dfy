/**
 Numbers in base 253 and the typed fields of a packet: PacketProcessor::Number and
 ENumber, PacketBuilder and PacketReader of src/packet.cpp.
 */
module PacketFields {
  import opened Bytes
  import opened Common

  const MAX1 := 253
  const MAX2 := 64009
  const MAX3 := 16194277
  const MAX4 := 4097152081  // 253^4, which the source does not name
  const UINT := 0x1_0000_0000
  const ABSENT: Byte := 254
  const BREAK: Byte := 255
  const LETTER_Y: Byte := 121

  type UInt = n: int | 0 <= n < UINT
  type Int32 = n: int | -0x8000_0000 <= n < 0x8000_0000

  function Power(k: nat): (p: nat)
    requires k <= 4
    ensures p > 0
  {
    if k == 0 then 1 else if k == 1 then MAX1 else if k == 2 then MAX2 else if k == 3 then MAX3 else MAX4
  }

  // -- One number ----------------------------------------------------------------------

  /** Digit i of n in base 253, the top one without a bound. */
  function Digit(n: UInt, i: nat): nat
    requires i < 4
  {
    if i == 3 then n / MAX3 else n / Power(i) % MAX1
  }

  /** The four bytes of a number: digits count from 1, leading digits are absent. */
  function ENumberBytes(n: UInt): (s: seq<Byte>)
    ensures |s| == 4
  {
    seq(4, i requires 0 <= i < 4 =>
      if i == 0 || n >= Power(i) then (Digit(n, i) + 1) % 256 else ABSENT)
  }

  /** The bytes are those of the base 253: digits from 1 on, and 254 for a leading digit that is absent. */
  lemma NumberWritten(n: UInt)
    ensures var s := ENumberBytes(n);
      && s[0] == n % 253 + 1
      && s[1] == (if n < 253 then 254 else n / 253 % 253 + 1)
      && s[2] == (if n < 64009 then 254 else n / 64009 % 253 + 1)
      && s[3] == (if n < 16194277 then 254 else (n / 16194277 + 1) % 256)
  {
  }

  method ENumber(n: UInt) returns (bytes: seq<Byte>)
    ensures bytes == ENumberBytes(n)
  {
    bytes := [ABSENT, ABSENT, ABSENT, ABSENT];
    var number := n;
    if n >= MAX3 {
      bytes := bytes[3 := (number / MAX3 + 1) % 256];
      number := number % MAX3;
    }
    DigitBelow(n, number);
    if n >= MAX2 {
      bytes := bytes[2 := (number / MAX2 + 1) % 256];
      number := number % MAX2;
    }
    if n >= MAX1 {
      bytes := bytes[1 := (number / MAX1 + 1) % 256];
      number := number % MAX1;
    }
    bytes := bytes[0 := (number + 1) % 256];
  }

  lemma DigitBelow(n: UInt, r: nat)
    requires r == n % MAX3
    ensures r / MAX2 == Digit(n, 2)
    ensures r % MAX2 / MAX1 == Digit(n, 1)
    ensures r % MAX2 % MAX1 == Digit(n, 0)
  {
    var q := n / MAX3;
    assert n / MAX2 == MAX1 * q + r / MAX2;
    assert n / MAX1 == MAX1 * (MAX1 * q + r / MAX2) + r % MAX2 / MAX1;
  }

  function DigitOf(b: Byte): nat {
    if b == ABSENT then 0 else if b == 0 then 127 else b - 1
  }

  function Number(b1: Byte, b2: Byte, b3: Byte, b4: Byte): (n: UInt) {
    DigitOf(b4) * MAX3 + DigitOf(b3) * MAX2 + DigitOf(b2) * MAX1 + DigitOf(b1)
  }

  /** The first k bytes of a number, the others absent: what a k-byte field is read from. */
  function ReadDigits(s: seq<Byte>): (n: UInt)
    requires |s| <= 4
  {
    Number(if |s| > 0 then s[0] else ABSENT, if |s| > 1 then s[1] else ABSENT,
           if |s| > 2 then s[2] else ABSENT, if |s| > 3 then s[3] else ABSENT)
  }

  /** A byte is its digit and 1, 254 counts 0, and 0 is read as 128. */
  lemma NumberRead(b1: Byte, b2: Byte, b3: Byte, b4: Byte)
    ensures ReadDigits([b1, b2, b3, b4])
      == ReadDigits([b1]) + 253 * ReadDigits([b2]) + 64009 * ReadDigits([b3]) + 16194277 * ReadDigits([b4])
    ensures ReadDigits([b1]) == if b1 == 254 then 0 else if b1 == 0 then 127 else b1 - 1
  {
  }

  /** Fields of one to three bytes keep a number modulo a power of 253. */
  lemma ShortFieldKeeps(n: UInt, k: nat)
    requires 1 <= k <= 3
    ensures ReadDigits(ENumberBytes(n)[..k]) == n % Power(k)
  {
    DigitsRead(n, k);
    DigitsSum(n, k);
  }

  lemma SmallRemainder(n: nat, m: nat)
    requires n < m
    ensures n % m == n
  {
  }

  /** The lowest k digits make up the remainder. */
  lemma DigitsSum(n: UInt, k: nat)
    requires 1 <= k <= 3
    ensures n % Power(k) ==
      Digit(n, 0) + (if k > 1 then Digit(n, 1) * MAX1 else 0) + (if k > 2 then Digit(n, 2) * MAX2 else 0)
  {
    DigitBelow(n, n % MAX3);
    var q := n / MAX3;
    if k == 2 {
      assert n == (q * MAX1 + Digit(n, 2)) * MAX2 + (Digit(n, 1) * MAX1 + Digit(n, 0));
    } else if k == 3 {
      assert n == q * MAX3 + (Digit(n, 2) * MAX2 + Digit(n, 1) * MAX1 + Digit(n, 0));
    }
  }

  lemma DigitsRead(n: UInt, k: nat)
    requires 1 <= k <= 3
    ensures var d := ReadDigits(ENumberBytes(n)[..k]);
      d == Digit(n, 0) + (if k > 1 then Digit(n, 1) * MAX1 else 0) + (if k > 2 then Digit(n, 2) * MAX2 else 0)
  {
    var s := ENumberBytes(n);
    forall i | 0 <= i < 3 ensures DigitOf(s[i]) == Digit(n, i) {
      assert n < Power(i) ==> n / Power(i) == 0;
    }
  }

  /** The field of four bytes keeps n exactly up to 253^4, and where the top byte is 255. */
  lemma IntFieldKeepsExactly(n: UInt)
    ensures ReadDigits(ENumberBytes(n)) == n <==> n < MAX4 || n / MAX3 == 254
  {
    ShortFieldKeeps(n, 3);
    var s, q := ENumberBytes(n), n / MAX3;
    assert ReadDigits(s) == DigitOf(s[3]) * MAX3 + ReadDigits(s[..3]) by {
      assert s[..3] == [s[0], s[1], s[2]] && s == [s[0], s[1], s[2], s[3]];
    }
    TopDigit(n, q);
  }

  lemma TopDigit(n: UInt, q: nat)
    requires q == n / MAX3
    ensures DigitOf(ENumberBytes(n)[3]) == q <==> n < MAX4 || q == 254
  {
    assert q <= 265;
    assert n < MAX4 <==> q < 253;
    assert n < MAX3 <==> q < 1;
  }

  /** A break byte is written only for numbers whose top digit is 254. */
  lemma BreaklessExactly(n: UInt)
    ensures BREAK !in ENumberBytes(n) <==> n / MAX3 != 254
  {
    var s := ENumberBytes(n);
    assert n / MAX3 <= 265;
    assert s[3] == BREAK <==> n / MAX3 == 254;
    assert s[0] != BREAK && s[1] != BREAK && s[2] != BREAK;
    assert s == [s[0], s[1], s[2], s[3]];
  }

  // -- Fields --------------------------------------------------------------------------

  datatype Field =
    | ByteField(b: Byte)
    | CharField(n: Int32)
    | ShortField(n: Int32)
    | ThreeField(n: Int32)
    | IntField(n: Int32)
    | FixedField(s: seq<Byte>)
    | BreakField(s: seq<Byte>)

  datatype Value = Num(n: nat) | Str(s: seq<Byte>)

  /** static_cast<unsigned>. */
  function Unsigned(n: Int32): UInt {
    if n < 0 then n + UINT else n
  }

  /** A break string may not hold the break byte: it is written as the letter y. */
  function NoBreaks(s: seq<Byte>, br: Byte): (r: seq<Byte>)
    ensures |r| == |s|
  {
    seq(|s|, i requires 0 <= i < |s| => if s[i] == br then LETTER_Y else s[i])
  }

  function Written(f: Field): seq<Byte> {
    match f
    case ByteField(b) => [b]
    case CharField(n) => ENumberBytes(Unsigned(n))[..1]
    case ShortField(n) => ENumberBytes(Unsigned(n))[..2]
    case ThreeField(n) => ENumberBytes(Unsigned(n))[..3]
    case IntField(n) => ENumberBytes(Unsigned(n))
    case FixedField(s) => s
    case BreakField(s) => NoBreaks(s, BREAK) + [BREAK]
  }

  /** What the reader gets for a field. */
  function Expected(f: Field): Value {
    match f
    case ByteField(b) => Num(b)
    case CharField(n) => Num(Unsigned(n) % MAX1)
    case ShortField(n) => Num(Unsigned(n) % MAX2)
    case ThreeField(n) => Num(Unsigned(n) % MAX3)
    case IntField(n) => Num(Unsigned(n))
    case FixedField(s) => Str(s)
    case BreakField(s) => Str(NoBreaks(s, BREAK))
  }

  /** The field AddVar picks: the narrowest that the bounds allow and that holds num. */
  function VarField(min: Int32, max: Int32, num: Int32): (f: Field)
    ensures 1 <= min <= max <= 4 && Unsigned(num) < Power(max) ==> Survives(f) && Expected(f) == Num(Unsigned(num))
  {
    var n := Unsigned(num);
    if min <= 1 && (max <= 1 || n < MAX1) then CharField(num)
    else if min <= 2 && (max <= 2 || n < MAX2) then ShortField(num)
    else if min <= 3 && (max <= 3 || n < MAX3) then ThreeField(num)
    else IntField(num)
  }

  /** Only the four-byte field can lose its value. */
  predicate Survives(f: Field) {
    f.IntField? ==> Unsigned(f.n) < MAX4 || Unsigned(f.n) / MAX3 == 254
  }

  function WrittenAll(fields: seq<Field>): seq<Byte> {
    if fields == [] then [] else WrittenAll(fields[..|fields| - 1]) + Written(fields[|fields| - 1])
  }

  // -- PacketBuilder -------------------------------------------------------------------

  class PacketBuilder {
    var id: nat
    var data: seq<Byte>
    var addSize: nat

    constructor (family: Byte, action: Byte)
      ensures data == [] && addSize == 0
      ensures id == if family == 0 && action == 0 then 0xFFFF else family + 256 * action
    {
      var pid := family + 256 * action;
      id := if pid == 0 then 0xFFFF else pid;
      data := [];
      addSize := 0;
    }

    method AddByte(b: Byte)
      modifies `data
      ensures data == old(data) + Written(ByteField(b))
    {
      data := data + [b];
    }

    method AddChar(num: Int32)
      modifies `data
      ensures data == old(data) + Written(CharField(num))
    {
      var bytes := ENumber(Unsigned(num));
      data := data + [bytes[0]];
      assert [bytes[0]] == bytes[..1];
    }

    method AddShort(num: Int32)
      modifies `data
      ensures data == old(data) + Written(ShortField(num))
    {
      var bytes := ENumber(Unsigned(num));
      data := data + bytes[..2];
    }

    method AddThree(num: Int32)
      modifies `data
      ensures data == old(data) + Written(ThreeField(num))
    {
      var bytes := ENumber(Unsigned(num));
      data := data + bytes[..3];
    }

    method AddInt(num: Int32)
      modifies `data
      ensures data == old(data) + Written(IntField(num))
    {
      var bytes := ENumber(Unsigned(num));
      data := data + bytes;
    }

    /** Picks the narrowest field the bounds allow; num is compared as an unsigned number. */
    method AddVar(min: Int32, max: Int32, num: Int32)
      modifies `data
      ensures data == old(data) + Written(VarField(min, max, num))
    {
      if min <= 1 && (max <= 1 || Unsigned(num) < MAX1) {
        AddChar(num);
      } else if min <= 2 && (max <= 2 || Unsigned(num) < MAX2) {
        AddShort(num);
      } else if min <= 3 && (max <= 3 || Unsigned(num) < MAX3) {
        AddThree(num);
      } else {
        AddInt(num);
      }
    }

    method AddString(s: seq<Byte>)
      modifies `data
      ensures data == old(data) + Written(FixedField(s))
    {
      data := data + s;
    }

    method AddBreakString(s: seq<Byte>, br: Byte)
      modifies `data
      ensures data == old(data) + NoBreaks(s, br) + [br]
    {
      var temp := s;
      var at := FindFrom(temp, br, 0);
      while at < |temp|
        invariant 0 <= at <= |temp| == |s| && data == old(data)
        invariant forall k :: 0 <= k < at ==> temp[k] == if s[k] == br then LETTER_Y else s[k]
        invariant forall k :: at <= k < |s| ==> temp[k] == s[k]
        invariant at < |s| ==> s[at] == br
        decreases |s| - at
      {
        temp := temp[at := LETTER_Y];
        at := FindFrom(temp, br, at + 1);
      }
      assert temp == NoBreaks(s, br);
      data := data + temp;
      data := data + [br];
    }

    method AddSize(size: nat)
      modifies `addSize
      ensures addSize == old(addSize) + size
    {
      addSize := addSize + size;
    }

    /** The packet: two length bytes, action, family, data. */
    method Get() returns (packet: seq<Byte>)
      requires id < 0x1_0000
      ensures packet == ENumberBytes((|data| + 2 + addSize) % UINT)[..2] + [id / 256, id % 256] + data
    {
      var length := ENumber((|data| + 2 + addSize) % UINT);
      packet := [length[0], length[1]] + [id / 256, id % 256] + data;
      assert [length[0], length[1]] == length[..2];
    }
  }

  /** The first place of c in s at or after from, or |s|. */
  method FindFrom(s: seq<Byte>, c: Byte, from: nat) returns (at: nat)
    requires from <= |s|
    ensures from <= at <= |s| && (at < |s| ==> s[at] == c)
    ensures c !in s[from..at]
  {
    at := from;
    while at < |s| && s[at] != c
      invariant from <= at <= |s| && c !in s[from..at]
    {
      assert s[from..at + 1] == s[from..at] + [s[at]];
      at := at + 1;
    }
  }

  // -- PacketReader --------------------------------------------------------------------

  class PacketReader {
    const data: seq<Byte>
    var pos: nat

    constructor (data: seq<Byte>)
      ensures this.data == data && pos == 2
    {
      this.data := data;
      pos := 2;
    }

    function Remaining(): nat
      requires pos <= |data|
      reads this
    {
      |data| - pos
    }

    method GetNumber(length: nat) returns (n: UInt)
      requires length <= 4 && pos <= |data|
      modifies this
      ensures n == ReadDigits(data[old(pos)..][..Min(length, |data| - old(pos))])
      ensures pos == old(pos) + length
    {
      var bytes := [ABSENT, ABSENT, ABSENT, ABSENT];
      var count := Min(length, Remaining());
      for i := 0 to count
        invariant |bytes| == 4 && pos == old(pos)
        invariant forall k :: 0 <= k < 4 ==> bytes[k] == if k < i then data[pos + k] else ABSENT
      {
        bytes := bytes[i := data[pos + i]];
      }
      pos := pos + length;
      n := Number(bytes[0], bytes[1], bytes[2], bytes[3]);
    }

    method GetByte() returns (b: Byte)
      requires pos <= |data|
      modifies this
      ensures if old(pos) < |data| then b == data[old(pos)] && pos == old(pos) + 1 else b == 0 && pos == old(pos)
    {
      if Remaining() < 1 {
        return 0;
      }
      b := data[pos];
      pos := pos + 1;
    }

    method GetFixedString(length: nat) returns (s: seq<Byte>)
      requires pos <= |data|
      modifies this
      ensures if length <= |data| - old(pos)
        then s == data[old(pos)..old(pos) + length] && pos == old(pos) + length
        else s == [] && pos == old(pos)
    {
      if Remaining() < length {
        return [];
      }
      s := data[pos..pos + length];
      pos := pos + |s|;
    }

    method GetBreakString(br: Byte) returns (s: seq<Byte>)
      requires pos <= |data| < 0x1_0000_0000_0000
      modifies this
      ensures br in data[old(pos)..] ==>
        old(pos) + |s| < |data| && data[old(pos)..old(pos) + |s| + 1] == s + [br] && br !in s
        && pos == old(pos) + |s| + 1
      ensures br !in data[old(pos)..] ==> s == [] && pos == old(pos) + 1
    {
      var at := FindFrom(data, br, pos);
      // a string without the break byte asks for more than there is
      var length := if at < |data| then at - pos else 0xFFFF_FFFF_FFFF_FFFF - pos;
      assert at < |data| ==> data[pos..][at - pos] == br;
      s := GetFixedString(length);
      pos := pos + 1;
    }

    method GetEndString() returns (s: seq<Byte>)
      requires pos <= |data|
      modifies this
      ensures s == data[old(pos)..] && pos == |data|
    {
      s := GetFixedString(Remaining());
    }
  }

  // -- Round trip ----------------------------------------------------------------------

  /** The source's adder for a field. */
  method AddField(builder: PacketBuilder, f: Field)
    modifies builder`data
    ensures builder.data == old(builder.data) + Written(f)
  {
    match f
    case ByteField(b) => builder.AddByte(b);
    case CharField(n) => builder.AddChar(n);
    case ShortField(n) => builder.AddShort(n);
    case ThreeField(n) => builder.AddThree(n);
    case IntField(n) => builder.AddInt(n);
    case FixedField(s) => builder.AddString(s);
    case BreakField(s) => builder.AddBreakString(s, BREAK);
  }

  /** The source's getter for a field of f's kind; it gives f back when f was written here. */
  method GetField(reader: PacketReader, f: Field, ghost rest: seq<Byte>) returns (v: Value)
    requires reader.pos <= |reader.data| < 0x1_0000_0000_0000
    requires reader.data[reader.pos..] == Written(f) + rest && Survives(f)
    modifies reader
    ensures v == Expected(f)
    ensures reader.pos <= |reader.data| && reader.data[reader.pos..] == rest
  {
    if f.FixedField? {
      v := GetFixedField(reader, f.s, rest);
    } else if f.BreakField? {
      v := GetBreakField(reader, NoBreaks(f.s, BREAK), rest);
    } else {
      v := GetNumberField(reader, f, rest);
    }
  }

  method GetNumberField(reader: PacketReader, f: Field, ghost rest: seq<Byte>) returns (v: Value)
    requires !f.FixedField? && !f.BreakField?
    requires reader.pos <= |reader.data| && reader.data[reader.pos..] == Written(f) + rest && Survives(f)
    modifies reader
    ensures v == Expected(f) && reader.pos <= |reader.data| && reader.data[reader.pos..] == rest
  {
    Behind(reader.data, reader.pos, Written(f), rest);
    var n: nat;
    match f {
      case ByteField(b) => n := reader.GetByte();
      case CharField(_) => n := GetDigits(reader, Unsigned(f.n), 1);
      case ShortField(_) => n := GetDigits(reader, Unsigned(f.n), 2);
      case ThreeField(_) => n := GetDigits(reader, Unsigned(f.n), 3);
      case IntField(_) =>
        IntFieldKeepsExactly(Unsigned(f.n));
        n := reader.GetNumber(4);
    }
    v := Num(n);
  }

  method GetFixedField(reader: PacketReader, s: seq<Byte>, ghost rest: seq<Byte>) returns (v: Value)
    requires reader.pos <= |reader.data| < 0x1_0000_0000_0000 && reader.data[reader.pos..] == s + rest
    modifies reader
    ensures v == Str(s) && reader.pos <= |reader.data| && reader.data[reader.pos..] == rest
  {
    Behind(reader.data, reader.pos, s, rest);
    var r := reader.GetFixedString(|s|);
    v := Str(r);
  }

  method GetBreakField(reader: PacketReader, ghost s: seq<Byte>, ghost rest: seq<Byte>) returns (v: Value)
    requires reader.pos <= |reader.data| < 0x1_0000_0000_0000
    requires reader.data[reader.pos..] == s + [BREAK] + rest && BREAK !in s
    modifies reader
    ensures v == Str(s) && reader.pos <= |reader.data| && reader.data[reader.pos..] == rest
  {
    ghost var before := reader.data[reader.pos..];
    Behind(reader.data, reader.pos, s + [BREAK], rest);
    BreakEnds(s, rest, BREAK);
    var r := reader.GetBreakString(BREAK);
    SameEnd(s, r, before, BREAK);
    v := Str(r);
  }

  /** What stands at pos, and what behind it. */
  lemma Behind(data: seq<Byte>, pos: nat, w: seq<Byte>, rest: seq<Byte>)
    requires pos <= |data| && data[pos..] == w + rest
    ensures pos + |w| <= |data| && data[pos..][..|w|] == w && data[pos + |w|..] == rest
  {
    assert data[pos..][|w|..] == data[pos + |w|..];
  }

  method GetDigits(reader: PacketReader, ghost n: UInt, k: nat) returns (r: UInt)
    requires 1 <= k <= 3 && reader.pos + k <= |reader.data|
    requires reader.data[reader.pos..][..k] == ENumberBytes(n)[..k]
    modifies reader
    ensures r == n % Power(k) && reader.pos == old(reader.pos) + k
  {
    ShortFieldKeeps(n, k);
    r := reader.GetNumber(k);
  }

  lemma BreakEnds(s: seq<Byte>, rest: seq<Byte>, br: Byte)
    ensures br in s + [br] + rest
  {
    assert (s + [br] + rest)[|s|] == br;
  }

  /** A break byte cannot stand inside a prefix without one. */
  lemma BreakNotInside(t: seq<Byte>, all: seq<Byte>, br: Byte, k: nat)
    requires br !in t && |t| < |all| && all[..|t| + 1] == t + [br]
    requires k < |all| && all[k] == br
    ensures k >= |t|
  {
    forall i | 0 <= i < |t| ensures all[i] == t[i] {
      assert all[i] == all[..|t| + 1][i];
    }
  }

  /** A prefix up to the first break byte is unique. */
  lemma SameEnd(s: seq<Byte>, t: seq<Byte>, all: seq<Byte>, br: Byte)
    requires br !in s && br !in t && |s| < |all| && |t| < |all|
    requires all[..|s| + 1] == s + [br] && all[..|t| + 1] == t + [br]
    ensures s == t
  {
    assert all[|s|] == all[..|s| + 1][|s|] && all[|t|] == all[..|t| + 1][|t|];
    BreakNotInside(s, all, br, |t|);
    BreakNotInside(t, all, br, |s|);
    assert s == all[..|s| + 1][..|s|];
  }

  method AddFields(builder: PacketBuilder, fields: seq<Field>)
    requires builder.data == []
    modifies builder
    ensures builder.data == WrittenAll(fields) && builder.id == old(builder.id)
  {
    for i := 0 to |fields|
      invariant builder.id == old(builder.id) && builder.data == WrittenAll(fields[..i])
    {
      AddField(builder, fields[i]);
      assert fields[..i + 1][..i] == fields[..i];
    }
    assert fields[..|fields|] == fields;
  }

  method GetFields(reader: PacketReader, fields: seq<Field>) returns (values: seq<Value>)
    requires reader.pos <= |reader.data| < 0x1_0000_0000_0000 && reader.data[reader.pos..] == WrittenRest(fields, 0)
    requires forall i :: 0 <= i < |fields| ==> Survives(fields[i])
    modifies reader
    ensures |values| == |fields| && forall i :: 0 <= i < |fields| ==> values[i] == Expected(fields[i])
  {
    values := [];
    for i := 0 to |fields|
      invariant |values| == i && forall k :: 0 <= k < i ==> values[k] == Expected(fields[k])
      invariant reader.pos <= |reader.data| && reader.data[reader.pos..] == WrittenRest(fields, i)
    {
      var v := GetField(reader, fields[i], WrittenRest(fields, i + 1));
      values := values + [v];
    }
  }

  /** Any list of fields written by the builder is read back in order. */
  method Transmit(fields: seq<Field>, family: Byte, action: Byte) returns (values: seq<Value>)
    requires forall i :: 0 <= i < |fields| ==> Survives(fields[i])
    requires |WrittenAll(fields)| < 0x1_0000_0000
    ensures |values| == |fields|
    ensures forall i :: 0 <= i < |fields| ==> values[i] == Expected(fields[i])
  {
    var builder := new PacketBuilder(family, action);
    AddFields(builder, fields);
    var packet := builder.Get();
    var reader := new PacketReader(packet[2..]);
    assert reader.data[2..] == WrittenAll(fields);
    WrittenRestAll(fields);
    values := GetFields(reader, fields);
  }

  ghost function WrittenRest(fields: seq<Field>, i: nat): seq<Byte>
    requires i <= |fields|
    decreases |fields| - i
  {
    if i == |fields| then [] else Written(fields[i]) + WrittenRest(fields, i + 1)
  }

  lemma {:induction false} WrittenRestFrom(fields: seq<Field>, i: nat)
    requires i <= |fields|
    ensures WrittenAll(fields) == WrittenAll(fields[..i]) + WrittenRest(fields, i)
    decreases |fields| - i
  {
    if i == |fields| {
      assert fields[..i] == fields;
    } else {
      WrittenRestFrom(fields, i + 1);
      assert fields[..i + 1][..i] == fields[..i];
      Regroup(WrittenAll(fields[..i]), Written(fields[i]), WrittenRest(fields, i + 1));
    }
  }

  lemma WrittenRestAll(fields: seq<Field>)
    ensures WrittenAll(fields) == WrittenRest(fields, 0)
  {
    WrittenRestFrom(fields, 0);
  }
}

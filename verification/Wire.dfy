/** Bytes, the fixed-width integers and the integer codecs of both languages.

    A `byte` is what travels.  C++ `char` and Java `byte` are signed, so a reader first
    sign-extends it (`Extend`).  Shifts and masks on 32-bit integers are written as
    arithmetic: `x >> k` is the floor of x / 2^k, and `x & (0xff << k)` is `Lane(x, 2^k)`. */
module Wire {
  datatype Option<+T> = None | Some(value: T) {
    predicate IsFailure() {
      None?
    }
    function PropagateFailure<U>(): Option<U>
      requires None?
    {
      None
    }
    function Extract(): T
      requires Some?
    {
      value
    }
  }

  lemma Associative<T>(a: seq<T>, b: seq<T>, c: seq<T>)
    ensures (a + b) + c == a + (b + c)
  {
  }

  newtype byte = x: int | 0 <= x < 0x100
  type int32 = x: int | -0x8000_0000 <= x < 0x8000_0000
  type int64 = x: int | -0x8000_0000_0000_0000 <= x < 0x8000_0000_0000_0000

  /** Narrowing to a 32-bit integer: reduction modulo 2^32 into the signed range. */
  function Int32(x: int): (r: int32)
    ensures -0x8000_0000 <= x < 0x8000_0000 ==> r == x
  {
    var n := x % 0x1_0000_0000;
    if n < 0x8000_0000 then n else n - 0x1_0000_0000
  }

  /** What does not fit wraps around. */
  lemma Int32Wraps(x: int)
    ensures (x - Int32(x)) % 0x1_0000_0000 == 0
  {
  }

  /** The value of a signed 8-bit `char` or `byte`. */
  function Extend(b: byte): int {
    if b < 0x80 then b as int else b as int - 0x100
  }

  /** x & (0xff * unit), for unit a power of 256. */
  function Lane(x: int, unit: int): int
    requires unit > 0
  {
    x / unit % 0x100 * unit
  }

  /** x & 0xff */
  function Low(x: int): byte {
    (x % 0x100) as byte
  }

  /** (byte) x in Java: the signed 8-bit integer that x narrows to, as the bits that travel. */
  function JavaByte(x: int): (b: byte)
    ensures b == Low(x)
  {
    var n := x % 0x100;
    var v := if n < 0x80 then n else n - 0x100;
    (if v < 0 then v + 0x100 else v) as byte
  }

  /** A masked, shifted, sign-extended byte is the byte itself in its lane. */
  lemma LaneOfByte(b: byte)
    ensures Lane(Extend(b), 1) == b as int
    ensures Lane(Extend(b) * 0x100, 0x100) == b as int * 0x100
    ensures Lane(Extend(b) * 0x1_0000, 0x1_0000) == b as int * 0x1_0000
    ensures Lane(Extend(b) * 0x100_0000, 0x100_0000) == b as int * 0x100_0000
  {
    var x := Extend(b);
    assert x * 0x100 / 0x100 == x && x * 0x1_0000 / 0x1_0000 == x && x * 0x100_0000 / 0x100_0000 == x;
    assert x % 0x100 == b as int;
  }

  /** Base-256 digits of any integer. */
  lemma Digits(v: int)
    ensures v / 0x1_0000 == v / 0x100 / 0x100
    ensures v / 0x100_0000 == v / 0x100 / 0x100 / 0x100
    ensures v == v / 0x100_0000 * 0x100_0000 + v / 0x1_0000 % 0x100 * 0x1_0000 + v / 0x100 % 0x100 * 0x100 + v % 0x100
  {
    var q1 := v / 0x100;
    var q2 := q1 / 0x100;
    assert v == q2 * 0x1_0000 + (q1 % 0x100 * 0x100 + v % 0x100);
    assert v / 0x1_0000 == q2;
    var q3 := q2 / 0x100;
    assert v == q3 * 0x100_0000 + (q2 % 0x100 * 0x1_0000 + q1 % 0x100 * 0x100 + v % 0x100);
    assert v / 0x100_0000 == q3;
  }

  /** The most significant byte of a 32-bit integer carries its sign. */
  lemma SignByte(value: int32)
    ensures Extend(Low(value / 0x100_0000)) == value / 0x100_0000
  {
  }

  lemma LowOfExtend(b: byte)
    ensures Low(Extend(b)) == b
  {
  }

  /** Digits put together are the digits taken apart. */
  lemma Assembled(h: int, b1: byte, b2: byte, b3: byte, v: int)
    requires v == h * 0x100_0000 + b1 as int * 0x1_0000 + b2 as int * 0x100 + b3 as int
    ensures [Low(v / 0x100_0000), Low(v / 0x1_0000), Low(v / 0x100), Low(v)] == [Low(h), b1, b2, b3]
  {
    assert v == 0x100 * (h * 0x1_0000 + b1 as int * 0x100 + b2 as int) + b3 as int;
    assert v / 0x100 == h * 0x1_0000 + b1 as int * 0x100 + b2 as int && v % 0x100 == b3 as int;
    var w := v / 0x100;
    assert w == 0x100 * (h * 0x100 + b1 as int) + b2 as int;
    assert w / 0x100 == h * 0x100 + b1 as int && w % 0x100 == b2 as int;
    Digits(v);
  }

  // ---- big endian: message fields ----

  /** SerializerMessage::IntToByte */
  function IntToByte(value: int32): (bytes: seq<byte>)
    ensures |bytes| == 4
  {
    [Low(value / 0x100_0000), Low(value / 0x1_0000), Low(value / 0x100), Low(value)]
  }

  /** SerializerMessage::ByteToInt on a whole message and a cursor. */
  function ByteToInt(message: seq<byte>, begin: nat): int32
    requires begin + 4 <= |message|
  {
    Extend(message[begin]) * 0x100_0000
    + Lane(Extend(message[begin + 1]) * 0x1_0000, 0x1_0000)
    + Lane(Extend(message[begin + 2]) * 0x100, 0x100)
    + Lane(Extend(message[begin + 3]), 1)
  }

  /** ConnectionUtil.intToByteList */
  function IntToByteList(number: int32): (list: seq<byte>)
    ensures list == IntToByte(number)
  {
    [JavaByte(number / 0x100_0000), JavaByte(number / 0x1_0000), JavaByte(number / 0x100), JavaByte(number)]
  }

  /** ConnectionUtil.byteListToInt: the four masked lanes are disjoint, so `|` adds them. */
  function ByteListToInt(list: seq<byte>): (r: int32)
    requires |list| >= 4
  {
    Int32(Lane(Extend(list[0]) * 0x100_0000, 0x100_0000)
          + Lane(Extend(list[1]) * 0x1_0000, 0x1_0000)
          + Lane(Extend(list[2]) * 0x100, 0x100)
          + Lane(Extend(list[3]), 1))
  }

  lemma BigValue(message: seq<byte>, begin: nat)
    requires begin + 4 <= |message|
    ensures ByteToInt(message, begin) == Extend(message[begin]) * 0x100_0000
      + message[begin + 1] as int * 0x1_0000 + message[begin + 2] as int * 0x100 + message[begin + 3] as int
  {
    LaneOfByte(message[begin + 1]);
    LaneOfByte(message[begin + 2]);
    LaneOfByte(message[begin + 3]);
  }

  /** The server's reader inverts the server's writer on every 32-bit integer ... */
  lemma BigRoundTrip(value: int32, message: seq<byte>, begin: nat)
    requires begin + 4 <= |message| && message[begin..begin + 4] == IntToByte(value)
    ensures ByteToInt(message, begin) == value
  {
    BigValue(message, begin);
    var value' := ByteToInt(message, begin);
    assert value' == value by {
      var field := message[begin..begin + 4];
      assert field[0] == message[begin] && field[1] == message[begin + 1];
      assert field[2] == message[begin + 2] && field[3] == message[begin + 3];
      SignByte(value);
      Digits(value);
    }
  }

  /** ... and its writer inverts its reader on every four bytes. */
  lemma BigSurjective(message: seq<byte>, begin: nat)
    requires begin + 4 <= |message|
    ensures IntToByte(ByteToInt(message, begin)) == message[begin..begin + 4]
  {
    BigValue(message, begin);
    LowOfExtend(message[begin]);
    Assembled(Extend(message[begin]), message[begin + 1], message[begin + 2], message[begin + 3], ByteToInt(message,
      begin));
  }

  /** Both languages read the same integer from the same four bytes. */
  lemma BigAgree(list: seq<byte>)
    requires |list| >= 4
    ensures ByteListToInt(list) == ByteToInt(list, 0)
  {
    BigValue(list, 0);
    LaneOfByte(list[0]);
    LaneOfByte(list[1]);
    LaneOfByte(list[2]);
    LaneOfByte(list[3]);
  }

  // ---- little endian: frame headers and the sensor protocol ----

  /** BytesParser::toBytes<int32_t>: the memory of a little-endian host, which holds the base-256
      digits of the integer modulo 2^32. */
  function ToBytes32(value: int32): (bytes: seq<byte>)
    ensures |bytes| == 4
  {
    var image := value % 0x1_0000_0000;
    [Low(image), Low(image / 0x100), Low(image / 0x1_0000), Low(image / 0x100_0000)]
  }

  lemma LowIgnores(x: int, n: int)
    ensures Low(x + 0x100 * n) == Low(x)
  {
  }

  lemma ShiftedImage(value: int)
    ensures (value + 0x1_0000_0000) / 0x100 == value / 0x100 + 0x100 * 0x1_0000
    ensures (value + 0x1_0000_0000) / 0x1_0000 == value / 0x1_0000 + 0x100 * 0x100
    ensures (value + 0x1_0000_0000) / 0x100_0000 == value / 0x100_0000 + 0x100
  {
  }

  /** Those are the low bytes of the shifted integer. */
  lemma ShiftedLows(value: int32)
    ensures ToBytes32(value) == [Low(value), Low(value / 0x100), Low(value / 0x1_0000), Low(value / 0x100_0000)]
  {
    hide Low;
    if value < 0 {
      assert value % 0x1_0000_0000 == value + 0x1_0000_0000;
      ShiftedImage(value);
      LowIgnores(value, 0x100_0000);
      LowIgnores(value / 0x100, 0x1_0000);
      LowIgnores(value / 0x1_0000, 0x100);
      LowIgnores(value / 0x100_0000, 1);
    } else {
      assert value % 0x1_0000_0000 == value;
    }
  }

  /** BytesParser::parse<int32_t> */
  function Parse32(bytes: seq<byte>, offset: nat): int32
    requires offset + 4 <= |bytes|
  {
    Int32(bytes[offset] as int + bytes[offset + 1] as int * 0x100
          + bytes[offset + 2] as int * 0x1_0000 + bytes[offset + 3] as int * 0x100_0000)
  }

  /** ConnectionUtil.intToByteListLittleEndian */
  function IntToByteListLittleEndian(number: int32): (list: seq<byte>)
    ensures list == ToBytes32(number)
  {
    ShiftedLows(number);
    [JavaByte(number / 1), JavaByte(number / 0x100), JavaByte(number / 0x1_0000), JavaByte(number / 0x100_0000)]
  }

  /** ConnectionUtil.byteListToIntLittleEndian */
  function ByteListToIntLittleEndian(list: seq<byte>): (r: int32)
    requires |list| >= 4
  {
    Int32(Lane(Extend(list[0]), 1)
          + Lane(Extend(list[1]) * 0x100, 0x100)
          + Lane(Extend(list[2]) * 0x1_0000, 0x1_0000)
          + Lane(Extend(list[3]) * 0x100_0000, 0x100_0000))
  }

  lemma LittleValue(bytes: seq<byte>, offset: nat)
    requires offset + 4 <= |bytes|
    ensures Parse32(bytes, offset) == Extend(bytes[offset + 3]) * 0x100_0000
      + bytes[offset + 2] as int * 0x1_0000 + bytes[offset + 1] as int * 0x100 + bytes[offset] as int
  {
  }

  /** An integer is its sign-carrying top byte and three lower ones. */
  lemma FromLows(value: int32)
    ensures value == Extend(Low(value / 0x100_0000)) * 0x100_0000
      + Low(value / 0x1_0000) as int * 0x1_0000 + Low(value / 0x100) as int * 0x100 + Low(value) as int
  {
    Digits(value);
    SignByte(value);
  }

  /** parse<int32_t> inverts toBytes<int32_t> ... */
  lemma LittleRoundTrip(value: int32, bytes: seq<byte>, offset: nat)
    requires offset + 4 <= |bytes| && bytes[offset..offset + 4] == ToBytes32(value)
    ensures Parse32(bytes, offset) == value
  {
    hide ToBytes32, Parse32, Extend, Low;
    var field := bytes[offset..offset + 4];
    assert bytes[offset] == field[0] && bytes[offset + 1] == field[1];
    assert bytes[offset + 2] == field[2] && bytes[offset + 3] == field[3];
    ShiftedLows(value);
    LittleValue(bytes, offset);
    FromLows(value);
  }

  /** ... and toBytes<int32_t> inverts parse<int32_t>. */
  lemma LittleSurjective(bytes: seq<byte>, offset: nat)
    requires offset + 4 <= |bytes|
    ensures ToBytes32(Parse32(bytes, offset)) == bytes[offset..offset + 4]
  {
    hide ToBytes32, Parse32;
    ShiftedLows(Parse32(bytes, offset));
    LittleValue(bytes, offset);
    LowOfExtend(bytes[offset + 3]);
    Assembled(Extend(bytes[offset + 3]), bytes[offset + 2], bytes[offset + 1], bytes[offset], Parse32(bytes, offset));
  }

  lemma LittleAgree(list: seq<byte>)
    requires |list| >= 4
    ensures ByteListToIntLittleEndian(list) == Parse32(list, 0)
  {
    LaneOfByte(list[0]);
    LaneOfByte(list[1]);
    LaneOfByte(list[2]);
    LaneOfByte(list[3]);
  }
}

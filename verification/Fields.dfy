/** The size-prefixed fields and lists that administrator and monitoring messages are made of:
    written by the C++ server, read by the Java clients.  A C++ string is the sequence of its
    bytes; a Java string is a sequence of characters. */
module Fields {
  import opened Wire

  /** A field whose size fits the int that counts it. */
  predicate Fits(payload: seq<byte>) {
    |payload| < 0x8000_0000
  }

  // ---- the server writes ----

  function Sized(payload: seq<byte>): seq<byte> {
    IntToByte(Int32(|payload|)) + payload
  }

  /** SerializerMessage::constructIntMessageWithSize */
  function ConstructIntMessageWithSize(value: int32): (bytes: seq<byte>)
    ensures bytes == Sized(IntToByte(value))
  {
    IntToByte(4) + IntToByte(value)
  }

  /** SerializerMessage::constructBoolMessageWithSize */
  function ConstructBoolMessageWithSize(value: bool): (bytes: seq<byte>)
    ensures bytes == Sized(BoolToByte(value))
  {
    IntToByte(1) + BoolToByte(value)
  }

  function BoolToByte(value: bool): seq<byte> {
    [if value then 1 else 0]
  }

  /** SerializerMessage::StringToByte */
  method StringToByte(value: seq<byte>) returns (bytes: seq<byte>)
    ensures bytes == value
  {
    bytes := [];
    for i := 0 to |value|
      invariant bytes == value[..i]
    {
      bytes := bytes + [value[i]];
    }
  }

  function EncodeElements<T>(encode: T -> seq<byte>, xs: seq<T>): seq<byte> {
    if xs == [] then [] else Sized(encode(xs[0])) + EncodeElements(encode, xs[1..])
  }

  function EncodeList<T>(encode: T -> seq<byte>, xs: seq<T>): seq<byte> {
    IntToByte(Int32(|xs|)) + EncodeElements(encode, xs)
  }

  lemma {:induction false} EncodeOneMore<T>(encode: T -> seq<byte>, xs: seq<T>, x: T)
    ensures EncodeElements(encode, xs + [x]) == EncodeElements(encode, xs) + Sized(encode(x))
  {
    if xs == [] {
      assert [x][1..] == [];
      assert xs + [x] == [x];
      assert [] + Sized(encode(x)) == Sized(encode(x)) == Sized(encode(x)) + [];
    } else {
      hide Sized;
      EncodeOneMore(encode, xs[1..], x);
      assert (xs + [x])[1..] == xs[1..] + [x];
      Associative(Sized(encode(xs[0])), EncodeElements(encode, xs[1..]), Sized(encode(x)));
    }
  }

  /** The three list writers of the server: a count, then each element after its size. */
  method ConstructListMessage<T>(encode: T -> seq<byte>, xs: seq<T>) returns (message: seq<byte>)
    ensures message == EncodeList(encode, xs)
  {
    hide Sized, Int32, IntToByte;
    ghost var count := IntToByte(Int32(|xs|));
    message := IntToByte(Int32(|xs|));
    assert message == count + EncodeElements(encode, xs[..0]);
    for i := 0 to |xs|
      invariant message == count + EncodeElements(encode, xs[..i])
    {
      var element := encode(xs[i]);
      EncodeOneMore(encode, xs[..i], xs[i]);
      assert xs[..i + 1] == xs[..i] + [xs[i]];
      Associative(count, EncodeElements(encode, xs[..i]), Sized(element));
      message := message + Sized(element);
    }
    assert xs[..|xs|] == xs;
  }

  // ---- the Java clients read ----
  // A cursor into a message is the part of the message that it has not passed.  None is the
  // exception that subList or get throws when the message is too short.

  function TakeInt(m: seq<byte>): Option<(int32, seq<byte>)> {
    if |m| < 4 then None else Some((ByteListToInt(m[..4]), m[4..]))
  }

  function TakeField(m: seq<byte>): Option<(seq<byte>, seq<byte>)> {
    var (size, rest) :- TakeInt(m);
    if 0 <= size <= |rest| then Some((rest[..size], rest[size..])) else None
  }

  function TakeIntField(m: seq<byte>): Option<(int32, seq<byte>)> {
    var (payload, rest) :- TakeField(m);
    if |payload| < 4 then None else Some((ByteListToInt(payload), rest))
  }

  function TakeStringField(m: seq<byte>): Option<(string, seq<byte>)> {
    var (payload, rest) :- TakeField(m);
    Some((JavaText(payload), rest))
  }

  /** byteListToBoolean looks at the first byte. */
  function TakeBoolField(m: seq<byte>): Option<(bool, seq<byte>)> {
    var (payload, rest) :- TakeField(m);
    if |payload| < 1 then None else Some((payload[0] != 0, rest))
  }

  /** (char) of a Java byte: the sign is extended into all 16 bits. */
  function JavaChar(b: byte): char {
    (Extend(b) % 0x1_0000) as char
  }

  function JavaText(bytes: seq<byte>): (s: string)
    ensures |s| == |bytes|
  {
    seq(|bytes|, i requires 0 <= i < |bytes| => JavaChar(bytes[i]))
  }

  /** The text that the server meant: one character per byte. */
  function Meant(bytes: seq<byte>): string {
    seq(|bytes|, i requires 0 <= i < |bytes| => (bytes[i] as int) as char)
  }

  predicate SevenBit(bytes: seq<byte>) {
    forall b <- bytes :: b < 0x80
  }

  /** A Java client shows the server's text exactly when the text is 7-bit. */
  lemma TextIff(bytes: seq<byte>)
    ensures JavaText(bytes) == Meant(bytes) <==> SevenBit(bytes)
  {
    forall i | 0 <= i < |bytes|
      ensures JavaText(bytes)[i] == Meant(bytes)[i] <==> bytes[i] < 0x80
    {
      assert Extend(bytes[i]) % 0x1_0000 == bytes[i] as int <==> bytes[i] < 0x80;
    }
    if SevenBit(bytes) {
      assert forall i :: 0 <= i < |bytes| ==> bytes[i] in bytes;
    }
  }

  /** The byte 0x80 comes out as a character far from the one it was written for. */
  lemma HighByteIsShownWrong()
    ensures JavaText([0x80]) == [0xFF80 as char] && Meant([0x80]) == [0x80 as char]
  {
  }

  /** So does every high byte: its sign fills the character. */
  lemma HighByteIsShown(b: byte)
    requires b >= 0x80
    ensures JavaText([b]) == [(0xFF00 + b as int) as char]
  {
  }

  /** ConnectionUtil.byteListToString */
  method ByteListToString(byteList: seq<byte>) returns (s: string)
    ensures s == JavaText(byteList)
  {
    s := "";
    for i := 0 to |byteList|
      invariant s == JavaText(byteList[..i])
    {
      s := s + [JavaChar(byteList[i])];
    }
    assert byteList[..|byteList|] == byteList;
  }

  function TakeElements<U>(decode: seq<byte> -> Option<U>, m: seq<byte>, n: nat): Option<(seq<U>, seq<byte>)> {
    if n == 0 then
      Some(([], m))
    else
      var (payload, rest) :- TakeField(m);
      var x :- decode(payload);
      var (xs, end) :- TakeElements(decode, rest, n - 1);
      Some(([x] + xs, end))
  }

  /** The elements of a list and where the cursor ends. */
  function TakeList<U>(decode: seq<byte> -> Option<U>, m: seq<byte>): Option<(seq<U>, seq<byte>)> {
    var (quantity, rest) :- TakeInt(m);
    TakeElements(decode, rest, if quantity < 0 then 0 else quantity)
  }

  /** A field at an index of a message. */
  function FieldAt(message: seq<byte>, begin: nat): (f: Option<(nat, nat)>)
    ensures f != None ==> f.value.0 <= f.value.1 <= |message|
  {
    if begin + 4 > |message| then
      None
    else
      var length := ByteListToInt(message[begin..begin + 4]);
      if 0 <= length <= |message| - begin - 4 then Some((begin + 4, begin + 4 + length)) else None
  }

  lemma TakeIsFieldAt(message: seq<byte>, begin: nat)
    requires begin <= |message|
    ensures var f := FieldAt(message, begin);
      TakeField(message[begin..]) ==
      if f == None then None else Some((message[f.value.0..f.value.1], message[f.value.1..]))
  {
    hide ByteListToInt;
    var m := message[begin..];
    if |m| >= 4 {
      assert m[..4] == message[begin..begin + 4];
      var length := ByteListToInt(m[..4]);
      if 0 <= length <= |m| - 4 {
        assert m[4..][..length] == message[begin + 4..begin + 4 + length];
        assert m[4..][length..] == message[begin + 4 + length..];
      }
    }
  }

  /** The list readers of the Java clients: a cursor moves over size and element, `quantity`
      times; `end` is the final cursor. */
  method ConstructList<U>(decode: seq<byte> -> Option<U>, message: seq<byte>)
    returns (list: Option<seq<U>>, end: nat)
    ensures list == None <==> TakeList(decode, message) == None
    ensures list != None ==> end <= |message| && TakeList(decode, message) == Some((list.value, message[end..]))
  {
    hide ByteListToInt, TakeField, FieldAt;
    var xs := [];
    end := 0;
    if |message| < 4 {
      return None, end;
    }
    var quantity := ByteListToInt(message[..4]);
    end := 4;
    ghost var n: nat := if quantity < 0 then 0 else quantity;
    ghost var all := TakeElements(decode, message[4..], n);
    assert all != None ==> [] + all.value.0 == all.value.0;
    var i := 0;
    while i < quantity
      invariant 0 <= i <= n && end <= |message|
      invariant var tail := TakeElements(decode, message[end..], n - i);
        all == if tail == None then None else Some((xs + tail.value.0, tail.value.1))
    {
      TakeIsFieldAt(message, end);
      var field := FieldAt(message, end);
      if field == None {
        return None, end;
      }
      var x := decode(message[field.value.0..field.value.1]);
      if x == None {
        return None, end;
      }
      end := field.value.1;
      ghost var tail := TakeElements(decode, message[end..], n - i - 1);
      if tail != None {
        Associative(xs, [x.value], tail.value.0);
      }
      xs := xs + [x.value];
      i := i + 1;
    }
    assert xs + [] == xs;
    list := Some(xs);
  }

  // ---- reading inverts writing ----

  lemma TakeOfInt(value: int32, tail: seq<byte>)
    ensures TakeInt(IntToByte(value) + tail) == Some((value, tail))
  {
    hide IntToByte, ByteListToInt, ByteToInt;
    var m := IntToByte(value) + tail;
    assert m[..4] == IntToByte(value) && m[..4][0..4] == m[..4] && m[4..] == tail;
    BigAgree(m[..4]);
    BigRoundTrip(value, m[..4], 0);
  }

  lemma TakeOfSized(payload: seq<byte>, tail: seq<byte>)
    requires Fits(payload)
    ensures TakeField(Sized(payload) + tail) == Some((payload, tail))
  {
    hide IntToByte, TakeInt;
    Associative(IntToByte(|payload|), payload, tail);
    TakeOfInt(|payload|, payload + tail);
    assert (payload + tail)[..|payload|] == payload && (payload + tail)[|payload|..] == tail;
  }

  lemma TakeOfIntField(value: int32, tail: seq<byte>)
    ensures TakeIntField(ConstructIntMessageWithSize(value) + tail) == Some((value, tail))
  {
    hide IntToByte, TakeField, Sized, ByteListToInt;
    TakeOfSized(IntToByte(value), tail);
    TakeOfInt(value, []);
    assert IntToByte(value) + [] == IntToByte(value) == IntToByte(value)[..4];
  }

  lemma TakeOfString(payload: seq<byte>, tail: seq<byte>)
    requires Fits(payload)
    ensures TakeStringField(Sized(payload) + tail) == Some((JavaText(payload), tail))
  {
    hide Sized, TakeField;
    TakeOfSized(payload, tail);
  }

  lemma TakeOfBoolField(value: bool, tail: seq<byte>)
    ensures TakeBoolField(ConstructBoolMessageWithSize(value) + tail) == Some((value, tail))
  {
    hide TakeField, Sized;
    TakeOfSized(BoolToByte(value), tail);
  }

  function Viewed<T, U>(view: T -> U, xs: seq<T>): (ys: seq<U>)
    ensures |ys| == |xs| && forall i :: 0 <= i < |xs| ==> ys[i] == view(xs[i])
  {
    seq(|xs|, i requires 0 <= i < |xs| => view(xs[i]))
  }

  /** Every element fits, and its reader sees of it what `view` says. */
  ghost predicate Readable<T(!new), U(!new)>(
      encode: T -> seq<byte>, decode: seq<byte> -> Option<U>, view: T -> U, xs: seq<T>) {
    forall x <- xs :: Fits(encode(x)) && decode(encode(x)) == Some(view(x))
  }

  lemma {:induction false} TakeOfElements<T(!new), U(!new)>(
      encode: T -> seq<byte>, decode: seq<byte> -> Option<U>, view: T -> U, xs: seq<T>, tail: seq<byte>)
    requires Readable(encode, decode, view, xs)
    ensures TakeElements(decode, EncodeElements(encode, xs) + tail, |xs|) == Some((Viewed(view, xs), tail))
  {
    hide Sized, TakeField, Fits;
    if xs == [] {
      assert [] + tail == tail;
    } else {
      var x, xs' := xs[0], xs[1..];
      assert x in xs && forall y :: y in xs' ==> y in xs;
      TakeOfElements(encode, decode, view, xs', tail);
      Associative(Sized(encode(x)), EncodeElements(encode, xs'), tail);
      TakeOfSized(encode(x), EncodeElements(encode, xs') + tail);
      assert Viewed(view, xs) == [view(x)] + Viewed(view, xs');
    }
  }

  /** For every list: the client reads back every element in order, and its cursor ends where
      the list ends. */
  lemma TakeOfList<T(!new), U(!new)>(
      encode: T -> seq<byte>, decode: seq<byte> -> Option<U>, view: T -> U, xs: seq<T>, tail: seq<byte>)
    requires Readable(encode, decode, view, xs) && |xs| < 0x8000_0000
    ensures TakeList(decode, EncodeList(encode, xs) + tail) == Some((Viewed(view, xs), tail))
  {
    hide IntToByte, TakeInt;
    Associative(IntToByte(|xs|), EncodeElements(encode, xs), tail);
    TakeOfInt(|xs|, EncodeElements(encode, xs) + tail);
    TakeOfElements(encode, decode, view, xs, tail);
  }

  // ---- the Java clients write ----

  /** ConnectionUtil.stringToByteList is getBytes(), which depends on the platform's charset: it
      is a parameter of what the clients write. */
  type Charset = string -> seq<byte>

  predicate SevenBitText(s: string) {
    forall c <- s :: c as int < 0x80
  }

  function Ascii(s: string): (bytes: seq<byte>)
    requires SevenBitText(s)
    ensures |bytes| == |s| && Meant(bytes) == s
  {
    seq(|s|, i requires 0 <= i < |s| => (assert s[i] in s; s[i] as int as byte))
  }

  /** Every charset of practice agrees with ASCII on 7-bit text. */
  ghost predicate AsciiCompatible(getBytes: Charset) {
    forall s: string :: SevenBitText(s) ==> getBytes(s) == Ascii(s)
  }

  /** ConnectionUtil.prepareIntegerMessageWithSize */
  function PrepareIntegerMessageWithSize(number: int32): (bytes: seq<byte>)
    ensures |bytes| == 8
  {
    IntToByteList(4) + IntToByteList(number)
  }

  /** ConnectionUtil.prepareStringMessageWithSize: the size counts characters, not bytes. */
  function PrepareStringMessageWithSize(text: string, getBytes: Charset): (bytes: seq<byte>)
    ensures |bytes| == 4 + |getBytes(text)|
  {
    IntToByteList(Int32(|text|)) + getBytes(text)
  }

  // ---- the server reads ----

  /** Reading at a cursor of a message, or past its end, where the source is undefined. */
  function ReadInt(message: seq<byte>, begin: nat): Option<int32> {
    if begin + 4 <= |message| then Some(ByteToInt(message, begin)) else None
  }

  function ReadName(message: seq<byte>, begin: nat, size: int32): Option<seq<byte>> {
    if size <= 0 then Some([])
    else if begin + size <= |message| then Some(message[begin..begin + size])
    else None
  }

  /** What the server reads of a text that a Java client wrote: as many bytes as the text has
      characters, or past the end if it has fewer bytes. */
  function NameRead(text: string, getBytes: Charset): Option<seq<byte>> {
    if |text| <= |getBytes(text)| then Some(getBytes(text)[..|text|]) else None
  }

  /** The server reads all bytes of a text and no more exactly when the text has one byte per character. */
  lemma NameReadIff(text: string, getBytes: Charset)
    ensures NameRead(text, getBytes) == Some(getBytes(text)) <==> |getBytes(text)| == |text|
  {
    if |getBytes(text)| == |text| {
      assert getBytes(text)[..|text|] == getBytes(text);
    }
  }

  /** The server's loop that collects `size` characters of a name. */
  method CollectName(message: seq<byte>, begin: nat, size: int32) returns (name: Option<seq<byte>>)
    ensures name == ReadName(message, begin, size)
  {
    var collected: seq<byte> := [];
    var i := 0;
    while i < size
      invariant 0 <= i && (i <= size || i == 0)
      invariant i == 0 || begin + i <= |message|
      invariant collected == if i == 0 then [] else message[begin..begin + i]
    {
      if begin + i >= |message| {
        return None;
      }
      collected := collected + [message[begin + i]];
      i := i + 1;
    }
    name := Some(collected);
  }

  lemma ReadOfInt(before: seq<byte>, value: int32, after: seq<byte>)
    ensures ReadInt(before + IntToByte(value) + after, |before|) == Some(value)
  {
    hide IntToByte, ByteToInt;
    var m := before + IntToByte(value) + after;
    assert m[|before|..|before| + 4] == IntToByte(value);
    BigRoundTrip(value, m, |before|);
  }
}

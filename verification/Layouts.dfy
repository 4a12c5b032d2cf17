/** The messages written out byte by byte, so that the two sides agree on the format that the
    repository's other programs speak, and not only with each other. */
module Layouts {
  import opened Wire
  import opened Framing
  import opened Fields
  import Session
  import SensorProtocol
  import AdminProtocol
  import MonitoringProtocol

  /** A 32-bit integer of these four bytes, the first of which carries the sign. */
  predicate IsMadeOf(value: int32, b3: byte, b2: byte, b1: byte, b0: byte) {
    value == Extend(b3) * 0x100_0000 + b2 as int * 0x1_0000 + b1 as int * 0x100 + b0 as int
  }

  /** Message fields begin with the high byte, frame headers and the sensor protocol with the low one. */
  lemma ByteOrders(value: int32, b3: byte, b2: byte, b1: byte, b0: byte)
    requires IsMadeOf(value, b3, b2, b1, b0)
    ensures IntToByte(value) == [b3, b2, b1, b0] && ToBytes32(value) == [b0, b1, b2, b3]
  {
    Assembled(Extend(b3), b2, b1, b0, value);
    LowOfExtend(b3);
    ShiftedLows(value);
  }

  lemma SmallInt(n: byte)
    requires n < 0x80
    ensures IntToByte(n as int) == [0, 0, 0, n] && ToBytes32(n as int) == [n, 0, 0, 0]
  {
    ByteOrders(n as int, 0, 0, 0, n);
  }

  lemma SmallInts()
    ensures IntToByte(0) == [0, 0, 0, 0] && IntToByte(1) == [0, 0, 0, 1] && IntToByte(2) == [0, 0, 0, 2]
    ensures IntToByte(3) == [0, 0, 0, 3] && IntToByte(4) == [0, 0, 0, 4]
  {
    SmallInt(0);
    SmallInt(1);
    SmallInt(2);
    SmallInt(3);
    SmallInt(4);
  }

  // ---- the sensor protocol ----

  /** A frame is the length, low byte first, and the message. */
  lemma FrameBytes(msg: seq<byte>)
    requires |msg| < 0x80
    ensures Frame(msg) == [|msg| as byte, 0, 0, 0] + msg
  {
    SmallInt(|msg| as byte);
  }

  /** 'i' and the token; 'm', the time in milliseconds and the value; '1' and the time of the measurement,
      'a' and the server's time, 'r' and the reason.  A 64-bit integer is its low half, then its high one. */
  lemma SensorMessageBytes(
    token: Session.Text, high: int32, low: int, timestamp: int64, value: int32)
    requires 0 <= low < 0x1_0000_0000 && timestamp == high * 0x1_0000_0000 + low
    ensures var time := ToBytes32(Int32(low)) + ToBytes32(high);
      && SensorProtocol.InitMessage(token) == ['i' as byte] + token
      && SensorProtocol.MeasureMessage(timestamp, value) == ['m' as byte] + time + ToBytes32(value)
      && SensorProtocol.ReplyBytes(Session.Confirmed(timestamp)) == ['1' as byte] + time
      && SensorProtocol.ReplyBytes(Session.Accepted(timestamp)) == ['a' as byte] + time
      && SensorProtocol.ReplyBytes(Session.Rejected(value)) == ['r' as byte] + ToBytes32(value)
  {
    hide ToBytes32;
    assert timestamp / 0x1_0000_0000 == high && timestamp % 0x1_0000_0000 == low;
    assert Int32(timestamp) == Int32(low);
  }

  // ---- administrators ----

  /** The command's number and its identifier, each after its size, ... */
  lemma AdminCommandBytes(id: int32, getBytes: Charset)
    ensures AdminProtocol.PrepareMessage(AdminProtocol.GetAllSensors, getBytes) == [0, 0, 0, 4, 0, 0, 0, 0]
    ensures AdminProtocol.PrepareMessage(AdminProtocol.RevokeSensor(id), getBytes) ==
      [0, 0, 0, 4, 0, 0, 0, 2, 0, 0, 0, 4] + IntToByte(id)
    ensures AdminProtocol.PrepareMessage(AdminProtocol.DisconnectSensor(id), getBytes) ==
      [0, 0, 0, 4, 0, 0, 0, 3, 0, 0, 0, 4] + IntToByte(id)
  {
    hide IntToByte, IntToByteList;
    SmallInts();
  }

  /** ... and its name, whose size counts characters. */
  lemma NameCommandBytes(id: int32, name: string, getBytes: Charset)
    requires |name| < 0x8000_0000
    ensures AdminProtocol.PrepareMessage(AdminProtocol.UpdateSensorName(id, name), getBytes) ==
      [0, 0, 0, 4, 0, 0, 0, 1, 0, 0, 0, 4] + IntToByte(id) + IntToByte(|name|) + getBytes(name)
    ensures AdminProtocol.PrepareMessage(AdminProtocol.GenerateToken(name), getBytes) ==
      [0, 0, 0, 4, 0, 0, 0, 4] + IntToByte(|name|) + getBytes(name)
  {
    hide IntToByte, IntToByteList;
    SmallInts();
  }

  /** The command's number, then what it answers with; ... */
  lemma AdminResponseBytes(id: int32, token: seq<byte>)
    requires Fits(token)
    ensures AdminProtocol.SerializeResponseMessage(AdminProtocol.NameUpdated(id)) == [0, 0, 0, 1] + IntToByte(id)
    ensures AdminProtocol.SerializeResponseMessage(AdminProtocol.Revoked(id)) == [0, 0, 0, 2] + IntToByte(id)
    ensures AdminProtocol.SerializeResponseMessage(AdminProtocol.Disconnected(id)) == [0, 0, 0, 3] + IntToByte(id)
    ensures AdminProtocol.SerializeResponseMessage(AdminProtocol.Token(token)) ==
      [0, 0, 0, 4] + IntToByte(|token|) + token
  {
    hide IntToByte;
    SmallInts();
  }

  /** ... a sensor's fields each come after their size. */
  lemma AdminSensorBytes(s: AdminProtocol.Sensor<seq<byte>>)
    requires Fits(AdminProtocol.ConstructSensorMessage(s))
    ensures AdminProtocol.ConstructSensorMessage(s) ==
      [0, 0, 0, 4] + IntToByte(s.id) + IntToByte(Int32(|s.name|)) + s.name + IntToByte(Int32(|s.ip|)) + s.ip
      + [0, 0, 0, 4] + IntToByte(s.port) + [0, 0, 0, 1, if s.connected then 1 else 0]
    ensures var bytes := AdminProtocol.ConstructSensorMessage(s);
      AdminProtocol.SerializeResponseMessage(AdminProtocol.AllSensors([s])) ==
      [0, 0, 0, 0, 0, 0, 0, 1] + IntToByte(|bytes|) + bytes
  {
    hide IntToByte;
    SmallInts();
    ListOfOne(AdminProtocol.ConstructSensorMessage, s);
  }

  /** The elements of a list come one after the other, each after its size, behind their number. */
  lemma ListOfOne<T>(encode: T -> seq<byte>, x: T)
    ensures EncodeList(encode, [x]) == IntToByte(1) + Sized(encode(x))
  {
    hide IntToByte, Sized;
    assert [x][1..] == [];
    assert EncodeElements(encode, [x]) == Sized(encode(x)) + [];
  }

  // ---- monitoring clients ----

  /** The size of all that follows, low byte first, then the command's number and its arguments. */
  lemma MonitoringCommandBytes(id: int32, period: int32)
    ensures MonitoringProtocol.PrepareMessage(MonitoringProtocol.GetAllSensors) ==
      [8, 0, 0, 0, 0, 0, 0, 4, 0, 0, 0, 0]
    ensures MonitoringProtocol.PrepareMessage(MonitoringProtocol.GetSetOfMeasurements(id, period)) ==
      [24, 0, 0, 0, 0, 0, 0, 4, 0, 0, 0, 1, 0, 0, 0, 4] + IntToByte(id) + [0, 0, 0, 4] + IntToByte(period)
  {
    hide IntToByte, IntToByteList, IntToByteListLittleEndian, ToBytes32;
    SmallInts();
    SmallInt(8);
    SmallInt(24);
  }

  lemma MonitoringResponseBytes(
    s: MonitoringProtocol.Sensor<seq<byte>>, id: int32, m: MonitoringProtocol.Measurement<seq<byte>>)
    requires Fits(MonitoringProtocol.ConstructSensorMessage(s))
    requires Fits(MonitoringProtocol.ConstructMeasurementMessage(m))
    ensures MonitoringProtocol.ConstructSensorMessage(s) ==
      [0, 0, 0, 4] + IntToByte(s.id) + IntToByte(Int32(|s.name|)) + s.name + IntToByte(Int32(|s.ip|)) + s.ip
      + [0, 0, 0, 4] + IntToByte(s.port) + [0, 0, 0, 4] + IntToByte(s.currentMeasurement)
    ensures MonitoringProtocol.ConstructMeasurementMessage(m) ==
      [0, 0, 0, 4] + IntToByte(m.value) + IntToByte(Int32(|m.text|)) + m.text
    ensures var bytes := MonitoringProtocol.ConstructSensorMessage(s);
      MonitoringProtocol.SerializeResponseMessage(MonitoringProtocol.AllSensors([s])) ==
      [0, 0, 0, 0, 0, 0, 0, 1] + IntToByte(|bytes|) + bytes
    ensures var bytes := MonitoringProtocol.ConstructMeasurementMessage(m);
      MonitoringProtocol.SerializeResponseMessage(MonitoringProtocol.SetOfMeasurements(id, [m])) ==
      [0, 0, 0, 1] + IntToByte(id) + [0, 0, 0, 1] + IntToByte(|bytes|) + bytes
  {
    hide IntToByte;
    SmallInts();
    ListOfOne(MonitoringProtocol.ConstructSensorMessage, s);
    ListOfOne(MonitoringProtocol.ConstructMeasurementMessage, m);
  }
}

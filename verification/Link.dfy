/** Two ends of a connection and the bytes in flight between them. */
module Link {
  import opened Wire
  import opened Framing
  import opened Transport

  /** A sending Client, a FIFO byte channel and a receiving Client.  Its methods are the steps
      of the protocol; they may be taken in any order, by any number of threads, with any
      partial sends and receives. */
  class Link {
    const sender: Client
    const receiver: Client
    var channel: seq<byte>

    ghost predicate Valid()
      reads this, sender, receiver
    {
      && sender != receiver
      && sender.Valid() && receiver.Valid() && sender.Connected() && receiver.Connected()
      && sender.history.wire == receiver.history.bytes + channel
    }

    /** Everything accepted by the sender, in order. */
    ghost function Accepted(): seq<seq<byte>>
      reads this, sender
    {
      sender.history.accepted
    }

    /** Everything handed to the receiver's listener, in order. */
    ghost function Delivered(): seq<seq<byte>>
      reads this, receiver
    {
      receiver.history.delivered
    }

    constructor (sender: Client, receiver: Client)
      requires sender != receiver && sender.Valid() && receiver.Valid()
      requires sender.Connected() && receiver.Connected()
      requires sender.history.wire == [] && receiver.history.bytes == []
      ensures Valid() && this.sender == sender && this.receiver == receiver && channel == []
    {
      this.sender, this.receiver, channel := sender, receiver, [];
    }

    /** Some thread sends a message. */
    method Post(msg: seq<byte>, room: int) returns (result: int)
      requires Valid()
      modifies this`channel, sender`outBuffer, sender`history
      ensures Valid()
      ensures Accepted() == old(Accepted()) + if msg != [] then [msg] else []
      ensures Delivered() == old(Delivered())
    {
      hide Decode, Frames, Framing.Frame, Sends, Receives;
      var put;
      result, put := sender.AddOutMsg(msg, room);
      Associative(receiver.history.bytes, channel, put);
      assert channel + [] == channel;
      channel := channel + put;
    }

    /** The sender's loop finds its socket ready. */
    method Pump(room: int)
      requires Valid()
      modifies this`channel, sender`outBuffer, sender`history
      ensures Valid() && Accepted() == old(Accepted()) && Delivered() == old(Delivered())
      ensures channel + sender.outBuffer == old(channel + sender.outBuffer)
      ensures receiver.history == old(receiver.history)
      ensures room > 0 && old(sender.outBuffer) != [] ==> |sender.outBuffer| < |old(sender.outBuffer)|
    {
      var sent, put := sender.SendData(room);
      Associative(receiver.history.bytes, channel, put);
      Associative(channel, put, sender.outBuffer);
      channel := channel + put;
    }

    /** The receiver's loop finds its socket ready. */
    method Deliver(limit: nat) returns (r: Receipt)
      requires Valid() && receiver.history.broken == None
      modifies this`channel, receiver`inBuffer, receiver`remainingIn, receiver`remainingInLen, receiver`history
      ensures Valid() && Accepted() == old(Accepted()) && old(Delivered()) <= Delivered()
      ensures r.DataLength? <==> receiver.history.broken != None
      ensures limit > 0 && old(channel) != [] ==> |channel| < |old(channel)|
    {
      hide Decode, Frames, Sends, Receives;
      var got, taken;
      r, got, taken := receiver.RecvData(channel, limit);
      Associative(old(receiver.history.bytes), channel[..taken], channel[taken..]);
      assert channel[..taken] + channel[taken..] == channel;
      channel := channel[taken..];
    }

    /** At every moment of every run: what was delivered is a prefix of what was accepted, in
        order and once each, as long as no message is longer than the receiver allows. */
    lemma Delivery()
      requires Valid() && Legal(Accepted())
      ensures receiver.history.broken == None
      ensures Delivered() <= Accepted()
      ensures channel == [] && sender.outBuffer == [] ==> Delivered() == Accepted()
    {
      hide Frames, Decode;
      Associative(receiver.history.bytes, channel, sender.outBuffer);
      assert receiver.history.bytes <= Frames(Accepted());
      DecodeOfPrefix(receiver.history.bytes, Accepted());
    }

    /** Nothing can move any more: all has been sent, and received as far as the receiver goes. */
    ghost predicate Settled()
      reads this, sender, receiver
    {
      sender.outBuffer == [] && (channel == [] || receiver.history.broken != None)
    }

    /** Once nothing moves any more, everything accepted has been delivered exactly when every
        accepted message has 1..512 bytes; the sender itself accepts any length but 0. */
    lemma DrainedIff()
      requires Valid() && Settled()
      ensures Delivered() == Accepted() <==> Legal(Accepted())
    {
      if Legal(Accepted()) {
        Delivery();
      } else {
        assert Legal(Decode(receiver.history.bytes).msgs);
      }
    }

    /** Then exactly the messages before the first illegal one have been delivered. */
    lemma DrainedUpToIllegal()
      requires Valid() && Settled() && forall m <- Accepted() :: |m| < 0x8000_0000
      ensures Delivered() == LegalPrefix(Accepted())
      ensures receiver.history.broken == None <==> Legal(Accepted())
    {
      hide Frames, Decode, LegalPrefix;
      var bytes := receiver.history.bytes;
      assert channel + [] == channel && bytes + [] == bytes;
      assert Frames(Accepted()) == bytes + channel;
      DecodeOfAppend(bytes, channel);
      DecodeOfAnyFrames(Accepted());
      ReceivedDecodes(receiver.history, receiver.remainingIn, receiver.remainingInLen, receiver.inBuffer);
    }

    /** Both loops run until nothing moves; that comes to an end. */
    method Settle()
      requires Valid() && receiver.history.broken == None
      modifies this`channel, sender`outBuffer, sender`history
      modifies receiver`inBuffer, receiver`remainingIn, receiver`remainingInLen, receiver`history
      ensures Valid() && Settled() && Accepted() == old(Accepted()) && old(Delivered()) <= Delivered()
    {
      hide Decode, Frames, Sends, Receives;
      while sender.outBuffer != []
        invariant Valid() && Accepted() == old(Accepted()) && receiver.history == old(receiver.history)
        decreases |sender.outBuffer|
      {
        Pump(1);
      }
      var broken := false;
      while channel != [] && !broken
        invariant Valid() && Accepted() == old(Accepted()) && old(Delivered()) <= Delivered()
        invariant sender.outBuffer == [] && (broken <==> receiver.history.broken != None)
        decreases |channel|, !broken
      {
        var r := Deliver(1);
        broken := r.DataLength?;
      }
    }
  }

  /** A message of 513 bytes is accepted and never delivered. */
  method LongMessageIsLost(msg: seq<byte>) returns (link: Link)
    requires |msg| == 513
    ensures link.Valid() && link.Settled() && link.Accepted() == [msg] && link.Delivered() == []
  {
    hide Decode, Frames, Framing.Frame, Sends, Receives, LegalPrefix;
    var sender := new Client(false);
    sender.Connect(3, 0, [], 0, []);
    var receiver := new Client(true);
    receiver.Connect(4, 0, [], 0, []);
    link := new Link(sender, receiver);
    var _ := link.Post(msg, 0);
    link.Settle();
    assert link.Accepted() == [msg];
    link.DrainedUpToIllegal();
  }
}

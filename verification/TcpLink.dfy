/**
  Both ends of a connection: fragments handed to the sender arrive at the receiver in order,
  unchanged and each once, whatever the sizes of writes and reads.
*/
module TcpLink {
  import opened Collections
  import opened TcpFrames
  import opened TcpMessages
  import opened TcpReceive
  import opened TcpSend

  /** Fragments that may be sent: one complete frame of a known kind each. */
  ghost predicate Sendable(fs: seq<seq<byte>>, nbo: bool) {
    forall f :: f in fs ==> Complete(f, nbo) && FrameOk(f, nbo)
  }

  lemma FrameOkMore(f: seq<byte>, rest: seq<byte>, nbo: bool)
    requires Complete(f, nbo) && FrameOk(f, nbo)
    ensures FrameOk(f + rest, nbo)
  {
    hide SegLens, Total, HeaderOf;
    HeaderSame(f, f + rest, nbo);
    var e := HDR + HeaderOf(f, nbo).count * SEG;
    if HeaderOf(f, nbo).kind == PUT {
      assert (f + rest)[HDR..e] == f[HDR..e];
    }
  }

  /** What is received of a stream of frames: whole frames, or the beginning of one. */
  lemma {:induction false} PrefixOfFrames(fs: seq<seq<byte>>, c: seq<byte>, nbo: bool)
    requires Sendable(fs, nbo) && c <= Concat(fs)
    ensures Frames(c, nbo) <= fs && StreamOk(c, nbo)
    decreases fs
  {
    if fs == [] {
      assert c == [];
    } else {
      ConcatCons(fs);
      var f := fs[0];
      assert f in fs;
      if |c| >= |f| {
        var rest := c[|f|..];
        assert c == f + rest by { assert Concat(fs)[..|f|] == f; }
        assert rest <= Concat(fs[1..]);
        PrefixOfFrames(fs[1..], rest, nbo);
        OneMoreFrame(fs, f, rest, nbo);
      } else {
        assert c <= f;
        FrameBegun(f, c, nbo);
      }
    }
  }

  lemma OneMoreFrame(fs: seq<seq<byte>>, f: seq<byte>, rest: seq<byte>, nbo: bool)
    requires fs != [] && f == fs[0] && Complete(f, nbo) && FrameOk(f, nbo) && Frames(rest, nbo) <= fs[1..]
    requires StreamOk(rest, nbo)
    ensures Frames(f + rest, nbo) <= fs && StreamOk(f + rest, nbo)
  {
    FrameFirst(f, rest, nbo);
    FrameOkMore(f, rest, nbo);
    hide Need, FrameOk, Frames, Complete;
    assert fs == [f] + fs[1..];
  }

  lemma FrameBegun(f: seq<byte>, c: seq<byte>, nbo: bool)
    requires Complete(f, nbo) && FrameOk(f, nbo) && c <= f && |c| < |f|
    ensures Frames(c, nbo) == [] && StreamOk(c, nbo)
  {
    NeedSame(c, f, nbo);
    hide Need, FrameOk;
  }

  lemma {:induction false} ConcatSum(a: seq<seq<byte>>, b: seq<seq<byte>>)
    ensures Concat(a + b) == Concat(a) + Concat(b)
  {
    if b == [] {
      assert a + b == a;
    } else {
      var l := |b| - 1;
      ConcatSum(a, b[..l]);
      assert (a + b)[..|a| + l] == a + b[..l];
    }
  }

  /** What has not been delivered is the beginning of the fragments that are still to come. */
  lemma RestOk(fs: seq<seq<byte>>, delivered: seq<seq<byte>>, rest: seq<byte>, nbo: bool)
    requires Sendable(fs, nbo) && delivered <= fs && Concat(delivered) + rest <= Concat(fs)
    ensures StreamOk(rest, nbo)
  {
    var more := fs[|delivered|..];
    assert fs == delivered + more;
    ConcatSum(delivered, more);
    assert rest <= Concat(more) by {
      assert rest == (Concat(delivered) + rest)[|Concat(delivered)|..];
    }
    PrefixOfFrames(more, rest, nbo);
  }

  /** A message is posted, with room for some bytes in the socket; the socket has room; bytes have come in, or not. */
  datatype Event = Posted(msg: Message, priority: bool, room: nat) | Writable(room: nat) | Readable(ready: bool)

  /** The messages handed over in a run. */
  ghost function Messages(events: seq<Event>): seq<Message> {
    if events == [] then []
    else Messages(events[..|events| - 1]) + match events[|events| - 1]
      case Posted(msg, _, _) => [msg]
      case _ => []
  }

  ghost function FramesOf(msgs: seq<Message>, nbo: bool): (r: seq<seq<byte>>)
    ensures |r| == |msgs| && forall i :: 0 <= i < |r| ==> r[i] == Frame(msgs[i], nbo)
  {
    seq(|msgs|, i requires 0 <= i < |msgs| => Frame(msgs[i], nbo))
  }

  lemma FramesOfMore(events: seq<Event>, i: nat, nbo: bool)
    requires i < |events|
    ensures FramesOf(Messages(events[..i+1]), nbo) ==
              FramesOf(Messages(events[..i]), nbo) + if events[i].Posted? then [Frame(events[i].msg, nbo)] else []
  {
    hide Frame;
    assert events[..i+1][..i] == events[..i];
  }

  lemma FramesOfNone(nbo: bool)
    ensures FramesOf(Messages([]), nbo) == []
  {
  }

  lemma {:induction false} MessagesPostable(events: seq<Event>, i: nat)
    requires (forall x :: 0 <= x < |events| && events[x].Posted? ==> Postable(events[x].msg)) && i < |Messages(events)|
    ensures Postable(Messages(events)[i])
  {
    var l := |events| - 1;
    if i < |Messages(events[..l])| {
      MessagesPostable(events[..l], i);
    }
  }

  class Link {
    const sender: Sender
    const receiver: Endpoint

    /** Everything that the sender has written is the stream of the receiver. */
    ghost predicate Valid()
      reads this, sender, receiver
    {
      && sender.Valid() && receiver.Valid(sender.wire) && Sendable(sender.posted, receiver.nbo)
      && receiver.delivered <= sender.posted && sender.wire <= Concat(sender.posted)
    }

    constructor (nbo: bool, capacity: nat)
      ensures Valid() && fresh(sender) && fresh(receiver) && sender.posted == [] && receiver.nbo == nbo
    {
      NothingSent(nbo);
      sender := new Sender();
      receiver := new Endpoint(nbo, capacity, []);
    }

    /** Written bytes reach the receiver. */
    method Carry(ghost before: seq<byte>, b: seq<byte>)
      requires sender.Valid() && sender.wire == before + b && receiver.Valid(before)
      requires Sendable(sender.posted, receiver.nbo)
      requires receiver.delivered <= sender.posted
      modifies receiver`socket
      ensures Valid() && receiver.delivered == old(receiver.delivered) && receiver.socket == old(receiver.socket) + b
    {
      hide StreamOk, Layout, Held, Sendable, Frames;
      WireIsPrefix(sender);
      ghost var rest := Held(receiver.done, receiver.todo) + [] + (receiver.socket + b);
      assert Concat(receiver.delivered) + rest == sender.wire by {
        assert rest == (Held(receiver.done, receiver.todo) + [] + receiver.socket) + b;
      }
      RestOk(sender.posted, receiver.delivered, rest, receiver.nbo);
      receiver.Arrive(b, before);
    }

    /** A message is handed over; some of it may be written at once. */
    method Post(msg: Message, priority: bool, room: nat)
      requires Valid() && Postable(msg)
      modifies sender, receiver`socket
      ensures Valid() && sender.posted == old(sender.posted) + [Frame(msg, receiver.nbo)]
      ensures receiver.delivered == old(receiver.delivered)
    {
      hide StreamOk, Layout, Held, Frames, Complete, FrameOk, Carries, Postable, Frame;
      ghost var before := sender.wire;
      var n := |sender.wire|;
      FrameCarries(msg, receiver.nbo);
      match msg {
        case Send(tag, parts) => sender.PostSend(tag, parts, receiver.nbo, priority, room);
        case Put(targets, parts) => sender.PostPut(targets, parts, receiver.nbo, priority, room);
      }
      assert Sendable(sender.posted, receiver.nbo);
      hide Sendable;
      assert sender.wire == before + sender.wire[n..];
      Carry(before, sender.wire[n..]);
    }

    /** The sender may write. */
    method SendEvent(room: nat)
      requires Valid()
      modifies sender, receiver`socket
      ensures Valid() && sender.posted == old(sender.posted) && receiver.delivered == old(receiver.delivered)
      ensures |sender.wire| == |old(sender.wire)| + Min(room, |old(sender.Pending())|)
      ensures receiver.socket == old(receiver.socket) + sender.wire[|old(sender.wire)|..]
    {
      hide StreamOk, Layout, Held, Sendable, Frames;
      ghost var before := sender.wire;
      var n := |sender.wire|;
      sender.OnWritable(room);
      assert sender.wire == before + sender.wire[n..];
      Carry(before, sender.wire[n..]);
    }

    /**
      The receiver may read: it delivers the fragments that were handed over, in order; all of
      them once nothing is left.
    */
    method ReceiveEvent(ready: bool)
      requires Valid()
      modifies receiver
      ensures Valid() && old(receiver.delivered) <= receiver.delivered <= sender.posted
      ensures sender.Pending() == [] && receiver.socket == [] ==> receiver.delivered == sender.posted
      ensures Shrinks(|old(receiver.socket)|, |receiver.socket|, ready && old(receiver.socket) != [])
    {
      hide StreamOk, Layout, Held, Sendable, Frames, Shrinks;
      WireIsPrefix(sender);
      ghost var fs, wire := sender.posted, sender.wire;
      receiver.OnReadable(ready, sender.wire);
      ghost var consumed := wire[..|wire| - |receiver.socket|];
      assert consumed <= Concat(fs);
      PrefixOfFrames(fs, consumed, receiver.nbo);
      if sender.Pending() == [] && receiver.socket == [] {
        assert consumed == Concat(fs);
        AllArrived(fs, receiver.nbo);
      }
    }

    /**
      When the socket takes and gives at least one byte at each event, everything arrives after
      finitely many events.
    */
    method Drain()
      requires Valid()
      modifies sender, receiver
      ensures Valid() && receiver.delivered == sender.posted == old(sender.posted)
    {
      hide StreamOk, Layout, Held, Sendable, Frames, Concat, InOrder;
      WireIsPrefix(sender);
      ghost var all := |Concat(sender.posted)|;
      var sent := false;
      while !sent
        invariant Valid() && sender.posted == old(sender.posted) && |sender.wire| + |sender.Pending()| == all
        invariant sent ==> sender.Pending() == []
        decreases all - |sender.wire|, !sent
      {
        var room: nat :| room > 0;
        var n := |sender.wire|;
        SendEvent(room);
        WireIsPrefix(sender);
        sent := |sender.wire| == n;
      }
      while receiver.socket != []
        invariant Valid() && sender.posted == old(sender.posted) && sender.Pending() == []
        decreases |receiver.socket|
      {
        ReceiveEvent(true);
      }
      ReceiveEvent(true);
    }

    method Handle(event: Event)
      requires Valid() && (event.Posted? ==> Postable(event.msg))
      modifies sender, receiver
      ensures Valid() && old(receiver.delivered) <= receiver.delivered
      ensures sender.posted ==
                old(sender.posted) + if event.Posted? then [Frame(event.msg, receiver.nbo)] else []
    {
      hide StreamOk, Layout, Held, Sendable, Frames, Complete, FrameOk, Concat, Postable, Frame, InOrder;
      match event
      case Posted(msg, priority, room) => Post(msg, priority, room);
      case Writable(room) => SendEvent(room);
      case Readable(ready) => ReceiveEvent(ready);
    }

    method HandleAll(events: seq<Event>)
      requires Valid() && forall i :: 0 <= i < |events| && events[i].Posted? ==> Postable(events[i].msg)
      modifies sender, receiver
      ensures Valid() && sender.posted == old(sender.posted) + FramesOf(Messages(events), receiver.nbo)
      ensures old(receiver.delivered) <= receiver.delivered
    {
      hide StreamOk, Layout, Held, Sendable, Frames, Complete, FrameOk, Concat, Postable, Frame, InOrder, Messages,
        FramesOf;
      FramesOfNone(receiver.nbo);
      for i := 0 to |events|
        invariant Valid() && sender.posted == old(sender.posted) + FramesOf(Messages(events[..i]), receiver.nbo)
        invariant old(receiver.delivered) <= receiver.delivered
      {
        FramesOfMore(events, i, receiver.nbo);
        Handle(events[i]);
      }
      assert events[..|events|] == events;
    }

    /**
      Whatever the order of events: what is delivered is, in order, the first of the messages that
      were handed over, each with its header, its descriptors and all its data.
    */
    method Run(events: seq<Event>)
      requires Valid() && forall i :: 0 <= i < |events| && events[i].Posted? ==> Postable(events[i].msg)
      modifies sender, receiver
      ensures Valid() && sender.posted == old(sender.posted) + FramesOf(Messages(events), receiver.nbo)
      ensures old(receiver.delivered) <= receiver.delivered <= sender.posted
      ensures forall i :: 0 <= i < |Messages(events)| && |old(sender.posted)| + i < |receiver.delivered| ==>
                Carries(receiver.delivered[|old(sender.posted)| + i], Messages(events)[i], receiver.nbo)
    {
      hide StreamOk, Layout, Held, Sendable, Frames, Concat, Postable, Carries, InOrder, Messages, FramesOf;
      HandleAll(events);
      AllCarry(events, old(sender.posted), receiver.delivered, receiver.nbo);
    }
  }

  /** A delivered frame carries the message it was made of. */
  lemma AllCarry(events: seq<Event>, before: seq<seq<byte>>, delivered: seq<seq<byte>>, nbo: bool)
    requires forall i :: 0 <= i < |events| && events[i].Posted? ==> Postable(events[i].msg)
    requires delivered <= before + FramesOf(Messages(events), nbo)
    ensures forall i :: 0 <= i < |Messages(events)| && |before| + i < |delivered| ==>
              Carries(delivered[|before| + i], Messages(events)[i], nbo)
  {
    hide Postable, Carries, Frame, Complete, FrameOk;
    forall i | 0 <= i < |Messages(events)| && |before| + i < |delivered|
      ensures Carries(delivered[|before| + i], Messages(events)[i], nbo)
    {
      MessagesPostable(events, i);
      FrameCarries(Messages(events)[i], nbo);
    }
  }

  lemma AllArrived(fs: seq<seq<byte>>, nbo: bool)
    requires Sendable(fs, nbo)
    ensures Frames(Concat(fs), nbo) == fs
  {
    FramingIsUnique(fs, [], nbo);
    assert Concat(fs) + [] == Concat(fs);
  }

  lemma NothingSent(nbo: bool)
    ensures StreamOk([], nbo)
  {
  }

  /** What is written and what is pending is what was handed over. */
  lemma WireIsPrefix(s: Sender)
    requires s.Valid()
    ensures s.wire + s.Pending() == Concat(s.posted)
  {
    hide Concat, Flat;
    var b := s.Begun();
    assert s.posted == s.posted[..b] + s.posted[b..];
    ConcatSum(s.posted[..b], s.posted[b..]);
    assert s.wire + (Concat(s.iov) + Concat(Flat(s.queue))) == s.wire + Concat(s.iov) + Concat(Flat(s.queue));
  }
}

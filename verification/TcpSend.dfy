/**
  mca_btl_tcp2_frag_send and its callers, from a message on: fragments are written to the socket in
  the order in which they were handed over, however little each write takes.
*/
module TcpSend {
  import opened Collections
  import opened TcpFrames
  import opened TcpMessages

  /** Bytes of the fragments that wait, one after the other. */
  function Flat(queue: seq<seq<seq<byte>>>): (r: seq<seq<byte>>)
    ensures |r| == |queue|
  {
    seq(|queue|, i requires 0 <= i < |queue| => Concat(queue[i]))
  }

  /** The first cnt bytes of v have been written, in all, and of these `left` are still to be taken off. */
  ghost predicate TakenOff(v: seq<seq<byte>>, left: seq<seq<byte>>, n: nat, cnt: nat) {
    cnt <= n <= |Concat(v)| && cnt <= |Concat(left)| && Concat(left)[cnt..] == Concat(v)[n..]
  }

  lemma TakeEntry(v: seq<seq<byte>>, left: seq<seq<byte>>, n: nat, cnt: nat)
    requires TakenOff(v, left, n, cnt) && left != []
    ensures cnt >= |left[0]| ==> TakenOff(v, left[1..], n, cnt - |left[0]|)
    ensures cnt < |left[0]| ==> Concat([left[0][cnt..]] + left[1..]) == Concat(v)[n..]
  {
    ConcatCons(left);
    var rest := Concat(left[1..]);
    if cnt < |left[0]| {
      ConcatFront(left[0][cnt..], left[1..]);
      assert Concat(left)[cnt..] == left[0][cnt..] + rest;
    } else {
      assert Concat(left)[cnt..] == rest[cnt - |left[0]|..];
    }
  }

  /** All of the first `begun` fragments is written or in the current entries, and the others wait in order. */
  ghost predicate InOrder(wire: seq<byte>, iov: seq<seq<byte>>, queue: seq<seq<seq<byte>>>, posted: seq<seq<byte>>,
                          begun: nat) {
    begun + |queue| == |posted| && wire + Concat(iov) == Concat(posted[..begun]) && Flat(queue) == posted[begun..]
  }

  lemma PostIdle(wire: seq<byte>, posted: seq<seq<byte>>, frag: seq<seq<byte>>)
    requires InOrder(wire, [], [], posted, |posted|)
    ensures InOrder(wire, frag, [], posted + [Concat(frag)], |posted| + 1)
  {
    var more := posted + [Concat(frag)];
    assert more[..|posted|+1] == more && more[..|posted|] == posted && posted[..|posted|] == posted;
    assert Concat(more) == Concat(posted) + Concat(frag);
    assert wire + Concat([]) == wire;
  }

  lemma PostQueued(wire: seq<byte>, iov: seq<seq<byte>>, queue: seq<seq<seq<byte>>>, posted: seq<seq<byte>>,
                   begun: nat, frag: seq<seq<byte>>)
    requires InOrder(wire, iov, queue, posted, begun)
    ensures InOrder(wire, iov, queue + [frag], posted + [Concat(frag)], begun)
  {
    hide Concat;
    var more := posted + [Concat(frag)];
    assert more[..begun] == posted[..begun] && more[begun..] == posted[begun..] + [Concat(frag)];
    assert Flat(queue + [frag]) == Flat(queue) + [Concat(frag)];
  }

  lemma NextInLine(wire: seq<byte>, queue: seq<seq<seq<byte>>>, posted: seq<seq<byte>>, begun: nat)
    requires InOrder(wire, [], queue, posted, begun) && queue != []
    ensures InOrder(wire, queue[0], queue[1..], posted, begun + 1)
  {
    assert posted[begun] == posted[begun..][0] == Concat(queue[0]);
    assert posted[..begun+1][..begun] == posted[..begun];
    assert Flat(queue[1..]) == Flat(queue)[1..] == posted[begun+1..];
    assert wire + Concat([]) == wire;
  }

  /** The loop over the segments: their entries, and their sizes added up in 32 bits. */
  method Gather(parts: seq<seq<byte>>) returns (iov: seq<seq<byte>>, size: nat)
    ensures iov == parts && size == |Concat(parts)| % TWO32
  {
    iov, size := [], 0;
    for i := 0 to |parts|
      invariant iov == parts[..i] && size == |Concat(parts[..i])| % TWO32
    {
      assert parts[..i+1][..i] == parts[..i];
      size := (size + |parts[i]|) % TWO32;
      iov := iov + [parts[i]];
    }
    assert parts[..|parts|] == parts;
  }

  class Sender {
    /** The fragment that is being sent, endpoint_send_frag, if there is one: its entries from iov_ptr on. */
    var active: bool
    var iov: seq<seq<byte>>
    /** endpoint_frags */
    var queue: seq<seq<seq<byte>>>
    /** What the socket has taken so far. */
    var wire: seq<byte>
    /** The fragments handed over, and how many of them are reported as sent. */
    var posted: seq<seq<byte>>
    var completed: nat

    /** Fragments begun: those completed, and the current one. */
    ghost function Begun(): nat
      reads this
    {
      completed + if active then 1 else 0
    }

    ghost predicate Valid()
      reads this
    {
      && (!active ==> iov == [] && queue == []) && InOrder(wire, iov, queue, posted, Begun())
      && completed <= |posted| && Concat(posted[..completed]) <= wire
    }

    constructor ()
      ensures Valid() && wire == [] && posted == [] && completed == 0
    {
      active, iov, queue := false, [], [];
      wire, posted, completed := [], [], 0;
    }

    /**
      mca_btl_tcp2_frag_send: writev takes as many bytes as there is room for in the socket, or
      would block when there is none.
    */
    method FragSend(v: seq<seq<byte>>, room: nat) returns (left: seq<seq<byte>>, done: bool)
      modifies `wire
      ensures var n := Min(room, |Concat(v)|);
              && wire == old(wire) + Concat(v)[..n] && Concat(left) == Concat(v)[n..]
              && (done <==> n == |Concat(v)|) && (done ==> left == [])
    {
      var n := Min(room, |Concat(v)|);
      if n == 0 && |Concat(v)| > 0 {
        return v, false;
      }
      left := v;
      var cnt := n;
      while left != []
        invariant 0 <= cnt && TakenOff(v, left, n, cnt) && wire == old(wire)
        decreases |left|
      {
        TakeEntry(v, left, n, cnt);
        if cnt >= |left[0]| {
          cnt := cnt - |left[0]|;
          left := left[1..];
        } else {
          ConcatFront(left[0][cnt..], left[1..]);
          left := [left[0][cnt..]] + left[1..];
          cnt := 0;
          break;
        }
      }
      done := left == [];
      wire := wire + Concat(v)[..n];
    }

    /** What is handed over and not written yet. */
    ghost function Pending(): seq<byte>
      reads this
    {
      Concat(iov) + Concat(Flat(queue))
    }

    /** mca_btl_tcp2_endpoint_send on a connected endpoint. */
    method EndpointSend(frag: seq<seq<byte>>, priority: bool, room: nat)
      requires Valid()
      modifies this
      ensures Valid() && posted == old(posted) + [Concat(frag)] && old(completed) <= completed
      ensures wire == old(wire) + Concat(frag)[..if !old(active) && priority then Min(room, |Concat(frag)|) else 0]
    {
      hide Concat, Flat;
      if !active {
        PostIdle(wire, posted, frag);
        assert (posted + [Concat(frag)])[..completed] == posted[..completed];
        assert (posted + [Concat(frag)])[..completed+1] == posted + [Concat(frag)];
        posted := posted + [Concat(frag)];
        var left, done := frag, false;
        if priority {
          left, done := FragSend(frag, room);
          Split(frag, left, old(wire), Min(room, |Concat(frag)|));
        }
        if done {
          NoEntries(wire);
          completed := completed + 1;
        } else {
          active, iov := true, left;
        }
      } else {
        PostQueued(wire, iov, queue, posted, Begun(), frag);
        hide InOrder;
        assert (posted + [Concat(frag)])[..completed] == posted[..completed];
        posted := posted + [Concat(frag)];
        queue := queue + [frag];
      }
    }

    /** mca_btl_tcp2_send */
    method PostSend(tag: byte, parts: seq<seq<byte>>, nbo: bool, priority: bool, room: nat)
      requires Valid()
      modifies this
      ensures Valid() && posted == old(posted) + [Frame(Send(tag, parts), nbo)]
      ensures old(wire) <= wire && old(completed) <= completed
    {
      hide Concat, Flat, InOrder, HeaderBytes;
      var iov, size := Gather(parts);
      var hdr := HeaderBytes(tag, SEND, 0, size, nbo);
      ConcatFront(hdr, iov);
      EndpointSend([hdr] + iov, priority, room);
    }

    /** mca_btl_tcp2_put */
    method PostPut(targets: seq<Target>, parts: seq<seq<byte>>, nbo: bool, priority: bool, room: nat)
      requires Valid()
      modifies this
      ensures Valid() && posted == old(posted) + [Frame(Put(targets, parts), nbo)]
      ensures old(wire) <= wire && old(completed) <= completed
    {
      hide Concat, Flat, InOrder, HeaderBytes, Descriptors;
      var iov, size := Gather(parts);
      var hdr, segs := HeaderBytes(TAG_BTL, PUT, |targets| % TWO16, size, nbo), Descriptors(targets);
      ConcatFront(segs, iov);
      ConcatFront(hdr, [segs] + iov);
      EndpointSend([hdr] + ([segs] + iov), priority, room);
    }

    /** One round of the send event: the current fragment is written on, and the next one takes its place. */
    method SendOn(free: nat) returns (done: bool, n: nat)
      requires Valid() && active
      modifies this
      ensures Valid() && posted == old(posted) && old(completed) <= completed
      ensures n == Min(free, |Concat(old(iov))|) <= |old(Pending())|
      ensures wire == old(wire) + old(Pending())[..n] && Pending() == old(Pending())[n..]
      ensures !done ==> n == free
      ensures |queue| <= |old(queue)| && (done ==> |queue| < |old(queue)| || !active)
    {
      hide Concat, Flat;
      ghost var v, rest := iov, Concat(Flat(queue));
      n := Min(free, |Concat(iov)|);
      var left;
      left, done := FragSend(iov, free);
      Split(v, left, old(wire), n);
      WriteOn(old(wire), old(Pending()), 0, Concat(v), rest, n);
      iov := left;
      if done {
        NoEntries(wire);
        completed := completed + 1;
        if queue == [] {
          active := false;
        } else {
          NextInLine(wire, queue, posted, completed);
          FlatCons(queue);
          hide InOrder;
          iov, queue := queue[0], queue[1..];
        }
      }
    }

    /** The send event: the current fragment, then those that wait, until there is no room for all of one. */
    method OnWritable(room: nat)
      requires Valid()
      modifies this
      ensures Valid() && posted == old(posted) && old(completed) <= completed
      ensures wire == old(wire) + old(Pending())[..Min(room, |old(Pending())|)]
      ensures room >= |old(Pending())| ==> Pending() == []
    {
      hide Concat, Flat, InOrder;
      var free: nat := room;
      ghost var pending := Pending();
      NothingPending();
      var done := true;
      while active && done
        invariant Valid() && posted == old(posted) && old(completed) <= completed
        invariant free <= room && room - free <= |pending| && (!done ==> free == 0)
        invariant wire == old(wire) + pending[..room - free] && Pending() == pending[room - free..]
        decreases |queue|, active, done
      {
        var n;
        done, n := SendOn(free);
        WriteOn(old(wire), pending, room - free, pending[room - free..], [], n);
        free := free - n;
      }
    }
  }

  lemma NothingPending()
    ensures Concat([]) + Concat(Flat([])) == []
  {
  }

  /** n bytes of the current fragment go from what is pending to the wire. */
  lemma WriteOn(wire: seq<byte>, pending: seq<byte>, sent: nat, v: seq<byte>, rest: seq<byte>, n: nat)
    requires sent <= |pending| && v + rest == pending[sent..] && n <= |v|
    ensures sent + n <= |pending| && wire + pending[..sent] + v[..n] == wire + pending[..sent + n]
    ensures v[n..] + rest == pending[sent + n..]
  {
    assert pending[sent..][..n] == v[..n] && pending[sent..][n..] == v[n..] + rest;
    assert pending[..sent + n] == pending[..sent] + pending[sent..][..n];
  }

  lemma FlatCons(queue: seq<seq<seq<byte>>>)
    requires queue != []
    ensures Concat(Flat(queue)) == Concat(queue[0]) + Concat(Flat(queue[1..]))
  {
    ConcatCons(Flat(queue));
    assert Flat(queue)[1..] == Flat(queue[1..]);
  }

  lemma NoEntries(wire: seq<byte>)
    ensures wire + Concat([]) == wire
  {
  }

  lemma Split(v: seq<seq<byte>>, left: seq<seq<byte>>, wire: seq<byte>, n: nat)
    requires n <= |Concat(v)| && Concat(left) == Concat(v)[n..]
    ensures wire + Concat(v)[..n] + Concat(left) == wire + Concat(v)
  {
    hide Concat;
    assert Concat(v) == Concat(v)[..n] + Concat(v)[n..];
  }
}

/**
  What mca_btl_tcp2_send and mca_btl_tcp2_put put on the wire: headers and segment descriptors as
  bytes.  The receiver reads back the numbers that were written, in either byte order.
*/
module TcpMessages {
  import opened Collections
  import opened TcpFrames

  const TWO16: nat := 0x1_0000
  const TWO32: nat := 0x1_0000_0000
  const TWO64: nat := 0x1_0000_0000_0000_0000

  /** MCA_BTL_TAG_BTL */
  const TAG_BTL: byte := 0x20

  // ----- numbers as bytes -----

  /** The value of the bytes of a 16-bit field: most significant first in network order, last on the host. */
  lemma TwoBytes(b: seq<byte>)
    requires |b| == 2
    ensures Field(b, true) == b[0] as nat * 0x100 + b[1] as nat
    ensures Field(b, false) == b[1] as nat * 0x100 + b[0] as nat
  {
    NumberOf2(b);
    NumberOf2(Reversed(b));
  }

  lemma FourBytes(b: seq<byte>)
    requires |b| == 4
    ensures Field(b, true) == b[0] as nat * 0x100_0000 + b[1] as nat * 0x1_0000 + b[2] as nat * 0x100 + b[3] as nat
    ensures Field(b, false) == b[3] as nat * 0x100_0000 + b[2] as nat * 0x1_0000 + b[1] as nat * 0x100 + b[0] as nat
  {
    NumberOf4(b);
    NumberOf4(Reversed(b));
  }

  lemma EightBytes(b: seq<byte>)
    requires |b| == 8
    ensures Field(b, true) == Field(b[..4], true) * TWO32 + Field(b[4..], true)
    ensures Field(b, false) == Field(b[4..], false) * TWO32 + Field(b[..4], false)
  {
    NumberOf8(b);
    var r := Reversed(b);
    NumberOf8(r);
    assert r[..4] == Reversed(b[4..]) && r[4..] == Reversed(b[..4]);
  }

  lemma NumberOf2(b: seq<byte>)
    requires |b| == 2
    ensures Number(b) == b[0] as nat * 0x100 + b[1] as nat
  {
    assert b[..1] == [b[0]];
    assert Number([]) == 0 && Number([b[0]]) == b[0] as nat;
  }

  lemma NumberOf4(b: seq<byte>)
    requires |b| == 4
    ensures Number(b) == b[0] as nat * 0x100_0000 + b[1] as nat * 0x1_0000 + b[2] as nat * 0x100 + b[3] as nat
  {
    NumberOf2(b[..2]);
    assert b[..3][..2] == b[..2];
  }

  lemma NumberOf8(b: seq<byte>)
    requires |b| == 8
    ensures Number(b) == Number(b[..4]) * TWO32 + Number(b[4..])
  {
    NumberOf4(b[4..]);
    NumberTo(b, 5);
    NumberTo(b, 6);
    NumberTo(b, 7);
    NumberTo(b, 8);
    assert b[..8] == b;
  }

  lemma NumberTo(b: seq<byte>, i: nat)
    requires 0 < i <= |b|
    ensures Number(b[..i]) == Number(b[..i-1]) * 256 + b[i-1] as nat
  {
    assert b[..i][..i-1] == b[..i-1];
  }

  /** The last len digits of n to the base 256, most significant first. */
  function Digits(n: nat, len: nat): (b: seq<byte>)
    ensures |b| == len
  {
    if len == 0 then [] else Digits(n / 256, len - 1) + [(n % 256) as byte]
  }

  ghost function Range(len: nat): nat {
    if len == 0 then 1 else 256 * Range(len - 1)
  }

  lemma {:induction false} DigitsNumber(n: nat, len: nat)
    requires n < Range(len)
    ensures Number(Digits(n, len)) == n
  {
    if len != 0 {
      DigitsNumber(n / 256, len - 1);
      assert Digits(n, len)[..len-1] == Digits(n / 256, len - 1);
    }
  }

  /** A number in a field of len bytes, as htons and htonl leave it, or as the host has it. */
  function Coded(n: nat, len: nat, nbo: bool): (b: seq<byte>)
    ensures |b| == len
  {
    if nbo then Digits(n, len) else Reversed(Digits(n, len))
  }

  /** Reading a field gives the number that was written into it. */
  lemma FieldReadsBack(n: nat, len: nat, nbo: bool)
    requires n < Range(len)
    ensures Field(Coded(n, len, nbo), nbo) == n
  {
    DigitsNumber(n, len);
    assert Reversed(Reversed(Digits(n, len))) == Digits(n, len);
  }

  lemma Ranges()
    ensures Range(2) == TWO16 && Range(4) == TWO32 && Range(8) == TWO64
  {
    assert Range(0) == 1 && Range(1) == 0x100 && Range(2) == TWO16 && Range(3) == 0x100_0000 && Range(4) == TWO32;
    assert Range(5) == 0x100 * TWO32 && Range(6) == TWO16 * TWO32 && Range(7) == 0x100_0000 * TWO32;
  }

  // ----- headers -----

  /** What the eight bytes of a header mean: the type, a 16-bit count and a 32-bit size in the given byte order. */
  lemma HeaderValues(b: seq<byte>)
    requires |b| >= HDR
    ensures HeaderOf(b, true).kind == HeaderOf(b, false).kind == b[1] as nat
    ensures HeaderOf(b, true).count == b[2] as nat * 0x100 + b[3] as nat
    ensures HeaderOf(b, false).count == b[3] as nat * 0x100 + b[2] as nat
    ensures HeaderOf(b, true).size
            == b[4] as nat * 0x100_0000 + b[5] as nat * 0x1_0000 + b[6] as nat * 0x100 + b[7] as nat
    ensures HeaderOf(b, false).size
            == b[7] as nat * 0x100_0000 + b[6] as nat * 0x1_0000 + b[5] as nat * 0x100 + b[4] as nat
  {
    hide Field;
    TwoBytes(b[2..4]);
    FourBytes(b[4..8]);
  }

  /** The length of a segment is in the last eight bytes of its descriptor, least significant first. */
  lemma SegLenValue(segs: seq<byte>, i: nat)
    requires i * SEG + SEG <= |segs|
    ensures var d := segs[i * SEG..i * SEG + SEG];
            SegLen(segs, i)
            == (d[15] as nat * 0x100_0000 + d[14] as nat * 0x1_0000 + d[13] as nat * 0x100 + d[12] as nat) * TWO32
               + (d[11] as nat * 0x100_0000 + d[10] as nat * 0x1_0000 + d[9] as nat * 0x100 + d[8] as nat)
  {
    hide Field;
    var b := segs[i * SEG + 8..i * SEG + SEG];
    EightBytes(b);
    FourBytes(b[4..]);
    FourBytes(b[..4]);
  }

  function HeaderBytes(tag: byte, kind: nat, count: nat, size: nat, nbo: bool): (b: seq<byte>)
    requires kind < 256
    ensures |b| == HDR
  {
    [tag, kind as byte] + Coded(count, 2, nbo) + Coded(size, 4, nbo)
  }

  lemma HeaderReadsBack(tag: byte, kind: nat, count: nat, size: nat, nbo: bool, rest: seq<byte>)
    requires kind < 256 && count < TWO16 && size < TWO32
    ensures HeaderOf(HeaderBytes(tag, kind, count, size, nbo) + rest, nbo) == Header(kind, count, size)
    ensures (HeaderBytes(tag, kind, count, size, nbo) + rest)[0] == tag
  {
    Ranges();
    FieldReadsBack(count, 2, nbo);
    FieldReadsBack(size, 4, nbo);
    var b := HeaderBytes(tag, kind, count, size, nbo) + rest;
    assert b[2..4] == Coded(count, 2, nbo) && b[4..8] == Coded(size, 4, nbo);
  }

  // ----- messages -----

  /** A segment of the target: its address and its length. */
  datatype Target = Target(addr: nat, len: nat)

  /** What is handed to the transfer layer: data in pieces, and for a put the segments it goes to. */
  datatype Message = Send(tag: byte, parts: seq<seq<byte>>) | Put(targets: seq<Target>, parts: seq<seq<byte>>)

  function Descriptor(t: Target): (b: seq<byte>)
    ensures |b| == SEG
  {
    Coded(t.addr, 8, false) + Coded(t.len, 8, false)
  }

  function Descriptors(targets: seq<Target>): (b: seq<byte>)
    ensures |b| == |targets| * SEG
  {
    if targets == [] then [] else Descriptors(targets[..|targets|-1]) + Descriptor(targets[|targets|-1])
  }

  ghost function Lens(targets: seq<Target>): (r: seq<nat>)
    ensures |r| == |targets| && forall i :: 0 <= i < |r| ==> r[i] == targets[i].len
  {
    seq(|targets|, i requires 0 <= i < |targets| => targets[i].len)
  }

  /** The bytes of a message: the size field has 32 bits, the count field 16. */
  ghost function Frame(msg: Message, nbo: bool): seq<byte> {
    var data := Concat(msg.parts);
    match msg
    case Send(tag, _) => HeaderBytes(tag, SEND, 0, |data| % TWO32, nbo) + data
    case Put(targets, _) =>
      HeaderBytes(TAG_BTL, PUT, |targets| % TWO16, |data| % TWO32, nbo) + (Descriptors(targets) + data)
  }

  /** Count and lengths fit into their fields. */
  ghost predicate Fits(targets: seq<Target>) {
    |targets| < TWO16 && forall i :: 0 <= i < |targets| ==> targets[i].len < TWO64
  }

  /** A message that the receiver takes as one frame. */
  ghost predicate Postable(msg: Message) {
    match msg
    case Send(_, parts) => |Concat(parts)| < TWO32
    case Put(targets, parts) =>
      && Fits(targets) && Total(Lens(targets)) == |Concat(parts)|
      && 1 <= |targets| <= 2 && forall i :: 0 <= i < |targets| ==> targets[i].len > 0
  }

  /** A SEND frame is complete exactly if its size fits into the size field. */
  lemma SendComplete(tag: byte, parts: seq<seq<byte>>, nbo: bool)
    ensures Complete(Frame(Send(tag, parts), nbo), nbo) <==> |Concat(parts)| < TWO32
  {
    hide HeaderBytes, HeaderOf, Concat, SegLens, Total, Descriptors;
    var data := Concat(parts);
    HeaderReadsBack(tag, SEND, 0, |data| % TWO32, nbo, data);
  }

  lemma DescriptorReadsBack(before: seq<byte>, t: Target, i: nat)
    requires |before| == i * SEG && t.len < TWO64
    ensures SegLen(before + Descriptor(t), i) == t.len
  {
    Ranges();
    FieldReadsBack(t.len, 8, false);
    var segs := before + Descriptor(t);
    assert segs[i * SEG + 8..i * SEG + SEG] == Coded(t.len, 8, false);
  }

  lemma SegLensKept(segs: seq<byte>, more: seq<byte>, count: nat)
    requires count * SEG <= |segs|
    ensures SegLens(segs + more, count) == SegLens(segs, count)
  {
    hide Field;
    if count != 0 {
      SegLensKept(segs, more, count - 1);
      var i := count - 1;
      assert (segs + more)[i * SEG + 8..i * SEG + SEG] == segs[i * SEG + 8..i * SEG + SEG];
    }
  }

  /** The receiver reads the lengths that the descriptors were made of. */
  lemma {:induction false} DescriptorsReadBack(targets: seq<Target>)
    requires forall i :: 0 <= i < |targets| ==> targets[i].len < TWO64
    ensures SegLens(Descriptors(targets), |targets|) == Lens(targets)
  {
    hide SegLen, Descriptor;
    if targets != [] {
      var l := |targets| - 1;
      var front := Descriptors(targets[..l]);
      DescriptorsReadBack(targets[..l]);
      DescriptorReadsBack(front, targets[l], l);
      SegLensKept(front, Descriptor(targets[l]), l);
      assert Lens(targets) == Lens(targets[..l]) + [targets[l].len];
    }
  }

  lemma PutReads(targets: seq<Target>, parts: seq<seq<byte>>, nbo: bool)
    requires Fits(targets)
    ensures var f, e := Frame(Put(targets, parts), nbo), HDR + |targets| * SEG;
            && |f| == e + |Concat(parts)| && f[HDR..e] == Descriptors(targets) && f[e..] == Concat(parts)
            && f[0] == TAG_BTL && HeaderOf(f, nbo) == Header(PUT, |targets|, |Concat(parts)| % TWO32)
            && SegLens(f[HDR..e], |targets|) == Lens(targets)
  {
    hide HeaderBytes, HeaderOf, Concat, Descriptors, SegLens, Total;
    var data := Concat(parts);
    HeaderReadsBack(TAG_BTL, PUT, |targets|, |data| % TWO32, nbo, Descriptors(targets) + data);
    DescriptorsReadBack(targets);
    var f, e := Frame(Put(targets, parts), nbo), HDR + |targets| * SEG;
    assert f[HDR..e] == Descriptors(targets) && f[e..] == data;
  }

  /** A PUT frame is complete exactly if the target segments take all the data and no more. */
  lemma PutComplete(targets: seq<Target>, parts: seq<seq<byte>>, nbo: bool)
    requires Fits(targets)
    ensures Complete(Frame(Put(targets, parts), nbo), nbo) <==> Total(Lens(targets)) == |Concat(parts)|
  {
    hide HeaderBytes, HeaderOf, Concat, Descriptors, SegLens, Total;
    PutReads(targets, parts, nbo);
  }

  /** What the receiver reads in a frame: header, descriptors and data are those of the message. */
  ghost predicate Carries(f: seq<byte>, msg: Message, nbo: bool) {
    var data := Concat(msg.parts);
    match msg
    case Send(tag, _) =>
      |f| == HDR + |data| && f[0] == tag && HeaderOf(f, nbo) == Header(SEND, 0, |data|) && f[HDR..] == data
    case Put(targets, _) =>
      var e := HDR + |targets| * SEG;
      && |f| == e + |data| && f[0] == TAG_BTL && HeaderOf(f, nbo).kind == PUT && HeaderOf(f, nbo).count == |targets|
      && SegLens(f[HDR..e], |targets|) == Lens(targets) && f[e..] == data
  }

  /** The frame of a message is one complete frame, and the receiver reads the message in it. */
  lemma FrameCarries(msg: Message, nbo: bool)
    requires Postable(msg)
    ensures var f := Frame(msg, nbo);
            Complete(f, nbo) && FrameOk(f, nbo) && Carries(f, msg, nbo)
  {
    hide HeaderBytes, HeaderOf, Concat, Descriptors, SegLens, Total;
    match msg
    case Send(tag, parts) =>
      SendComplete(tag, parts, nbo);
      HeaderReadsBack(tag, SEND, 0, |Concat(parts)|, nbo, Concat(parts));
      assert Frame(msg, nbo)[HDR..] == Concat(parts);
    case Put(targets, parts) =>
      PutReads(targets, parts, nbo);
      PutComplete(targets, parts, nbo);
  }
}

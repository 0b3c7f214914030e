/**
  The frames of the TCP byte transfer layer: a header, then a payload (SEND) or descriptors
  of the target segments and their data (PUT).  A stream has exactly one framing.
*/
module TcpFrames {
  import opened Collections

  newtype byte = x: int | 0 <= x < 256

  /** Sizes of the header and of a segment descriptor. */
  const HDR: nat := 8
  const SEG: nat := 16

  const SEND: nat := 1
  const PUT: nat := 2

  datatype Header = Header(kind: nat, count: nat, size: nat)

  /** Bytes as a number, most significant first. */
  function Number(b: seq<byte>): nat {
    if b == [] then 0 else Number(b[..|b|-1]) * 256 + b[|b|-1] as nat
  }

  /** In network order if nbo, else in the order of a little-endian host. */
  function Field(b: seq<byte>, nbo: bool): nat {
    Number(if nbo then b else Reversed(b))
  }

  function HeaderOf(b: seq<byte>, nbo: bool): Header
    requires |b| >= HDR
  {
    Header(b[1] as nat, Field(b[2..4], nbo), Field(b[4..8], nbo))
  }

  /** The length in the i-th of the segment descriptors. */
  function SegLen(segs: seq<byte>, i: nat): nat
    requires i * SEG + SEG <= |segs|
  {
    Field(segs[i * SEG + 8..i * SEG + SEG], false)
  }

  function SegLens(segs: seq<byte>, count: nat): (r: seq<nat>)
    requires count * SEG <= |segs|
    ensures |r| == count
  {
    if count == 0 then [] else SegLens(segs, count - 1) + [SegLen(segs, count - 1)]
  }

  ghost function Total(s: seq<nat>): nat {
    if s == [] then 0 else s[0] + Total(s[1..])
  }

  /** How long the first frame of s is, as far as s tells. */
  ghost function Need(s: seq<byte>, nbo: bool): (r: nat)
    ensures r >= HDR
  {
    if |s| < HDR then HDR else
      var h := HeaderOf(s, nbo);
      var e := HDR + h.count * SEG;
      if h.kind == SEND then HDR + h.size
      else if h.kind == PUT then
        if |s| < e then e else e + Total(SegLens(s[HDR..e], h.count))
      else HDR
  }

  /** PUT frames have one or two segments, and none is empty. */
  ghost predicate FrameOk(s: seq<byte>, nbo: bool) {
    |s| >= HDR ==>
      var h := HeaderOf(s, nbo);
      h.kind == PUT ==> 1 <= h.count <= 2 && (|s| >= HDR + h.count * SEG ==>
        NoneEmpty(SegLens(s[HDR..HDR + h.count * SEG], h.count)))
  }

  ghost predicate NoneEmpty(lens: seq<nat>) {
    forall i :: 0 <= i < |lens| ==> lens[i] > 0
  }

  ghost predicate Complete(f: seq<byte>, nbo: bool) {
    |f| == Need(f, nbo)
  }

  ghost predicate Partial(f: seq<byte>, nbo: bool) {
    |f| < Need(f, nbo)
  }

  /** All frames of s are of the kinds above. */
  ghost predicate StreamOk(s: seq<byte>, nbo: bool)
    decreases |s|
  {
    FrameOk(s, nbo) && (Need(s, nbo) <= |s| ==> StreamOk(s[Need(s, nbo)..], nbo))
  }

  /** The whole stream parsed at once. */
  ghost function Frames(s: seq<byte>, nbo: bool): seq<seq<byte>>
    decreases |s|
  {
    if Need(s, nbo) > |s| then [] else [s[..Need(s, nbo)]] + Frames(s[Need(s, nbo)..], nbo)
  }

  function Concat(fs: seq<seq<byte>>): seq<byte> {
    if fs == [] then [] else Concat(fs[..|fs|-1]) + fs[|fs|-1]
  }

  // ----- frames are found the same way in every longer stream -----

  lemma HeaderSame(f: seq<byte>, s: seq<byte>, nbo: bool)
    requires |f| >= HDR && f <= s
    ensures HeaderOf(s, nbo) == HeaderOf(f, nbo)
  {
    hide Field;
    assert s[2..4] == f[2..4] && s[4..8] == f[4..8];
  }

  /** More bytes never change the length once it is known. */
  lemma NeedSame(f: seq<byte>, s: seq<byte>, nbo: bool)
    requires f <= s
    ensures Need(f, nbo) <= |f| ==> Need(s, nbo) == Need(f, nbo)
    ensures Need(f, nbo) <= Need(s, nbo)
    ensures FrameOk(s, nbo) ==> FrameOk(f, nbo)
  {
    hide HeaderOf, SegLens, Total, NoneEmpty;
    if |f| >= HDR {
      HeaderSame(f, s, nbo);
      var e := HDR + HeaderOf(f, nbo).count * SEG;
      if |f| >= e { assert f[HDR..e] == s[HDR..e]; }
    }
  }

  /** The first frame of a stream is complete. */
  lemma FirstComplete(s: seq<byte>, nbo: bool)
    requires Need(s, nbo) <= |s|
    ensures Complete(s[..Need(s, nbo)], nbo)
  {
    hide HeaderOf, SegLens, Total;
    var f := s[..Need(s, nbo)];
    HeaderSame(f, s, nbo);
    var e := HDR + HeaderOf(s, nbo).count * SEG;
    if HeaderOf(s, nbo).kind == PUT { assert f[HDR..e] == s[HDR..e]; }
  }

  /** A complete frame at the start of a stream is its first frame. */
  lemma FrameFirst(f: seq<byte>, rest: seq<byte>, nbo: bool)
    requires Complete(f, nbo)
    ensures Need(f + rest, nbo) == |f| && (f + rest)[..|f|] == f && (f + rest)[|f|..] == rest
    ensures Frames(f + rest, nbo) == [f] + Frames(rest, nbo)
    ensures StreamOk(f + rest, nbo) ==> StreamOk(rest, nbo)
  {
    hide HeaderOf, SegLens, Total, FrameOk;
    NeedSame(f, f + rest, nbo);
  }

  lemma ConcatCons(fs: seq<seq<byte>>)
    requires fs != []
    ensures Concat(fs) == fs[0] + Concat(fs[1..])
  {
    if |fs| > 1 {
      var l := |fs| - 1;
      ConcatCons(fs[..l]);
      assert fs[..l][1..] == fs[1..][..l-1];
    }
  }

  lemma NoFrame(rest: seq<byte>, nbo: bool)
    requires Partial(rest, nbo)
    ensures Frames(Concat([]) + rest, nbo) == []
  {
    assert Concat([]) + rest == rest;
  }

  /** Complete frames followed by an incomplete one are the only framing of their concatenation. */
  lemma {:induction false} FramingIsUnique(fs: seq<seq<byte>>, rest: seq<byte>, nbo: bool)
    requires (forall f :: f in fs ==> Complete(f, nbo)) && Partial(rest, nbo)
    ensures Frames(Concat(fs) + rest, nbo) == fs
  {
    hide Frames, StreamOk, Complete, Partial, Concat;
    if fs == [] {
      NoFrame(rest, nbo);
    } else {
      ConcatCons(fs);
      FramingIsUnique(fs[1..], rest, nbo);
      assert fs[0] in fs;
      var tail := Concat(fs[1..]) + rest;
      assert Concat(fs) + rest == fs[0] + tail;
      FrameFirst(fs[0], tail, nbo);
      assert fs == [fs[0]] + fs[1..];
    }
  }

  lemma FramesStep(s: seq<byte>, nbo: bool)
    requires Need(s, nbo) <= |s|
    ensures var f, tail := s[..Need(s, nbo)], s[Need(s, nbo)..];
            Complete(f, nbo) && s == f + tail && |tail| < |s| && Frames(s, nbo) == [f] + Frames(tail, nbo)
  {
    hide HeaderOf, SegLens, Total, Need;
    FirstComplete(s, nbo);
    assert s == s[..Need(s, nbo)] + s[Need(s, nbo)..];
  }

  lemma ConcatFront(f: seq<byte>, fs: seq<seq<byte>>)
    ensures Concat([f] + fs) == f + Concat(fs)
  {
    ConcatCons([f] + fs);
    assert ([f] + fs)[1..] == fs;
  }

  /** Every stream is the concatenation of its frames, all complete, and an incomplete one. */
  lemma {:induction false} FramesCover(s: seq<byte>, nbo: bool) returns (rest: seq<byte>)
    ensures s == Concat(Frames(s, nbo)) + rest && Partial(rest, nbo)
    ensures forall f :: f in Frames(s, nbo) ==> Complete(f, nbo)
    decreases |s|
  {
    hide Need, Complete;
    if Need(s, nbo) > |s| {
      rest := s;
    } else {
      FramesStep(s, nbo);
      var f, tail := s[..Need(s, nbo)], s[Need(s, nbo)..];
      rest := FramesCover(tail, nbo);
      ConcatFront(f, Frames(tail, nbo));
      hide Frames, Concat;
      assert s == f + (Concat(Frames(tail, nbo)) + rest);
    }
  }
}

/** Cutting a byte stream into length-prefixed frames, and what the replies in them add up to. */
module Deframing {
  import opened Bytes
  import opened MsgPack

  const HEADER := 5

  /** tp_read_payload on the five header bytes: the size of the frame, header included, or -1. */
  function ReadPayload(h: seq<byte>): (n: int)
    requires |h| == HEADER
    ensures n == -1 || HEADER <= n < TWO_32 + HEADER
  {
    match ReadHead(h, 0)
    case Some((HUint(n), _)) => n + 5
    case _ => -1
  }

  /** What the beginning of a stream holds: a whole frame, too little, or no frame at all. */
  datatype Cut = Wait | Frame(size: nat) | Bad

  function FirstCut(s: seq<byte>): (c: Cut)
    ensures c.Frame? ==> HEADER <= c.size <= |s|
  {
    if |s| < HEADER then Wait
    else
      var n := ReadPayload(s[..HEADER]);
      if n <= 0 then Bad else if |s| < n then Wait else Frame(n)
  }

  /** All whole frames of a stream, the bytes behind them, and whether those begin with no frame. */
  datatype Frames = Frames(whole: seq<seq<byte>>, tail: seq<byte>, bad: bool)

  function Deframe(s: seq<byte>): Frames
    decreases |s|
  {
    match FirstCut(s)
    case Wait => Frames([], s, false)
    case Bad => Frames([], s, true)
    case Frame(n) =>
      var rest := Deframe(s[n..]);
      rest.(whole := [s[..n]] + rest.whole)
  }

  /** A cut depends on the beginning of the stream alone. */
  lemma CutStays(s: seq<byte>, t: seq<byte>)
    ensures !FirstCut(s).Wait? ==> FirstCut(s + t) == FirstCut(s)
  {
    if |s| >= HEADER {
      assert (s + t)[..HEADER] == s[..HEADER];
    }
  }

  lemma ConcatAssociates<T>(a: seq<T>, b: seq<T>, c: seq<T>)
    ensures a + b + c == a + (b + c)
  {
  }

  lemma DeframeFirst(s: seq<byte>)
    ensures FirstCut(s).Frame? ==>
      var n := FirstCut(s).size;
      Deframe(s) == Deframe(s[n..]).(whole := [s[..n]] + Deframe(s[n..]).whole)
    ensures !FirstCut(s).Frame? ==> Deframe(s) == Frames([], s, FirstCut(s).Bad?)
  {
    hide FirstCut;
  }

  /** Split invariance: the frames of a stream do not depend on where it is cut in two. */
  lemma {:induction false} DeframeConcat(s: seq<byte>, t: seq<byte>)
    requires !Deframe(s).bad
    ensures var d := Deframe(Deframe(s).tail + t);
            Deframe(s + t) == Frames(Deframe(s).whole + d.whole, d.tail, d.bad)
    decreases |s|
  {
    hide FirstCut, Deframe;
    CutStays(s, t);
    DeframeFirst(s);
    if FirstCut(s).Frame? {
      var n := FirstCut(s).size;
      DeframeFirst(s + t);
      DeframeConcat(s[n..], t);
      assert (s + t)[n..] == s[n..] + t && (s + t)[..n] == s[..n];
      ConcatAssociates([s[..n]], Deframe(s[n..]).whole, Deframe(Deframe(s).tail + t).whole);
    } else {
      assert [] + Deframe(s + t).whole == Deframe(s + t).whole;
    }
  }

  /** No frame can begin behind bytes that begin none. */
  lemma {:induction false} BadStays(s: seq<byte>, t: seq<byte>)
    requires Deframe(s).bad
    ensures Deframe(s + t).bad
    decreases |s|
  {
    hide FirstCut, Deframe;
    CutStays(s, t);
    DeframeFirst(s);
    DeframeFirst(s + t);
    if FirstCut(s).Frame? {
      var n := FirstCut(s).size;
      BadStays(s[n..], t);
      assert (s + t)[n..] == s[n..] + t;
    }
  }

  // ------------------------------------------------------ well-formed streams

  /** A frame as Tarantool sends it: 0xce, the length of the rest in four bytes, the rest. */
  predicate IsFrame(f: seq<byte>) {
    && HEADER <= |f| < TWO_32
    && f[..HEADER] == [0xce] + BE32(|f| - HEADER)
  }

  function Concat(fs: seq<seq<byte>>): seq<byte> {
    if fs == [] then [] else fs[0] + Concat(fs[1..])
  }

  lemma {:induction false} ConcatSplit(a: seq<seq<byte>>, b: seq<seq<byte>>)
    ensures Concat(a + b) == Concat(a) + Concat(b)
    decreases |a|
  {
    if a == [] {
      assert a + b == b;
    } else {
      assert (a + b)[0] == a[0] && (a + b)[1..] == a[1..] + b;
      ConcatSplit(a[1..], b);
    }
  }

  lemma FrameIsCut(f: seq<byte>, t: seq<byte>)
    requires IsFrame(f)
    ensures FirstCut(f + t) == Frame(|f|)
  {
    assert (f + t)[..HEADER] == f[..HEADER];
    var h := f[..HEADER];
    assert h[0..HEADER] == h;
    ReadWideHead(h, 0, 0xce, |f| - HEADER);
  }

  /** A concatenation of frames is cut into exactly those frames. */
  lemma {:induction false} DeframeFrames(fs: seq<seq<byte>>)
    requires forall i :: 0 <= i < |fs| ==> IsFrame(fs[i])
    ensures Deframe(Concat(fs)) == Frames(fs, [], false)
    decreases |fs|
  {
    if fs != [] {
      var f, rest := fs[0], Concat(fs[1..]);
      DeframeFrames(fs[1..]);
      FrameIsCut(f, rest);
      assert (f + rest)[|f|..] == rest && (f + rest)[..|f|] == f;
    }
  }

  // ----------------------------------------------------------------- replies

  /** Turns a frame into the text of its reply; None when transcoding fails. */
  type Replier = seq<byte> -> Option<seq<byte>>

  const OPEN: seq<byte> := [0x5b]
  const NEXT: seq<byte> := [0x2c]
  const CLOSE: seq<byte> := [0x5d]

  /** Bytes sent to the client, replies of the batch still to come, its size, and u->length. */
  datatype Sink = Sink(out: seq<byte>, restBatch: int, batch: int, length: int)

  /** What ngx_http_tnt_send_reply writes for one reply text. */
  function Dressed(k: Sink, text: seq<byte>): seq<byte> {
    (if k.batch > 0 && k.restBatch == k.batch then OPEN else [])
    + text
    + if k.batch <= 0 then []
      else if k.restBatch == 1 then CLOSE
      else if k.restBatch <= k.batch then NEXT
      else []
  }

  /** One frame delivered: its reply is sent, the batch counts down. */
  function Deliver(reply: Replier, k: Sink, frame: seq<byte>): Sink {
    var out := if reply(frame).Some? then k.out + Dressed(k, reply(frame).value) else k.out;
    if k.restBatch - 1 <= 0 then Sink(out, 0, 0, 0)
    else Sink(out, k.restBatch - 1, k.batch, k.length)
  }

  function DeliverAll(reply: Replier, k: Sink, frames: seq<seq<byte>>): Sink
    decreases |frames|
  {
    if frames == [] then k else DeliverAll(reply, Deliver(reply, k, frames[0]), frames[1..])
  }

  lemma {:induction false} DeliverConcat(reply: Replier, k: Sink, a: seq<seq<byte>>, b: seq<seq<byte>>)
    ensures DeliverAll(reply, k, a + b) == DeliverAll(reply, DeliverAll(reply, k, a), b)
    decreases |a|
  {
    if a == [] {
      assert a + b == b;
    } else {
      assert (a + b)[0] == a[0] && (a + b)[1..] == a[1..] + b;
      DeliverConcat(reply, Deliver(reply, k, a[0]), a[1..], b);
    }
  }

  /** Every frame has a reply text. */
  predicate AllReply(reply: Replier, frames: seq<seq<byte>>) {
    forall i :: 0 <= i < |frames| ==> reply(frames[i]).Some?
  }

  /** The reply texts, separated by commas. */
  function Joined(reply: Replier, frames: seq<seq<byte>>): seq<byte>
    requires AllReply(reply, frames)
  {
    if frames == [] then []
    else if |frames| == 1 then reply(frames[0]).value
    else reply(frames[0]).value + NEXT + Joined(reply, frames[1..])
  }

  /** The sink at the start of a request whose transcoding counted the given number of calls. */
  function Started(calls: nat): Sink {
    if calls > 1 then Sink([], calls, calls, -1) else Sink([], 0, 0, -1)
  }

  /** Behind the first reply of a batch: each further one follows its comma, the last closes the array. */
  lemma {:induction false} BatchGoesOn(reply: Replier, k: Sink, frames: seq<seq<byte>>)
    requires AllReply(reply, frames) && |frames| == k.restBatch && 0 < k.restBatch < k.batch
    ensures DeliverAll(reply, k, frames) == Sink(k.out + Joined(reply, frames) + CLOSE, 0, 0, 0)
    decreases |frames|
  {
    var text, tail := reply(frames[0]).value, frames[1..];
    LaterInBatch(k, text);
    if tail == [] {
      ConcatAssociates(k.out, text, CLOSE);
    } else {
      var k1 := Deliver(reply, k, frames[0]);
      BatchGoesOn(reply, k1, tail);
      hide DeliverAll;
      assert Joined(reply, frames) == text + NEXT + Joined(reply, tail);
      hide Joined, Dressed;
      Regroup(k.out, text, NEXT, Joined(reply, tail), CLOSE);
      ConcatAssociates(k.out, text, NEXT);
    }
  }

  lemma LaterInBatch(k: Sink, text: seq<byte>)
    requires 0 < k.restBatch < k.batch
    ensures Dressed(k, text) == text + if k.restBatch == 1 then CLOSE else NEXT
  {
    assert [] + text == text;
  }

  /** The replies of a batch of two or more calls come out as one JSON array. */
  lemma BatchIsArray(reply: Replier, frames: seq<seq<byte>>)
    requires AllReply(reply, frames) && |frames| >= 2
    ensures DeliverAll(reply, Started(|frames|), frames) == Sink(OPEN + Joined(reply, frames) + CLOSE, 0, 0, 0)
  {
    var k, text, tail := Started(|frames|), reply(frames[0]).value, frames[1..];
    var k1 := Deliver(reply, k, frames[0]);
    FirstOfBatch(k, text);
    assert [] + (OPEN + text + NEXT) == OPEN + text + NEXT;
    BatchGoesOn(reply, k1, tail);
    hide DeliverAll;
    assert Joined(reply, frames) == text + NEXT + Joined(reply, tail);
    hide Joined;
    Regroup(OPEN, text, NEXT, Joined(reply, tail), CLOSE);
  }

  lemma FirstOfBatch(k: Sink, text: seq<byte>)
    requires k.restBatch == k.batch > 1
    ensures Dressed(k, text) == OPEN + text + NEXT
  {
  }

  lemma Regroup(a: seq<byte>, b: seq<byte>, c: seq<byte>, d: seq<byte>, e: seq<byte>)
    ensures a + b + c + d + e == a + (b + c + d) + e
  {
  }

  /** u->length becomes 0 with the last reply of the batch and not before, whatever the replies. */
  lemma {:induction false} LengthCountsDown(reply: Replier, calls: nat, frames: seq<seq<byte>>)
    requires calls > 1 && |frames| <= calls
    ensures DeliverAll(reply, Started(calls), frames).length == (if |frames| == calls then 0 else -1)
    ensures DeliverAll(reply, Started(calls), frames).restBatch == calls - |frames|
    decreases |frames|
  {
    if frames != [] {
      var n := |frames| - 1;
      assert frames == frames[..n] + [frames[n]];
      LengthCountsDown(reply, calls, frames[..n]);
      DeliverConcat(reply, Started(calls), frames[..n], [frames[n]]);
      BatchStays(reply, Started(calls), frames[..n]);
    }
  }

  lemma {:induction false} BatchStays(reply: Replier, k: Sink, frames: seq<seq<byte>>)
    requires |frames| < k.restBatch
    ensures DeliverAll(reply, k, frames).batch == k.batch
    decreases |frames|
  {
    if frames != [] {
      BatchStays(reply, Deliver(reply, k, frames[0]), frames[1..]);
    }
  }

  /** Without a batch the first reply goes out bare and ends the response. */
  lemma SingleIsBare(reply: Replier, calls: nat, frame: seq<byte>)
    requires calls <= 1 && reply(frame).Some?
    ensures DeliverAll(reply, Started(calls), [frame]) == Sink(reply(frame).value, 0, 0, 0)
  {
    assert [frame][1..] == [];
  }
}

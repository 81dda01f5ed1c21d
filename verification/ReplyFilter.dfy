/** ngx_http_tnt_filter: rebuilds reply frames from network buffers and sends their replies. */
module ReplyFilter {
  import opened Bytes
  import opened Deframing

  datatype State = READ_PAYLOAD | READ_BODY | SEND_REPLY

  datatype Rc = NGX_OK | NGX_AGAIN | NGX_ERROR

  class Filter {
    const reply: Replier
    /** payload.mem, payload.p - payload.mem. */
    const mem: array<byte>
    var payloadPos: nat
    var state: State
    var rest: int
    var payloadSize: int
    /** tp_cache: its buffer and pos - start. */
    var cache: array?<byte>
    var cachePos: nat
    /** The buffers handed to ngx_http_tnt_output, rest_batch_size, batch_size, u->length. */
    var out: seq<byte>
    var restBatch: int
    var batch: int
    var length: int
    ghost var delivered: seq<seq<byte>>

    /** Between calls: a header not yet complete, or a body with bytes to come. */
    ghost predicate Valid()
      reads this, mem, cache
    {
      && mem.Length == 6
      && (state == READ_PAYLOAD ==>
            payloadPos < HEADER && cache == null && rest == 0 && payloadSize == 0)
      && (state == READ_BODY ==>
            && payloadPos == 0
            && cache != null && cache != mem
            && payloadSize == cache.Length
            && HEADER <= cachePos
            && cachePos + rest == payloadSize && rest > 0
            && ReadPayload(cache[..HEADER]) == payloadSize)
      && state != SEND_REPLY
    }

    /** The bytes read since the last frame was complete. */
    ghost function Pending(): seq<byte>
      requires Valid()
      reads this, mem, cache
    {
      if state == READ_PAYLOAD then mem[..payloadPos] else cache[..cachePos]
    }

    ghost function Client(): Sink
      reads `out, `restBatch, `batch, `length
    {
      Sink(out, restBatch, batch, length)
    }

    /** A request was sent whose transcoding counted calls; ngx_http_tnt_filter_init. */
    constructor (reply: Replier, calls: nat)
      ensures Valid() && fresh(mem) && Pending() == [] && Client() == Started(calls) && delivered == []
      ensures this.reply == reply
    {
      this.reply := reply;
      mem := new byte[6](_ => 0);
      payloadPos, state, rest, payloadSize, cache, cachePos := 0, READ_PAYLOAD, 0, 0, null, 0;
      out, length, delivered := [], -1, [];
      restBatch, batch := if calls > 1 then calls else 0, if calls > 1 then calls else 0;
    }

    method Copy(dst: array<byte>, at: nat, src: seq<byte>)
      requires at + |src| <= dst.Length
      modifies dst
      ensures dst[..] == Put(old(dst[..]), at, src)
    {
      for k := 0 to |src|
        invariant dst[..] == Put(old(dst[..]), at, src[..k])
      {
        dst[at + k] := src[k];
      }
      assert src[..|src|] == src;
    }

    /** ngx_http_tnt_send_reply on the complete frame. */
    method SendReply(frame: seq<byte>) returns (rc: Rc)
      modifies `out
      ensures out == if reply(frame).Some? then old(out) + Dressed(old(Client()), reply(frame).value) else old(out)
      ensures rc == if reply(frame).Some? then NGX_OK else NGX_ERROR
    {
      var output := [];
      if batch > 0 && restBatch == batch {
        output := output + OPEN;
      }
      var text := reply(frame);
      if text.None? {
        rc := NGX_ERROR;
        return;
      }
      output := output + text.value;
      if batch > 0 {
        if restBatch == 1 {
          output := output + CLOSE;
        } else if restBatch <= batch {
          output := output + NEXT;
        }
      }
      assert output == Dressed(Client(), text.value);
      out := out + output;
      rc := NGX_OK;
    }

    /** The header block of ngx_http_tnt_filter_reply: up to five bytes, then the size. */
    method ReadHeader(b: seq<byte>, pos: nat) returns (rc: Rc, pos': nat)
      requires Valid() && state == READ_PAYLOAD && pos < |b|
      modifies this, mem
      ensures pos <= pos' <= |b| && Client() == old(Client()) && delivered == old(delivered)
      ensures rc != NGX_AGAIN ==> cache == old(cache)
      ensures var s := old(Pending()) + b[pos..];
        if |s| < HEADER then
          rc == NGX_OK && Valid() && state == READ_PAYLOAD && pos' == |b| && Pending() == s
        else if ReadPayload(s[..HEADER]) <= 0 then rc == NGX_ERROR
        else
          && rc == NGX_AGAIN && Body()
          && fresh(cache) && payloadSize == ReadPayload(s[..HEADER])
          && cachePos == HEADER && cache[..HEADER] == s[..HEADER] && b[pos'..] == s[HEADER..]
    {
      hide ReadPayload;
      pos' := FillHeader(b, pos);
      if payloadPos < HEADER {
        rc := NGX_OK;
        return;
      }
      rc := BeginBody();
    }

    /** The copy into payload.mem, up to five bytes. */
    method FillHeader(b: seq<byte>, pos: nat) returns (pos': nat)
      requires Valid() && state == READ_PAYLOAD && pos < |b|
      modifies `payloadPos, mem
      ensures var s := old(Pending()) + b[pos..];
        && payloadPos == (if |s| < HEADER then |s| else HEADER)
        && pos <= pos' <= |b| && mem[..payloadPos] == s[..payloadPos] && b[pos'..] == s[payloadPos..]
    {
      ghost var s := Pending() + b[pos..];
      var n := if HEADER - payloadPos < |b| - pos then HEADER - payloadPos else |b| - pos;
      Copy(mem, payloadPos, b[pos..pos + n]);
      assert mem[..payloadPos + n] == s[..payloadPos + n];
      payloadPos := payloadPos + n;
      pos' := pos + n;
      assert b[pos'..] == s[payloadPos..];
    }

    /** The header is complete: its size is read, a buffer for the frame is made. */
    method BeginBody() returns (rc: Rc)
      requires mem.Length == 6 && state == READ_PAYLOAD && payloadPos == HEADER
      modifies this
      ensures Client() == old(Client()) && delivered == old(delivered)
      ensures var n := ReadPayload(mem[..HEADER]);
        if n <= 0 then rc == NGX_ERROR && cache == old(cache)
        else
          && rc == NGX_AGAIN && Body() && fresh(cache) && payloadSize == n
          && cachePos == HEADER && cache[..HEADER] == mem[..HEADER]
    {
      hide ReadPayload;
      payloadSize := ReadPayload(mem[..HEADER]);
      if payloadSize <= 0 {
        rc := NGX_ERROR;
        return;
      }
      rest := payloadSize - HEADER;
      var buffer := new byte[payloadSize](_ => 0);
      Copy(buffer, 0, mem[..HEADER]);
      assert buffer[..HEADER] == mem[..HEADER];
      cache, cachePos, payloadPos, state := buffer, HEADER, 0, READ_BODY;
      rc := NGX_AGAIN;
    }

    /** In the middle of a call: a body under way, perhaps with nothing left to read. */
    ghost predicate Body()
      reads this, mem, cache
    {
      && mem.Length == 6 && state == READ_BODY && payloadPos == 0
      && cache != null && cache != mem
      && payloadSize == cache.Length
      && HEADER <= cachePos
      && cachePos + rest == payloadSize && rest >= 0
      && ReadPayload(cache[..HEADER]) == payloadSize
    }

    /** The body block: as many of the bytes at hand as the frame still needs. */
    method ReadBody(b: seq<byte>, pos: nat) returns (pos': nat)
      requires Body() && pos <= |b|
      modifies this, cache
      ensures pos <= pos' <= |b| && Client() == old(Client()) && delivered == old(delivered)
      ensures cache == old(cache) && payloadSize == old(payloadSize) && mem.Length == 6 && payloadPos == 0
      ensures var s := old(cache[..cachePos]) + b[pos..];
        if |s| < payloadSize then
          Valid() && state == READ_BODY && pos' == |b| && Pending() == s
        else
          state == SEND_REPLY && rest == 0 && cache != null && cache[..] == s[..payloadSize]
            && b[pos'..] == s[payloadSize..]
    {
      hide ReadPayload;
      ghost var s := cache[..cachePos] + b[pos..];
      ghost var head := cache[..HEADER];
      var bytes := |b| - pos;
      var left, readOn := rest - bytes, bytes;
      if left < 0 {
        left := -left;
        readOn := bytes - left;
        rest := 0;
        state := SEND_REPLY;
      } else if left == 0 {
        state := SEND_REPLY;
        rest := 0;
      } else {
        rest := rest - bytes;
      }
      Copy(cache, cachePos, b[pos..pos + readOn]);
      assert cache[..cachePos + readOn] == s[..cachePos + readOn];
      assert cache[..HEADER] == head;
      cachePos := cachePos + readOn;
      pos' := pos + readOn;
      assert b[pos'..] == s[cachePos..];
    }

    /** The last block: the reply is sent, the batch counts down, the next header is awaited. */
    method Finish(more: bool) returns (rc: Rc)
      requires state == SEND_REPLY && mem.Length == 6 && payloadPos == 0 && cache != null
      modifies this
      ensures Valid() && cache == null && Pending() == []
      ensures delivered == old(delivered) + [old(cache[..])]
      ensures Client() == Deliver(reply, old(Client()), old(cache[..]))
      ensures rc == if more then NGX_AGAIN else if reply(old(cache[..])).Some? then NGX_OK else NGX_ERROR
    {
      hide Dressed, ReadPayload;
      rc := SendReply(cache[..]);
      delivered := delivered + [cache[..]];
      state, rest, payloadSize := READ_PAYLOAD, 0, 0;
      restBatch := restBatch - 1;
      if restBatch <= 0 {
        length, restBatch, batch := 0, 0, 0;
      }
      cache := null;
      if more {
        rc := NGX_AGAIN;
      }
    }

    /** The body block and the last block, on a body under way. */
    method FilterBody(b: seq<byte>, pos: nat) returns (rc: Rc, pos': nat)
      requires Body() && pos <= |b|
      modifies this, cache
      ensures pos <= pos' <= |b| && Valid() && (cache == null || cache == old(cache))
      ensures var s, n := old(cache[..cachePos]) + b[pos..], old(payloadSize);
        if |s| < n then
          && rc == NGX_OK && pos' == |b| && Pending() == s
          && Client() == old(Client()) && delivered == old(delivered)
        else
          && Pending() == [] && b[pos'..] == s[n..]
          && delivered == old(delivered) + [s[..n]]
          && Client() == Deliver(reply, old(Client()), s[..n])
          && rc == if pos' < |b| then NGX_AGAIN else if reply(s[..n]).Some? then NGX_OK else NGX_ERROR
    {
      hide ReadPayload, Deliver;
      pos' := ReadBody(b, pos);
      rc := NGX_OK;
      if state == SEND_REPLY {
        rc := Finish(|b| - pos' > 0);
      }
    }

    /** ngx_http_tnt_filter_reply: at most one frame is completed and sent. */
    method FilterReply(b: seq<byte>, pos: nat) returns (rc: Rc, pos': nat)
      requires Valid() && pos < |b|
      modifies this, mem, cache
      ensures cache == null || cache == old(cache) || fresh(cache)
      ensures pos <= pos' <= |b|
      ensures var s := old(Pending()) + b[pos..];
        match FirstCut(s)
        case Wait =>
          && Valid() && rc == NGX_OK && pos' == |b| && Pending() == s
          && Client() == old(Client()) && delivered == old(delivered)
        case Bad => rc == NGX_ERROR && Client() == old(Client()) && delivered == old(delivered)
        case Frame(n) =>
          && Valid() && pos < pos' && Pending() == [] && b[pos'..] == s[n..]
          && delivered == old(delivered) + [s[..n]]
          && Client() == Deliver(reply, old(Client()), s[..n])
          && rc == if pos' < |b| then NGX_AGAIN else if reply(s[..n]).Some? then NGX_OK else NGX_ERROR
    {
      hide ReadPayload, Deliver;
      ghost var s := Pending() + b[pos..];
      pos' := pos;
      if state == READ_PAYLOAD {
        rc, pos' := ReadHeader(b, pos);
        if rc != NGX_AGAIN {
          return;
        }
      }
      ghost var had := cache[..cachePos];
      assert had + b[pos'..] == s;
      assert s[..HEADER] == had[..HEADER] == cache[..HEADER];
      assert FirstCut(s) == if |s| < payloadSize then Wait else Frame(payloadSize);
      assert |s| >= payloadSize ==> |s[payloadSize..]| < |b[pos..]|;
      rc, pos' := FilterBody(b, pos');
    }

    /** ngx_http_tnt_filter on the bytes of one read: every frame they complete, in order. */
    method FilterBuffer(b: seq<byte>) returns (rc: Rc)
      requires Valid() && b != []
      modifies this, mem, cache
      ensures cache == null || cache == old(cache) || fresh(cache)
      ensures var d := Deframe(old(Pending()) + b);
        && delivered == old(delivered) + d.whole
        && Client() == DeliverAll(reply, old(Client()), d.whole)
        && (d.bad ==> rc == NGX_ERROR)
        && (!d.bad ==> Valid() && Pending() == d.tail)
        && (!d.bad && AllReply(reply, d.whole) ==> rc == NGX_OK)
    {
      hide FirstCut, Deframe, Deliver, DeliverAll, AllReply;
      ghost var k, all := Client(), Deframe(Pending() + b);
      ghost var s, got := Pending() + b, [];
      var pos := 0;
      assert b[0..] == b;
      Undelivered(reply, k, all);
      rc := NGX_AGAIN;
      while rc == NGX_AGAIN
        invariant rc == NGX_AGAIN ==> pos < |b| && Valid() && s == Pending() + b[pos..]
        invariant rc != NGX_AGAIN ==> Deframe(s).whole == []
        invariant rc != NGX_AGAIN && !all.bad ==> Valid() && Pending() == s
        invariant rc != NGX_AGAIN && !all.bad && AllReply(reply, all.whole) ==> rc == NGX_OK
        invariant rc != NGX_AGAIN && all.bad ==> rc == NGX_ERROR
        invariant cache == null || cache == old(cache) || fresh(cache)
        invariant all == Deframe(s).(whole := got + Deframe(s).whole)
        invariant delivered == old(delivered) + got && Client() == DeliverAll(reply, k, got)
        invariant rc == NGX_AGAIN || rc == NGX_OK || rc == NGX_ERROR
        decreases if rc == NGX_AGAIN then 1 + |b| - pos else 0
      {
        DeframeFirst(s);
        rc, pos := FilterReply(b, pos);
        if FirstCut(s).Frame? {
          ghost var n := FirstCut(s).size;
          FrameDelivered(reply, k, got, s, all);
          got, s := got + [s[..n]], s[n..];
          assert rc != NGX_AGAIN ==> s == [];
          EmptyStream();
        }
      }
      assert got + [] == got;
      TailStays(s);
    }
  }

  lemma Undelivered(reply: Replier, k: Sink, all: Frames)
    ensures DeliverAll(reply, k, []) == k && [] + all.whole == all.whole
  {
  }

  /** One more frame delivered: it moves from the frames to come to the frames that came. */
  lemma FrameDelivered(reply: Replier, k: Sink, got: seq<seq<byte>>, s: seq<byte>, all: Frames)
    requires FirstCut(s).Frame? && all == Deframe(s).(whole := got + Deframe(s).whole)
    ensures var n := FirstCut(s).size;
      && all == Deframe(s[n..]).(whole := got + [s[..n]] + Deframe(s[n..]).whole)
      && DeliverAll(reply, k, got + [s[..n]]) == Deliver(reply, DeliverAll(reply, k, got), s[..n])
      && (AllReply(reply, all.whole) ==> reply(s[..n]).Some?)
  {
    hide FirstCut, Deliver, Deframe;
    DeframeFirst(s);
    var n := FirstCut(s).size;
    ConcatAssociates(got, [s[..n]], Deframe(s[n..]).whole);
    DeliverConcat(reply, k, got, [s[..n]]);
    assert [s[..n]][1..] == [];
    assert all.whole[|got|] == s[..n];
  }

  lemma EmptyStream()
    ensures Deframe([]) == Frames([], [], false)
  {
  }

  lemma TailStays(s: seq<byte>)
    requires Deframe(s).whole == []
    ensures Deframe(s).tail == s
  {
  }

  lemma ConcatOne(s: seq<byte>)
    ensures Concat([s]) == s
  {
    var one: seq<seq<byte>> := [s];
    assert one[1..] == [] && s + [] == s;
  }

  /** The chunks up to i hold a whole stream's beginning: no worse, and its frames among the stream's. */
  lemma PartOfStream(chunks: seq<seq<byte>>, i: nat)
    requires i < |chunks| && !Deframe(Concat(chunks)).bad
    ensures !Deframe(Concat(chunks[..i + 1])).bad
    ensures var d := Deframe(Deframe(Concat(chunks[..i])).tail + chunks[i]);
            Deframe(Concat(chunks[..i + 1])) == d.(whole := Deframe(Concat(chunks[..i])).whole + d.whole)
    ensures Deframe(Concat(chunks[..i + 1])).whole <= Deframe(Concat(chunks)).whole
  {
    hide Deframe, Concat;
    var before, upto, after := Concat(chunks[..i]), Concat(chunks[..i + 1]), Concat(chunks[i + 1..]);
    ChunksSplit(chunks, i);
    if Deframe(upto).bad {
      BadStays(upto, after);
    }
    DeframeConcat(upto, after);
    if Deframe(before).bad {
      BadStays(before, chunks[i]);
    }
    DeframeConcat(before, chunks[i]);
  }

  lemma ChunksSplit(chunks: seq<seq<byte>>, i: nat)
    requires i < |chunks|
    ensures Concat(chunks[..i + 1]) == Concat(chunks[..i]) + chunks[i]
    ensures Concat(chunks) == Concat(chunks[..i + 1]) + Concat(chunks[i + 1..])
  {
    hide Concat;
    TakeOneMore(chunks, i);
    ConcatSplit(chunks[..i + 1], chunks[i + 1..]);
    ConcatSplit(chunks[..i], [chunks[i]]);
    ConcatOne(chunks[i]);
  }

  lemma TakeOneMore<T>(s: seq<T>, i: nat)
    requires i < |s|
    ensures s[..i] + [s[i]] == s[..i + 1]
    ensures s[..i + 1] + s[i + 1..] == s
  {
  }

  /**
   A whole response: the filter is given the chunks in turn, each of at least
   one byte. Whatever the chunks, the frames delivered are those of the stream.
   */
  method ReadResponse(reply: Replier, calls: nat, chunks: seq<seq<byte>>)
    returns (f: Filter, rc: Rc)
    requires forall i :: 0 <= i < |chunks| ==> chunks[i] != []
    requires !Deframe(Concat(chunks)).bad && AllReply(reply, Deframe(Concat(chunks)).whole)
    ensures f.Valid() && rc == NGX_OK
    ensures f.delivered == Deframe(Concat(chunks)).whole
    ensures f.Pending() == Deframe(Concat(chunks)).tail
    ensures f.Client() == DeliverAll(reply, Started(calls), Deframe(Concat(chunks)).whole)
  {
    hide Deframe, DeliverAll, Concat;
    f := new Filter(reply, calls);
    rc := NGX_OK;
    NothingRead(reply, Started(calls));
    assert chunks[..0] == [];
    var i := 0;
    while i < |chunks|
      invariant i <= |chunks| && fresh(f) && fresh(f.mem) && (f.cache == null || fresh(f.cache))
      invariant f.Valid() && rc == NGX_OK && f.reply == reply
      invariant f.delivered == Deframe(Concat(chunks[..i])).whole && f.Pending() == Deframe(Concat(chunks[..i])).tail
      invariant f.Client() == DeliverAll(reply, Started(calls), f.delivered)
    {
      PartOfStream(chunks, i);
      ghost var before, d := f.delivered, Deframe(f.Pending() + chunks[i]);
      DeliverConcat(reply, Started(calls), before, d.whole);
      PartReplies(reply, before, d.whole, Deframe(Concat(chunks)).whole);
      rc := f.FilterBuffer(chunks[i]);
      i := i + 1;
    }
    assert chunks[..|chunks|] == chunks;
  }

  lemma NothingRead(reply: Replier, k: Sink)
    ensures Deframe(Concat([])) == Frames([], [], false) && DeliverAll(reply, k, []) == k
  {
  }

  lemma PartReplies(reply: Replier, a: seq<seq<byte>>, b: seq<seq<byte>>, all: seq<seq<byte>>)
    requires a + b <= all && AllReply(reply, all)
    ensures AllReply(reply, b)
  {
    forall i | 0 <= i < |b|
      ensures reply(b[i]).Some?
    {
      assert b[i] == all[|a| + i];
    }
  }

  /**
   The replies of a request of one or more calls, cut into chunks anyhow: the
   client gets a JSON array of all of them when there are two or more, the bare
   reply when there is one, and u->length is 0 at the end.
   */
  method ServeReplies(reply: Replier, frames: seq<seq<byte>>, chunks: seq<seq<byte>>)
    returns (out: seq<byte>, length: int)
    requires frames != [] && (forall i :: 0 <= i < |frames| ==> IsFrame(frames[i])) && AllReply(reply, frames)
    requires (forall i :: 0 <= i < |chunks| ==> chunks[i] != []) && Concat(chunks) == Concat(frames)
    ensures out == if |frames| == 1 then reply(frames[0]).value else OPEN + Joined(reply, frames) + CLOSE
    ensures length == 0
  {
    hide Deframe, DeliverAll, Concat, Joined, IsFrame;
    DeframeFrames(frames);
    var f, rc := ReadResponse(reply, |frames|, chunks);
    if |frames| == 1 {
      SingleIsBare(reply, 1, frames[0]);
      assert frames == [frames[0]];
    } else {
      BatchIsArray(reply, frames);
    }
    assert f.Client() == Sink(f.out, f.restBatch, f.batch, f.length);
    out, length := f.out, f.length;
  }
}

/** Documents: one call, or a batch of them; what the whole run leaves in the buffer. */
module Batches {
  import opened Bytes
  import opened MsgPack
  import opened Json
  import opened TpBuffer
  import opened Machine
  import opened Calls
  import opened Nested

  datatype Document = Single(call: Call) | Batch(calls: seq<Call>) {
    function Calls(): seq<Call> {
      if Single? then [call] else calls
    }
  }

  function Objects(calls: seq<Call>): seq<Json> {
    if calls == [] then [] else [JObj(calls[0])] + Objects(calls[1..])
  }

  function DocumentEvents(d: Document): seq<Event> {
    if d.Single? then Events(JObj(d.call)) else Events(JArr(Objects(d.calls)))
  }

  /** The frames of the calls, one after the other. */
  function Stream(c: Conf, calls: seq<Call>): seq<byte> {
    if calls == [] then [] else FrameOf(c, calls[0]) + Stream(c, calls[1..])
  }

  predicate CallsOk(c: Conf, calls: seq<Call>) {
    forall i :: 0 <= i < |calls| ==> CallOk(c, calls[i])
  }

  /** The two reasons to refuse: one call too many, or an id above UINT32_MAX. */
  predicate Accepted(before: nat, calls: seq<Call>) {
    && (calls == [] || before + |calls| <= MAX_BATCH_SIZE + 1)
    && forall i :: 0 <= i < |calls| ==> IdsOk(calls[i])
  }

  /** s is b with the stream bs appended, after n calls. */
  ghost predicate Appended(b: State, s: State, bs: seq<byte>, n: nat) {
    && Idle(s)
    && Fits(b.tp, |bs|)
    && s.tp.mem == Put(b.tp.mem, b.tp.p, bs)
    && s.tp.p == b.tp.p + |bs|
    && s.batch == b.batch + n
    && s.batchMode == b.batchMode
  }

  /** Everything fits but the last byte, the unchecked header of the empty tuple of a last call without params. */
  predicate LastTruncated(c: Conf, b: State, calls: seq<Call>) {
    && calls != []
    && c.data == [] && !HasParams(calls[|calls| - 1])
    && b.tp.p + |Stream(c, calls)| == |b.tp.mem| + 1
  }

  /** The frames of the calls, the last one truncated. */
  function TruncatedStream(c: Conf, calls: seq<Call>): seq<byte>
    requires calls != []
  {
    if |calls| == 1 then TruncatedFrame(c, calls[0]) else FrameOf(c, calls[0]) + TruncatedStream(c, calls[1..])
  }

  lemma StreamOfOne(c: Conf, call: Call)
    ensures Stream(c, [call]) == FrameOf(c, call)
  {
    hide FrameOf;
    assert [call][1..] == [];
    assert Stream(c, [call]) == FrameOf(c, call) + [];
  }

  lemma LastOfMore(c: Conf, b: State, b1: State, calls: seq<Call>)
    requires |calls| >= 2 && b1.tp.p == b.tp.p + |FrameOf(c, calls[0])| && |b1.tp.mem| == |b.tp.mem|
    ensures LastTruncated(c, b, calls) <==> LastTruncated(c, b1, calls[1..])
    ensures |Stream(c, calls[1..])| >= 2
  {
    hide FrameOf;
    assert calls[1..][|calls| - 2] == calls[|calls| - 1];
    assert |FrameOf(c, calls[1])| >= 14 by { FrameSizes(c, calls[1]); }
  }

  /** Calls one after the other in a buffer of any size. */
  lemma {:induction false} RunCalls(c: Conf, b: State, calls: seq<Call>)
    requires Idle(b) && CallsOk(c, calls)
    ensures var o := Run(c, b, ItemEvents(Objects(calls)));
      if Accepted(b.batch, calls) && Fits(b.tp, |Stream(c, calls)|) then
        o.Ok? && Appended(b, o.state, Stream(c, calls), |calls|)
      else if Accepted(b.batch, calls) && LastTruncated(c, b, calls) then
        o.Ok? && Appended(b, o.state, TruncatedStream(c, calls), |calls|)
      else o.Refused?
    decreases calls
  {
    hide Body, Frame, Events, CallOk, IdsOk, CallId, FrameOf, TruncatedFrame, HasParams, Truncates, Run;
    if calls == [] {
      RunNothing(c, b);
    } else {
      var objects := Objects(calls);
      assert objects[0] == JObj(calls[0]) && objects[1..] == Objects(calls[1..]);
      RunConcat(c, b, Events(JObj(calls[0])), ItemEvents(Objects(calls[1..])));
      RunCall(c, b, calls[0]);
      FrameSizes(c, calls[0]);
      if b.batch <= MAX_BATCH_SIZE && IdsOk(calls[0]) && Fits(b.tp, |FrameOf(c, calls[0])|) {
        RunMoreCalls(c, b, calls);
      } else if b.batch <= MAX_BATCH_SIZE && IdsOk(calls[0]) && Truncates(c, b, calls[0]) {
        RunTruncated(c, b, calls);
      } else if b.batch <= MAX_BATCH_SIZE && IdsOk(calls[0]) {
        NotLast(c, b, calls);
      }
    }
  }

  lemma RunNothing(c: Conf, b: State)
    ensures Run(c, b, []) == Ok(b)
    ensures Idle(b) ==> Appended(b, b, [], 0)
  {
  }

  /** The first call does not fit, and not for its last byte alone: nor do all calls. */
  lemma NotLast(c: Conf, b: State, calls: seq<Call>)
    requires calls != [] && !Fits(b.tp, |FrameOf(c, calls[0])|) && !Truncates(c, b, calls[0])
    ensures !Fits(b.tp, |Stream(c, calls)|) && !LastTruncated(c, b, calls)
  {
    hide FrameOf, HasParams;
    if |calls| == 1 {
      assert calls == [calls[0]];
      StreamOfOne(c, calls[0]);
    } else {
      assert |FrameOf(c, calls[1])| >= 14 by { FrameSizes(c, calls[1]); }
    }
  }

  /** The first call fits: the others follow in the state it leaves. */
  lemma RunMoreCalls(c: Conf, b: State, calls: seq<Call>)
    requires Idle(b) && CallsOk(c, calls) && calls != [] && b.batch <= MAX_BATCH_SIZE && IdsOk(calls[0])
    requires Fits(b.tp, |FrameOf(c, calls[0])|)
    requires Run(c, b, ItemEvents(Objects(calls)))
          == Then(c, Ok(AfterCall(c, b, calls[0])), ItemEvents(Objects(calls[1..])))
    ensures var o := Run(c, b, ItemEvents(Objects(calls)));
      if Accepted(b.batch, calls) && Fits(b.tp, |Stream(c, calls)|) then
        o.Ok? && Appended(b, o.state, Stream(c, calls), |calls|)
      else if Accepted(b.batch, calls) && LastTruncated(c, b, calls) then
        o.Ok? && Appended(b, o.state, TruncatedStream(c, calls), |calls|)
      else o.Refused?
    decreases calls, 0
  {
    hide Body, Frame, Events, CallOk, IdsOk, CallId, FrameOf, TruncatedFrame, HasParams, Run, AfterCall, Idle, Put;
    var b1, rest := AfterCall(c, b, calls[0]), calls[1..];
    AfterIsIdle(c, b, calls[0]);
    RunCalls(c, b1, rest);
    SplitIds(calls);
    if rest == [] {
      assert calls == [calls[0]];
      StreamOfOne(c, calls[0]);
    } else {
      LastOfMore(c, b, b1, calls);
    }
    if Fits(b1.tp, |Stream(c, rest)|) {
      FrameAfter(b.tp, FrameOf(c, calls[0]), Stream(c, rest));
    } else if rest != [] && LastTruncated(c, b1, rest) {
      TruncatedSize(c, rest);
      FrameAfter(b.tp, FrameOf(c, calls[0]), TruncatedStream(c, rest));
    }
  }

  predicate IdsFirst(calls: seq<Call>)
    requires calls != []
  {
    (forall i :: 0 <= i < |calls| ==> IdsOk(calls[i]))
    <==> IdsOk(calls[0]) && forall i :: 0 <= i < |calls| - 1 ==> IdsOk(calls[1..][i])
  }

  lemma SplitIds(calls: seq<Call>)
    requires calls != []
    ensures IdsFirst(calls)
  {
    hide IdsOk;
    assert forall i :: 0 < i < |calls| ==> calls[i] == calls[1..][i - 1];
  }

  lemma AfterIsIdle(c: Conf, b: State, call: Call)
    requires Idle(b) && Fits(b.tp, |FrameOf(c, call)|)
    ensures var b1 := AfterCall(c, b, call);
            && Idle(b1)
            && b1.tp.p == b.tp.p + |FrameOf(c, call)|
            && b1.tp.mem == Put(b.tp.mem, b.tp.p, FrameOf(c, call))
            && b1.batch == b.batch + 1 && b1.batchMode == b.batchMode
  {
    hide Body, Frame, Put;
  }

  lemma {:induction false} TruncatedSize(c: Conf, calls: seq<Call>)
    requires calls != [] && c.data == [] && !HasParams(calls[|calls| - 1])
    ensures |TruncatedStream(c, calls)| == |Stream(c, calls)| - 1
    decreases |calls|
  {
    hide FrameOf, TruncatedFrame;
    if |calls| == 1 {
      FrameSizes(c, calls[0]);
    } else {
      assert calls[1..][|calls| - 2] == calls[|calls| - 1];
      TruncatedSize(c, calls[1..]);
    }
  }

  /** A truncated frame fills the buffer, so nothing can follow it. */
  lemma RunTruncated(c: Conf, b: State, calls: seq<Call>)
    requires Idle(b) && CallsOk(c, calls) && calls != [] && b.batch <= MAX_BATCH_SIZE && IdsOk(calls[0])
    requires Truncates(c, b, calls[0]) && Fits(b.tp, |TruncatedFrame(c, calls[0])|)
    requires Run(c, b, ItemEvents(Objects(calls)))
          == Then(c, Ok(AfterTruncated(c, b, calls[0])), ItemEvents(Objects(calls[1..])))
    ensures var o := Run(c, b, ItemEvents(Objects(calls)));
      && !Fits(b.tp, |Stream(c, calls)|)
      && if Accepted(b.batch, calls) && LastTruncated(c, b, calls) then
           o.Ok? && Appended(b, o.state, TruncatedStream(c, calls), |calls|)
         else o.Refused?
    decreases calls, 0
  {
    hide Body, Frame, Events, CallOk, IdsOk, CallId, FrameOf, HasParams, Run;
    FrameSizes(c, calls[0]);
    var b1, rest := AfterTruncated(c, b, calls[0]), calls[1..];
    assert Idle(b1) && b1.tp.p == |b.tp.mem| == |b1.tp.mem|;
    if rest == [] {
      assert calls == [calls[0]];
      StreamOfOne(c, calls[0]);
      RunNothing(c, b1);
    } else {
      assert |FrameOf(c, calls[1])| >= 14 by { FrameSizes(c, calls[1]); }
      NoneBehind(c, b1, rest);
    }
  }

  lemma NoneBehind(c: Conf, b: State, calls: seq<Call>)
    requires Idle(b) && CallsOk(c, calls) && calls != [] && b.tp.p == |b.tp.mem|
    ensures Run(c, b, ItemEvents(Objects(calls))).Refused?
  {
    hide Body, Frame, Events, CallOk, IdsOk, CallId, FrameOf, HasParams, Run;
    var objects := Objects(calls);
    assert objects[0] == JObj(calls[0]) && objects[1..] == Objects(calls[1..]);
    RunConcat(c, b, Events(JObj(calls[0])), ItemEvents(Objects(calls[1..])));
    RunCall(c, b, calls[0]);
    FrameSizes(c, calls[0]);
  }

  /** What the buffer begins with after an accepted document, if it was large enough, and else. */
  function Output(c: Conf, capacity: nat, d: Document): seq<byte> {
    if |Stream(c, d.Calls())| <= capacity || d.Calls() == [] then Stream(c, d.Calls())
    else TruncatedStream(c, d.Calls())
  }

  /** The calls fit the buffer - or all but the one byte that is written without a check. */
  predicate RoomForCalls(c: Conf, mem: seq<byte>, d: Document) {
    |Stream(c, d.Calls())| <= |mem| || LastTruncated(c, Init(mem), d.Calls())
  }

  /**
   The transcoder on a whole document, in a buffer of any size: never undefined,
   it accepts exactly the documents of at most 16385 calls with ids in range
   whose frames fit, or fit but for the byte that is written unchecked. Then the
   output is one frame per call, the rest of the buffer is untouched, and the
   batch counter is the number of calls.
   */
  lemma Transcode(c: Conf, mem: seq<byte>, d: Document)
    requires CallsOk(c, d.Calls())
    ensures var o := Run(c, Init(mem), DocumentEvents(d));
      && (o.Ok? <==>
            && |d.Calls()| <= MAX_BATCH_SIZE + 1
            && (forall i :: 0 <= i < |d.Calls()| ==> IdsOk(d.Calls()[i]))
            && RoomForCalls(c, mem, d))
      && (o.Ok? || o.Refused?)
      && (o.Ok? ==>
            && o.state.tp.p == |Output(c, |mem|, d)| <= |mem|
            && o.state.tp.mem == Output(c, |mem|, d) + mem[o.state.tp.p..]
            && o.state.batch == |d.Calls()|
            && o.state.batchMode == d.Batch?
            && Idle(o.state))
  {
    hide CallOk, IdsOk, Run, Stream, TruncatedStream, HasParams, Idle;
    var calls := d.Calls();
    var b := Init(mem).(batchMode := d.Batch?);
    assert Idle(b) by { InitIsIdle(mem, d.Batch?); }
    RunCalls(c, b, calls);
    DocumentIsCalls(c, mem, d);
    NoCalls(c);
    assert LastTruncated(c, b, calls) == LastTruncated(c, Init(mem), calls);
    var o := Run(c, b, ItemEvents(Objects(calls)));
    if o.Ok? {
      PutFirst(mem, Output(c, |mem|, d));
    }
  }

  lemma InitIsIdle(mem: seq<byte>, batchMode: bool)
    ensures Idle(Init(mem).(batchMode := batchMode))
  {
  }

  lemma PutFirst(m: seq<byte>, bs: seq<byte>)
    requires |bs| <= |m|
    ensures Put(m, 0, bs) == bs + m[|bs|..]
  {
  }

  /** The brackets of a batch change nothing but the flag, a single call is the batch of it. */
  lemma DocumentIsCalls(c: Conf, mem: seq<byte>, d: Document)
    requires var o := Run(c, Init(mem).(batchMode := d.Batch?), ItemEvents(Objects(d.Calls())));
             o.Ok? ==> Idle(o.state) && o.state.batchMode == d.Batch?
    ensures Run(c, Init(mem), DocumentEvents(d))
         == Run(c, Init(mem).(batchMode := d.Batch?), ItemEvents(Objects(d.Calls())))
  {
    hide Run, CallOk, Events;
    var calls := d.Calls();
    if d.Single? {
      assert Objects(calls) == [JObj(d.call)];
      assert ItemEvents([JObj(d.call)]) == Events(JObj(d.call)) by {
        assert [JObj(d.call)][1..] == [];
      }
      assert DocumentEvents(d) == Events(JObj(d.call));
    } else {
      var b := Init(mem);
      assert DocumentEvents(d) == [EStartArray] + ItemEvents(Objects(calls)) + [EEndArray] by {
        ArrayEvents(Objects(calls));
      }
      RunBracketed(c, b, EStartArray, ItemEvents(Objects(calls)), EEndArray);
      BatchBrackets(c, b);
      var o := Run(c, b.(batchMode := true), ItemEvents(Objects(calls)));
      if o.Ok? {
        RunOne(c, o.state, EEndArray);
        BatchBrackets(c, o.state);
      }
    }
  }

  lemma ArrayEvents(items: seq<Json>)
    ensures Events(JArr(items)) == [EStartArray] + ItemEvents(items) + [EEndArray]
  {
  }

  lemma NoCalls(c: Conf)
    ensures Stream(c, []) == []
  {
  }

  /** The brackets of a batch only set the batch flag. */
  lemma BatchBrackets(c: Conf, b: State)
    requires Idle(b)
    ensures Step(c, b, EStartArray) == Ok(b.(batchMode := true))
    ensures Step(c, b, EEndArray) == Ok(b)
  {
  }

  // -------------------------------------------------------- ignored fields

  lemma {:induction false} FieldsBytesConcat(c: Conf, a: seq<Member>, b: seq<Member>)
    ensures FieldsBytes(c, a + b) == FieldsBytes(c, a) + FieldsBytes(c, b)
  {
    if a == [] {
      assert a + b == b;
    } else {
      assert (a + b)[0] == a[0] && (a + b)[1..] == a[1..] + b;
      FieldsBytesConcat(c, a[1..], b);
    }
  }

  lemma {:induction false} CallIdConcat(a: seq<Member>, b: seq<Member>, before: nat)
    ensures CallId(a + b, before) == CallId(b, CallId(a, before))
    decreases a
  {
    if a == [] {
      assert a + b == b;
    } else {
      assert (a + b)[0] == a[0] && (a + b)[1..] == a[1..] + b;
      CallIdConcat(a[1..], b, FieldId(a[0], before));
    }
  }

  /** call with the field m put in before position i. */
  function Inserted(call: Call, i: nat, m: Member): Call
    requires i <= |call|
  {
    call[..i] + [m] + call[i..]
  }

  /** Every field of call is in the longer call, which has only m besides. */
  lemma InsertedFields(call: Call, i: nat, m: Member)
    requires i <= |call|
    ensures forall k :: 0 <= k < |call| ==> Inserted(call, i, m)[if k < i then k else k + 1] == call[k]
    ensures forall k :: 0 <= k <= |call| && k != i ==> Inserted(call, i, m)[k] == call[if k < i then k else k - 1]
    ensures Inserted(call, i, m)[i] == m
  {
  }

  lemma InsertedBody(c: Conf, call: Call, i: nat, m: Member)
    requires i <= |call| && !Reserved(c, m.key)
    ensures FieldsBytes(c, Inserted(call, i, m)) == FieldsBytes(c, call)
    ensures HasParams(Inserted(call, i, m)) <==> HasParams(call)
    ensures Body(c, Inserted(call, i, m)) == Body(c, call)
  {
    hide FieldsBytes, FunctionEntry, ArrayHead;
    assert FieldsBytes(c, Inserted(call, i, m)) == FieldsBytes(c, call) by {
      assert call == call[..i] + call[i..];
      FieldsBytesConcat(c, call[..i] + [m], call[i..]);
      FieldsBytesConcat(c, call[..i], [m]);
      FieldsBytesConcat(c, call[..i], call[i..]);
      NoBytes(c, m);
    }
    InsertedFields(call, i, m);
    if k :| 0 <= k < |call| && IsParams(call[k]) {
      assert IsParams(Inserted(call, i, m)[if k < i then k else k + 1]);
    }
  }

  lemma NoBytes(c: Conf, m: Member)
    requires !Reserved(c, m.key)
    ensures FieldsBytes(c, [m]) == []
    ensures forall before :: CallId([m], before) == before
  {
    assert [m][1..] == [];
  }

  lemma InsertedId(c: Conf, call: Call, i: nat, m: Member)
    requires i <= |call| && !Reserved(c, m.key)
    ensures CallId(Inserted(call, i, m), 0) == CallId(call, 0)
  {
    hide CallId;
    assert call == call[..i] + call[i..];
    CallIdConcat(call[..i] + [m], call[i..], 0);
    CallIdConcat(call[..i], [m], 0);
    CallIdConcat(call[..i], call[i..], 0);
    NoBytes(c, m);
  }

  lemma InsertedIds(c: Conf, call: Call, i: nat, m: Member)
    requires i <= |call| && !Reserved(c, m.key)
    ensures IdsOk(Inserted(call, i, m)) <==> IdsOk(call)
  {
    InsertedFields(call, i, m);
    if k :| 0 <= k < |call| && BadId(call[k]) {
      assert BadId(Inserted(call, i, m)[if k < i then k else k + 1]);
    }
  }

  /** A field with any other name, whatever its value nests, changes nothing a call leaves, in a buffer of any size. */
  lemma IgnoredField(c: Conf, b: State, call: Call, i: nat, m: Member)
    requires Idle(b) && CallOk(c, call)
    requires i <= |call| && !Reserved(c, m.key) && FieldOk(c, m)
    ensures var o, o' := Run(c, b, Events(JObj(call))), Run(c, b, Events(JObj(Inserted(call, i, m))));
            o' == o || (o.Refused? && o'.Refused? && !Fits(b.tp, |FrameOf(c, call)|))
  {
    hide Frame, Body, FieldOk, Events, IdsOk, CallId, FieldsBytes, Run, HasParams;
    var call' := Inserted(call, i, m);
    assert CallOk(c, call') by {
      assert forall k :: 0 <= k < |call'| ==> call'[k] == if k < i then call[k] else if k == i then m else call[k - 1];
    }
    InsertedBody(c, call, i, m);
    InsertedId(c, call, i, m);
    InsertedIds(c, call, i, m);
    RunCall(c, b, call);
    RunCall(c, b, call');
    if Fits(b.tp, |FrameOf(c, call)|) {
      SameFrame(c, b, call, call');
    }
  }

  lemma SameFrame(c: Conf, b: State, call: Call, call': Call)
    requires FrameOf(c, call) == FrameOf(c, call') && Fits(b.tp, |FrameOf(c, call)|)
    ensures AfterCall(c, b, call) == AfterCall(c, b, call')
  {
    hide Body, CallId;
  }
}

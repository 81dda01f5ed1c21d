/**
 A number, a string, a boolean or null in place of the params array: the code
 accepts it, and copies what follows into the frame.
 */
module ScalarParams {
  import opened Bytes
  import opened MsgPack
  import opened Json
  import opened TpBuffer
  import opened Machine
  import opened Simulation
  import opened Nested
  import opened Calls
  import opened Flattening
  import opened Requests

  /** The call: the fields before params, the scalar, and fields of scalars after it. */
  function ScalarCall(before: seq<Member>, j: Json, after: seq<Member>): Call {
    before + [Member(KEY_PARAMS, j)] + after
  }

  predicate ScalarCallOk(c: Conf, before: seq<Member>, j: Json, after: seq<Member>) {
    && (forall m <- before :: FieldOk(c, m))
    && IsScalar(j)
    && forall m <- after :: IsScalar(m.value)
  }

  /** The frame's body: behind params every key and every value is copied, whatever its name. */
  function CopiedBody(c: Conf, before: seq<Member>, j: Json, after: seq<Member>): seq<byte> {
    PresetEntry(c) + FieldsBytes(c, before) + ([TUPLE] + Enc(j) + EncMembers(after))
  }

  function ScalarBody(c: Conf, before: seq<Member>, j: Json, after: seq<Member>): seq<byte> {
    CopiedBody(c, before, j, after) + if HasParams(before) then [] else LastEntry(c)
  }

  lemma {:induction false} ScalarsAreFlat(ms: seq<Member>)
    requires forall m <- ms :: IsScalar(m.value)
    ensures MembersDepth(ms) == 0
    decreases ms
  {
    if ms != [] {
      ScalarsAreFlat(ms[1..]);
    }
  }

  /** The scalar and what follows, behind the key params. */
  lemma RunCopied(c: Conf, b: State, id: nat, body: seq<byte>, been: set<Stage>, j: Json, after: seq<Member>)
    requires IsScalar(j) && (forall m <- after :: IsScalar(m.value))
    requires Fits(b.tp, 15 + |body| + |Enc(j) + EncMembers(after)|)
    ensures var s := Msg(b, id, body, been).(stage := PARAMS);
      var o := Run(c, s, Events(j) + MemberEvents(after));
      && o.Ok? && |o.state.stack| == 1
      && o.state == Msg(b, id, body + (Enc(j) + EncMembers(after)), been).(stage := PARAMS, stack := o.state.stack)
  {
    hide Append, FrameAt, Enc, EncMembers, Step;
    var s := Msg(b, id, body, been).(stage := PARAMS);
    RunConcat(c, s, Events(j), MemberEvents(after));
    RunValue(c, s, j);
    var s1 := Wrote(s, ArrayItem, 1, Enc(j));
    ScalarsAreFlat(after);
    RunMembers(c, s1, after);
    MsgAppend(b, id, body, been, Enc(j));
    MsgAppend(b, id, body + Enc(j), been, EncMembers(after));
    NoneEncoded();
    assert body + Enc(j) + EncMembers(after) == body + (Enc(j) + EncMembers(after));
    assert after == [] ==> body + Enc(j) + [] == body + Enc(j);
  }

  lemma NoneEncoded()
    ensures EncMembers([]) == []
  {
  }

  /** A call with a scalar as its params is accepted if there is room: its frame is copied as it comes. */
  lemma ScalarAccepted(c: Conf, b: State, before: seq<Member>, j: Json, after: seq<Member>)
    requires Idle(b) && ScalarCallOk(c, before, j, after) && b.batch <= MAX_BATCH_SIZE && IdsOk(before)
    requires Fits(b.tp, 15 + |ScalarBody(c, before, j, after)|)
    ensures Run(c, b, Events(JObj(ScalarCall(before, j, after)))) ==
      Ok(b.(tp := FrameAt(b.tp, CALL, CallId(before, 0), [0x82] + ScalarBody(c, before, j, after)),
            batch := b.batch + 1))
  {
    hide Run, Msg, FrameAt, Step, FieldsBytes, FieldOk, IdsOk, HasParams, Idle, PresetEntry, Enc, EncMembers, LastEntry;
    var es, s := MemberEvents(ScalarCall(before, j, after)), Msg(b, 0, PresetEntry(c), {});
    RunBraces(c, b, es);
    var o := CopiedRun(c, b, before, j, after);
    var id, body := CallId(before, 0), CopiedBody(c, before, j, after);
    var been, item := o.0, o.1;
    RunOne(c, Msg(b, id, body, been).(stage := PARAMS, stack := [item]), EEndMap);
    CloseAtStage(c, b, id, body, been, PARAMS, item);
    CloseCall(c, b, id, body, been);
  }

  /** The state before the closing brace: what was seen of the call, and its item on the stack. */
  lemma CopiedRun(c: Conf, b: State, before: seq<Member>, j: Json, after: seq<Member>) returns (o: (set<Stage>, Item))
    requires ScalarCallOk(c, before, j, after) && IdsOk(before)
    requires Fits(b.tp, 15 + |CopiedBody(c, before, j, after)|)
    ensures PARAMS in o.0 <==> HasParams(before)
    ensures Run(c, Msg(b, 0, PresetEntry(c), {}), MemberEvents(ScalarCall(before, j, after))) ==
      Ok(Msg(b, CallId(before, 0), CopiedBody(c, before, j, after), o.0).(stage := PARAMS, stack := [o.1]))
  {
    hide Run, Msg, FrameAt, Step, FieldsBytes, FieldOk, IdsOk, HasParams, PresetEntry, Enc, EncMembers;
    var s, m, tail := Msg(b, 0, PresetEntry(c), {}), Member(KEY_PARAMS, j), Enc(j) + EncMembers(after);
    var id, body := CallId(before, 0), PresetEntry(c) + FieldsBytes(c, before);
    ScalarEvents(before, j, after);
    RunConcat(c, s, MemberEvents(before), [EKey(KEY_PARAMS)] + (Events(j) + MemberEvents(after)));
    RunFields(c, b, 0, PresetEntry(c), {}, before);
    var been :| (PARAMS in been <==> PARAMS in {} || HasParams(before))
      && Run(c, s, MemberEvents(before)) == Ok(Msg(b, id, body, been));
    var t := Msg(b, id, body, been);
    RunConcat(c, t, [EKey(KEY_PARAMS)], Events(j) + MemberEvents(after));
    RunParamsKey(c, b, id, body, been);
    RunCopied(c, b, id, body + [TUPLE], been, j, after);
    var r := Run(c, Msg(b, id, body + [TUPLE], been).(stage := PARAMS), Events(j) + MemberEvents(after));
    o := (been, r.state.stack[0]);
    assert r.state.stack == [o.1];
    assert body + [TUPLE] + tail == CopiedBody(c, before, j, after);
  }

  lemma ScalarEvents(before: seq<Member>, j: Json, after: seq<Member>)
    ensures MemberEvents(ScalarCall(before, j, after))
         == MemberEvents(before) + ([EKey(KEY_PARAMS)] + (Events(j) + MemberEvents(after)))
  {
    var m := Member(KEY_PARAMS, j);
    MemberEventsConcat(before + [m], after);
    MemberEventsConcat(before, [m]);
    OneField(m);
    assert MemberEvents(before) + ([EKey(KEY_PARAMS)] + Events(j)) + MemberEvents(after)
        == MemberEvents(before) + ([EKey(KEY_PARAMS)] + (Events(j) + MemberEvents(after)));
  }

  // ---------------------------------------------------- what is in the frame

  function ScalarEntries(c: Conf, d: Mp, before: seq<Member>, j: Json, after: seq<Member>): seq<Entry> {
    (if c.preset == [] then [] else [FunctionValue(c.preset)])
    + FieldsEntries(c, d, before)
    + ([Entry(Uint(TUPLE), ToMp(j))] + ToEntries(after))
    + if HasParams(before) then [] else [TupleValue(c, d, [])]
  }

  lemma ReadCopied(bs: seq<byte>, i: nat, j: Json, after: seq<Member>)
    requires |bs| < TWO_32 && At(bs, i, [TUPLE] + Enc(j) + EncMembers(after))
    ensures EntriesAt(bs, i, [Entry(Uint(TUPLE), ToMp(j))] + ToEntries(after), i + 1 + |Enc(j)| + |EncMembers(after)|)
  {
    hide Read, Enc, EncMembers, ToMp, ReadEntries;
    AtSplit3(bs, i, [TUPLE], Enc(j), EncMembers(after));
    ReadSmallUint(bs, i, TUPLE);
    ReadEnc(bs, i + 1, j);
    ReadEncMembers(bs, i + 1 + |Enc(j)|, after);
    EntriesSingle(bs, i, i + 1, i + 1 + |Enc(j)|, Entry(Uint(TUPLE), ToMp(j)));
    EntriesConcat(bs, i, [Entry(Uint(TUPLE), ToMp(j))], i + 1 + |Enc(j)|, ToEntries(after),
      i + 1 + |Enc(j)| + |EncMembers(after)|);
  }

  lemma ReadScalarBody(c: Conf, d: Mp, bs: seq<byte>, i: nat, before: seq<Member>, j: Json, after: seq<Member>)
    requires |bs| < TWO_32 && DataIs(c, d) && (forall m <- before :: FieldOk(c, m))
    requires At(bs, i, ScalarBody(c, before, j, after))
    ensures EntriesAt(bs, i, ScalarEntries(c, d, before, j, after), i + |ScalarBody(c, before, j, after)|)
  {
    hide Read, ReadEntries, FieldsBytes, FieldsEntries, FunctionEntry, ArrayHead, FieldOk, HasParams;
    hide Enc, EncMembers, ToMp, ToEntries;
    var first, fields, copied := PresetEntry(c), FieldsBytes(c, before), [TUPLE] + Enc(j) + EncMembers(after);
    var last := if HasParams(before) then [] else LastEntry(c);
    AtSplit(bs, i, CopiedBody(c, before, j, after), last);
    AtSplit3(bs, i, first, fields, copied);
    var k0, k1, k2 := i + |first|, i + |first| + |fields|, i + |first| + |fields| + |copied|;
    if c.preset != [] {
      ReadFunction(bs, i, c.preset);
    } else {
      NoEntriesRead(bs, i);
    }
    ReadFields(c, d, bs, k0, before);
    ReadCopied(bs, k1, j, after);
    var a := if c.preset == [] then [] else [FunctionValue(c.preset)];
    var x, y := FieldsEntries(c, d, before), [Entry(Uint(TUPLE), ToMp(j))] + ToEntries(after);
    EntriesConcat(bs, i, a, k0, x, k1);
    EntriesConcat(bs, i, a + x, k1, y, k2);
    if !HasParams(before) {
      assert last == [TUPLE] + ArrayHead(Bound(c)) + c.data + EncItems([]);
      ReadTuple(c, d, bs, k2, ArrayHead(Bound(c)), []);
    } else {
      NoEntriesRead(bs, k2);
    }
    var z := if HasParams(before) then [] else [TupleValue(c, d, [])];
    EntriesConcat(bs, i, a + x + y, k2, z, k2 + |last|);
  }

  lemma {:induction false} StringKeys(ms: seq<Member>)
    ensures KeyCount(ToEntries(ms), TUPLE) == 0
    decreases ms
  {
    hide ToMp;
    if ms != [] {
      assert ToEntries(ms)[1..] == ToEntries(ms[1..]);
      StringKeys(ms[1..]);
    }
  }

  /** There are two tuples at least: the scalar, and the one of another params field or the one added at the end. */
  lemma TwoTuplesAtLeast(c: Conf, d: Mp, before: seq<Member>, j: Json, after: seq<Member>)
    requires forall m <- before :: FieldOk(c, m)
    ensures KeyCount(ScalarEntries(c, d, before, j, after), TUPLE) >= 2
  {
    hide FieldsEntries, FieldOk, KeyCount, HasParams, ToMp, ToEntries, FunctionValue;
    var a := if c.preset == [] then [] else [FunctionValue(c.preset)];
    var x := FieldsEntries(c, d, before);
    var scalar, y := [Entry(Uint(TUPLE), ToMp(j))], ToEntries(after);
    var z := if HasParams(before) then [] else [TupleValue(c, d, [])];
    KeyCountConcat(a + x + (scalar + y), z, TUPLE);
    KeyCountConcat(a + x, scalar + y, TUPLE);
    KeyCountConcat(a, x, TUPLE);
    KeyCountConcat(scalar, y, TUPLE);
    OneKey(scalar[0], TUPLE);
    OneKey(TupleValue(c, d, []), TUPLE);
    FieldKeys(c, d, before);
    CountFieldEntries(c, d, before);
  }

  /** That frame is never a call of one function with one tuple. */
  lemma ScalarIsNoCall(c: Conf, d: Mp, before: seq<Member>, j: Json, after: seq<Member>, bs: seq<byte>, i: nat)
    requires |bs| < TWO_32 && DataIs(c, d) && ScalarCallOk(c, before, j, after)
    requires At(bs, i, Frame(CALL, CallId(before, 0), [0x82] + ScalarBody(c, before, j, after)))
    ensures !(ReadRequest(bs, i).Some? && IsCall(ReadRequest(bs, i).value.0))
  {
    hide ScalarBody, ScalarEntries, Frame, ReadRequest, FieldOk, CallId, BodyAt, ReadEntries, KeyCount;
    var body, es := ScalarBody(c, before, j, after), ScalarEntries(c, d, before, j, after);
    CallIdFits(before, 0);
    RequestFromFrame(bs, i, CALL, CallId(before, 0), [0x82] + body);
    AtSplit(bs, i + 14, [0x82], body);
    ReadScalarBody(c, d, bs, i + 15, before, j, after);
    assert [0x82] == MapHead(2);
    Announced(bs, i + 14, 2, es, i + 15 + |body|);
    TwoTuplesAtLeast(c, d, before, j, after);
  }
}

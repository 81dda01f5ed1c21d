/**
 Whole call objects and batches: every call leaves exactly one frame, and the
 transcoder refuses a document for two reasons only.
 */
module Calls {
  import opened Bytes
  import opened MsgPack
  import opened Json
  import opened TpBuffer
  import opened Machine
  import opened Nested
  import opened Simulation

  type Call = seq<Member>

  // ----------------------------------------------------- the reference frame

  /** A field the documentation of the call format admits, nested within the stack limit. */
  predicate FieldOk(c: Conf, m: Member) {
    && 1 + Depth(m.value) <= STACK_LIMIT
    && if IsParams(m) then m.value.JArr?
       else if IsId(m) then m.value.JInt?
       else if IsMethod(c, m) then m.value.JStr?
       else Harmless(c, m.value)
  }

  predicate CallOk(c: Conf, call: Call) {
    call != [] && forall i :: 0 <= i < |call| ==> FieldOk(c, call[i])
  }

  function Bound(c: Conf): nat {
    if c.data == [] then 0 else 1
  }

  /** The params array as the tuple of the request: bound data first. */
  function Tuple(c: Conf, items: seq<Json>): seq<byte> {
    WideArrayHead(|items| + Bound(c)) + (c.data + EncItems(items))
  }

  function FunctionEntry(name: seq<byte>): seq<byte> {
    [FUNCTION] + EncStr(name)
  }

  /** The body entry a field contributes. */
  function FieldBytes(c: Conf, m: Member): seq<byte> {
    if IsParams(m) && m.value.JArr? then [TUPLE] + Tuple(c, m.value.items)
    else if IsMethod(c, m) && m.value.JStr? then FunctionEntry(m.value.s)
    else []
  }

  function FieldsBytes(c: Conf, ms: seq<Member>): seq<byte> {
    if ms == [] then [] else FieldBytes(c, ms[0]) + FieldsBytes(c, ms[1..])
  }

  predicate HasParams(ms: seq<Member>) {
    exists i :: 0 <= i < |ms| && IsParams(ms[i])
  }

  /** The body of the frame of a call: entries in the order of the fields. */
  function Body(c: Conf, call: Call): seq<byte> {
    (if c.preset == [] then [] else FunctionEntry(c.preset))
    + FieldsBytes(c, call)
    + if HasParams(call) then [] else [TUPLE] + ArrayHead(Bound(c)) + c.data
  }

  /** The sync id: the last id given, truncated to 32 bits, or the one before. */
  function CallId(ms: seq<Member>, before: nat): nat {
    if ms == [] then before
    else CallId(ms[1..], if IsId(ms[0]) && ms[0].value.JInt? then ms[0].value.i % TWO_32 else before)
  }

  function FrameOf(c: Conf, call: Call): seq<byte> {
    Frame(CALL, CallId(call, 0), [0x82] + Body(c, call))
  }

  predicate BadId(m: Member) {
    IsId(m) && m.value.JInt? && m.value.i > UINT32_MAX
  }

  predicate IdsOk(ms: seq<Member>) {
    forall i :: 0 <= i < |ms| ==> !BadId(ms[i])
  }

  // ------------------------------------------------------- fields of a call

  /** The state inside a call object whose frame, begun at b, holds this id and these body entries. */
  function Msg(b: State, id: nat, body: seq<byte>, been: set<Stage>): (r: State)
    requires Fits(b.tp, 15 + |body|)
    ensures Ready(r.tp) && r.tp.p == b.tp.p + 15 + |body| && |r.tp.mem| == |b.tp.mem|
  {
    b.(tp := FrameAt(b.tp, CALL, id, [0x82] + body),
       stack := [Item(b.tp.p, 0, MapItem)],
       stage := WAIT_NEXT,
       been := been,
       batch := b.batch + 1)
  }

  lemma MsgAppend(b: State, id: nat, body: seq<byte>, been: set<Stage>, bs: seq<byte>)
    requires Fits(b.tp, 15 + |body| + |bs|)
    ensures Append(Msg(b, id, body, been).tp, bs) == Msg(b, id, body + bs, been).tp
  {
    hide Append, FrameAt;
    AppendToFrame(b.tp, CALL, id, [0x82] + body, bs);
    assert [0x82] + body + bs == [0x82] + (body + bs);
  }

  /** The state after the opening bracket of params: a hole, then the bound data. */
  function ParamsOpen(c: Conf, s: State): (r: State)
    requires Ready(s.tp) && Fits(s.tp, 5 + |c.data|)
    ensures Ready(r.tp) && r.tp.p == s.tp.p + 5 + |c.data| && |r.tp.mem| == |s.tp.mem|
  {
    s.(tp := if c.data == [] then Reserve(s.tp) else Append(Reserve(s.tp), c.data),
       stack := s.stack + [Item(s.tp.p, 0, ArrayItem)])
  }

  lemma ParamsBegin(c: Conf, s: State)
    requires s.stage == PARAMS && |s.stack| == 1 && s.stack[0].kind == MapItem && Ready(s.tp)
    ensures Step(c, s, EStartArray)
         == if Fits(s.tp, 5 + |c.data|) then Ok(ParamsOpen(c, s)) else Refused(OutputOverflow)
  {
    hide Append, Reserve;
  }

  lemma ParamsFill(c: Conf, s: State, items: seq<Json>)
    requires Ready(s.tp) && Fits(s.tp, |Tuple(c, items)|)
    ensures var full := Wrote(ParamsOpen(c, s), ArrayItem, |items|, EncItems(items));
            Patch(full.tp, s.tp.p, WideArrayHead(|items| + Bound(c))) == Append(s.tp, Tuple(c, items))
  {
    hide Append, Reserve, Patch, WideArrayHead;
    var head := WideArrayHead(|items| + Bound(c));
    FillHole(s.tp, head, |items| + Bound(c), c.data + EncItems(items));
    if c.data == [] {
      assert c.data + EncItems(items) == EncItems(items);
    } else if items == [] {
      assert c.data + EncItems(items) == c.data;
    } else {
      AppendAppend(Reserve(s.tp), c.data, EncItems(items));
    }
  }

  lemma ParamsEnd(c: Conf, s: State, items: seq<Json>)
    requires s.stage == PARAMS && |s.stack| == 1
    requires Ready(s.tp) && Fits(s.tp, |Tuple(c, items)|)
    ensures Step(c, Wrote(ParamsOpen(c, s), ArrayItem, |items|, EncItems(items)), EEndArray)
         == Ok(s.(tp := Append(s.tp, Tuple(c, items)), stage := WAIT_NEXT, been := s.been + {PARAMS}))
  {
    hide Append, Reserve, Patch, WideArrayHead;
    var full := Wrote(ParamsOpen(c, s), ArrayItem, |items|, EncItems(items));
    assert full.stack == s.stack + [Item(s.tp.p, |items|, ArrayItem)];
    assert full.stack[..|full.stack| - 1] == s.stack;
    ParamsFill(c, s, items);
  }

  /** The state after a params array, or the report that its tuple does not fit. */
  function ParamsOutcome(c: Conf, s: State, items: seq<Json>): Outcome
    requires Ready(s.tp)
  {
    if Fits(s.tp, |Tuple(c, items)|)
    then Ok(s.(tp := Append(s.tp, Tuple(c, items)), stage := WAIT_NEXT, been := s.been + {PARAMS}))
    else Refused(OutputOverflow)
  }

  /** The whole params array, from its bracket to its bracket. */
  lemma RunParams(c: Conf, s: State, items: seq<Json>)
    requires s.stage == PARAMS && |s.stack| == 1 && s.stack[0].kind == MapItem
    requires Deep(s, Depth(JArr(items)))
    ensures Run(c, s, Events(JArr(items))) == ParamsOutcome(c, s, items)
  {
    hide Append, Step;
    RunBracketed(c, s, EStartArray, ItemEvents(items), EEndArray);
    ParamsBegin(c, s);
    if Fits(s.tp, 5 + |c.data|) {
      RunItems(c, ParamsOpen(c, s), items);
    }
    if Fits(s.tp, |Tuple(c, items)|) {
      RunOne(c, Wrote(ParamsOpen(c, s), ArrayItem, |items|, EncItems(items)), EEndArray);
      ParamsEnd(c, s, items);
    }
  }

  function FieldId(m: Member, before: nat): nat {
    if IsId(m) && m.value.JInt? then m.value.i % TWO_32 else before
  }

  function FieldStage(c: Conf, m: Member): set<Stage> {
    if IsParams(m) then {PARAMS} else if IsId(m) then {ID} else if IsMethod(c, m) then {METHOD} else {}
  }

  /** The state a field leaves, the refusal of its id, or the report that its entry does not fit. */
  function FieldOutcome(c: Conf, b: State, id: nat, body: seq<byte>, been: set<Stage>, m: Member): Outcome
    requires Fits(b.tp, 15 + |body|)
  {
    if BadId(m) then Refused(IdTooLarge)
    else if !Fits(b.tp, 15 + |body| + |FieldBytes(c, m)|) then Refused(OutputOverflow)
    else Ok(Msg(b, FieldId(m, id), body + FieldBytes(c, m), been + FieldStage(c, m)))
  }

  lemma RunParamsKey(c: Conf, b: State, id: nat, body: seq<byte>, been: set<Stage>)
    requires Fits(b.tp, 15 + |body|)
    ensures Run(c, Msg(b, id, body, been), [EKey(KEY_PARAMS)])
         == if Fits(b.tp, 16 + |body|) then Ok(Msg(b, id, body + [TUPLE], been).(stage := PARAMS))
            else Refused(OutputOverflow)
  {
    hide Append, FrameAt;
    RunOne(c, Msg(b, id, body, been), EKey(KEY_PARAMS));
    if Fits(b.tp, 16 + |body|) {
      MsgAppend(b, id, body, been, [TUPLE]);
    }
  }

  lemma RunParamsField(c: Conf, b: State, id: nat, body: seq<byte>, been: set<Stage>, m: Member)
    requires FieldOk(c, m) && IsParams(m) && Fits(b.tp, 15 + |body|)
    ensures Run(c, Msg(b, id, body, been), [EKey(m.key)] + Events(m.value)) == FieldOutcome(c, b, id, body, been, m)
  {
    hide Append, FrameAt, Tuple, Step, Events;
    var items := m.value.items;
    RunConcat(c, Msg(b, id, body, been), [EKey(m.key)], Events(m.value));
    RunParamsKey(c, b, id, body, been);
    if Fits(b.tp, 16 + |body|) {
      RunParams(c, Msg(b, id, body + [TUPLE], been).(stage := PARAMS), items);
    }
    if Fits(b.tp, 15 + |body| + |FieldBytes(c, m)|) {
      MsgAppend(b, id, body + [TUPLE], been, Tuple(c, items));
      assert body + [TUPLE] + Tuple(c, items) == body + FieldBytes(c, m);
    }
  }

  lemma RunField(c: Conf, b: State, id: nat, body: seq<byte>, been: set<Stage>, m: Member)
    requires FieldOk(c, m) && Fits(b.tp, 15 + |body|)
    ensures Run(c, Msg(b, id, body, been), [EKey(m.key)] + Events(m.value)) == FieldOutcome(c, b, id, body, been, m)
  {
    hide Append, FrameAt, Tuple, Reqid;
    var s := Msg(b, id, body, been);
    RunConcat(c, s, [EKey(m.key)], Events(m.value));
    RunOne(c, s, EKey(m.key));
    if IsParams(m) {
      RunParamsField(c, b, id, body, been, m);
    } else if IsId(m) {
      RunOne(c, s.(stage := ID), EInt(m.value.i));
      ReqidOnFrame(b.tp, CALL, id, [0x82] + body, m.value.i % TWO_32);
      assert body + [] == body;
    } else if IsMethod(c, m) {
      RunOne(c, s.(stage := METHOD), EStr(m.value.s));
      if Fits(b.tp, 15 + |body| + |FunctionEntry(m.value.s)|) {
        MsgAppend(b, id, body, been, FunctionEntry(m.value.s));
      }
    } else {
      RunHarmless(c, s, m.value);
      assert body + [] == body && been + {} == been;
    }
  }

  lemma NoFields()
    ensures !HasParams([]) && IdsOk([])
  {
  }

  lemma SplitFields(ms: seq<Member>)
    requires ms != []
    ensures HasParams(ms) <==> IsParams(ms[0]) || HasParams(ms[1..])
    ensures IdsOk(ms) <==> !BadId(ms[0]) && IdsOk(ms[1..])
  {
    assert forall i :: 0 < i < |ms| ==> ms[i] == ms[1..][i - 1];
  }

  /** The fields of a call, one after the other, up to the first that is refused. */
  lemma {:induction false} RunFields(c: Conf, b: State, id: nat, body: seq<byte>, been: set<Stage>, ms: seq<Member>)
    requires forall i :: 0 <= i < |ms| ==> FieldOk(c, ms[i])
    requires Fits(b.tp, 15 + |body|)
    ensures var o := Run(c, Msg(b, id, body, been), MemberEvents(ms));
      var fits := Fits(b.tp, 15 + |body| + |FieldsBytes(c, ms)|);
      && (!IdsOk(ms) || !fits ==> o.Refused?)
      && (!IdsOk(ms) && fits ==> o == Refused(IdTooLarge))
      && (IdsOk(ms) && fits ==> exists been' ::
            && (PARAMS in been' <==> PARAMS in been || HasParams(ms))
            && o == Ok(Msg(b, CallId(ms, id), body + FieldsBytes(c, ms), been')))
    decreases ms
  {
    hide Msg, FieldBytes, FieldOk, HasParams, IdsOk, Step, BadId, IsParams, IsId, IsMethod;
    var s := Msg(b, id, body, been);
    if ms == [] {
      NoFields();
      assert body + [] == body;
      assert Run(c, s, MemberEvents(ms)) == Ok(Msg(b, CallId(ms, id), body + FieldsBytes(c, ms), been));
    } else {
      RunConcat(c, s, [EKey(ms[0].key)] + Events(ms[0].value), MemberEvents(ms[1..]));
      RunField(c, b, id, body, been, ms[0]);
      SplitFields(ms);
      assert PARAMS in FieldStage(c, ms[0]) <==> IsParams(ms[0]);
      var head, tail := FieldBytes(c, ms[0]), FieldsBytes(c, ms[1..]);
      if !BadId(ms[0]) && Fits(b.tp, 15 + |body| + |head|) {
        RunFields(c, b, FieldId(ms[0], id), body + head, been + FieldStage(c, ms[0]), ms[1..]);
        assert body + head + tail == body + FieldsBytes(c, ms);
      }
    }
  }

  // ------------------------------------------------------------ whole calls

  /** Between calls: nothing open, the next key begins a frame. */
  predicate Idle(s: State) {
    s.stage == INIT && s.stack == [] && s.been == {} && s.tp.p <= |s.tp.mem|
  }

  function PresetEntry(c: Conf): seq<byte> {
    if c.preset == [] then [] else FunctionEntry(c.preset)
  }

  /** The outcome of the first key, or of a whole object: one call too many, no room for a frame, or as inside it. */
  function Begins(c: Conf, b: State, inside: Outcome): Outcome {
    if b.batch > MAX_BATCH_SIZE then Refused(BatchTooLarge)
    else if !Fits(b.tp, 15 + |PresetEntry(c)|) then Refused(OutputOverflow)
    else inside
  }

  /** The first key of a call begins its frame, then acts as any later key does. */
  lemma FirstKey(c: Conf, b: State, key: seq<byte>)
    requires Idle(b)
    ensures var open, fits := b.(stack := [Item(b.tp.p, 0, MapItem)]), Fits(b.tp, 15 + |PresetEntry(c)|);
            Step(c, open, EKey(key)) ==
              Begins(c, b, if fits then Step(c, Msg(b, 0, PresetEntry(c), {}), EKey(key)) else Undefined)
  {
    hide Append, FrameAt, EncStr;
    var open := b.(stack := [Item(b.tp.p, 0, MapItem)]);
    assert [0x82] + [] == [0x82];
    if b.batch <= MAX_BATCH_SIZE && Fits(b.tp, 15 + |PresetEntry(c)|) {
      MsgAppend(b, 0, [], {}, PresetEntry(c));
      assert [] + PresetEntry(c) == PresetEntry(c);
      assert StartMessage(c, open) == Ok(Msg(b, 0, PresetEntry(c), {}));
    }
  }

  lemma RunFirstKey(c: Conf, b: State, es: seq<Event>)
    requires Idle(b) && es != [] && es[0].EKey?
    ensures var fits := Fits(b.tp, 15 + |PresetEntry(c)|);
            Run(c, b.(stack := [Item(b.tp.p, 0, MapItem)]), es) ==
              Begins(c, b, if fits then Run(c, Msg(b, 0, PresetEntry(c), {}), es) else Undefined)
  {
    hide Step, Msg;
    FirstKey(c, b, es[0].key);
  }

  /** An object with a first key, up to its closing brace. */
  lemma RunBraces(c: Conf, b: State, es: seq<Event>)
    requires Idle(b) && es != [] && es[0].EKey?
    ensures var fits := Fits(b.tp, 15 + |PresetEntry(c)|);
            Run(c, b, [EStartMap] + es + [EEndMap]) ==
              Begins(c, b, if fits then Then(c, Run(c, Msg(b, 0, PresetEntry(c), {}), es), [EEndMap]) else Undefined)
  {
    hide Msg, Run;
    RunBracketed(c, b, EStartMap, es, EEndMap);
    assert Step(c, b, EStartMap) == Ok(b.(stack := [Item(b.tp.p, 0, MapItem)]));
    RunFirstKey(c, b, es);
  }

  /** The state after a call: its frame is complete, nothing is open. */
  function AfterCall(c: Conf, b: State, call: Call): State
    requires Fits(b.tp, |FrameOf(c, call)|)
  {
    b.(tp := FrameAt(b.tp, CALL, CallId(call, 0), [0x82] + Body(c, call)), batch := b.batch + 1)
  }

  /** The tuple a call without params is given at the end. */
  function LastEntry(c: Conf): seq<byte> {
    [TUPLE] + ArrayHead(Bound(c)) + c.data
  }

  /**
   The closing brace adds the tuple a call without params lacks. The header of
   an empty tuple is written unchecked: if only this byte does not fit, the
   call is accepted without it.
   */
  lemma CloseCall(c: Conf, b: State, id: nat, body: seq<byte>, been: set<Stage>)
    requires Idle(b) && Fits(b.tp, 15 + |body|)
    ensures var tail := if PARAMS in been then [] else LastEntry(c);
            Step(c, Msg(b, id, body, been), EEndMap) ==
              if Fits(b.tp, 15 + |body| + |tail|)
              then Ok(b.(tp := FrameAt(b.tp, CALL, id, [0x82] + (body + tail)), batch := b.batch + 1))
              else if c.data == [] && Fits(b.tp, 16 + |body|)
              then Ok(b.(tp := FrameAt(b.tp, CALL, id, [0x82] + (body + [TUPLE])), batch := b.batch + 1))
              else Refused(OutputOverflow)
  {
    hide Append, FrameAt;
    var s := Msg(b, id, body, been);
    assert s.stack[..|s.stack| - 1] == [];
    if PARAMS in been {
      assert body + [] == body;
    } else if Fits(b.tp, 16 + |body|) {
      var tuple, head := body + [TUPLE], ArrayHead(Bound(c));
      MsgAppend(b, id, body, been, [TUPLE]);
      if Fits(b.tp, 17 + |body|) {
        MsgAppend(b, id, tuple, been, head);
        if Fits(b.tp, 17 + |body| + |c.data|) {
          MsgAppend(b, id, tuple + head, been, c.data);
          assert tuple + head + c.data == body + LastEntry(c);
          assert c.data == [] ==> tuple + head + c.data == tuple + head;
        }
      }
    }
  }

  /** Only the unchecked header of the empty tuple is missing room. */
  predicate Truncates(c: Conf, b: State, call: Call) {
    c.data == [] && !HasParams(call) && b.tp.p + |FrameOf(c, call)| == |b.tp.mem| + 1
  }

  /** The frame without that byte: its length field says so, its tuple has no value. */
  function TruncatedFrame(c: Conf, call: Call): seq<byte> {
    Frame(CALL, CallId(call, 0), [0x82] + (PresetEntry(c) + FieldsBytes(c, call) + [TUPLE]))
  }

  function AfterTruncated(c: Conf, b: State, call: Call): State
    requires Fits(b.tp, |TruncatedFrame(c, call)|)
  {
    b.(tp := FrameAt(b.tp, CALL, CallId(call, 0), [0x82] + (PresetEntry(c) + FieldsBytes(c, call) + [TUPLE])),
       batch := b.batch + 1)
  }

  lemma FrameSizes(c: Conf, call: Call)
    ensures |FrameOf(c, call)| == 15 + |PresetEntry(c)| + |FieldsBytes(c, call)|
                                  + if HasParams(call) then 0 else |LastEntry(c)|
    ensures |TruncatedFrame(c, call)| == 16 + |PresetEntry(c)| + |FieldsBytes(c, call)|
    ensures c.data == [] ==> |LastEntry(c)| == 2
  {
    hide FieldsBytes, FunctionEntry;
  }

  /** One call object, in a buffer of any size: refused, or exactly its frame is appended, or that frame truncated. */
  lemma RunCall(c: Conf, b: State, call: Call)
    requires Idle(b) && CallOk(c, call)
    ensures var o := Run(c, b, Events(JObj(call)));
      if b.batch > MAX_BATCH_SIZE then o == Refused(BatchTooLarge)
      else if Fits(b.tp, |FrameOf(c, call)|) then
        o == if IdsOk(call) then Ok(AfterCall(c, b, call)) else Refused(IdTooLarge)
      else if IdsOk(call) && Truncates(c, b, call) then
        Fits(b.tp, |TruncatedFrame(c, call)|) && o == Ok(AfterTruncated(c, b, call))
      else o.Refused?
  {
    hide Msg, Frame, FrameAt, FieldsBytes, FieldOk, Step, IdsOk, Run, HasParams, LastEntry;
    RunBraces(c, b, MemberEvents(call));
    FrameSizes(c, call);
    if b.batch <= MAX_BATCH_SIZE && Fits(b.tp, 15 + |PresetEntry(c)|) {
      RunFields(c, b, 0, PresetEntry(c), {}, call);
      var id, body := CallId(call, 0), PresetEntry(c) + FieldsBytes(c, call);
      if IdsOk(call) && Fits(b.tp, 15 + |body|) {
        var been :| (PARAMS in been <==> HasParams(call))
          && Run(c, Msg(b, 0, PresetEntry(c), {}), MemberEvents(call)) == Ok(Msg(b, id, body, been));
        RunOne(c, Msg(b, id, body, been), EEndMap);
        CloseCall(c, b, id, body, been);
        assert body + (if HasParams(call) then [] else LastEntry(c)) == Body(c, call) by { SameBody(c, call); }
      }
    }
  }

  lemma SameBody(c: Conf, call: Call)
    ensures PresetEntry(c) + FieldsBytes(c, call) + (if HasParams(call) then [] else LastEntry(c)) == Body(c, call)
  {
  }

  // --------------------------------------------- a map in place of the array

  /** After the key params: the brace of a map is answered by its closing brace, if not before. */
  lemma RunParamsMap(c: Conf, s: State, ms: seq<Member>)
    requires s.stage == PARAMS && |s.stack| == 1 && s.stack[0].kind == MapItem
    requires Deep(s, Depth(JObj(ms)))
    ensures Run(c, s, Events(JObj(ms))) == Refused(if Fits(s.tp, |Enc(JObj(ms))|) then WrongParams else OutputOverflow)
  {
    hide Append, Reserve;
    RunBracketed(c, s, EStartMap, MemberEvents(ms), EEndMap);
    if Fits(s.tp, 5) {
      var open := s.(tp := Reserve(s.tp), stack := s.stack + [Item(s.tp.p, 0, MapItem)]);
      RunMembers(c, open, ms);
      if Fits(s.tp, |Enc(JObj(ms))|) {
        var full := Wrote(open, MapItem, |ms|, EncMembers(ms));
        assert full.stack[..|full.stack| - 1] == s.stack;
        RunOne(c, full, EEndMap);
      }
    }
  }

  lemma RunParamsMapField(c: Conf, b: State, id: nat, body: seq<byte>, been: set<Stage>, ms: seq<Member>)
    requires Fits(b.tp, 15 + |body|) && 1 + Depth(JObj(ms)) <= STACK_LIMIT
    ensures Run(c, Msg(b, id, body, been), [EKey(KEY_PARAMS)] + Events(JObj(ms)))
         == Refused(if Fits(b.tp, 16 + |body| + |Enc(JObj(ms))|) then WrongParams else OutputOverflow)
  {
    hide Append, FrameAt, Enc, Depth, Step;
    RunConcat(c, Msg(b, id, body, been), [EKey(KEY_PARAMS)], Events(JObj(ms)));
    RunParamsKey(c, b, id, body, been);
    if Fits(b.tp, 16 + |body|) {
      RunParamsMap(c, Msg(b, id, body + [TUPLE], been).(stage := PARAMS), ms);
    }
  }

  /** A call whose params are a map is refused, whatever fields come before or after, in a buffer of any size. */
  lemma ParamsMapRefused(c: Conf, b: State, before: seq<Member>, ms: seq<Member>, after: seq<Member>)
    requires Idle(b) && (forall i :: 0 <= i < |before| ==> FieldOk(c, before[i]))
    requires 1 + Depth(JObj(ms)) <= STACK_LIMIT
    ensures var o := Run(c, b, Events(JObj(before + [Member(KEY_PARAMS, JObj(ms))] + after)));
      && o.Refused?
      && (b.batch <= MAX_BATCH_SIZE && IdsOk(before)
          && Fits(b.tp, 16 + |PresetEntry(c)| + |FieldsBytes(c, before)| + |Enc(JObj(ms))|)
          ==> o == Refused(WrongParams))
  {
    hide Msg, FieldsBytes, FieldOk, IdsOk, Enc, Depth, Step, Run;
    RunBraces(c, b, MemberEvents(before + [Member(KEY_PARAMS, JObj(ms))] + after));
    if Fits(b.tp, 15 + |PresetEntry(c)|) {
      MapFieldStops(c, b, before, ms, after);
    }
  }

  lemma MapFieldStops(c: Conf, b: State, before: seq<Member>, ms: seq<Member>, after: seq<Member>)
    requires forall i :: 0 <= i < |before| ==> FieldOk(c, before[i])
    requires 1 + Depth(JObj(ms)) <= STACK_LIMIT && Fits(b.tp, 15 + |PresetEntry(c)|)
    ensures
      var es := MemberEvents(before + [Member(KEY_PARAMS, JObj(ms))] + after);
      var o := Run(c, Msg(b, 0, PresetEntry(c), {}), es);
      && o.Refused?
      && (IdsOk(before) && Fits(b.tp, 16 + |PresetEntry(c)| + |FieldsBytes(c, before)| + |Enc(JObj(ms))|)
          ==> o == Refused(WrongParams))
  {
    hide Msg, FieldsBytes, FieldOk, IdsOk, Enc, Depth, Step;
    var m := Member(KEY_PARAMS, JObj(ms));
    var s := Msg(b, 0, PresetEntry(c), {});
    MemberEventsConcat(before + [m], after);
    MemberEventsConcat(before, [m]);
    assert [m][1..] == [] && MemberEvents([m]) == [EKey(KEY_PARAMS)] + Events(JObj(ms)) + [];
    assert MemberEvents([m]) == [EKey(KEY_PARAMS)] + Events(JObj(ms));
    RunConcat(c, s, MemberEvents(before) + MemberEvents([m]), MemberEvents(after));
    RunConcat(c, s, MemberEvents(before), MemberEvents([m]));
    RunFields(c, b, 0, PresetEntry(c), {}, before);
    var body := PresetEntry(c) + FieldsBytes(c, before);
    if IdsOk(before) && Fits(b.tp, 15 + |body|) {
      var been :| Run(c, s, MemberEvents(before)) == Ok(Msg(b, CallId(before, 0), body, been));
      RunParamsMapField(c, b, CallId(before, 0), body, been, ms);
    }
  }
}

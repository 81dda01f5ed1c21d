/**
 Calls in which the names of fields are nested, or have values of other types:
 what they mean as flat calls.
 */
module Flattening {
  import opened Bytes
  import opened MsgPack
  import opened Json
  import opened TpBuffer
  import opened Machine
  import opened Nested
  import opened Calls
  import opened Batches

  /** A field of a call: params with an array stands for itself, any other for what is found in it. */
  function ScanField(c: Conf, stage: Stage, m: Member): Scanned {
    if stage == WAIT_NEXT && IsParams(m) && m.value.JArr? then Scanned(WAIT_NEXT, [m])
    else Scan(c, KeyStage(c, stage, m.key), m.value)
  }

  function ScanFields(c: Conf, stage: Stage, ms: seq<Member>): (r: Scanned)
    ensures stage == PARAMS ==> r == Scanned(PARAMS, [])
    decreases ms
  {
    if ms == [] then Scanned(stage, [])
    else
      var first := ScanField(c, stage, ms[0]);
      var rest := ScanFields(c, first.stage, ms[1..]);
      Scanned(rest.stage, first.found + rest.found)
  }

  /** Whatever names are nested in it: params is found only as a field of the call, with an array. */
  predicate Readable(c: Conf, call: Call) {
    && call != []
    && (forall i :: 0 <= i < |call| ==> 1 + Depth(call[i].value) <= STACK_LIMIT)
    && ScanFields(c, WAIT_NEXT, call).stage != PARAMS
  }

  /** The fields found, or a field that is passed over if there are none. */
  function Flat(c: Conf, call: Call): Call {
    var found := ScanFields(c, WAIT_NEXT, call).found;
    if found == [] then [Member([], JNull)] else found
  }

  lemma FoundIsOk(c: Conf, m: Member)
    requires IsFound(c, m)
    ensures FieldOk(c, m)
  {
  }

  lemma ParamsAreOk(c: Conf, m: Member)
    requires IsParams(m) && m.value.JArr? && 1 + Depth(m.value) <= STACK_LIMIT
    ensures FieldOk(c, m)
  {
  }

  lemma FieldIsOk(c: Conf, stage: Stage, m: Member)
    requires 1 + Depth(m.value) <= STACK_LIMIT
    ensures forall f <- ScanField(c, stage, m).found :: FieldOk(c, f)
  {
    hide Depth, FieldOk, Scan, IsFound;
    forall f <- ScanField(c, stage, m).found ensures FieldOk(c, f) {
      if f == m && IsParams(m) && m.value.JArr? { ParamsAreOk(c, m); } else { FoundIsOk(c, f); }
    }
  }

  lemma {:induction false} FieldsAreOk(c: Conf, stage: Stage, ms: seq<Member>)
    requires forall i :: 0 <= i < |ms| ==> 1 + Depth(ms[i].value) <= STACK_LIMIT
    ensures forall m <- ScanFields(c, stage, ms).found :: FieldOk(c, m)
    decreases ms
  {
    hide Depth, FieldOk, ScanField;
    if ms != [] {
      FieldIsOk(c, stage, ms[0]);
      FieldsAreOk(c, ScanField(c, stage, ms[0]).stage, ms[1..]);
    }
  }

  lemma FlatIsOk(c: Conf, call: Call)
    requires Readable(c, call)
    ensures CallOk(c, Flat(c, call))
  {
    hide FieldOk, ScanFields, Depth;
    FieldsAreOk(c, WAIT_NEXT, call);
    NullIsOk(c);
  }

  lemma NullIsOk(c: Conf)
    ensures FieldOk(c, Member([], JNull))
  {
  }

  // ------------------------------------------------------ the runs agree

  lemma OneField(m: Member)
    ensures MemberEvents([m]) == [EKey(m.key)] + Events(m.value)
  {
    assert [m][1..] == [];
    assert MemberEvents([m]) == [EKey(m.key)] + Events(m.value) + [];
  }

  lemma FieldActs(c: Conf, b: State, id: nat, body: seq<byte>, been: set<Stage>, stage: Stage, m: Member)
    requires Fits(b.tp, 15 + |body|) && stage != INIT && stage != PARAMS && 1 + Depth(m.value) <= STACK_LIMIT
    requires ScanField(c, stage, m).stage != PARAMS
    ensures var s, r := Msg(b, id, body, been), ScanField(c, stage, m);
            Run(c, s.(stage := stage), [EKey(m.key)] + Events(m.value)) ==
              Leaves(Run(c, s, MemberEvents(r.found)), r.stage, 0)
  {
    hide Run, Append, FrameAt, Step, Depth, Scan, FieldBytes, KeyStage;
    var s, r := Msg(b, id, body, been), ScanField(c, stage, m);
    if stage == WAIT_NEXT && IsParams(m) && m.value.JArr? {
      OneField(m);
      ParamsAreOk(c, m);
      RunField(c, b, id, body, been, m);
    } else {
      KeyNotInit(c, s.(stage := stage), m.key);
      var t := s.(stage := KeyStage(c, stage, m.key));
      KeyOutside(c, s.(stage := stage), m.key, Events(m.value));
      RunOutside(c, t, m.value);
      ActsInMap(c, t, r, Containers([m.value]));
    }
  }

  lemma {:induction false} FieldsAct(c: Conf, b: State, id: nat, body: seq<byte>, been: set<Stage>, stage: Stage,
                                     ms: seq<Member>)
    requires Fits(b.tp, 15 + |body|) && stage != INIT && stage != PARAMS
    requires forall i :: 0 <= i < |ms| ==> 1 + Depth(ms[i].value) <= STACK_LIMIT
    requires ScanFields(c, stage, ms).stage != PARAMS
    ensures var s, r := Msg(b, id, body, been), ScanFields(c, stage, ms);
            Run(c, s.(stage := stage), MemberEvents(ms)) == Leaves(Run(c, s, MemberEvents(r.found)), r.stage, 0)
    decreases ms
  {
    hide Run, Msg, Step, Depth, ScanField, FieldsBytes, FieldOk, IdsOk, HasParams;
    var s := Msg(b, id, body, been);
    if ms == [] {
      RunNone(c, s);
      RunNone(c, s.(stage := stage));
    } else {
      var first := ScanField(c, stage, ms[0]);
      var rest := ScanFields(c, first.stage, ms[1..]);
      RunConcat(c, s.(stage := stage), [EKey(ms[0].key)] + Events(ms[0].value), MemberEvents(ms[1..]));
      FieldActs(c, b, id, body, been, stage, ms[0]);
      MemberEventsConcat(first.found, rest.found);
      RunConcat(c, s, MemberEvents(first.found), MemberEvents(rest.found));
      FieldIsOk(c, stage, ms[0]);
      RunFields(c, b, id, body, been, first.found);
      if Run(c, s, MemberEvents(first.found)).Ok? {
        var been' :| Run(c, s, MemberEvents(first.found))
                  == Ok(Msg(b, CallId(first.found, id), body + FieldsBytes(c, first.found), been'));
        FieldStageKept(c, stage, ms[0]);
        FieldsAct(c, b, CallId(first.found, id), body + FieldsBytes(c, first.found), been', first.stage, ms[1..]);
      }
    }
  }

  lemma FieldStageKept(c: Conf, stage: Stage, m: Member)
    requires stage != INIT && stage != PARAMS
    ensures ScanField(c, stage, m).stage != INIT
  {
    hide Scan;
  }

  lemma EncodeAtStage(s: State, bs: seq<byte>, stage: Stage)
    ensures Encode(s.(stage := stage), bs) == Leaves(Encode(s, bs), stage, 0)
  {
    hide Append;
  }

  lemma EmptyParamsAtStage(c: Conf, s: State, stage: Stage)
    ensures AddEmptyParams(c, s.(stage := stage)) == Leaves(AddEmptyParams(c, s), stage, 0)
  {
    hide Encode, ArrayHead;
    EncodeAtStage(s, [TUPLE], stage);
    var o := Encode(s, [TUPLE]);
    if o.Ok? {
      EncodeAtStage(o.state, ArrayHead(0), stage);
      EncodeAtStage(o.state, ArrayHead(1), stage);
      var o1 := EncodeUnchecked(o.state, ArrayHead(1));
      if o1.Ok? { EncodeAtStage(o1.state, c.data, stage); }
    }
  }

  /** The brace that closes a call does not look at the stage, nor at the item of the call. */
  lemma CloseAtStage(c: Conf, b: State, id: nat, body: seq<byte>, been: set<Stage>, stage: Stage, item: Item)
    requires Fits(b.tp, 15 + |body|)
    ensures Step(c, Msg(b, id, body, been).(stage := stage, stack := [item]), EEndMap)
         == Step(c, Msg(b, id, body, been), EEndMap)
  {
    hide AddEmptyParams, FrameAt;
    var s := Msg(b, id, body, been);
    EmptyParamsAtStage(c, s.(stack := []), stage);
    assert s.stack[..|s.stack| - 1] == [] && [item][..0] == [];
  }

  /** A call with names of fields nested in it runs as the flat call of the fields found. */
  lemma FlatCall(c: Conf, b: State, call: Call)
    requires Idle(b) && Readable(c, call)
    ensures CallOk(c, Flat(c, call))
    ensures Run(c, b, Events(JObj(call))) == Run(c, b, Events(JObj(Flat(c, call))))
  {
    hide Run, Msg, Step, Depth, ScanFields, FieldsBytes, FieldOk, IdsOk, HasParams, Idle, PresetEntry;
    var flat, r := Flat(c, call), ScanFields(c, WAIT_NEXT, call);
    FlatIsOk(c, call);
    RunBraces(c, b, MemberEvents(call));
    RunBraces(c, b, MemberEvents(flat));
    if Fits(b.tp, 15 + |PresetEntry(c)|) {
      var s := Msg(b, 0, PresetEntry(c), {});
      AtWaitNext(b, 0, PresetEntry(c), {});
      FieldsAct(c, b, 0, PresetEntry(c), {}, WAIT_NEXT, call);
      SameFields(c, b, call);
      RunFields(c, b, 0, PresetEntry(c), {}, flat);
      var o := Run(c, s, MemberEvents(flat));
      if o.Ok? {
        var been :| o == Ok(Msg(b, CallId(flat, 0), PresetEntry(c) + FieldsBytes(c, flat), been));
        var id, body := CallId(flat, 0), PresetEntry(c) + FieldsBytes(c, flat);
        CloseAtStage(c, b, id, body, been, r.stage, Item(b.tp.p, 0, MapItem));
        OneItem(b, id, body, been, r.stage);
        RunOne(c, o.state, EEndMap);
        RunOne(c, o.state.(stage := r.stage), EEndMap);
      }
    }
  }

  lemma OneItem(b: State, id: nat, body: seq<byte>, been: set<Stage>, stage: Stage)
    requires Fits(b.tp, 15 + |body|)
    ensures Msg(b, id, body, been).(stage := stage, stack := [Item(b.tp.p, 0, MapItem)])
         == Msg(b, id, body, been).(stage := stage)
  {
  }

  lemma AtWaitNext(b: State, id: nat, body: seq<byte>, been: set<Stage>)
    requires Fits(b.tp, 15 + |body|)
    ensures Msg(b, id, body, been).(stage := WAIT_NEXT) == Msg(b, id, body, been)
  {
  }

  lemma SameFields(c: Conf, b: State, call: Call)
    requires Fits(b.tp, 15 + |PresetEntry(c)|)
    ensures var s := Msg(b, 0, PresetEntry(c), {});
            Run(c, s, MemberEvents(Flat(c, call))) == Run(c, s, MemberEvents(ScanFields(c, WAIT_NEXT, call).found))
  {
    hide Run, ScanFields, PresetEntry, Events, FrameAt, KEY_PARAMS, KEY_ID, KEY_METHOD;
    var s, m := Msg(b, 0, PresetEntry(c), {}), Member([], JNull);
    if ScanFields(c, WAIT_NEXT, call).found == [] {
      NullIsOk(c);
      OneField(m);
      RunField(c, b, 0, PresetEntry(c), {}, m);
      RunNone(c, s);
      assert PresetEntry(c) + [] == PresetEntry(c);
    }
  }

  // ------------------------------------------------------------- documents

  function FlatCalls(c: Conf, calls: seq<Call>): seq<Call> {
    if calls == [] then [] else [Flat(c, calls[0])] + FlatCalls(c, calls[1..])
  }

  lemma {:induction false} EachFlat(c: Conf, calls: seq<Call>)
    ensures |FlatCalls(c, calls)| == |calls|
    ensures forall i :: 0 <= i < |calls| ==> FlatCalls(c, calls)[i] == Flat(c, calls[i])
    decreases calls
  {
    hide Flat;
    if calls != [] {
      EachFlat(c, calls[1..]);
    }
  }

  function FlatDocument(c: Conf, d: Document): Document {
    if d.Single? then Single(Flat(c, d.call)) else Batch(FlatCalls(c, d.calls))
  }

  predicate AllReadable(c: Conf, calls: seq<Call>) {
    forall i :: 0 <= i < |calls| ==> Readable(c, calls[i])
  }

  lemma IdleAfter(c: Conf, b: State, call: Call)
    requires Idle(b) && CallOk(c, call)
    ensures var o := Run(c, b, Events(JObj(call))); o.Ok? ==> Idle(o.state) && o.state.batchMode == b.batchMode
  {
    hide Run, FrameOf, TruncatedFrame, Events, CallOk, CallId, FieldsBytes, Put;
    RunCall(c, b, call);
  }

  lemma {:induction false} RunFlat(c: Conf, b: State, calls: seq<Call>)
    requires Idle(b) && AllReadable(c, calls)
    ensures var o := Run(c, b, ItemEvents(Objects(calls)));
      && o == Run(c, b, ItemEvents(Objects(FlatCalls(c, calls))))
      && (o.Ok? ==> Idle(o.state) && o.state.batchMode == b.batchMode)
    decreases calls
  {
    hide Run, Readable, Flat, Idle, Events, CallOk;
    var flat := FlatCalls(c, calls);
    if calls == [] {
      RunNone(c, b);
    } else {
      assert flat[1..] == FlatCalls(c, calls[1..]);
      var objects, flats := Objects(calls), Objects(flat);
      assert objects[0] == JObj(calls[0]) && objects[1..] == Objects(calls[1..]);
      assert flats[0] == JObj(flat[0]) && flats[1..] == Objects(flat[1..]);
      RunConcat(c, b, Events(objects[0]), ItemEvents(objects[1..]));
      RunConcat(c, b, Events(flats[0]), ItemEvents(flats[1..]));
      FlatCall(c, b, calls[0]);
      IdleAfter(c, b, flat[0]);
      var o := Run(c, b, Events(objects[0]));
      if o.Ok? {
        RunFlat(c, o.state, calls[1..]);
      }
    }
  }

  /**
   A whole document, in a buffer of any size: however names of fields are
   nested in it, the run is that of the flat document.
   */
  lemma TranscodeNested(c: Conf, mem: seq<byte>, d: Document)
    requires AllReadable(c, d.Calls())
    ensures CallsOk(c, FlatDocument(c, d).Calls())
    ensures Run(c, Init(mem), DocumentEvents(d)) == Run(c, Init(mem), DocumentEvents(FlatDocument(c, d)))
  {
    hide Run, Readable, Flat, Idle, Events, CallOk, DocumentEvents;
    var flat := FlatDocument(c, d);
    EachFlat(c, d.Calls());
    assert d.Single? ==> [d.call][1..] == [];
    forall i | 0 <= i < |flat.Calls()| ensures CallOk(c, flat.Calls()[i]) {
      FlatReadable(c, d.Calls()[i]);
    }
    var b := Init(mem).(batchMode := d.Batch?);
    InitIsIdle(mem, d.Batch?);
    RunFlat(c, b, d.Calls());
    assert FlatCalls(c, d.Calls()) == flat.Calls();
    DocumentIsCalls(c, mem, d);
    DocumentIsCalls(c, mem, flat);
  }

  lemma FlatReadable(c: Conf, call: Call)
    requires Readable(c, call)
    ensures CallOk(c, Flat(c, call))
  {
    FlatIsOk(c, call);
  }

  // ---------------------------------------------------- params in a map

  /** A call in which a field holds a map with params in it, at any depth, is never accepted. */
  lemma ParamsInMapRefused(c: Conf, b: State, before: seq<Member>, m: Member, after: seq<Member>)
    requires Idle(b) && (forall i :: 0 <= i < |before| ==> 1 + Depth(before[i].value) <= STACK_LIMIT)
    requires m.value.JObj? && 1 + Depth(m.value) <= STACK_LIMIT
    requires var stage := ScanFields(c, WAIT_NEXT, before).stage;
      && stage != PARAMS && KeyStage(c, stage, m.key) != PARAMS
      && Scan(c, KeyStage(c, stage, m.key), m.value).stage == PARAMS
    ensures !Run(c, b, Events(JObj(before + [m] + after))).Ok?
  {
    hide Run, Msg, Step, Depth, ScanFields, Scan, KeyStage, FieldsBytes, FieldOk, IdsOk, HasParams, Idle, PresetEntry;
    RunBraces(c, b, MemberEvents(before + [m] + after));
    if Fits(b.tp, 15 + |PresetEntry(c)|) {
      var s, r := Msg(b, 0, PresetEntry(c), {}), ScanFields(c, WAIT_NEXT, before);
      MemberEventsConcat(before + [m], after);
      MemberEventsConcat(before, [m]);
      RunConcat(c, s, MemberEvents(before + [m]), MemberEvents(after));
      RunConcat(c, s, MemberEvents(before), MemberEvents([m]));
      AtWaitNext(b, 0, PresetEntry(c), {});
      FieldsAct(c, b, 0, PresetEntry(c), {}, WAIT_NEXT, before);
      FieldsAreOk(c, WAIT_NEXT, before);
      RunFields(c, b, 0, PresetEntry(c), {}, r.found);
      if Run(c, s, MemberEvents(r.found)).Ok? {
        var id, body := CallId(r.found, 0), PresetEntry(c) + FieldsBytes(c, r.found);
        var been :| Run(c, s, MemberEvents(r.found)) == Ok(Msg(b, id, body, been));
        StageNotInit(c, WAIT_NEXT, before);
        MapStops(c, b, id, body, been, r.stage, m);
      }
    }
  }

  lemma {:induction false} StageNotInit(c: Conf, stage: Stage, ms: seq<Member>)
    requires stage != INIT
    ensures ScanFields(c, stage, ms).stage != INIT
    decreases ms
  {
    hide Scan;
    if ms != [] {
      StageNotInit(c, ScanField(c, stage, ms[0]).stage, ms[1..]);
    }
  }

  lemma MapStops(c: Conf, b: State, id: nat, body: seq<byte>, been: set<Stage>, stage: Stage, m: Member)
    requires Fits(b.tp, 15 + |body|) && stage != INIT && stage != PARAMS
    requires m.value.JObj? && 1 + Depth(m.value) <= STACK_LIMIT
    requires KeyStage(c, stage, m.key) != PARAMS && Scan(c, KeyStage(c, stage, m.key), m.value).stage == PARAMS
    ensures !Run(c, Msg(b, id, body, been).(stage := stage), MemberEvents([m])).Ok?
  {
    hide Run, FrameAt, Step, Depth, Scan, KeyStage;
    var s := Msg(b, id, body, been).(stage := stage);
    OneField(m);
    KeyNotInit(c, s, m.key);
    KeyOutside(c, s, m.key, Events(m.value));
    FindsParams(c, s.(stage := KeyStage(c, stage, m.key)), m.value);
  }

  // ------------------------------------------------------------- witnesses

  const X: seq<byte> := [0x78]

  /** {"x":{"id":j}} and what is found in it. */
  lemma InsideX(c: Conf, j: Json)
    requires !j.JArr? && !j.JObj?
    ensures var x := Member(X, JObj([Member(KEY_ID, j)]));
      && Depth(x.value) == 1
      && ScanField(c, WAIT_NEXT, x) == Scan(c, ID, j)
  {
    var inner := [Member(KEY_ID, j)];
    assert inner[1..] == [];
    assert MembersDepth(inner) == Max(0, MembersDepth([]));
    var first := Scan(c, ID, j);
    assert ScanMembers(c, first.stage, []) == Scanned(first.stage, []);
    assert KeyStage(c, WAIT_NEXT, X) == WAIT_NEXT && KeyStage(c, WAIT_NEXT, KEY_ID) == ID;
    assert ScanMembers(c, WAIT_NEXT, inner) == Scanned(first.stage, first.found + []);
    assert first.found + [] == first.found;
  }

  /** {"x":{"id":7}} sends the id 7: it runs as {"id":7}. */
  lemma NestedId(c: Conf, b: State)
    requires Idle(b)
    ensures Run(c, b, Events(JObj([Member(X, JObj([Member(KEY_ID, JInt(7))]))])))
         == Run(c, b, Events(JObj([Member(KEY_ID, JInt(7))])))
  {
    hide Run, Events, Idle, ScanField;
    var call := [Member(X, JObj([Member(KEY_ID, JInt(7))]))];
    InsideX(c, JInt(7));
    assert call[1..] == [];
    assert ScanFields(c, WAIT_NEXT, call) == Scanned(WAIT_NEXT, [Member(KEY_ID, JInt(7))] + []);
    assert [Member(KEY_ID, JInt(7))] + [] == [Member(KEY_ID, JInt(7))];
    FlatCall(c, b, call);
  }

  /** {"x":{"id":null},"method":"f"} swallows the method: it runs as {"":null}. */
  lemma SwallowedMethod(c: Conf, b: State, f: seq<byte>)
    requires Idle(b)
    ensures Run(c, b, Events(JObj([Member(X, JObj([Member(KEY_ID, JNull)])), Member(KEY_METHOD, JStr(f))])))
         == Run(c, b, Events(JObj([Member([], JNull)])))
  {
    hide Run, Events, Idle;
    var x, method_ := Member(X, JObj([Member(KEY_ID, JNull)])), Member(KEY_METHOD, JStr(f));
    var call := [x, method_];
    InsideX(c, JNull);
    assert call[1..] == [method_] && [method_][1..] == [];
    assert ScanField(c, ID, method_) == Scanned(WAIT_NEXT, []);
    assert ScanFields(c, ID, [method_]) == Scanned(WAIT_NEXT, [] + []);
    assert ScanFields(c, WAIT_NEXT, call) == Scanned(WAIT_NEXT, [] + []);
    FlatCall(c, b, call);
  }

  /** {"id":"s"} in an ignored field does no harm, although id is a reserved name. */
  lemma HarmlessId(c: Conf, str: seq<byte>)
    ensures var j := JObj([Member(KEY_ID, JStr(str))]); !NoReservedKeys(c, j) && Harmless(c, j)
  {
    InsideX(c, JStr(str));
    assert KeyStage(c, WAIT_NEXT, X) == WAIT_NEXT;
  }
}

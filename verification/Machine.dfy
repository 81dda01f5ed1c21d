/**
 The JSON to Tarantool transcoder as a state machine over parser events: what
 each yajl callback does to the stage, the container stack and the buffer.
 */
module Machine {
  import opened Bytes
  import opened MsgPack
  import opened Json
  import opened TpBuffer

  const MAX_BATCH_SIZE := 16384
  const UINT32_MAX := 0xffff_ffff

  /** The stack grows by 16 up to 240 items; one step further its uint8 size wraps to 0. */
  const STACK_LIMIT := 240

  const KEY_PARAMS: seq<byte> := [0x70, 0x61, 0x72, 0x61, 0x6d, 0x73]
  const KEY_ID: seq<byte> := [0x69, 0x64]
  const KEY_METHOD: seq<byte> := [0x6d, 0x65, 0x74, 0x68, 0x6f, 0x64]

  datatype Stage = INIT | WAIT_NEXT | PARAMS | ID | METHOD

  datatype Kind = MapItem | ArrayItem

  /** stack_item_t: where the header goes, how many entries so far. */
  datatype Item = Item(ptr: nat, count: nat, kind: Kind)

  /** A preset method ([] for none: read it from the input) and bound data ([] for none). */
  datatype Conf = Conf(preset: seq<byte>, data: seq<byte>)

  datatype State = State(
    tp: Tp,
    stack: seq<Item>,
    stage: Stage,
    been: set<Stage>,
    batch: nat,
    batchMode: bool)

  datatype Error = OutputOverflow | WrongParams | IdTooLarge | BatchTooLarge

  /** Undefined: the C code asserts or leaves its arrays there. */
  datatype Outcome = Ok(state: State) | Refused(error: Error) | Undefined {
    predicate IsFailure() { !Ok? }
    function PropagateFailure(): Outcome requires IsFailure() { this }
    function Extract(): State requires Ok? { state }
  }

  /** A request has been started and its header is written. */
  predicate Ready(t: Tp) {
    t.size.Some? && t.sync == Some(t.size.value + 9) && t.size.value + 14 <= t.p <= |t.mem|
  }

  // ------------------------------------------------------------- primitives

  /** A checked tp_encode call. */
  function Encode(s: State, bs: seq<byte>): Outcome {
    if !Fits(s.tp, |bs|) then Refused(OutputOverflow)
    else if !Ready(s.tp) then Undefined
    else Ok(s.(tp := Append(s.tp, bs)))
  }

  /** A tp_encode call whose result the code ignores. */
  function EncodeUnchecked(s: State, bs: seq<byte>): Outcome {
    if !Fits(s.tp, |bs|) then Ok(s) else Encode(s, bs)
  }

  /** bind_data. */
  function BindData(c: Conf, s: State): Outcome {
    if c.data == [] then Ok(s) else Encode(s, c.data)
  }

  /** The five bytes left free for a container header. */
  function OpenHole(s: State): Outcome {
    if !Fits(s.tp, 5) then Refused(OutputOverflow)
    else if !Ready(s.tp) then Undefined
    else Ok(s.(tp := Reserve(s.tp)))
  }

  function CloseHole(s: State, ptr: nat, head: seq<byte>): Outcome {
    if ptr + |head| <= |s.tp.mem| then Ok(s.(tp := Patch(s.tp, ptr, head))) else Undefined
  }

  /** stack_grow: count one more entry if the innermost container is of this kind. */
  function Grow(stack: seq<Item>, kind: Kind, n: nat := 1): (r: seq<Item>)
    ensures |r| == |stack|
  {
    if stack != [] && stack[|stack| - 1].kind == kind then
      var top := stack[|stack| - 1];
      stack[..|stack| - 1] + [top.(count := top.count + n)]
    else stack
  }

  function GrowArray(s: State): State {
    s.(stack := Grow(s.stack, ArrayItem))
  }

  /** stack_push. */
  function Push(s: State, kind: Kind): Outcome {
    if |s.stack| < STACK_LIMIT then Ok(s.(stack := s.stack + [Item(s.tp.p, 0, kind)])) else Undefined
  }

  /** stack_pop. */
  function Pop(s: State): (r: (State, Option<Item>))
    ensures r.0.tp == s.tp
  {
    if s.stack == [] then (s, None)
    else (s.(stack := s.stack[..|s.stack| - 1]), Some(s.stack[|s.stack| - 1]))
  }

  // -------------------------------------------------------------- callbacks

  /** yajl_null, yajl_boolean: bytes of a value, taken only as a parameter. */
  function Scalar(s: State, bs: seq<byte>): Outcome {
    if s.stage == PARAMS then Encode(GrowArray(s), bs) else Ok(s)
  }

  function Integer(s: State, i: int64): Outcome {
    if s.stage == PARAMS then Encode(GrowArray(s), EncInt64(i))
    else if s.stage == ID then
      if i > UINT32_MAX then Refused(IdTooLarge)
      else if !Ready(s.tp) then Undefined
      else Ok(s.(tp := Reqid(s.tp, i % TWO_32), been := s.been + {ID}, stage := WAIT_NEXT))
    else Ok(s)
  }

  function String(c: Conf, s: State, str: seq<byte>): Outcome {
    if s.stage == PARAMS then Encode(GrowArray(s), EncStr(str))
    else if c.preset == [] && s.stage == METHOD then
      var s1 :- Encode(s, [FUNCTION] + EncStr(str));
      Ok(s1.(stage := WAIT_NEXT, been := s1.been + {METHOD}))
    else Ok(s.(stage := WAIT_NEXT))
  }

  /** The first key of a call object begins its frame. */
  function StartMessage(c: Conf, s: State): Outcome {
    if s.batch > MAX_BATCH_SIZE then Refused(BatchTooLarge)
    else if !Fits(s.tp, 15) then Refused(OutputOverflow)
    else
      var s1 := s.(tp := CallWof(s.tp));
      var s2 :- if c.preset == [] then Ok(s1) else Encode(s1, [FUNCTION] + EncStr(c.preset));
      Ok(s2.(stage := WAIT_NEXT, batch := s2.batch + 1))
  }

  function MapKey(c: Conf, s0: State, key: seq<byte>): Outcome {
    var s :- if s0.stage == INIT then StartMessage(c, s0) else Ok(s0);
    if s.stage == PARAMS then Encode(s.(stack := Grow(s.stack, MapItem)), EncStr(key))
    else if s.stage == WAIT_NEXT then
      if key == KEY_PARAMS then
        var s1 :- Encode(s, [TUPLE]);
        Ok(s1.(stage := PARAMS))
      else if key == KEY_ID then Ok(s.(stage := ID))
      else if c.preset == [] && key == KEY_METHOD then Ok(s.(stage := METHOD))
      else Ok(s)
    else Ok(s.(stage := WAIT_NEXT))
  }

  function StartMap(s: State): Outcome {
    var s1 :- Push(GrowArray(s), MapItem);
    if s1.stage != PARAMS then Ok(s1) else OpenHole(s1)
  }

  /** A call object without params gets an empty tuple, or one holding the bound data. */
  function AddEmptyParams(c: Conf, s: State): Outcome {
    var s1 :- Encode(s, [TUPLE]);
    if c.data == [] then EncodeUnchecked(s1, ArrayHead(0))
    else
      var s2 :- EncodeUnchecked(s1, ArrayHead(1));
      BindData(c, s2)
  }

  /** The brace that closes a call object. */
  function FinishMessage(c: Conf, s: State): Outcome {
    var s1 :- if PARAMS in s.been then Ok(s) else AddEmptyParams(c, s);
    Ok(s1.(stage := INIT, been := {}))
  }

  function EndMap(c: Conf, s0: State): Outcome {
    var (s, item) := Pop(s0);
    var s1 :- if item.Some? && s.stack == [] then FinishMessage(c, s) else Ok(s);
    if s1.stage != PARAMS then Ok(s1)
    else if item.None? || |s1.stack| == 1 then Refused(WrongParams)
    else CloseHole(s1, item.value.ptr, WideMapHead(item.value.count))
  }

  function StartArray(c: Conf, s: State): Outcome {
    if s.stage == INIT then Ok(s.(batchMode := true))
    else
      var s1 :- Push(GrowArray(s), ArrayItem);
      if s1.stage != PARAMS then Ok(s1)
      else
        var s2 :- OpenHole(s1);
        if |s2.stack| == 2 then BindData(c, s2) else Ok(s2)
  }

  function EndArray(c: Conf, s0: State): Outcome {
    var (s, item) := Pop(s0);
    if s.stage != PARAMS then Ok(s)
    else if item.None? then Refused(WrongParams)
    else if |s.stack| == 1 then
      var count := item.value.count + if c.data == [] then 0 else 1;
      CloseHole(s.(stage := WAIT_NEXT, been := s.been + {PARAMS}), item.value.ptr, WideArrayHead(count))
    else CloseHole(s, item.value.ptr, WideArrayHead(item.value.count))
  }

  function Step(c: Conf, s: State, e: Event): Outcome {
    match e
    case ENull => Scalar(s, NIL)
    case EBool(b) => Scalar(s, EncBool(b))
    case EInt(i) => Integer(s, i)
    case EStr(str) => String(c, s, str)
    case EStartMap => StartMap(s)
    case EKey(key) => MapKey(c, s, key)
    case EEndMap => EndMap(c, s)
    case EStartArray => StartArray(c, s)
    case EEndArray => EndArray(c, s)
  }

  /** The parser stops at the first callback that returns 0. */
  function Run(c: Conf, s: State, es: seq<Event>): Outcome
    decreases es
  {
    if es == [] then Ok(s)
    else
      var s1 :- Step(c, s, es[0]);
      Run(c, s1, es[1..])
  }

  /** The run goes on from an earlier outcome. */
  function Then(c: Conf, o: Outcome, es: seq<Event>): Outcome {
    if o.Ok? then Run(c, o.state, es) else o
  }

  function Init(mem: seq<byte>): State {
    State(Tp(mem, 0, None, None), [], INIT, {}, 0, false)
  }

  lemma {:induction false} RunConcat(c: Conf, s: State, a: seq<Event>, b: seq<Event>)
    ensures Run(c, s, a + b) == Then(c, Run(c, s, a), b)
    decreases a
  {
    if a == [] {
      assert a + b == b;
    } else {
      assert (a + b)[0] == a[0] && (a + b)[1..] == a[1..] + b;
      if Step(c, s, a[0]).Ok? {
        RunConcat(c, Step(c, s, a[0]).state, a[1..], b);
      }
    }
  }

  lemma RunNone(c: Conf, s: State)
    ensures Run(c, s, []) == Ok(s)
  {
  }

  lemma RunOne(c: Conf, s: State, e: Event)
    ensures Run(c, s, [e]) == Step(c, s, e)
  {
    assert [e][1..] == [];
  }

  /** e, then b, then f. */
  lemma RunBracketed(c: Conf, s: State, e: Event, b: seq<Event>, f: Event)
    ensures Run(c, s, [e] + b + [f]) == Then(c, Then(c, Step(c, s, e), b), [f])
  {
    RunConcat(c, s, [e] + b, [f]);
    RunConcat(c, s, [e], b);
    RunOne(c, s, e);
  }

  // ------------------------------------------------- what every step keeps

  /**
   How many of the open containers were opened outside params: those have no
   hole. Given k before event e, their number behind it.
   */
  function Base(s: State, e: Event, k: nat): nat {
    if (e == EStartMap || (e == EStartArray && s.stage != INIT)) && s.stage != PARAMS then |s.stack| + 1
    else if (e == EEndMap || e == EEndArray) && k == |s.stack| > 0 then k - 1
    else k
  }

  /**
   Every position the machine holds lies in the buffer, the hole of every
   container opened inside params lies in what is written, and the stack is
   within its limit.
   */
  ghost predicate InBounds(s: State, k: nat, capacity: nat) {
    && |s.tp.mem| == capacity
    && s.tp.p <= capacity
    && (s.tp.size.Some? ==> Ready(s.tp))
    && k <= |s.stack| <= STACK_LIMIT
    && (forall i :: 0 <= i < |s.stack| ==> s.stack[i].ptr <= s.tp.p)
    && (forall i :: k <= i < |s.stack| ==> s.stack[i].ptr + 5 <= s.tp.p)
  }

  ghost predicate Kept(s: State, o: Outcome, k: nat, capacity: nat) {
    o.Ok? ==> InBounds(o.state, k, capacity) && o.state.tp.p >= s.tp.p
  }

  lemma EncodeKeepsBounds(s: State, bs: seq<byte>, k: nat, capacity: nat)
    requires InBounds(s, k, capacity)
    ensures Kept(s, Encode(s, bs), k, capacity)
  {
    hide Append;
  }

  lemma GrowKeepsBounds(s: State, kind: Kind, k: nat, capacity: nat)
    requires InBounds(s, k, capacity)
    ensures InBounds(s.(stack := Grow(s.stack, kind)), k, capacity)
  {
  }

  lemma StartKeepsBounds(c: Conf, s: State, k: nat, capacity: nat)
    requires InBounds(s, k, capacity)
    ensures Kept(s, StartMessage(c, s), k, capacity)
  {
    hide Encode, FrameAt, EncStr;
    if Fits(s.tp, 15) {
      EncodeKeepsBounds(s.(tp := CallWof(s.tp)), [FUNCTION] + EncStr(c.preset), k, capacity);
    }
  }

  lemma MapKeyKeepsBounds(c: Conf, s: State, key: seq<byte>, k: nat, capacity: nat)
    requires InBounds(s, k, capacity)
    ensures Kept(s, MapKey(c, s, key), k, capacity)
  {
    hide Encode, EncStr, StartMessage, Grow;
    StartKeepsBounds(c, s, k, capacity);
    var s1 := if s.stage == INIT then StartMessage(c, s) else Ok(s);
    if s1.Ok? {
      GrowKeepsBounds(s1.state, MapItem, k, capacity);
      EncodeKeepsBounds(s1.state.(stack := Grow(s1.state.stack, MapItem)), EncStr(key), k, capacity);
      EncodeKeepsBounds(s1.state, [TUPLE], k, capacity);
    }
  }

  lemma PopKeepsBounds(s: State, e: Event, k: nat, capacity: nat)
    requires InBounds(s, k, capacity) && (e == EEndMap || e == EEndArray)
    ensures InBounds(Pop(s).0, Base(s, e, k), capacity)
  {
  }

  lemma EmptyParamsKeepBounds(c: Conf, s: State, k: nat, capacity: nat)
    requires InBounds(s, k, capacity)
    ensures Kept(s, AddEmptyParams(c, s), k, capacity)
  {
    hide Encode, ArrayHead, InBounds;
    EncodeKeepsBounds(s, [TUPLE], k, capacity);
    var o := Encode(s, [TUPLE]);
    if o.Ok? {
      EncodeKeepsBounds(o.state, ArrayHead(0), k, capacity);
      EncodeKeepsBounds(o.state, ArrayHead(1), k, capacity);
      var o1 := EncodeUnchecked(o.state, ArrayHead(1));
      if o1.Ok? {
        EncodeKeepsBounds(o1.state, c.data, k, capacity);
      }
    }
  }

  lemma EndMapKeepsBounds(c: Conf, s0: State, k: nat, capacity: nat)
    requires InBounds(s0, k, capacity)
    ensures Kept(s0, EndMap(c, s0), Base(s0, EEndMap, k), capacity)
  {
    hide AddEmptyParams, WideMapHead, Base;
    var s, k' := Pop(s0).0, Base(s0, EEndMap, k);
    PopKeepsBounds(s0, EEndMap, k, capacity);
    EmptyParamsKeepBounds(c, s, k', capacity);
  }

  lemma EndArrayKeepsBounds(c: Conf, s0: State, k: nat, capacity: nat)
    requires InBounds(s0, k, capacity)
    ensures Kept(s0, EndArray(c, s0), Base(s0, EEndArray, k), capacity)
  {
    hide WideArrayHead, Base;
    PopKeepsBounds(s0, EEndArray, k, capacity);
  }

  lemma OpenHoleKeepsBounds(s: State, kind: Kind, k: nat, capacity: nat)
    requires InBounds(s, k, capacity) && s.stage == PARAMS && Push(s, kind).Ok?
    ensures Kept(s, OpenHole(Push(s, kind).state), k, capacity)
  {
    hide LengthField;
  }

  lemma PushKeepsBounds(s: State, kind: Kind, capacity: nat, k: nat)
    requires InBounds(s, k, capacity)
    ensures Kept(s, Push(s, kind), |s.stack| + 1, capacity)
  {
  }

  lemma StartMapKeepsBounds(s: State, k: nat, capacity: nat)
    requires InBounds(s, k, capacity)
    ensures Kept(s, StartMap(s), Base(s, EStartMap, k), capacity)
  {
    hide OpenHole, InBounds, Grow;
    GrowKeepsBounds(s, ArrayItem, k, capacity);
    if s.stage == PARAMS && Push(GrowArray(s), MapItem).Ok? {
      OpenHoleKeepsBounds(GrowArray(s), MapItem, k, capacity);
    }
    PushKeepsBounds(GrowArray(s), MapItem, capacity, k);
  }

  lemma StartArrayKeepsBounds(c: Conf, s: State, k: nat, capacity: nat)
    requires InBounds(s, k, capacity)
    ensures Kept(s, StartArray(c, s), Base(s, EStartArray, k), capacity)
  {
    hide OpenHole, Encode, Grow;
    GrowKeepsBounds(s, ArrayItem, k, capacity);
    var s1 := Push(GrowArray(s), ArrayItem);
    PushKeepsBounds(GrowArray(s), ArrayItem, capacity, k);
    if s.stage == PARAMS && s1.Ok? {
      OpenHoleKeepsBounds(GrowArray(s), ArrayItem, k, capacity);
      if OpenHole(s1.state).Ok? {
        EncodeKeepsBounds(OpenHole(s1.state).state, c.data, k, capacity);
      }
    }
  }

  lemma IntegerKeepsBounds(s: State, i: int64, k: nat, capacity: nat)
    requires InBounds(s, k, capacity)
    ensures Kept(s, Integer(s, i), k, capacity)
  {
    hide Encode, EncInt64, Grow;
    GrowKeepsBounds(s, ArrayItem, k, capacity);
    EncodeKeepsBounds(GrowArray(s), EncInt64(i), k, capacity);
  }

  lemma StringKeepsBounds(c: Conf, s: State, str: seq<byte>, k: nat, capacity: nat)
    requires InBounds(s, k, capacity)
    ensures Kept(s, String(c, s, str), k, capacity)
  {
    hide Encode, EncStr, Grow;
    GrowKeepsBounds(s, ArrayItem, k, capacity);
    EncodeKeepsBounds(GrowArray(s), EncStr(str), k, capacity);
    EncodeKeepsBounds(s, [FUNCTION] + EncStr(str), k, capacity);
  }

  lemma ScalarKeepsBounds(s: State, bs: seq<byte>, k: nat, capacity: nat)
    requires InBounds(s, k, capacity)
    ensures Kept(s, Scalar(s, bs), k, capacity)
  {
    hide Encode, Grow;
    GrowKeepsBounds(s, ArrayItem, k, capacity);
    EncodeKeepsBounds(GrowArray(s), bs, k, capacity);
  }

  lemma StepKeepsBounds(c: Conf, s: State, e: Event, k: nat, capacity: nat)
    requires InBounds(s, k, capacity)
    ensures Kept(s, Step(c, s, e), Base(s, e, k), capacity)
  {
    hide InBounds, Kept, Scalar, Integer, String, MapKey, EndMap, EndArray, StartMap, StartArray;
    match e
    case ENull => ScalarKeepsBounds(s, NIL, k, capacity);
    case EBool(b) => ScalarKeepsBounds(s, EncBool(b), k, capacity);
    case EInt(i) => IntegerKeepsBounds(s, i, k, capacity);
    case EStr(str) => StringKeepsBounds(c, s, str, k, capacity);
    case EKey(key) => MapKeyKeepsBounds(c, s, key, k, capacity);
    case EStartMap => StartMapKeepsBounds(s, k, capacity);
    case EEndMap => EndMapKeepsBounds(c, s, k, capacity);
    case EStartArray => StartArrayKeepsBounds(c, s, k, capacity);
    case EEndArray => EndArrayKeepsBounds(c, s, k, capacity);
  }

  function RunBase(c: Conf, s: State, es: seq<Event>, k: nat): nat
    decreases es
  {
    if es == [] || !Step(c, s, es[0]).Ok? then k
    else RunBase(c, Step(c, s, es[0]).state, es[1..], Base(s, es[0], k))
  }

  /** Whatever events arrive, in any order: p never passes the end of the buffer, and the holes stay behind p. */
  lemma {:induction false} RunKeepsBounds(c: Conf, s: State, es: seq<Event>, k: nat, capacity: nat)
    requires InBounds(s, k, capacity)
    ensures Kept(s, Run(c, s, es), RunBase(c, s, es, k), capacity)
    decreases es
  {
    hide Step;
    if es != [] && Step(c, s, es[0]).Ok? {
      StepKeepsBounds(c, s, es[0], k, capacity);
      RunKeepsBounds(c, Step(c, s, es[0]).state, es[1..], Base(s, es[0], k), capacity);
    }
  }

  /** One container too many. */
  predicate Overflows(s: State, e: Event) {
    |s.stack| == STACK_LIMIT && (e == EStartMap || (e == EStartArray && s.stage != INIT))
  }

  /** A container opened outside params is closed inside, and its header would be stored past the end. */
  predicate LeavesBuffer(s: State, e: Event) {
    && s.stage == PARAMS && s.stack != []
    && s.stack[|s.stack| - 1].ptr + 5 > |s.tp.mem|
    && (e == EEndArray || (e == EEndMap && |s.stack| > 2))
  }

  /** The bytes e would write where no frame was started, if it would. */
  function Strays(c: Conf, s: State, e: Event): Option<nat> {
    if e == EEndMap then (if |s.stack| == 1 && PARAMS !in s.been then Some(1) else None)
    else if s.stage == PARAMS then
      match e
      case ENull => Some(1)
      case EBool(_) => Some(1)
      case EInt(i) => Some(|EncInt64(i)|)
      case EStr(str) => Some(|EncStr(str)|)
      case EKey(key) => Some(|EncStr(key)|)
      case EEndArray => None
      case _ => Some(5)
    else if s.stage == ID then (if e.EInt? && e.i <= UINT32_MAX then Some(0) else None)
    else if s.stage == METHOD then (if e.EStr? && c.preset == [] then Some(1 + |EncStr(e.s)|) else None)
    else if s.stage == WAIT_NEXT && e == EKey(KEY_PARAMS) then Some(1)
    else None
  }

  /** A field before any frame, or the end of an object without fields, that would be written. */
  predicate NoFrame(c: Conf, s: State, e: Event) {
    s.tp.size == None && Strays(c, s, e).Some? && Fits(s.tp, Strays(c, s, e).value)
  }

  ghost predicate ExactlyUndefined(c: Conf, s: State, e: Event) {
    Step(c, s, e) == Undefined <==> Overflows(s, e) || LeavesBuffer(s, e) || NoFrame(c, s, e)
  }

  lemma KeyUndefined(c: Conf, s: State, key: seq<byte>, k: nat, capacity: nat)
    requires InBounds(s, k, capacity)
    ensures ExactlyUndefined(c, s, EKey(key))
  {
    hide Append, FrameAt, EncStr, Grow;
  }

  lemma EndMapUndefined(c: Conf, s: State, k: nat, capacity: nat)
    requires InBounds(s, k, capacity)
    ensures ExactlyUndefined(c, s, EEndMap)
  {
    hide Append, Put, WideMapHead;
  }

  lemma EndArrayUndefined(c: Conf, s: State, k: nat, capacity: nat)
    requires InBounds(s, k, capacity)
    ensures ExactlyUndefined(c, s, EEndArray)
  {
    hide Put, WideArrayHead;
  }

  lemma ScalarUndefined(c: Conf, s: State, e: Event, k: nat, capacity: nat)
    requires InBounds(s, k, capacity) && (e.ENull? || e.EBool? || e.EInt? || e.EStr?)
    ensures ExactlyUndefined(c, s, e)
  {
    hide Append, Reqid, EncInt64, EncStr, Grow;
  }

  lemma StartUndefined(c: Conf, s: State, e: Event, k: nat, capacity: nat)
    requires InBounds(s, k, capacity) && (e == EStartMap || e == EStartArray)
    ensures ExactlyUndefined(c, s, e)
  {
    hide Append, Reserve, Grow;
  }

  /** Exactly when a step leaves what C defines. */
  lemma WhenUndefined(c: Conf, s: State, e: Event, k: nat, capacity: nat)
    requires InBounds(s, k, capacity)
    ensures Step(c, s, e) == Undefined <==> Overflows(s, e) || LeavesBuffer(s, e) || NoFrame(c, s, e)
  {
    hide Step, NoFrame, LeavesBuffer;
    match e
    case EKey(key) => KeyUndefined(c, s, key, k, capacity);
    case EEndMap => EndMapUndefined(c, s, k, capacity);
    case EEndArray => EndArrayUndefined(c, s, k, capacity);
    case EStartMap => StartUndefined(c, s, e, k, capacity);
    case EStartArray => StartUndefined(c, s, e, k, capacity);
    case _ => ScalarUndefined(c, s, e, k, capacity);
  }

  lemma RunStep(c: Conf, s: State, es: seq<Event>, s1: State)
    requires es != [] && Step(c, s, es[0]) == Ok(s1)
    ensures Run(c, s, es) == Run(c, s1, es[1..])
  {
    hide Step;
  }

  const NESTED_PARAMS: seq<Event> :=
    [EStartMap, EKey([0x61]), EStartMap, EKey([0x62]), EStartMap, EKey(KEY_PARAMS), EInt(1), EEndMap]

  /** {"a":{"b":{"params":1 and a closing brace, in 17 bytes: the header of the inner map goes to bytes 15 to 19. */
  lemma NestedParamsLeaveBuffer(mem: seq<byte>)
    requires |mem| == 17
    ensures Run(Conf([], []), Init(mem), NESTED_PARAMS) == Undefined
  {
    hide Run, Append, FrameAt, WideMapHead;
    var c, es := Conf([], []), NESTED_PARAMS;
    var s0 := Init(mem);
    var a, b := Item(0, 0, MapItem), Item(15, 0, MapItem);
    var s1 := s0.(stack := [a]);
    RunStep(c, s0, es, s1);
    var s2 := s1.(tp := CallWof(s0.tp), stage := WAIT_NEXT, batch := 1);
    RunStep(c, s1, es[1..], s2);
    var s3 := s2.(stack := [a, b]);
    RunStep(c, s2, es[2..], s3);
    RunStep(c, s3, es[3..], s3);
    var s5 := s3.(stack := [a, b, b]);
    RunStep(c, s3, es[4..], s5);
    var s6 := s5.(tp := Append(s5.tp, [TUPLE]), stage := PARAMS);
    RunStep(c, s5, es[5..], s6);
    var s7 := s6.(tp := Append(s6.tp, [1]));
    assert EncInt64(1) == [1];
    RunStep(c, s6, es[6..], s7);
    assert s7.stack[..2] == [a, b];
    assert es[7..] == [EEndMap];
    RunOne(c, s7, EEndMap);
  }
}

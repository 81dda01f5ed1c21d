/** yajl_ctx_t and its callbacks, updating stage, stack and output buffer in place. */
module Transcoder {
  import opened Bytes
  import opened MsgPack
  import opened Json
  import opened TpBuffer
  import M = Machine
  import opened Machine
  import opened Calls
  import opened Batches

  class YajlContext {
    const conf: Conf
    const tp: TpStream
    /** stack_item_t *stack; its length is the field allocated. */
    var stack: array<Item>
    var size: nat
    var stage: Stage
    var been: set<Stage>
    var batch: nat
    var batchMode: bool
    var error: Option<Error>

    ghost predicate Valid()
      reads this, tp
    {
      && tp.Valid()
      && (tp.size.Some? ==> tp.sync == Some(tp.size.value + 9) && tp.size.value + 14 <= tp.p)
      && stack.Length % 16 == 0
      && 16 <= stack.Length <= STACK_LIMIT
      && size <= stack.Length
    }

    /** The state of the machine this context is in. */
    ghost function Abs(): M.State
      requires size <= stack.Length
      reads this, tp, tp.buf, stack
    {
      M.State(tp.State(), stack[..size], stage, been, batch, batchMode)
    }

    /** A callback returned r: 1 with the outcome's state, or 0 with its error. */
    ghost predicate Done(o: Outcome, r: bool)
      requires size <= stack.Length
      reads this, tp, tp.buf, stack
    {
      if r then o == Ok(Abs()) else error.Some? && o == Refused(error.value)
    }

    /** yajl_json2tp_create. */
    constructor (c: Conf, output: array<byte>)
      ensures Valid() && fresh(tp) && fresh(stack) && tp.buf == output && conf == c
      ensures Abs() == Init(output[..])
    {
      conf := c;
      tp := new TpStream(output);
      stack := new Item[16](_ => Item(0, 0, MapItem));
      size, stage, been, batch, batchMode, error := 0, INIT, {}, 0, false, None;
    }

    // ------------------------------------------------------------ the stack

    method StackPush(ptr: nat, kind: Kind)
      requires Valid() && size < STACK_LIMIT
      modifies this, stack
      ensures Valid() && (stack == old(stack) || fresh(stack))
      ensures Abs() == old(Abs()).(stack := old(Abs().stack) + [Item(ptr, 0, kind)])
      ensures error == old(error)
    {
      if stack.Length == size {
        var bigger := new Item[stack.Length + 16](_ => Item(0, 0, MapItem));
        forall i | 0 <= i < size {
          bigger[i] := stack[i];
        }
        stack := bigger;
      }
      stack[size] := Item(ptr, 0, kind);
      size := size + 1;
    }

    method StackPop() returns (item: Option<Item>)
      requires Valid()
      modifies `size
      ensures Valid()
      ensures (Abs(), item) == Pop(old(Abs()))
    {
      if size > 0 {
        size := size - 1;
        item := Some(stack[size]);
        assert stack[..size] == stack[..old(size)][..size];
      } else {
        item := None;
      }
    }

    method StackGrow(kind: Kind)
      requires Valid()
      modifies stack
      ensures Valid()
      ensures Abs() == old(Abs()).(stack := Grow(old(Abs().stack), kind))
    {
      if size > 0 && stack[size - 1].kind == kind {
        stack[size - 1] := stack[size - 1].(count := stack[size - 1].count + 1);
      }
    }

    // ------------------------------------------------------------ callbacks

    method Overflow() returns (r: bool)
      modifies `error
      ensures !r && error == Some(OutputOverflow)
    {
      error := Some(OutputOverflow);
      r := false;
    }

    method Refuse(e: Error) returns (r: bool)
      modifies `error
      ensures !r && error == Some(e)
    {
      error := Some(e);
      r := false;
    }

    /** A tp_encode call with its overflow report. */
    method Emit(bs: seq<byte>) returns (r: bool)
      requires Valid() && !Encode(Abs(), bs).Undefined?
      modifies `error, tp, tp.buf
      ensures Valid() && Done(Encode(old(Abs()), bs), r)
    {
      if tp.size.None? {
        r := Overflow();
      } else {
        r := tp.Encode(bs);
        if !r {
          r := Overflow();
        }
      }
    }

    method BindData() returns (r: bool)
      requires Valid() && !M.BindData(conf, Abs()).Undefined?
      modifies `error, tp, tp.buf
      ensures Valid() && Done(M.BindData(conf, old(Abs())), r)
    {
      if conf.data != [] {
        r := Emit(conf.data);
      } else {
        r := true;
      }
    }

    /** yajl_null, yajl_boolean and the params branch of the other scalars. */
    method EmitParam(bs: seq<byte>) returns (r: bool)
      requires Valid() && stage == PARAMS && !Encode(GrowArray(Abs()), bs).Undefined?
      modifies this, stack, tp, tp.buf
      ensures Valid() && stack == old(stack) && Done(Encode(GrowArray(old(Abs())), bs), r)
    {
      StackGrow(ArrayItem);
      r := Emit(bs);
    }

    method YajlNull() returns (r: bool)
      requires Valid() && !Step(conf, Abs(), ENull).Undefined?
      modifies this, stack, tp, tp.buf
      ensures Valid() && stack == old(stack) && Done(Step(conf, old(Abs()), ENull), r)
    {
      if stage != PARAMS {
        return true;
      }
      r := EmitParam(NIL);
    }

    method YajlBoolean(b: bool) returns (r: bool)
      requires Valid() && !Step(conf, Abs(), EBool(b)).Undefined?
      modifies this, stack, tp, tp.buf
      ensures Valid() && stack == old(stack) && Done(Step(conf, old(Abs()), EBool(b)), r)
    {
      if stage != PARAMS {
        return true;
      }
      r := EmitParam(EncBool(b));
    }

    method YajlInteger(v: int64) returns (r: bool)
      requires Valid() && !Step(conf, Abs(), EInt(v)).Undefined?
      modifies this, stack, tp, tp.buf
      ensures Valid() && stack == old(stack) && Done(Step(conf, old(Abs()), EInt(v)), r)
    {
      if stage == PARAMS {
        if v < 0 {
          r := EmitParam(EncInt(v));
        } else {
          r := EmitParam(EncUint(v));
        }
      } else if stage == ID {
        if v > UINT32_MAX {
          r := Refuse(IdTooLarge);
          return;
        }
        tp.SetRequestId(v % TWO_32);
        been := been + {ID};
        stage := WAIT_NEXT;
        r := true;
      } else {
        r := true;
      }
    }

    method YajlString(str: seq<byte>) returns (r: bool)
      requires Valid() && !Step(conf, Abs(), EStr(str)).Undefined?
      modifies this, stack, tp, tp.buf
      ensures Valid() && stack == old(stack) && Done(Step(conf, old(Abs()), EStr(str)), r)
    {
      r := true;
      if stage == PARAMS {
        r := EmitParam(EncStr(str));
      } else if conf.preset == [] && stage == METHOD {
        r := Emit([FUNCTION] + EncStr(str));
        if r {
          stage := WAIT_NEXT;
          been := been + {METHOD};
        }
      } else {
        stage := WAIT_NEXT;
      }
    }

    /** The part of yajl_map_key that begins a message. */
    method MessageStart() returns (r: bool)
      requires Valid() && !StartMessage(conf, Abs()).Undefined?
      modifies this, tp, tp.buf
      ensures Valid() && stack == old(stack) && Done(StartMessage(conf, old(Abs())), r)
    {
      hide Put, FrameAt, Append, EncStr;
      if batch > MAX_BATCH_SIZE {
        r := Refuse(BatchTooLarge);
        return;
      }
      r := tp.StartCall();
      if !r {
        r := Overflow();
        return;
      }
      if conf.preset != [] {
        r := Emit([FUNCTION] + EncStr(conf.preset));
        if !r {
          return;
        }
      }
      stage := WAIT_NEXT;
      batch := batch + 1;
    }

    method YajlMapKey(key: seq<byte>) returns (r: bool)
      requires Valid() && !Step(conf, Abs(), EKey(key)).Undefined?
      modifies this, stack, tp, tp.buf
      ensures Valid() && stack == old(stack) && Done(Step(conf, old(Abs()), EKey(key)), r)
    {
      hide Put, FrameAt, Append, EncStr, StartMessage;
      if stage == INIT {
        r := MessageStart();
        if !r {
          return;
        }
      }
      r := true;
      if stage == PARAMS {
        StackGrow(MapItem);
        r := Emit(EncStr(key));
      } else if stage == WAIT_NEXT {
        if key == KEY_PARAMS {
          r := Emit([TUPLE]);
          if r {
            stage := PARAMS;
          }
        } else if key == KEY_ID {
          stage := ID;
        } else if conf.preset == [] && key == KEY_METHOD {
          stage := METHOD;
        }
      } else {
        stage := WAIT_NEXT;
      }
    }

    /** The hole for a container header. */
    method Reserve5() returns (r: bool)
      requires Valid() && !OpenHole(Abs()).Undefined?
      modifies `error, tp, tp.buf
      ensures Valid() && Done(OpenHole(old(Abs())), r)
    {
      if tp.buf.Length < tp.p + 5 {
        r := Overflow();
        return;
      }
      tp.Advance(5);
      r := true;
    }

    method YajlStartMap() returns (r: bool)
      requires Valid() && !Step(conf, Abs(), EStartMap).Undefined?
      modifies this, stack, tp, tp.buf
      ensures Valid() && (stack == old(stack) || fresh(stack)) && Done(Step(conf, old(Abs()), EStartMap), r)
    {
      StackGrow(ArrayItem);
      StackPush(tp.p, MapItem);
      if stage != PARAMS {
        return true;
      }
      r := Reserve5();
    }

    /** The empty tuple of a call without params; the two array headers are written unchecked. */
    method EmptyParams() returns (r: bool)
      requires Valid() && !AddEmptyParams(conf, Abs()).Undefined?
      modifies `error, tp, tp.buf
      ensures Valid() && Done(AddEmptyParams(conf, old(Abs())), r)
    {
      r := Emit([TUPLE]);
      if !r {
        return;
      }
      if conf.data != [] {
        var _ := tp.Encode(ArrayHead(1));
        r := BindData();
      } else {
        var _ := tp.Encode(ArrayHead(0));
      }
    }

    /** The closing brace of a call. */
    method CloseMessage() returns (r: bool)
      requires Valid() && !FinishMessage(conf, Abs()).Undefined?
      modifies this, tp, tp.buf
      ensures Valid() && stack == old(stack) && size == old(size) && Done(FinishMessage(conf, old(Abs())), r)
    {
      hide AddEmptyParams, Put, Append;
      if PARAMS !in been {
        r := EmptyParams();
        if !r {
          return;
        }
      }
      stage := INIT;
      been := {};
      r := true;
    }

    method YajlEndMap() returns (r: bool)
      requires Valid() && !Step(conf, Abs(), EEndMap).Undefined?
      modifies this, stack, tp, tp.buf
      ensures Valid() && stack == old(stack) && Done(Step(conf, old(Abs()), EEndMap), r)
    {
      hide Put, WideMapHead, Append, FinishMessage;
      var item := StackPop();
      if item.Some? && size == 0 {
        r := CloseMessage();
        if !r {
          return;
        }
      }
      if stage != PARAMS {
        return true;
      }
      if item.None? || size == 1 {
        r := Refuse(WrongParams);
        return;
      }
      tp.Write(item.value.ptr, WideMapHead(item.value.count));
      r := true;
    }

    method YajlStartArray() returns (r: bool)
      requires Valid() && !Step(conf, Abs(), EStartArray).Undefined?
      modifies this, stack, tp, tp.buf
      ensures Valid() && (stack == old(stack) || fresh(stack)) && Done(Step(conf, old(Abs()), EStartArray), r)
    {
      if stage == INIT {
        batchMode := true;
        return true;
      }
      StackGrow(ArrayItem);
      StackPush(tp.p, ArrayItem);
      if stage != PARAMS {
        return true;
      }
      r := Reserve5();
      if r && size == 2 {
        r := BindData();
      }
    }

    method YajlEndArray() returns (r: bool)
      requires Valid() && !Step(conf, Abs(), EEndArray).Undefined?
      modifies this, stack, tp, tp.buf
      ensures Valid() && stack == old(stack) && Done(Step(conf, old(Abs()), EEndArray), r)
    {
      hide Put, WideArrayHead, Append;
      var item := StackPop();
      if stage != PARAMS {
        return true;
      }
      if item.None? {
        r := Refuse(WrongParams);
        return;
      }
      var count := item.value.count;
      if size == 1 {
        stage := WAIT_NEXT;
        been := been + {PARAMS};
        if conf.data != [] {
          count := count + 1;
        }
      }
      tp.Write(item.value.ptr, WideArrayHead(count));
      r := true;
    }

    // --------------------------------------------------------------- parser

    method Callback(e: Event) returns (r: bool)
      requires Valid() && !Step(conf, Abs(), e).Undefined?
      modifies this, stack, tp, tp.buf
      ensures Valid() && (stack == old(stack) || fresh(stack)) && Done(Step(conf, old(Abs()), e), r)
    {
      match e
      case ENull => r := YajlNull();
      case EBool(b) => r := YajlBoolean(b);
      case EInt(i) => r := YajlInteger(i);
      case EStr(str) => r := YajlString(str);
      case EStartMap => r := YajlStartMap();
      case EKey(key) => r := YajlMapKey(key);
      case EEndMap => r := YajlEndMap();
      case EStartArray => r := YajlStartArray();
      case EEndArray => r := YajlEndArray();
    }

    /** yajl_parse: events in order, up to the first callback that returns 0. */
    method Parse(es: seq<Event>) returns (r: bool)
      requires Valid() && !Run(conf, Abs(), es).Undefined?
      modifies this, stack, tp, tp.buf
      ensures Valid() && Done(Run(conf, old(Abs()), es), r)
    {
      hide Step;
      r := true;
      var i := 0;
      while i < |es|
        invariant i <= |es| && Valid() && (stack == old(stack) || fresh(stack))
        invariant Run(conf, old(Abs()), es) == Run(conf, Abs(), es[i..])
      {
        r := Callback(es[i]);
        if !r {
          return;
        }
        assert es[i..][1..] == es[i + 1..];
        i := i + 1;
      }
      r := true;
    }

    /** yajl_json2tp_complete: tp_used. */
    method Complete() returns (n: nat)
      requires Valid()
      ensures n == Abs().tp.p
    {
      n := tp.p;
    }
  }

  /**
   A whole document through the codec, with an output buffer of any size. It is
   accepted exactly when it has at most 16385 calls, every id fits 32 bits and
   the frames fit (or fit but for the byte written unchecked); then the output
   starts with one frame per call, nothing behind them is touched, and the batch
   size is the number of calls.
   */
  method TranscodeDocument(c: Conf, output: array<byte>, d: Document)
    returns (ok: bool, used: nat, batchSize: nat)
    requires CallsOk(c, d.Calls())
    modifies output
    ensures ok <==>
      && |d.Calls()| <= MAX_BATCH_SIZE + 1
      && (forall i :: 0 <= i < |d.Calls()| ==> IdsOk(d.Calls()[i]))
      && RoomForCalls(c, old(output[..]), d)
    ensures ok ==> used <= output.Length && batchSize == |d.Calls()|
    ensures ok ==> output[..used] == Output(c, output.Length, d) && output[used..] == old(output[used..])
  {
    hide Run, Stream, CallOk, IdsOk, DocumentEvents, Output, RoomForCalls;
    var ctx := new YajlContext(c, output);
    Transcode(c, old(output[..]), d);
    ok := ctx.Parse(DocumentEvents(d));
    used := ctx.Complete();
    batchSize := ctx.batch;
  }
}

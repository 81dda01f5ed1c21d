/** ngx_http_tnt_format_bind: the bound values of a location as MessagePack, plain or as update operations. */
module FormatBind {
  import opened Bytes
  import opened MsgPack
  import opened TpBuffer
  import opened UrlCoding
  import opened QueryArgs
  import opened Dml
  import opened FormatPrepare

  datatype ReqType = Insert | Replace | Delete | Select | Update | Upsert

  const OPS: byte := 0x28

  // ------------------------------------------------------------------ values

  /** strtoll, behind atoll: what does not fit is the nearest that does. */
  function Saturate(i: int): (r: int)
    ensures -TWO_63 <= r < TWO_63
  {
    if i < -TWO_63 then -TWO_63 else if i >= TWO_63 then TWO_63 - 1 else i
  }

  function LeadingDigits(s: seq<byte>, acc: nat): nat {
    if s == [] || !(0x30 <= s[0] <= 0x39) then acc else LeadingDigits(s[1..], 10 * acc + (s[0] - 0x30))
  }

  /** atoll: white space, a sign, digits. */
  function Atoll(s: seq<byte>): (r: int)
    ensures -TWO_63 <= r < TWO_63
  {
    if s == [] then 0
    else if s[0] == 0x20 || 0x09 <= s[0] <= 0x0d then Atoll(s[1..])
    else if s[0] == MINUS then Saturate(0 - LeadingDigits(s[1..], 0))
    else if s[0] == PLUS then Saturate(LeadingDigits(s[1..], 0))
    else Saturate(LeadingDigits(s, 0))
  }

  /** snprintf of the value into num_buf[16]: at most 15 bytes, and none from a NUL on. */
  function NumBuf(text: seq<byte>): seq<byte> {
    var cut := if |text| <= 15 then text else text[..15];
    cut[..Find(cut, 0, 0)]
  }

  predicate SameNoCase(text: seq<byte>, word: seq<byte>) {
    |text| == |word| && forall i :: 0 <= i < |word| ==> ToLower(text[i]) == word[i]
  }

  const TRUE: seq<byte> := [0x74, 0x72, 0x75, 0x65]
  const FALSE: seq<byte> := [0x66, 0x61, 0x6c, 0x73, 0x65]

  /** The value of a text for its format; only a boolean can be refused. */
  function ValueOf(kind: ValueType, text: seq<byte>): Option<Mp> {
    match kind
    case BoolValue =>
      if SameNoCase(text, TRUE) then Some(Bool(true)) else if SameNoCase(text, FALSE) then Some(Bool(false)) else None
    case IntValue =>
      var v := Atoll(NumBuf(text));
      Some(if text != [] && text[0] == MINUS then Int(v) else Uint(v % TWO_64))
    case StrValue => Some(Str(text))
  }

  /** What mp_encode_int takes: a text that starts with a minus sign is a negative number. */
  predicate Encodable(kind: ValueType, text: seq<byte>) {
    kind == IntValue && text != [] && text[0] == MINUS ==> Atoll(NumBuf(text)) < 0
  }

  function ValueBytes(kind: ValueType, text: seq<byte>): seq<byte>
    requires Encodable(kind, text)
  {
    match ValueOf(kind, text)
    case Some(Bool(b)) => EncBool(b)
    case Some(Int(i)) => EncInt(i)
    case Some(Uint(n)) => EncUint(n)
    case _ => EncStr(text)
  }

  // -------------------------------------------------------------- operations

  datatype Operation = Operation(op: byte, field: nat, rest: seq<byte>)

  predicate IsOperator(c: byte) {
    c == 0x3d || c == 0x21 || c == 0x2b || c == 0x2d || c == 0x26 || c == 0x5e || c == 0x7c || c == 0x23
  }

  /** operator,fieldno,value: only the first character of the operator counts, fields are numbered from 1. */
  function OperationOf(text: seq<byte>): Option<Operation> {
    var i := Find(text, 0, COMMA);
    if i == |text| || !IsOperator(text[0]) then None
    else
      var j := Find(text, i + 1, COMMA);
      if j == |text| || j == i + 1 then None
      else
        match Atoi(text[i + 1..j])
        case None => None
        case Some(n) => if n == 0 then None else Some(Operation(text[0], n - 1, text[j + 1..]))
  }

  /** tp_op: an array of three, its value still to come. */
  function OperationHead(o: Operation): seq<byte> {
    ArrayHead(3) + EncStr([o.op]) + EncUint(o.field % TWO_32)
  }

  function OperationMp(o: Operation, value: Mp): Mp {
    Array([Str([o.op]), Uint(o.field % TWO_32), value])
  }

  /** ngx_http_tnt_read_next: the position behind the next separator. */
  method ReadNext(text: seq<byte>, from: nat, sep: byte) returns (next: Option<nat>)
    requires from <= |text|
    ensures next == if Find(text, from, sep) < |text| then Some(Find(text, from, sep) + 1) else None
  {
    var i := from;
    while i < |text|
      invariant from <= i <= |text| && Find(text, from, sep) == Find(text, i, sep)
    {
      if text[i] == sep {
        return Some(i + 1);
      }
      i := i + 1;
    }
    next := None;
  }

  datatype BindStatus = Bound | Refused | NoRoom

  /** ngx_http_tnt_format_bind_operation: the head of the operation, and where its value starts. */
  method BindOperation(tp: TpStream, text: seq<byte>) returns (status: BindStatus, rest: seq<byte>)
    requires tp.Valid() && tp.size.Some?
    modifies tp, tp.buf
    ensures tp.Valid() && tp.size == old(tp.size)
    ensures match OperationOf(text)
            case None => status == Refused
            case Some(o) =>
              if Fits(old(tp.State()), |OperationHead(o)|)
              then status == Bound && rest == o.rest && tp.State() == Append(old(tp.State()), OperationHead(o))
              else status == NoRoom
  {
    hide Append, Find, Atoi, StrHead, OperationHead;
    rest := [];
    var first := ReadNext(text, 0, COMMA);
    if first.None? || !IsOperator(text[0]) {
      return Refused, rest;
    }
    var second := ReadNext(text, first.value, COMMA);
    if second.None? || second.value - 1 == first.value {
      return Refused, rest;
    }
    var fieldno := Atoi(text[first.value..second.value - 1]);
    if fieldno.None? || fieldno.value == 0 {
      return Refused, rest;
    }
    rest := text[second.value..];
    var ok := tp.Encode(OperationHead(Operation(text[0], fieldno.value - 1, rest)));
    status := if ok then Bound else NoRoom;
  }

  // ---------------------------------------------------------------- emission

  /** Values that are bound as operations: all but the keys of an update, the %o values of an upsert. */
  predicate IsOperation(req: ReqType, role: Role) {
    (req == Update && role != UpdateKey) || (req == Upsert && role == UpsertOp)
  }

  /** Once an update has begun its operations, every further value is bound as one. */
  predicate AsOperation(req: ReqType, started: bool, role: Role) {
    IsOperation(req, role) || (req == Update && started)
  }

  /** tp_updatebegin, tp_upsertbegin_add_ops. */
  function Begin(req: ReqType, n: Counts): seq<byte> {
    if req == Update then [TUPLE] + ArrayHead(n.tuples) else [OPS] + ArrayHead(n.ops)
  }

  /** The bytes of one bound value: None if it is refused. */
  function EmitValue(req: ReqType, n: Counts, started: bool, v: FormatValue): Option<seq<byte>>
    requires v.value.Some?
  {
    if AsOperation(req, started, v.role) then
      match OperationOf(v.value.value)
      case None => None
      case Some(o) =>
        if ValueOf(v.kind, o.rest).None? || !Encodable(v.kind, o.rest) then None
        else Some((if started then [] else Begin(req, n)) + OperationHead(o) + ValueBytes(v.kind, o.rest))
    else if ValueOf(v.kind, v.value.value).None? || !Encodable(v.kind, v.value.value) then None
    else Some(ValueBytes(v.kind, v.value.value))
  }

  /** All bound values in the order of the format. */
  function Emit(req: ReqType, n: Counts, started: bool, vs: seq<FormatValue>): Option<seq<byte>>
    decreases |vs|
  {
    if vs == [] then Some([])
    else if vs[0].value.None? then Emit(req, n, started, vs[1..])
    else
      match EmitValue(req, n, started, vs[0])
      case None => None
      case Some(a) =>
        match Emit(req, n, started || AsOperation(req, started, vs[0].role), vs[1..])
        case None => None
        case Some(b) => Some(a + b)
  }

  /** Every value the binder is going to encode as an integer is one mp_encode_int takes. */
  predicate AllEncodable(req: ReqType, started: bool, vs: seq<FormatValue>)
    decreases |vs|
  {
    vs != [] ==>
      var op := vs[0].value.Some? && AsOperation(req, started, vs[0].role);
      && (vs[0].value.Some? ==>
           if op then OperationOf(vs[0].value.value).Some? ==>
             Encodable(vs[0].kind, OperationOf(vs[0].value.value).value.rest)
           else Encodable(vs[0].kind, vs[0].value.value))
      && AllEncodable(req, started || op, vs[1..])
  }

  /** The switch over the type of a value. */
  method BindValue(tp: TpStream, kind: ValueType, text: seq<byte>) returns (status: BindStatus)
    requires tp.Valid() && tp.size.Some? && Encodable(kind, text)
    modifies tp, tp.buf
    ensures tp.Valid() && tp.size == old(tp.size)
    ensures if ValueOf(kind, text).None? then status == Refused
            else if Fits(old(tp.State()), |ValueBytes(kind, text)|)
            then status == Bound && tp.State() == Append(old(tp.State()), ValueBytes(kind, text))
            else status == NoRoom
  {
    hide Append, Atoll, NumBuf, StrHead, EncUint, EncInt, SameNoCase;
    var ok: bool;
    match kind {
      case BoolValue =>
        if SameNoCase(text, TRUE) {
          ok := tp.Encode(EncBool(true));
        } else if SameNoCase(text, FALSE) {
          ok := tp.Encode(EncBool(false));
        } else {
          return Refused;
        }
      case IntValue =>
        var v := Atoll(NumBuf(text));
        if text != [] && text[0] == MINUS {
          ok := tp.Encode(EncInt(v));
        } else {
          ok := tp.Encode(EncUint(v % TWO_64));
        }
      case StrValue =>
        ok := tp.Encode(EncStr(text));
    }
    status := if ok then Bound else NoRoom;
  }

  /** One turn of the loop. */
  method BindFormatValue(tp: TpStream, req: ReqType, n: Counts, started: bool, v: FormatValue)
    returns (status: BindStatus)
    requires tp.Valid() && tp.size.Some? && v.value.Some? && AllEncodable(req, started, [v])
    modifies tp, tp.buf
    ensures tp.Valid() && tp.size == old(tp.size)
    ensures match EmitValue(req, n, started, v)
            case None => status != Bound
            case Some(bs) =>
              if Fits(old(tp.State()), |bs|) then status == Bound && tp.State() == Append(old(tp.State()), bs)
              else status == NoRoom
  {
    hide Append, ValueOf, OperationOf, OperationHead, Begin, ValueBytes, Encodable;
    ghost var t := tp.State();
    var text := v.value.value;
    if AsOperation(req, started, v.role) {
      ghost var begin := if started then [] else Begin(req, n);
      if !started {
        var ok := tp.Encode(Begin(req, n));
        if !ok {
          return NoRoom;
        }
      }
      ghost var u := tp.State();
      status, text := BindOperation(tp, text);
      if status != Bound {
        return;
      }
      ghost var o := OperationOf(v.value.value).value;
      assert begin + OperationHead(o) == if started then OperationHead(o) else Begin(req, n) + OperationHead(o);
      if !started {
        AppendAppend(t, Begin(req, n), OperationHead(o));
      }
      status := BindValue(tp, v.kind, text);
      if status == Bound {
        AppendAppend(t, begin + OperationHead(o), ValueBytes(v.kind, text));
      }
    } else {
      status := BindValue(tp, v.kind, text);
    }
  }

  /** ngx_http_tnt_format_bind: it succeeds exactly when every value can be bound and there is room. */
  method Bind(tp: TpStream, req: ReqType, n: Counts, values: array<FormatValue>) returns (status: BindStatus)
    requires tp.Valid() && Counted(tp.State()) && AllEncodable(req, false, values[..])
    modifies tp, tp.buf
    ensures tp.Valid()
    ensures status == Bound <==>
      Emit(req, n, false, values[..]).Some? && Fits(old(tp.State()), |Emit(req, n, false, values[..]).value|)
    ensures status == Bound ==> tp.State() == Append(old(tp.State()), Emit(req, n, false, values[..]).value)
    ensures status == Refused ==> Emit(req, n, false, values[..]).None?
  {
    hide Append, EmitValue, AsOperation, OperationOf, Encodable, Counted;
    ghost var t, vs, done := tp.State(), values[..], [];
    AppendEmpty(t);
    BehindNothing(Emit(req, n, false, vs));
    var started := false;
    assert vs[0..] == vs;
    for i := 0 to values.Length
      invariant tp.Valid() && tp.size == old(tp.size) && values[..] == vs
      invariant AllEncodable(req, started, vs[i..])
      invariant Fits(t, |done|) && tp.State() == Append(t, done)
      invariant Emit(req, n, false, vs) == Behind(done, Emit(req, n, started, vs[i..]))
    {
      var v := values[i];
      ghost var rest := vs[i..];
      assert rest[0] == v && rest[1..] == vs[i + 1..];
      if v.value.Some? {
        OneEncodable(req, started, rest);
        status := BindFormatValue(tp, req, n, started, v);
        if status != Bound {
          return;
        }
        ghost var bs := EmitValue(req, n, started, v).value;
        AppendAppend(t, done, bs);
        BehindBoth(done, bs, Emit(req, n, started || AsOperation(req, started, v.role), vs[i + 1..]));
        done := done + bs;
        started := started || AsOperation(req, started, v.role);
      }
    }
    assert vs[values.Length..] == [];
    NothingToEmit(req, n, started);
    status := Bound;
  }

  function Behind(a: seq<byte>, b: Option<seq<byte>>): Option<seq<byte>> {
    match b
    case None => None
    case Some(bs) => Some(a + bs)
  }

  lemma BehindBoth(a: seq<byte>, b: seq<byte>, c: Option<seq<byte>>)
    ensures Behind(a, Behind(b, c)) == Behind(a + b, c)
  {
    if c.Some? {
      assert a + (b + c.value) == a + b + c.value;
    }
  }

  lemma NothingToEmit(req: ReqType, n: Counts, started: bool)
    ensures Emit(req, n, started, []) == Some([])
    ensures forall done :: Behind(done, Some([])) == Some(done)
  {
    assert forall done: seq<byte> :: done + [] == done;
  }

  lemma BehindNothing(b: Option<seq<byte>>)
    ensures Behind([], b) == b
  {
    if b.Some? {
      assert [] + b.value == b.value;
    }
  }

  lemma OneEncodable(req: ReqType, started: bool, vs: seq<FormatValue>)
    requires vs != [] && AllEncodable(req, started, vs)
    ensures AllEncodable(req, started, [vs[0]])
    ensures AllEncodable(req, started || (vs[0].value.Some? && AsOperation(req, started, vs[0].role)), vs[1..])
  {
    assert [vs[0]][1..] == [];
  }
}

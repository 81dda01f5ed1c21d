/** What the values of a query arrive as: words, signs and codes are written out here. */
module DmlValues {
  import opened Bytes
  import opened MsgPack
  import opened JsonReader
  import opened QueryArgs
  import opened Dml
  import opened FormatPrepare
  import opened FormatBind
  import opened FormatNumbers
  import opened DmlRequests
  import opened DmlSettings
  import Requests
  import TpBuffer

  // ------------------------------------------------------------------ values

  /** The text is this word of lower-case letters, in either case letter by letter. */
  predicate IsWord(text: seq<byte>, word: seq<byte>) {
    |text| == |word| && forall i :: 0 <= i < |word| ==> text[i] == word[i] || text[i] as int == word[i] as int - 0x20
  }

  predicate IsTrue(text: seq<byte>) { IsWord(text, [0x74, 0x72, 0x75, 0x65]) }

  predicate IsFalse(text: seq<byte>) { IsWord(text, [0x66, 0x61, 0x6c, 0x73, 0x65]) }

  /** The decimal text of i stands for i within 15 characters, and otherwise for another number. */
  ghost predicate StandsForInteger(text: seq<byte>, v: Mp) {
    forall i: int {:trigger DecimalInt(i)} :: text == DecimalInt(i) ==>
      (v == (if i < 0 then Int(i) else Uint(i)) <==> -100_000_000_000_000 < i < 1_000_000_000_000_000)
  }

  /** v is what a text stands for in its format. */
  ghost predicate StandsFor(kind: ValueType, text: seq<byte>, v: Mp) {
    match kind
    case BoolValue => (IsTrue(text) && v == Bool(true)) || (IsFalse(text) && v == Bool(false))
    case StrValue => v == Str(text)
    case IntValue => StandsForInteger(text, v)
  }

  /** Only what is no boolean is refused. */
  predicate Takes(kind: ValueType, text: seq<byte>) {
    kind == BoolValue ==> IsTrue(text) || IsFalse(text)
  }

  lemma SameLetters(text: seq<byte>, word: seq<byte>)
    requires forall i :: 0 <= i < |word| ==> 0x61 <= word[i] <= 0x7a
    ensures SameNoCase(text, word) <==> IsWord(text, word)
  {
  }

  lemma ValueStands(kind: ValueType, text: seq<byte>)
    ensures ValueOf(kind, text).Some? <==> Takes(kind, text)
    ensures ValueOf(kind, text).Some? ==> StandsFor(kind, text, ValueOf(kind, text).value)
  {
    hide SameNoCase, IsWord, Atoll, NumBuf, DecimalInt;
    SameLetters(text, TRUE);
    SameLetters(text, FALSE);
    assert !(IsTrue(text) && IsFalse(text)) by { NotBoth(text); }
    if kind == IntValue {
      forall i: int | text == DecimalInt(i)
        ensures ValueOf(kind, text) == Some(if i < 0 then Int(i) else Uint(i))
            <==> -100_000_000_000_000 < i < 1_000_000_000_000_000
      {
        IntegerSent(i);
      }
    }
  }

  lemma NotBoth(text: seq<byte>)
    ensures !(IsTrue(text) && IsFalse(text))
  {
  }

  // -------------------------------------------------------------- operations

  /** operator, field number and value of an operation, as they stand between its commas. */
  datatype Spelling = Spelling(sign: seq<byte>, digits: seq<byte>, rest: seq<byte>)

  /** The text is spelled so: a sign beginning with one of = ! + - & ^ | #, a field number n from 1 on, a value. */
  predicate Spells(text: seq<byte>, s: Spelling, n: nat) {
    && text == s.sign + [0x2c] + s.digits + [0x2c] + s.rest
    && s.sign != [] && 0x2c !in s.sign && 0x2c !in s.digits
    && s.sign[0] in [0x3d, 0x21, 0x2b, 0x2d, 0x26, 0x5e, 0x7c, 0x23]
    && n >= 1 && Atoi(s.digits) == Some(n)
  }

  lemma SpelledOperation(text: seq<byte>, s: Spelling, n: nat)
    requires Spells(text, s, n)
    ensures OperationOf(text) == Some(Operation(s.sign[0], n - 1, s.rest))
  {
    hide Find, Atoi;
    var i := |s.sign|;
    var j := i + 1 + |s.digits|;
    FindSkips(text, 0, i, 0x2c);
    FindSkips(text, i + 1, j, 0x2c);
    assert text[i + 1..j] == s.digits && text[j + 1..] == s.rest && text[0] == s.sign[0];
    assert s.digits != [] by { NoDigits(); }
  }

  lemma NoDigits()
    ensures Atoi([]) == None
  {
  }

  lemma OperationSpelled(text: seq<byte>) returns (s: Spelling, n: nat)
    requires OperationOf(text).Some?
    ensures Spells(text, s, n) && OperationOf(text) == Some(Operation(s.sign[0], n - 1, s.rest))
  {
    hide Find, Atoi;
    var i := Find(text, 0, COMMA);
    var j := Find(text, i + 1, COMMA);
    s, n := Spelling(text[..i], text[i + 1..j], text[j + 1..]), Atoi(text[i + 1..j]).value;
    assert text == s.sign + [0x2c] + s.digits + [0x2c] + s.rest;
  }

  /** v is the operation a text spells: its sign, its field counted from 0, its value. */
  ghost predicate IsOperationFor(kind: ValueType, text: seq<byte>, v: Mp) {
    exists s, n: nat :: Spells(text, s, n)
      && v.Array? && |v.items| == 3
      && v.items[0] == Str([s.sign[0]]) && v.items[1] == Uint((n - 1) % 0x1_0000_0000)
      && StandsFor(kind, s.rest, v.items[2])
  }

  ghost predicate TakesOperation(kind: ValueType, text: seq<byte>) {
    exists s, n: nat :: Spells(text, s, n) && Takes(kind, s.rest)
  }

  lemma OperationStands(kind: ValueType, text: seq<byte>)
    ensures OperationOf(text).Some? && ValueOf(kind, OperationOf(text).value.rest).Some? <==> TakesOperation(kind, text)
    ensures TakesOperation(kind, text) ==>
      var o := OperationOf(text).value; IsOperationFor(kind, text, OperationMp(o, OrNil(ValueOf(kind, o.rest))))
  {
    hide OperationOf, ValueOf, Spells, Takes, StandsFor;
    if TakesOperation(kind, text) {
      var s, n :| Spells(text, s, n) && Takes(kind, s.rest);
      SpelledOperation(text, s, n);
      ValueStands(kind, s.rest);
      OneOperation(kind, text, s, n);
    } else if OperationOf(text).Some? {
      var s, n := OperationSpelled(text);
      ValueStands(kind, s.rest);
    }
  }

  lemma OneOperation(kind: ValueType, text: seq<byte>, s: Spelling, n: nat)
    requires Spells(text, s, n) && Takes(kind, s.rest)
    requires ValueOf(kind, s.rest).Some? && StandsFor(kind, s.rest, ValueOf(kind, s.rest).value)
    ensures IsOperationFor(kind, text, OperationMp(Operation(s.sign[0], n - 1, s.rest), OrNil(ValueOf(kind, s.rest))))
  {
    hide ValueOf, StandsFor, Takes, Atoi;
    var v := OperationMp(Operation(s.sign[0], n - 1, s.rest), OrNil(ValueOf(kind, s.rest)));
    assert v.items[2] == ValueOf(kind, s.rest).value;
  }

  // ------------------------------------------------------------------- lists

  /** The values of an update that are no keys, and the %o values of an upsert, are operations. */
  predicate ForOperation(req: ReqType, v: FormatValue) {
    (req == Update && v.role != UpdateKey) || (req == Upsert && v.role == UpsertOp)
  }

  /** The bound values that are operations, or that are none, in the order of the format. */
  function BoundOnes(req: ReqType, vs: seq<FormatValue>, operations: bool): (r: seq<FormatValue>)
    ensures forall v <- r :: v in vs && v.value.Some?
  {
    if vs == [] then []
    else
      (if vs[0].value.Some? && ForOperation(req, vs[0]) == operations then [vs[0]] else [])
      + BoundOnes(req, vs[1..], operations)
  }

  ghost predicate AllStand(vs: seq<FormatValue>, items: seq<Mp>)
    requires forall v <- vs :: v.value.Some?
  {
    |items| == |vs| && forall i :: 0 <= i < |vs| ==> StandsFor(vs[i].kind, vs[i].value.value, items[i])
  }

  ghost predicate AllOperate(vs: seq<FormatValue>, items: seq<Mp>)
    requires forall v <- vs :: v.value.Some?
  {
    |items| == |vs| && forall i :: 0 <= i < |vs| ==> IsOperationFor(vs[i].kind, vs[i].value.value, items[i])
  }

  /** Every bound value is one its format takes. */
  ghost predicate AllTaken(req: ReqType, vs: seq<FormatValue>) {
    forall v <- vs :: v.value.Some? ==>
      if ForOperation(req, v) then TakesOperation(v.kind, v.value.value) else Takes(v.kind, v.value.value)
  }

  lemma TakenFirst(req: ReqType, vs: seq<FormatValue>)
    requires vs != []
    ensures AllTaken(req, vs) <==> AllTaken(req, [vs[0]]) && AllTaken(req, vs[1..])
  {
    hide TakesOperation, Takes, ForOperation;
    assert vs == [vs[0]] + vs[1..];
  }

  lemma FirstEmitted(req: ReqType, n: Counts, started: bool, v: FormatValue)
    requires v.value.Some? && AllEncodable(req, started, [v])
    requires started ==> IsOperation(req, v.role)
    ensures EmitValue(req, n, started, v).Some? <==> AllTaken(req, [v])
  {
    hide ValueOf, OperationOf, TakesOperation, Takes, OperationHead, ValueBytes, Encodable, Begin;
    OperationStands(v.kind, v.value.value);
    ValueStands(v.kind, v.value.value);
  }

  /** Binding succeeds, room aside, exactly if every bound value is one its format takes. */
  lemma {:induction false} EmittedWhen(req: ReqType, n: Counts, started: bool, vs: seq<FormatValue>)
    requires Ordered(req, started, vs) && AllEncodable(req, started, vs)
    ensures Emit(req, n, started, vs).Some? <==> AllTaken(req, vs)
    decreases |vs|
  {
    hide EmitValue, AllTaken, IsOperation;
    if vs == [] {
      NothingTaken(req);
    } else {
      TakenFirst(req, vs);
      OneEncodable(req, started, vs);
      if vs[0].value.Some? {
        FirstEmitted(req, n, started, vs[0]);
        EmittedWhen(req, n, started || AsOperation(req, started, vs[0].role), vs[1..]);
      } else {
        UnboundTaken(req, vs[0]);
        EmittedWhen(req, n, started, vs[1..]);
      }
    }
  }

  lemma NothingTaken(req: ReqType)
    ensures AllTaken(req, [])
  {
  }

  lemma UnboundTaken(req: ReqType, v: FormatValue)
    requires v.value.None?
    ensures AllTaken(req, [v])
  {
  }

  lemma OneMoreStands(v: FormatValue, x: Mp, vs: seq<FormatValue>, items: seq<Mp>)
    requires v.value.Some? && (forall w <- vs :: w.value.Some?)
    requires StandsFor(v.kind, v.value.value, x) && AllStand(vs, items)
    ensures AllStand([v] + vs, [x] + items)
  {
    hide StandsFor;
  }

  lemma OneMoreOperates(v: FormatValue, x: Mp, vs: seq<FormatValue>, items: seq<Mp>)
    requires v.value.Some? && (forall w <- vs :: w.value.Some?)
    requires IsOperationFor(v.kind, v.value.value, x) && AllOperate(vs, items)
    ensures AllOperate([v] + vs, [x] + items)
  {
    hide IsOperationFor;
  }

  /** What is sent for the bound values: each one's own value, in the order of the format. */
  lemma {:induction false} ListsStand(req: ReqType, vs: seq<FormatValue>)
    requires AllTaken(req, vs)
    ensures AllStand(BoundOnes(req, vs, false), DmlRequests.Plain(req, vs))
    ensures AllOperate(BoundOnes(req, vs, true), Operations(req, vs))
    decreases |vs|
  {
    hide ValueOf, OperationOf, TakesOperation, Takes, StandsFor, IsOperationFor, AllStand, AllOperate, AllTaken;
    if vs == [] {
      NothingStands();
    } else {
      var v, a, b := vs[0], BoundOnes(req, vs[1..], false), BoundOnes(req, vs[1..], true);
      TakenFirst(req, vs);
      ListsStand(req, vs[1..]);
      assert [] + a == a && [] + b == b;
      if v.value.Some? && ForOperation(req, v) {
        OnlyTaken(req, v);
        OperationStands(v.kind, v.value.value);
        OneMoreOperates(v, OperationValue(v), b, Operations(req, vs[1..]));
      } else if v.value.Some? {
        OnlyTaken(req, v);
        ValueStands(v.kind, v.value.value);
        OneMoreStands(v, OrNil(ValueOf(v.kind, v.value.value)), a, DmlRequests.Plain(req, vs[1..]));
      }
    }
  }

  lemma OnlyTaken(req: ReqType, v: FormatValue)
    requires v.value.Some? && AllTaken(req, [v])
    ensures if ForOperation(req, v) then TakesOperation(v.kind, v.value.value) else Takes(v.kind, v.value.value)
  {
    hide TakesOperation, Takes, ForOperation;
    assert v in [v];
  }

  lemma NothingStands()
    ensures AllStand([], []) && AllOperate([], [])
  {
  }

  /** One value of an insert, replace, delete or select: refused, or sent as what its text stands for. */
  lemma OneValueSent(req: ReqType, n: Counts, name: seq<byte>, kind: ValueType, text: seq<byte>, bs: seq<byte>, i: nat)
    requires req != Update && req != Upsert && |bs| < TWO_32 && Encodable(kind, text)
    ensures var e := Emit(req, n, false, [FormatValue(name, kind, TuplePart, Some(text))]);
      && (e.Some? <==> Takes(kind, text))
      && (e.Some? && At(bs, i, e.value) ==>
            && Read(bs, i).Some? && StandsFor(kind, text, Read(bs, i).value.0)
            && Read(bs, i).value.1 == i + |e.value|)
  {
    hide Read, ValueOf, ValueBytes, StandsFor, Takes, OperationOf, Encodable;
    var vs := [FormatValue(name, kind, TuplePart, Some(text))];
    assert vs[1..] == [] && ValueBytes(kind, text) + [] == ValueBytes(kind, text);
    ValueStands(kind, text);
    var e := Emit(req, n, false, vs);
    assert !AsOperation(req, false, TuplePart);
    assert Emit(req, n, false, []) == Some([]);
    assert e == if ValueOf(kind, text).Some? then Some(ValueBytes(kind, text)) else None;
    if e.Some? && At(bs, i, e.value) {
      ReadValue(bs, i, kind, text);
    }
  }

  /** With distinct names, the value of every name: the first that is not empty among the pairs left over for it. */
  lemma BoundForName(c: Conf, formats: seq<Format>, ps: seq<Pair>, e: nat)
    requires DistinctFormats(formats) && e < |formats|
    ensures var name := formats[e].name;
      Bindings(c, formats, ps).values[e] ==
        FormatValue(name, formats[e].kind, formats[e].role, FirstFull(ValuesOf(Left(c, ps, |ps|), name)))
  {
    hide BindAll, Left;
    ValueBound(Filling(Initial(formats), Counts(0, 0, 0)), Left(c, ps, |ps|), e);
  }

  // ------------------------------------------------------------- the request

  /** The code of a request type in the protocol. */
  predicate HasCode(req: ReqType, code: nat) {
    match req
    case Select => code == 1
    case Insert => code == 2
    case Replace => code == 3
    case Update => code == 4
    case Delete => code == 5
    case Upsert => code == 9
  }

  /** The list under a key of the body. */
  function ListUnder(es: seq<Entry>, key: nat): Option<seq<Mp>> {
    match Lookup(es, Uint(key))
    case Some(Array(items)) => Some(items)
    case _ => None
  }

  /** Tuple 0x21, key 0x20, operations 0x21 in an update and 0x28 in an upsert, each holding its bound values. */
  ghost predicate ListsSay(req: ReqType, es: seq<Entry>, vs: seq<FormatValue>) {
    var plain := ListUnder(es, if req == Insert || req == Replace || req == Upsert then 0x21 else 0x20);
    && plain.Some? && AllStand(BoundOnes(req, vs, false), plain.value)
    && (req == Update || req == Upsert ==>
         var operations := ListUnder(es, if req == Update then 0x21 else 0x28);
         operations.Some? && AllOperate(BoundOnes(req, vs, true), operations.value))
  }

  lemma OperationsBound(req: ReqType, vs: seq<FormatValue>)
    ensures |BoundOnes(req, vs, true)| == |Operations(req, vs)|
  {
  }

  /**
   What the handler sends for an accepted query, if it is a request: its code,
   the numbers set or asked for, and the values bound, each under its key.
   */
  lemma DmlSays(c: Conf, req: ReqType, formats: seq<Format>, ps: seq<Pair>, bs: seq<byte>, i: nat)
    requires FormatsOk(req, formats) && Answer(c, ps) == Ok && Emitted(c, req, formats, ps).Some?
    requires |bs| < TWO_32 && |ps| < TWO_32
    requires At(bs, i, TpBuffer.Frame(Code(req), 0, DmlBody(c, req, formats, ps)))
    requires AllEncodable(req, false, Bindings(c, formats, ps).values)
    ensures var r, vs := Requests.ReadRequest(bs, i), Bindings(c, formats, ps).values;
      && (r.Some? <==>
           && !EmptyBeforeAnother(Filling(Initial(formats), Counts(0, 0, 0)), Left(c, ps, |ps|))
           && (req == Update || req == Upsert ==> BoundOnes(req, vs, true) != []))
      && (r.Some? ==>
           && HasCode(req, r.value.0.code) && r.value.0.sync == 0
           && SettingsSay(c, req, r.value.0.body, ps)
           && ListsSay(req, r.value.0.body, vs))
  {
    hide Requests.ReadRequest, TpBuffer.Frame, DmlBody, Emit, EmptyBeforeAnother, Left, Bindings, Answer, FormatsOk;
    hide Expected, FinalSlots, AllStand, AllOperate, BoundOnes, DmlRequests.Plain, Operations, SettingsSay, Lookup;
    hide AllTaken, Ordered;
    var b := Bindings(c, formats, ps);
    var vs := b.values;
    DmlReads(c, req, formats, ps, bs, i);
    BindingsCounted(c, req, formats, ps);
    EmittedWhen(req, b.counts, false, vs);
    ListsStand(req, vs);
    OperationsBound(req, vs);
    SettingsSent(c, req, formats, ps);
    ListsSent(req, FinalSlots(c, ps), vs);
  }
}

/** ngx_http_tnt_dml_handler: the whole request of a location with a format, and when it is one. */
module DmlRequests {
  import opened Bytes
  import opened MsgPack
  import opened TpBuffer
  import opened QueryArgs
  import opened Dml
  import opened FormatPrepare
  import opened FormatBind
  import opened FormatInput
  import opened RequestMap
  import Requests

  const SPACE_KEY: byte := 0x10
  const INDEX_KEY: byte := 0x11
  const LIMIT_KEY: byte := 0x12
  const OFFSET_KEY: byte := 0x13
  const ITERATOR_KEY: byte := 0x14
  const KEY: byte := 0x20

  // ------------------------------------------------------------ request head

  function Code(req: ReqType): byte {
    match req
    case Select => 1
    case Insert => 2
    case Replace => 3
    case Update => 4
    case Delete => 5
    case Upsert => 9
  }

  /** The entries before the tuple or key; the numbers are passed on as 32-bit ones. */
  function FixedFields(req: ReqType, slots: seq<nat>): seq<(byte, nat)>
    requires |slots| == SLOTS
  {
    var space, index := (SPACE_KEY, slots[SPACE] % TWO_32), (INDEX_KEY, slots[INDEX] % TWO_32);
    match req
    case Insert => [space]
    case Replace => [space]
    case Upsert => [space]
    case Delete => [space, index]
    case Update => [space, index]
    case Select =>
      [space, index, (OFFSET_KEY, slots[OFFSET] % TWO_32), (LIMIT_KEY, slots[LIMIT] % TWO_32),
       (ITERATOR_KEY, slots[ITERATOR] % TWO_32)]
  }

  function FixedBytes(fs: seq<(byte, nat)>): seq<byte>
    requires forall i :: 0 <= i < |fs| ==> fs[i].1 < TWO_32
  {
    if fs == [] then [] else [fs[0].0] + EncUint(fs[0].1) + FixedBytes(fs[1..])
  }

  function FixedEntries(fs: seq<(byte, nat)>): (r: seq<Entry>)
    ensures |r| == |fs|
  {
    if fs == [] then [] else [Entry(Uint(fs[0].0), Uint(fs[0].1))] + FixedEntries(fs[1..])
  }

  /** The key of the first list of values. */
  function ListKey(req: ReqType): byte {
    if req == Insert || req == Replace || req == Upsert then TUPLE else KEY
  }

  predicate HasOperations(req: ReqType) {
    req == Update || req == Upsert
  }

  /** How many entries the body map announces. */
  function Announces(req: ReqType, slots: seq<nat>): nat
    requires |slots| == SLOTS
  {
    |FixedFields(req, slots)| + if HasOperations(req) then 2 else 1
  }

  /** tp_insert, tp_replace, tp_delete, tp_select, tp_update, tp_upsert. */
  function HeadBytes(req: ReqType, slots: seq<nat>): seq<byte>
    requires |slots| == SLOTS
  {
    MapHead(Announces(req, slots)) + FixedBytes(FixedFields(req, slots)) + [ListKey(req)]
  }

  /** The counter that heads the first list. */
  function ListCount(req: ReqType, n: Counts): nat {
    if req == Update then n.keys else n.tuples
  }

  function OperationCount(req: ReqType, n: Counts): nat {
    if req == Update then n.tuples else n.ops
  }

  /** The body of the request, its values being emitted. */
  function BodyBytes(req: ReqType, slots: seq<nat>, n: Counts, emitted: seq<byte>): seq<byte>
    requires |slots| == SLOTS
  {
    HeadBytes(req, slots) + ArrayHead(ListCount(req, n)) + emitted
  }

  lemma HeadIsShort(req: ReqType, slots: seq<nat>)
    requires |slots| == SLOTS
    ensures |HeadBytes(req, slots)| <= 60
  {
    var fs := FixedFields(req, slots);
    FixedIsShort(fs);
  }

  lemma {:induction false} FixedIsShort(fs: seq<(byte, nat)>)
    requires forall i :: 0 <= i < |fs| ==> fs[i].1 < TWO_32
    ensures |FixedBytes(fs)| <= 10 * |fs|
  {
    if fs != [] {
      FixedIsShort(fs[1..]);
    }
  }

  /** Plain values first, then operations. */
  predicate Ordered(req: ReqType, started: bool, vs: seq<FormatValue>)
    decreases |vs|
  {
    vs != [] ==>
      var op := vs[0].value.Some? && IsOperation(req, vs[0].role);
      (vs[0].value.Some? && started ==> op) && Ordered(req, started || op, vs[1..])
  }

  function OrNil(v: Option<Mp>): Mp {
    match v
    case None => Nil
    case Some(x) => x
  }

  /** The plain values. */
  function Plain(req: ReqType, vs: seq<FormatValue>): seq<Mp> {
    if vs == [] then []
    else if vs[0].value.Some? && !IsOperation(req, vs[0].role) then
      [OrNil(ValueOf(vs[0].kind, vs[0].value.value))] + Plain(req, vs[1..])
    else Plain(req, vs[1..])
  }

  function OperationValue(v: FormatValue): Mp
    requires v.value.Some?
  {
    match OperationOf(v.value.value)
    case None => Nil
    case Some(o) => OperationMp(o, OrNil(ValueOf(v.kind, o.rest)))
  }

  /** The operations. */
  function Operations(req: ReqType, vs: seq<FormatValue>): seq<Mp> {
    if vs == [] then []
    else if vs[0].value.Some? && IsOperation(req, vs[0].role) then [OperationValue(vs[0])] + Operations(req, vs[1..])
    else Operations(req, vs[1..])
  }

  // ----------------------------------------------------------------- reading

  lemma ReadValue(bs: seq<byte>, i: nat, kind: ValueType, text: seq<byte>)
    requires |bs| < TWO_32 && Encodable(kind, text) && ValueOf(kind, text).Some? && At(bs, i, ValueBytes(kind, text))
    ensures Read(bs, i) == Some((OrNil(ValueOf(kind, text)), i + |ValueBytes(kind, text)|))
  {
    hide ReadHead, Atoll, NumBuf, SameNoCase, EncUint, EncInt, StrHead;
    match kind
    case BoolValue => ReadConstant(bs, i);
    case IntValue =>
      var v := Atoll(NumBuf(text));
      if text != [] && text[0] == MINUS { ReadInt(bs, i, v); } else { ReadUint(bs, i, v % TWO_64); }
    case StrValue => ReadStr(bs, i, text);
  }

  lemma ReadOperation(bs: seq<byte>, i: nat, kind: ValueType, o: Operation)
    requires |bs| < TWO_32 && Encodable(kind, o.rest) && ValueOf(kind, o.rest).Some?
    requires At(bs, i, OperationHead(o) + ValueBytes(kind, o.rest))
    ensures Read(bs, i)
         == Some((OperationMp(o, OrNil(ValueOf(kind, o.rest))), i + |OperationHead(o) + ValueBytes(kind, o.rest)|))
  {
    hide ReadHead, ValueOf, ValueBytes, EncUint, Encodable, Read, ReadItems, StrHead;
    var op, field, value := EncStr([o.op]), EncUint(o.field % TWO_32), ValueBytes(kind, o.rest);
    AtSplit(bs, i, OperationHead(o), value);
    AtSplit3(bs, i, ArrayHead(3), op, field);
    ReadArrayHead(bs, i, 3);
    ReadStr(bs, i + 1, [o.op]);
    var j := i + 1 + |op|;
    ReadUint(bs, j, o.field % TWO_32);
    ReadValue(bs, j + |field|, kind, o.rest);
    var k := j + |field| + |value|;
    var x, y, z := Str([o.op]), Uint(o.field % TWO_32), OrNil(ValueOf(kind, o.rest));
    ItemSingle(bs, j + |field|, z, k);
    ItemFirst(bs, j, y, j + |field|, [z], k);
    ItemFirst(bs, i + 1, x, j, [y] + [z], k);
    assert [x] + ([y] + [z]) == [x, y, z];
    ArrayOfItems(bs, i, 3, [x, y, z], k);
  }

  lemma ItemSingle(bs: seq<byte>, i: nat, v: Mp, k: nat)
    requires i <= |bs| && Read(bs, i) == Some((v, k))
    ensures Requests.ItemsAt(bs, i, [v], k)
  {
    hide Read;
    assert ReadItems(bs, k, 0) == Some(([], k));
    assert [v] + [] == [v];
  }

  lemma ItemFirst(bs: seq<byte>, i: nat, v: Mp, j: nat, vs: seq<Mp>, k: nat)
    requires i <= |bs| && Read(bs, i) == Some((v, j)) && Requests.ItemsAt(bs, j, vs, k)
    ensures Requests.ItemsAt(bs, i, [v] + vs, k)
  {
    hide Read;
    ItemSingle(bs, i, v, j);
    Requests.ItemsConcat(bs, i, [v], j, vs, k);
  }

  lemma ArrayOfItems(bs: seq<byte>, i: nat, n: nat, vs: seq<Mp>, k: nat)
    requires i < |bs| && ReadHead(bs, i) == Some((HArray(n), i + |ArrayHead(n)|)) && n == |vs|
    requires Requests.ItemsAt(bs, i + |ArrayHead(n)|, vs, k)
    ensures Read(bs, i) == Some((Array(vs), k))
  {
    hide ReadHead;
  }

  /** Once operations have begun, all that is emitted are operations. */
  lemma {:induction false} OperationsRead(req: ReqType, n: Counts, vs: seq<FormatValue>, bs: seq<byte>, i: nat)
    requires |bs| < TWO_32 && Ordered(req, true, vs)
    requires Emit(req, n, true, vs).Some? && At(bs, i, Emit(req, n, true, vs).value)
    ensures Requests.ItemsAt(bs, i, Operations(req, vs), i + |Emit(req, n, true, vs).value|)
    ensures Plain(req, vs) == []
    decreases |vs|
  {
    hide Read, ValueOf, ValueBytes, OperationOf, OperationHead, Encodable;
    if vs != [] {
      if vs[0].value.None? {
        OperationsRead(req, n, vs[1..], bs, i);
      } else {
        var o := OperationOf(vs[0].value.value).value;
        var one, rest := OperationHead(o) + ValueBytes(vs[0].kind, o.rest), Emit(req, n, true, vs[1..]).value;
        assert [] + OperationHead(o) + ValueBytes(vs[0].kind, o.rest) == one;
        AtSplit(bs, i, one, rest);
        ReadOperation(bs, i, vs[0].kind, o);
        OperationsRead(req, n, vs[1..], bs, i + |one|);
        ItemFirst(bs, i, OperationValue(vs[0]), i + |one|, Operations(req, vs[1..]), i + |one| + |rest|);
      }
    }
  }

  /** The emitted bytes are the plain values up to k and, if there are any, the operations behind their header. */
  ghost predicate Parts(req: ReqType, n: Counts, vs: seq<FormatValue>, bs: seq<byte>, i: nat, k: nat, e: nat) {
    var ops, begin := Operations(req, vs), Begin(req, n);
    && Requests.ItemsAt(bs, i, Plain(req, vs), k)
    && if ops == [] then k == e else At(bs, k, begin) && Requests.ItemsAt(bs, k + |begin|, ops, e)
  }

  lemma {:induction false} EmittedReads(req: ReqType, n: Counts, vs: seq<FormatValue>, bs: seq<byte>, i: nat)
    returns (k: nat)
    requires |bs| < TWO_32 && Ordered(req, false, vs)
    requires Emit(req, n, false, vs).Some? && At(bs, i, Emit(req, n, false, vs).value)
    ensures Parts(req, n, vs, bs, i, k, i + |Emit(req, n, false, vs).value|)
    decreases |vs|
  {
    hide Read, ValueOf, ValueBytes, OperationOf, OperationHead, Encodable, Begin;
    if vs == [] {
      k := i;
    } else if vs[0].value.None? {
      k := EmittedReads(req, n, vs[1..], bs, i);
    } else if IsOperation(req, vs[0].role) {
      k := i;
      FirstOperation(req, n, vs, bs, i);
    } else {
      var v := vs[0];
      var one, rest := ValueBytes(v.kind, v.value.value), Emit(req, n, false, vs[1..]).value;
      AtSplit(bs, i, one, rest);
      ReadValue(bs, i, v.kind, v.value.value);
      k := EmittedReads(req, n, vs[1..], bs, i + |one|);
      ItemFirst(bs, i, OrNil(ValueOf(v.kind, v.value.value)), i + |one|, Plain(req, vs[1..]), k);
    }
  }

  lemma FirstOperation(req: ReqType, n: Counts, vs: seq<FormatValue>, bs: seq<byte>, i: nat)
    requires vs != [] && vs[0].value.Some? && IsOperation(req, vs[0].role)
    requires |bs| < TWO_32 && Ordered(req, false, vs)
    requires Emit(req, n, false, vs).Some? && At(bs, i, Emit(req, n, false, vs).value)
    ensures Parts(req, n, vs, bs, i, i, i + |Emit(req, n, false, vs).value|)
  {
    hide Read, ValueOf, ValueBytes, OperationOf, OperationHead, Encodable, Begin;
    var v, begin := vs[0], Begin(req, n);
    var o := OperationOf(v.value.value).value;
    var one, rest := OperationHead(o) + ValueBytes(v.kind, o.rest), Emit(req, n, true, vs[1..]).value;
    assert begin + OperationHead(o) + ValueBytes(v.kind, o.rest) + rest == begin + one + rest;
    AtSplit3(bs, i, begin, one, rest);
    ReadOperation(bs, i + |begin|, v.kind, o);
    OperationsRead(req, n, vs[1..], bs, i + |begin| + |one|);
    ItemFirst(bs, i + |begin|, OperationValue(v), i + |begin| + |one|, Operations(req, vs[1..]),
      i + |begin + one + rest|);
  }

  lemma {:induction false} FixedReads(fs: seq<(byte, nat)>, bs: seq<byte>, i: nat)
    requires forall j :: 0 <= j < |fs| ==> fs[j].0 <= 0x7f && fs[j].1 < TWO_32
    requires At(bs, i, FixedBytes(fs))
    ensures Requests.EntriesAt(bs, i, FixedEntries(fs), i + |FixedBytes(fs)|)
    decreases |fs|
  {
    hide Read, EncUint;
    if fs != [] {
      var key, number, rest := [fs[0].0], EncUint(fs[0].1), FixedBytes(fs[1..]);
      AtSplit3(bs, i, key, number, rest);
      Requests.ReadSmallUint(bs, i, fs[0].0);
      ReadUint(bs, i + 1, fs[0].1);
      var j := i + 1 + |number|;
      Requests.EntriesSingle(bs, i, i + 1, j, Entry(Uint(fs[0].0), Uint(fs[0].1)));
      FixedReads(fs[1..], bs, j);
      Requests.EntriesConcat(bs, i, [Entry(Uint(fs[0].0), Uint(fs[0].1))], j, FixedEntries(fs[1..]), j + |rest|);
    }
  }

  function ListEntry(key: byte, items: seq<Mp>): Entry {
    Entry(Uint(key), Array(items))
  }

  lemma {:induction false} ItemsAreBytes(bs: seq<byte>, i: nat, n: nat)
    requires i <= |bs| && ReadItems(bs, i, n).Some?
    ensures ReadItems(bs, i, n).value.1 >= i + n
    decreases n
  {
    hide Read;
    if n > 0 {
      ItemsAreBytes(bs, Read(bs, i).value.1, n - 1);
    }
  }

  /** Reading more items ends later. */
  lemma {:induction false} ItemEndsGrow(bs: seq<byte>, i: nat, m: nat, n: nat)
    requires i <= |bs| && m < n && ReadItems(bs, i, m).Some? && ReadItems(bs, i, n).Some?
    ensures ReadItems(bs, i, m).value.1 < ReadItems(bs, i, n).value.1
    decreases m
  {
    hide Read;
    if m > 0 {
      ItemEndsGrow(bs, Read(bs, i).value.1, m - 1, n - 1);
    }
  }

  /** A list header that announces as many items as follow. */
  lemma ListReads(bs: seq<byte>, i: nat, key: byte, n: nat, items: seq<Mp>, k: nat)
    requires |bs| < TWO_32 && key <= 0x7f && At(bs, i, [key] + ArrayHead(n)) && n == |items|
    requires Requests.ItemsAt(bs, i + 1 + |ArrayHead(n)|, items, k)
    ensures Requests.EntriesAt(bs, i, [ListEntry(key, items)], k)
  {
    hide Read, ReadHead, ArrayHead, ReadItems;
    ItemsAreBytes(bs, i + 1 + |ArrayHead(n)|, n);
    AtSplit(bs, i, [key], ArrayHead(n));
    Requests.ReadSmallUint(bs, i, key);
    ReadArrayHead(bs, i + 1, n);
    ArrayOfItems(bs, i + 1, n, items, k);
    Requests.EntriesSingle(bs, i, i + 1, k, ListEntry(key, items));
  }

  function OperationKey(req: ReqType): byte {
    if req == Update then TUPLE else OPS
  }

  /** The body a Tarantool server is to see. */
  function Expected(req: ReqType, slots: seq<nat>, vs: seq<FormatValue>): seq<Entry>
    requires |slots| == SLOTS
  {
    FixedEntries(FixedFields(req, slots)) + [ListEntry(ListKey(req), Plain(req, vs))]
    + if Operations(req, vs) == [] then [] else [ListEntry(OperationKey(req), Operations(req, vs))]
  }

  /** The values behind the fixed entries, both counters being right. */
  lemma ListsRead(req: ReqType, n: Counts, vs: seq<FormatValue>, bs: seq<byte>, i: nat, k: nat, e: nat)
    requires |bs| < TWO_32 && At(bs, i, [ListKey(req)] + ArrayHead(ListCount(req, n)))
    requires Parts(req, n, vs, bs, i + 1 + |ArrayHead(ListCount(req, n))|, k, e)
    requires ListCount(req, n) == |Plain(req, vs)|
    requires Operations(req, vs) != [] ==> HasOperations(req) && OperationCount(req, n) == |Operations(req, vs)|
    ensures Requests.EntriesAt(bs, i, [ListEntry(ListKey(req), Plain(req, vs))]
              + if Operations(req, vs) == [] then [] else [ListEntry(OperationKey(req), Operations(req, vs))], e)
  {
    hide Read, ReadItems, Plain, Operations, ArrayHead;
    var first := [ListEntry(ListKey(req), Plain(req, vs))];
    ListReads(bs, i, ListKey(req), ListCount(req, n), Plain(req, vs), k);
    if Operations(req, vs) == [] {
      assert first + [] == first;
    } else {
      assert Begin(req, n) == [OperationKey(req)] + ArrayHead(OperationCount(req, n));
      ListReads(bs, k, OperationKey(req), OperationCount(req, n), Operations(req, vs), e);
      Requests.EntriesConcat(bs, i, first, k, [ListEntry(OperationKey(req), Operations(req, vs))], e);
    }
  }

  /** The parts of the body: map header, fixed entries up to j, list header, emitted values. */
  lemma BodyParts(req: ReqType, slots: seq<nat>, n: Counts, vs: seq<FormatValue>, bs: seq<byte>, i: nat)
    returns (j: nat, k: nat, e: nat)
    requires |slots| == SLOTS && |bs| < TWO_32 && Ordered(req, false, vs) && Emit(req, n, false, vs).Some?
    requires At(bs, i, BodyBytes(req, slots, n, Emit(req, n, false, vs).value))
    ensures e == i + |BodyBytes(req, slots, n, Emit(req, n, false, vs).value)| <= |bs|
    ensures At(bs, i, MapHead(Announces(req, slots)))
    ensures Requests.EntriesAt(bs, i + 1, FixedEntries(FixedFields(req, slots)), j)
    ensures At(bs, j, [ListKey(req)] + ArrayHead(ListCount(req, n)))
    ensures Parts(req, n, vs, bs, j + 1 + |ArrayHead(ListCount(req, n))|, k, e)
  {
    hide ReadEntries, ArrayHead, Emit, Ordered, FixedBytes, FixedEntries, Parts, MapHead;
    var emitted, fs := Emit(req, n, false, vs).value, FixedFields(req, slots);
    var map_, fixed, list := MapHead(Announces(req, slots)), FixedBytes(fs),
      [ListKey(req)] + ArrayHead(ListCount(req, n));
    assert BodyBytes(req, slots, n, emitted) == map_ + (fixed + list + emitted);
    AtSplit(bs, i, map_, fixed + list + emitted);
    OneByteMap(Announces(req, slots));
    AtSplit3(bs, i + 1, fixed, list, emitted);
    FixedReads(fs, bs, i + 1);
    j := i + 1 + |fixed|;
    k := EmittedReads(req, n, vs, bs, j + |list|);
    e := j + |list| + |emitted|;
  }

  /** An update or upsert announces its operations even if there are none: then it is no request. */
  lemma BodyReads(req: ReqType, slots: seq<nat>, n: Counts, vs: seq<FormatValue>, bs: seq<byte>, i: nat)
    requires |slots| == SLOTS && |bs| < TWO_32 && Ordered(req, false, vs) && Emit(req, n, false, vs).Some?
    requires At(bs, i, BodyBytes(req, slots, n, Emit(req, n, false, vs).value))
    requires ListCount(req, n) == |Plain(req, vs)|
    requires Operations(req, vs) != [] ==> HasOperations(req) && OperationCount(req, n) == |Operations(req, vs)|
    ensures i <= |bs| && Requests.BodyAt(bs, i, i + |BodyBytes(req, slots, n, Emit(req, n, false, vs).value)|)
         == if HasOperations(req) && Operations(req, vs) == [] then None else Some(Expected(req, slots, vs))
  {
    hide Requests.BodyAt, ReadEntries, BodyBytes, Plain, Operations;
    hide ArrayHead, Emit, Ordered, FixedEntries, Parts, MapHead;
    var fixed := FixedEntries(FixedFields(req, slots));
    var j, k, e := BodyParts(req, slots, n, vs, bs, i);
    ListsRead(req, n, vs, bs, j, k, e);
    var lists := [ListEntry(ListKey(req), Plain(req, vs))]
              + if Operations(req, vs) == [] then [] else [ListEntry(OperationKey(req), Operations(req, vs))];
    Requests.EntriesConcat(bs, i + 1, fixed, j, lists, e);
    assert fixed + lists == Expected(req, slots, vs);
    Requests.Announced(bs, i, Announces(req, slots), Expected(req, slots, vs), e);
  }

  lemma OneByteMap(n: nat)
    requires n <= 15
    ensures |MapHead(n)| == 1
  {
  }

  // -------------------------------------------------- when the counter is off

  /** Entries read in two goes. */
  lemma {:induction false} EntriesAppend(bs: seq<byte>, i: nat, a: seq<Entry>, j: nat, m: nat)
    requires Requests.EntriesAt(bs, i, a, j)
    ensures ReadEntries(bs, i, |a| + m).Some? <==> ReadEntries(bs, j, m).Some?
    ensures ReadEntries(bs, i, |a| + m).Some? ==> ReadEntries(bs, i, |a| + m).value.1 == ReadEntries(bs, j, m).value.1
    decreases |a|
  {
    hide Read;
    if a != [] {
      EntriesAppend(bs, Read(bs, Read(bs, i).value.1).value.1, a[1..], j, m);
    }
  }

  /** A list whose header announces another number of items does not end where its items do. */
  lemma WrongList(bs: seq<byte>, i: nat, key: byte, n: nat, items: seq<Mp>, k: nat)
    requires key <= 0x7f && n < TWO_32 && n != |items| && At(bs, i, [key] + ArrayHead(n))
    requires Requests.ItemsAt(bs, i + 1 + |ArrayHead(n)|, items, k)
    ensures ReadEntries(bs, i, 1).Some? ==> ReadEntries(bs, i, 1).value.1 != k
  {
    hide ReadHead, ArrayHead;
    AtSplit(bs, i, [key], ArrayHead(n));
    Requests.ReadSmallUint(bs, i, key);
    ReadArrayHead(bs, i + 1, n);
    var j := i + 1 + |ArrayHead(n)|;
    if ReadItems(bs, j, n).Some? {
      if n < |items| { ItemEndsGrow(bs, j, n, |items|); } else { ItemEndsGrow(bs, j, |items|, n); }
    }
  }

  lemma {:induction false} OnlyPlain(req: ReqType, vs: seq<FormatValue>)
    requires !HasOperations(req)
    ensures Operations(req, vs) == [] && Ordered(req, false, vs)
    decreases |vs|
  {
    if vs != [] {
      OnlyPlain(req, vs[1..]);
    }
  }

  /** A map whose last m entries end elsewhere ends elsewhere. */
  lemma EndsElsewhere(bs: seq<byte>, i: nat, fixed: seq<Entry>, j: nat, m: nat, e: nat)
    requires |fixed| + m <= 15 && At(bs, i, MapHead(|fixed| + m)) && Requests.EntriesAt(bs, i + 1, fixed, j)
    requires j <= |bs| && (ReadEntries(bs, j, m).Some? ==> ReadEntries(bs, j, m).value.1 != e)
    ensures i <= |bs| && Requests.BodyAt(bs, i, e) == None
  {
    hide ReadHead;
    EntriesAppend(bs, i + 1, fixed, j, m);
    ReadMapHead(bs, i, |fixed| + m);
  }

  /** A request of one list whose counter is not the number of its values is no request. */
  lemma WrongBody(req: ReqType, slots: seq<nat>, n: Counts, vs: seq<FormatValue>, bs: seq<byte>, i: nat)
    requires |slots| == SLOTS && |bs| < TWO_32 && Emit(req, n, false, vs).Some? && !HasOperations(req)
    requires At(bs, i, BodyBytes(req, slots, n, Emit(req, n, false, vs).value))
    requires |Plain(req, vs)| != ListCount(req, n) < TWO_32
    ensures i <= |bs| && Requests.BodyAt(bs, i, i + |BodyBytes(req, slots, n, Emit(req, n, false, vs).value)|) == None
  {
    hide ReadItems, ReadEntries, ReadHead, BodyBytes, Plain;
    hide Operations, ArrayHead, Emit, Ordered, FixedEntries, MapHead;
    OnlyPlain(req, vs);
    var j, k, e := BodyParts(req, slots, n, vs, bs, i);
    WrongList(bs, j, ListKey(req), ListCount(req, n), Plain(req, vs), k);
    EndsElsewhere(bs, i, FixedEntries(FixedFields(req, slots)), j, 1, e);
  }

  /** Items read in two goes. */
  lemma {:induction false} ItemsAppend(bs: seq<byte>, i: nat, m: nat, n: nat)
    requires i <= |bs| && ReadItems(bs, i, m).Some?
    ensures var k := ReadItems(bs, i, m).value.1;
            && (ReadItems(bs, i, m + n).Some? <==> ReadItems(bs, k, n).Some?)
            && (ReadItems(bs, k, n).Some? ==> ReadItems(bs, i, m + n).value.1 == ReadItems(bs, k, n).value.1)
    decreases m
  {
    hide Read;
    if m > 0 {
      ItemsAppend(bs, Read(bs, i).value.1, m - 1, n);
    }
  }

  lemma TwoItems(bs: seq<byte>, i: nat)
    requires i <= |bs| && Read(bs, i).Some? && Read(bs, Read(bs, i).value.1).Some?
    ensures ReadItems(bs, i, 2).Some?
    ensures ReadItems(bs, i, 2).value.1 == Read(bs, Read(bs, i).value.1).value.1
  {
    hide Read;
    var j := Read(bs, i).value.1;
    assert ReadItems(bs, j, 1).Some? && ReadItems(bs, j, 1).value.1 == Read(bs, j).value.1;
  }

  /** A list and the entry behind it take up the items of the list, a key and a value. */
  lemma ListAndEntry(bs: seq<byte>, j: nat, key: byte, n: nat)
    requires key <= 0x7f && n < TWO_32 && At(bs, j, [key] + ArrayHead(n))
    requires ReadEntries(bs, j, 2).Some?
    ensures ReadItems(bs, j + 1 + |ArrayHead(n)|, n + 2).Some?
    ensures ReadItems(bs, j + 1 + |ArrayHead(n)|, n + 2).value.1 == ReadEntries(bs, j, 2).value.1
  {
    hide ReadHead, ArrayHead, ReadItems;
    AtSplit(bs, j, [key], ArrayHead(n));
    Requests.ReadSmallUint(bs, j, key);
    ReadArrayHead(bs, j + 1, n);
    var i := j + 1 + |ArrayHead(n)|;
    var k := ReadItems(bs, i, n).value.1;
    assert ReadEntries(bs, k, 1).Some? && ReadEntries(bs, k, 1).value.1 == ReadEntries(bs, j, 2).value.1;
    TwoItems(bs, k);
    ItemsAppend(bs, i, n, 2);
  }

  /** The items behind the header of the first list: as many as are there, or more, end where the body does or later. */
  lemma TooManyItems(req: ReqType, n: Counts, vs: seq<FormatValue>, bs: seq<byte>, i: nat, k: nat, e: nat, m: nat)
    requires |bs| < TWO_32 && Parts(req, n, vs, bs, i, k, e) && m >= |Plain(req, vs)| + 3
    requires HasOperations(req) && |Operations(req, vs)| <= OperationCount(req, n) < TWO_32
    ensures ReadItems(bs, i, m).Some? ==> ReadItems(bs, i, m).value.1 > e
  {
    hide Plain, Operations, ArrayHead, Read, ReadItems, ReadHead, At;
    var count := |Plain(req, vs)|;
    if ReadItems(bs, i, m).Some? {
      if Operations(req, vs) == [] {
        ItemEndsGrow(bs, i, count, m);
      } else {
        assert Begin(req, n) == [OperationKey(req)] + ArrayHead(OperationCount(req, n));
        AtSplit(bs, k, [OperationKey(req)], ArrayHead(OperationCount(req, n)));
        Requests.ReadSmallUint(bs, k, OperationKey(req));
        ItemsAppend(bs, i, count, m - count);
        SecondItem(bs, k, m - count, k + 1);
        OperationsEnd(req, n, vs, bs, k + 1, e);
        TwoItems(bs, k);
        ItemsAppend(bs, i, count, 2);
        ItemEndsGrow(bs, i, count + 2, m);
      }
    }
  }

  lemma SecondItem(bs: seq<byte>, i: nat, n: nat, j: nat)
    requires n >= 2 && i <= |bs| && ReadItems(bs, i, n).Some? && Read(bs, i).Some? && Read(bs, i).value.1 == j
    ensures j <= |bs| && Read(bs, j).Some?
  {
    hide Read;
    assert ReadItems(bs, j, n - 1).Some?;
  }

  /** The list of operations ends with them, or later if its header announces more. */
  lemma OperationsEnd(req: ReqType, n: Counts, vs: seq<FormatValue>, bs: seq<byte>, j: nat, e: nat)
    requires OperationCount(req, n) < TWO_32 && At(bs, j, ArrayHead(OperationCount(req, n))) && Read(bs, j).Some?
    requires Requests.ItemsAt(bs, j + |ArrayHead(OperationCount(req, n))|, Operations(req, vs), e)
    requires |Operations(req, vs)| <= OperationCount(req, n)
    ensures Read(bs, j).value.1 >= e
  {
    hide ReadHead, ArrayHead, ReadItems, Operations;
    var m := OperationCount(req, n);
    ReadArrayHead(bs, j, m);
    if |Operations(req, vs)| < m {
      ItemEndsGrow(bs, j + |ArrayHead(m)|, |Operations(req, vs)|, m);
    }
  }

  /** An update or upsert that announces more than it writes, in any of its three headers, is no request. */
  lemma WrongOperations(req: ReqType, slots: seq<nat>, n: Counts, vs: seq<FormatValue>, bs: seq<byte>, i: nat)
    requires |slots| == SLOTS && |bs| < TWO_32 && Ordered(req, false, vs) && Emit(req, n, false, vs).Some?
    requires At(bs, i, BodyBytes(req, slots, n, Emit(req, n, false, vs).value)) && HasOperations(req)
    requires |Plain(req, vs)| <= ListCount(req, n) < TWO_32
    requires |Operations(req, vs)| <= OperationCount(req, n) < TWO_32
    requires Operations(req, vs) == []
          || |Plain(req, vs)| < ListCount(req, n) || |Operations(req, vs)| < OperationCount(req, n)
    ensures i <= |bs| && Requests.BodyAt(bs, i, i + |BodyBytes(req, slots, n, Emit(req, n, false, vs).value)|) == None
  {
    hide Requests.BodyAt, ReadEntries, BodyBytes, Plain, Operations, ArrayHead;
    hide Emit, Ordered, FixedEntries, MapHead, Parts;
    if ListCount(req, n) == |Plain(req, vs)| && Operations(req, vs) == [] {
      BodyReads(req, slots, n, vs, bs, i);
    } else {
      var j, k, e := BodyParts(req, slots, n, vs, bs, i);
      WrongLists(req, n, vs, bs, j, k, e);
      EndsElsewhere(bs, i, FixedEntries(FixedFields(req, slots)), j, 2, e);
    }
  }

  lemma WrongLists(req: ReqType, n: Counts, vs: seq<FormatValue>, bs: seq<byte>, j: nat, k: nat, e: nat)
    requires |bs| < TWO_32 && HasOperations(req) && At(bs, j, [ListKey(req)] + ArrayHead(ListCount(req, n)))
    requires Parts(req, n, vs, bs, j + 1 + |ArrayHead(ListCount(req, n))|, k, e)
    requires |Plain(req, vs)| <= ListCount(req, n) < TWO_32
    requires |Operations(req, vs)| <= OperationCount(req, n) < TWO_32
    requires |Plain(req, vs)| < ListCount(req, n)
          || (Operations(req, vs) != [] && |Operations(req, vs)| < OperationCount(req, n))
    ensures ReadEntries(bs, j, 2).Some? ==> ReadEntries(bs, j, 2).value.1 != e
  {
    hide ReadItems, Read, ReadEntries, Plain, Operations, ArrayHead;
    if |Plain(req, vs)| < ListCount(req, n) {
      if ReadEntries(bs, j, 2).Some? {
        ListAndEntry(bs, j, ListKey(req), ListCount(req, n));
        TooManyItems(req, n, vs, bs, j + 1 + |ArrayHead(ListCount(req, n))|, k, e, ListCount(req, n) + 2);
      }
    } else {
      ListReads(bs, j, ListKey(req), ListCount(req, n), Plain(req, vs), k);
      assert Begin(req, n) == [OperationKey(req)] + ArrayHead(OperationCount(req, n));
      WrongList(bs, k, OperationKey(req), OperationCount(req, n), Operations(req, vs), e);
      EntriesAppend(bs, j, [ListEntry(ListKey(req), Plain(req, vs))], k, 1);
    }
  }

  // --------------------------------------------- the formats, and their counts

  predicate RoleFits(req: ReqType, role: Role) {
    match role
    case TuplePart => true
    case UpdateKey => req == Update
    case UpsertOp => req == Upsert
  }

  /** Keys only in an update, operations only in an upsert, plain values before operations. */
  predicate FormatsOk(req: ReqType, formats: seq<Format>) {
    && (forall i :: 0 <= i < |formats| ==> RoleFits(req, formats[i].role))
    && forall i, j :: 0 <= i < j < |formats| && IsOperation(req, formats[i].role) ==> IsOperation(req, formats[j].role)
  }

  /** The values of a location whose formats are these. */
  predicate ValuesFit(formats: seq<Format>, vs: seq<FormatValue>) {
    |vs| == |formats| && forall i :: 0 <= i < |vs| ==> vs[i].role == formats[i].role
  }

  lemma {:induction false} RolesStay(formats: seq<Format>, f: Filling, ps: seq<Pair>)
    requires ValuesFit(formats, f.values)
    ensures ValuesFit(formats, BindAll(f, ps).values)
    decreases |ps|
  {
    if ps != [] {
      RolesStay(formats, Dml.BindOne(f, ps[0]), ps[1..]);
    }
  }

  lemma {:induction false} InOrder(req: ReqType, formats: seq<Format>, vs: seq<FormatValue>, started: bool)
    requires FormatsOk(req, formats) && ValuesFit(formats, vs)
    requires started ==> forall i :: 0 <= i < |formats| ==> IsOperation(req, formats[i].role)
    ensures Ordered(req, started, vs)
    decreases |vs|
  {
    if vs != [] {
      var op := vs[0].value.Some? && IsOperation(req, vs[0].role);
      InOrder(req, formats[1..], vs[1..], started || op);
    }
  }

  /** The counter of the first list counts the plain values, the other one the operations. */
  lemma {:induction false} RolesCounted(req: ReqType, formats: seq<Format>, vs: seq<FormatValue>)
    requires FormatsOk(req, formats) && ValuesFit(formats, vs)
    ensures |Plain(req, vs)| == Dml.Bound(vs, if req == Update then UpdateKey else TuplePart)
    ensures HasOperations(req) ==>
      |Operations(req, vs)| == Dml.Bound(vs, if req == Update then TuplePart else UpsertOp)
    ensures !HasOperations(req) ==> Operations(req, vs) == []
    decreases |vs|
  {
    if vs != [] {
      RolesCounted(req, formats[1..], vs[1..]);
    }
  }

  // ------------------------------------------------------------- the handler

  /** The bound values and the counters after an accepted query. */
  function Bindings(c: Conf, formats: seq<Format>, ps: seq<Pair>): Filling {
    BindAll(Filling(Initial(formats), Counts(0, 0, 0)), Left(c, ps, |ps|))
  }

  function FinalSlots(c: Conf, ps: seq<Pair>): (r: seq<nat>)
    ensures |r| == SLOTS
  {
    [Final(c, ps, LIMIT), Final(c, ps, OFFSET), Final(c, ps, ITERATOR), Final(c, ps, SPACE), Final(c, ps, INDEX)]
  }

  function Emitted(c: Conf, req: ReqType, formats: seq<Format>, ps: seq<Pair>): Option<seq<byte>> {
    Emit(req, Bindings(c, formats, ps).counts, false, Bindings(c, formats, ps).values)
  }

  /** The body of the request for an accepted query whose values can be bound. */
  function DmlBody(c: Conf, req: ReqType, formats: seq<Format>, ps: seq<Pair>): seq<byte>
    requires Emitted(c, req, formats, ps).Some?
  {
    BodyBytes(req, FinalSlots(c, ps), Bindings(c, formats, ps).counts, Emitted(c, req, formats, ps).value)
  }

  datatype Outcome = Sent(last: nat) | Rejected(answer: Status) | BadValue | CantIssue | CantRead

  /** What tp_ensure is asked for: some of the request functions forget the 14 bytes before the body. */
  function Ensured(req: ReqType, body: nat): nat {
    if req == Delete || req == Select then 14 + body else body
  }

  /** The request function of this type does not write past the end of a buffer of this length. */
  predicate StaysInside(req: ReqType, slots: seq<nat>, length: nat)
    requires |slots| == SLOTS
  {
    length < Ensured(req, |HeadBytes(req, slots)|) || 14 + |HeadBytes(req, slots)| <= length
  }

  /**
   That is the exact condition: tp_delete and tp_select never write past the end,
   the other four exactly if their head fits and the 14 bytes before it do not.
   A buffer of 74 bytes is always enough.
   */
  lemma HeadOverruns(req: ReqType, slots: seq<nat>, t: Tp)
    requires |slots| == SLOTS && t.p == 0
    ensures var head := HeadBytes(req, slots);
      && (StartOf(t, Code(req), head, Ensured(req, |head|)) == Overrun <==> !StaysInside(req, slots, |t.mem|))
      && (StaysInside(req, slots, |t.mem|) <==>
            req == Delete || req == Select || |t.mem| < |head| || 14 + |head| <= |t.mem|)
    ensures |t.mem| >= 74 ==> StaysInside(req, slots, |t.mem|)
  {
    hide HeadBytes, FrameAt;
    HeadIsShort(req, slots);
  }

  /** An insert into a space below 128 has a head of 4 bytes: 4 to 17 bytes of buffer pass the check and are overrun. */
  lemma InsertOverruns(slots: seq<nat>, t: Tp)
    requires |slots| == SLOTS && slots[SPACE] <= 0x7f && t.p == 0
    ensures HeadBytes(Insert, slots) == [0x82, SPACE_KEY, slots[SPACE], TUPLE]
    ensures StartOf(t, Code(Insert), HeadBytes(Insert, slots), Ensured(Insert, |HeadBytes(Insert, slots)|)) == Overrun
        <==> 4 <= |t.mem| <= 17
  {
    hide FrameAt;
    var fs := FixedFields(Insert, slots);
    assert fs[1..] == [];
    assert FixedBytes(fs) == [SPACE_KEY, slots[SPACE]];
  }

  /** What the handler does with the pairs of a query, in a buffer of this length. */
  ghost predicate Handled(c: Conf, req: ReqType, formats: seq<Format>, ps: seq<Pair>, outcome: Outcome,
                          out: seq<byte>)
  {
    if Answer(c, ps) != Ok then outcome == Rejected(Answer(c, ps))
    else
      var e := Emitted(c, req, formats, ps);
      && !outcome.Rejected? && !outcome.CantRead?
      && (outcome.Sent? <==> e.Some? && 14 + |DmlBody(c, req, formats, ps)| <= |out|)
      && (outcome.Sent? ==> outcome.last == 14 + |DmlBody(c, req, formats, ps)|)
      && (outcome.Sent? ==> out[..outcome.last] == Frame(Code(req), 0, DmlBody(c, req, formats, ps)))
      && (outcome.BadValue? ==> e.None?)
  }

  /** Everything behind format_init: the pairs of the text that was read. */
  method Issue(c: Conf, req: ReqType, formats: seq<Format>, input: seq<byte>, output: array<byte>)
    returns (outcome: Outcome)
    requires Answer(c, Pairs(input)) == Ok ==> StaysInside(req, FinalSlots(c, Pairs(input)), output.Length)
    requires AllEncodable(req, false, Bindings(c, formats, Pairs(input)).values)
    modifies output
    ensures Handled(c, req, formats, Pairs(input), outcome, output[..])
  {
    hide Pairs, Answer, BindAll, Initial, Left, Emit, AllEncodable;
    hide Default, Final, HeadBytes, Frame, FrameAt, ArrayHead, Append, Counted;
    ghost var ps := Pairs(input);
    var f := new FormatContext(c, formats);
    var status := f.Prepare(c, input);
    if status != Ok {
      return Rejected(status);
    }
    ghost var b := Bindings(c, formats, ps);
    assert f.Now() == b;
    assert f.Slots() == FinalSlots(c, ps);
    var slots := [f.limit, f.offset, f.iterType, f.spaceId, f.indexId];
    var n := Counts(f.tuples, f.updateKeys, f.upsertOps);
    var tp := new TpStream(output);
    ghost var t := tp.State();
    var head := HeadBytes(req, slots);
    var ok := tp.StartRequest(Code(req), head, Ensured(req, |head|));
    var list := ArrayHead(ListCount(req, n));
    if ok {
      ok := tp.Encode(list);
    }
    if !ok {
      return CantIssue;
    }
    AppendToFrame(t, Code(req), 0, head, list);
    FrameCounted(t, Code(req), 0, head + list);
    var bound := Bind(tp, req, n, f.values);
    match bound {
      case Bound =>
        AppendToFrame(t, Code(req), 0, head + list, Emitted(c, req, formats, ps).value);
        FrameFirst(t, Code(req), 0, DmlBody(c, req, formats, ps));
        return Sent(tp.p);
      case Refused =>
        return BadValue;
      case NoRoom =>
        return CantIssue;
    }
  }

  /** ngx_http_tnt_dml_handler, from the arguments or the body of the request on. */
  method DmlHandler(c: Conf, req: ReqType, formats: seq<Format>, args: seq<byte>, contentLength: nat,
                    bufs: seq<Chunk>, output: array<byte>)
    returns (outcome: Outcome)
    requires contentLength > 0 ==> |Whole(bufs)| == contentLength
    requires var ps := Pairs(Input(args, contentLength, bufs));
      && (Answer(c, ps) == Ok ==> StaysInside(req, FinalSlots(c, ps), output.Length))
      && AllEncodable(req, false, Bindings(c, formats, ps).values)
    modifies output
    ensures outcome.CantRead? <==> contentLength > 0 && !InMemory(bufs)
    ensures !outcome.CantRead? ==>
      Handled(c, req, formats, Pairs(Input(args, contentLength, bufs)), outcome, output[..])
  {
    hide Input, Pairs, Answer, Bindings, FinalSlots, DmlBody, Emitted, AllEncodable;
    hide StaysInside, Whole, InMemory, Frame;
    var ok, text := ReadInput(args, contentLength, bufs);
    if !ok {
      return CantRead;
    }
    outcome := Issue(c, req, formats, text, output);
  }

  // -------------------------------------------------- what the server receives

  /** The bindings, seen as the filling of a fresh format by the pairs left over. */
  lemma BindingsCounted(c: Conf, req: ReqType, formats: seq<Format>, ps: seq<Pair>)
    requires FormatsOk(req, formats)
    ensures var b := Bindings(c, formats, ps);
            && Ordered(req, false, b.values)
            && ((ListCount(req, b.counts) == |Plain(req, b.values)|
                 && (HasOperations(req) ==> OperationCount(req, b.counts) == |Operations(req, b.values)|))
                <==> !EmptyBeforeAnother(Filling(Initial(formats), Counts(0, 0, 0)), Left(c, ps, |ps|)))
            && (!HasOperations(req) ==> Operations(req, b.values) == [])
            && |Plain(req, b.values)| <= ListCount(req, b.counts)
            && (HasOperations(req) ==> |Operations(req, b.values)| <= OperationCount(req, b.counts))
  {
    hide BindAll, EmptyBeforeAnother, Left, Dml.Bound, Plain, Operations, Ordered, Refills;
    var f, left := Filling(Initial(formats), Counts(0, 0, 0)), Left(c, ps, |ps|);
    var b := BindAll(f, left);
    RolesStay(formats, f, left);
    InOrder(req, formats, b.values, false);
    RolesCounted(req, formats, b.values);
    CountsAgree(f, left);
    UnusedRoles(req, formats, f, left);
    FreshBound(f.values);
    forall role
      ensures b.counts.Of(role) == Dml.Bound(b.values, role) + Refills(f, left, role)
    {
      CountsAreBound(f, left, role);
    }
  }

  /** A role no format has is neither counted nor bound. */
  lemma {:induction false} UnusedRoles(req: ReqType, formats: seq<Format>, f: Filling, ps: seq<Pair>)
    requires FormatsOk(req, formats) && ValuesFit(formats, f.values)
    ensures req != Update ==> BindAll(f, ps).counts.keys == f.counts.keys
    ensures req != Update ==> Dml.Bound(BindAll(f, ps).values, UpdateKey) == 0
    ensures req != Upsert ==> BindAll(f, ps).counts.ops == f.counts.ops
    ensures req != Upsert ==> Dml.Bound(BindAll(f, ps).values, UpsertOp) == 0
    decreases |ps|
  {
    if ps == [] {
      NoneOfRole(f.values, UpdateKey);
      NoneOfRole(f.values, UpsertOp);
    } else {
      UnusedRoles(req, formats, Dml.BindOne(f, ps[0]), ps[1..]);
    }
  }

  lemma {:induction false} NoneOfRole(vs: seq<FormatValue>, role: Role)
    ensures (forall i :: 0 <= i < |vs| ==> vs[i].role != role) ==> Dml.Bound(vs, role) == 0
    decreases |vs|
  {
    if vs != [] {
      NoneOfRole(vs[1..], role);
      assert (forall i :: 0 <= i < |vs| ==> vs[i].role != role) ==> forall i :: 0 <= i < |vs[1..]| ==>
        vs[1..][i].role == vs[i + 1].role;
    }
  }

  /** Some counter is larger than the number of values it heads. */
  lemma WrongCounts(req: ReqType, slots: seq<nat>, n: Counts, vs: seq<FormatValue>, bs: seq<byte>, i: nat)
    requires |slots| == SLOTS && |bs| < TWO_32 && Ordered(req, false, vs) && Emit(req, n, false, vs).Some?
    requires At(bs, i, BodyBytes(req, slots, n, Emit(req, n, false, vs).value))
    requires n.tuples < TWO_32 && n.keys < TWO_32 && n.ops < TWO_32
    requires |Plain(req, vs)| <= ListCount(req, n)
    requires HasOperations(req) ==> |Operations(req, vs)| <= OperationCount(req, n)
    requires !(ListCount(req, n) == |Plain(req, vs)|
               && (HasOperations(req) ==> OperationCount(req, n) == |Operations(req, vs)|))
    ensures i <= |bs| && Requests.BodyAt(bs, i, i + |BodyBytes(req, slots, n, Emit(req, n, false, vs).value)|) == None
  {
    hide Requests.BodyAt, BodyBytes, Plain, Operations, Emit, Ordered;
    if HasOperations(req) {
      WrongOperations(req, slots, n, vs, bs, i);
    } else {
      WrongBody(req, slots, n, vs, bs, i);
    }
  }

  /**
   What the handler sends for an accepted query is the request of the bound
   values if and only if no name got an empty value before another pair of that
   name and, for an update or upsert, some operation is bound.
   */
  lemma DmlReads(c: Conf, req: ReqType, formats: seq<Format>, ps: seq<Pair>, bs: seq<byte>, i: nat)
    requires FormatsOk(req, formats) && Emitted(c, req, formats, ps).Some?
    requires |bs| < TWO_32 && |ps| < TWO_32 && At(bs, i, Frame(Code(req), 0, DmlBody(c, req, formats, ps)))
    ensures var vs := Bindings(c, formats, ps).values;
            Requests.ReadRequest(bs, i) ==
              if EmptyBeforeAnother(Filling(Initial(formats), Counts(0, 0, 0)), Left(c, ps, |ps|)) then None
              else if HasOperations(req) && Operations(req, vs) == [] then None
              else Some((Requests.Request(Code(req), 0, Expected(req, FinalSlots(c, ps), vs)),
                         i + 14 + |DmlBody(c, req, formats, ps)|))
  {
    hide Requests.BodyAt, Requests.ReadRequest, Frame, BodyBytes, FinalSlots;
    hide EmptyBeforeAnother, Expected, Plain, Operations, Ordered, Left, BindAll;
    var b := Bindings(c, formats, ps);
    BindingsCounted(c, req, formats, ps);
    Requests.RequestFromFrame(bs, i, Code(req), 0, DmlBody(c, req, formats, ps));
    if EmptyBeforeAnother(Filling(Initial(formats), Counts(0, 0, 0)), Left(c, ps, |ps|)) {
      LeftIsShort(c, ps, |ps|);
      CountsAreSmall(Filling(Initial(formats), Counts(0, 0, 0)), Left(c, ps, |ps|));
      assert b.counts.Of(TuplePart) < TWO_32 && b.counts.Of(UpdateKey) < TWO_32 && b.counts.Of(UpsertOp) < TWO_32;
      WrongCounts(req, FinalSlots(c, ps), b.counts, b.values, bs, i + 14);
    } else {
      BodyReads(req, FinalSlots(c, ps), b.counts, b.values, bs, i + 14);
    }
  }

  /** An update of the one key id, and ?id=x: four entries are announced, three written. */
  lemma KeyWithoutOperation(slots: seq<nat>, bs: seq<byte>, i: nat)
    requires |slots| == SLOTS && |bs| < TWO_32
    requires At(bs, i, Frame(Code(Update), 0, BodyBytes(Update, slots, Counts(0, 1, 0), EncStr([0x78]))))
    ensures var f := Filling([FormatValue([0x69, 0x64], StrValue, UpdateKey, None)], Counts(0, 0, 0));
            var b := BindAll(f, [Pair([0x69, 0x64], [0x78])]);
            b.counts == Counts(0, 1, 0) && Emit(Update, b.counts, false, b.values) == Some(EncStr([0x78]))
    ensures Requests.ReadRequest(bs, i) == None
  {
    hide Requests.BodyAt, Requests.ReadRequest, Frame, BodyBytes;
    var vs := [FormatValue([0x69, 0x64], StrValue, UpdateKey, Some([0x78]))];
    var p := Pair([0x69, 0x64], [0x78]);
    var f := Filling([FormatValue([0x69, 0x64], StrValue, UpdateKey, None)], Counts(0, 0, 0));
    assert Dml.BindOne(f, p) == Filling(vs, Counts(0, 1, 0));
    assert [p][1..] == [] && BindAll(f, [p]) == Dml.BindOne(f, p);
    assert vs[1..] == [] && EncStr([0x78]) + [] == EncStr([0x78]);
    assert Plain(Update, vs) == [Str([0x78])] && Operations(Update, vs) == [];
    Requests.RequestFromFrame(bs, i, Code(Update), 0, BodyBytes(Update, slots, Counts(0, 1, 0), EncStr([0x78])));
    BodyReads(Update, slots, Counts(0, 1, 0), vs, bs, i + 14);
  }

  // ----------------------------------------------- the same, by positions

  /** The pair names an operation of the format. */
  predicate NamesOperation(req: ReqType, formats: seq<Format>, p: Pair) {
    exists i :: 0 <= i < |formats| && formats[i].name == p.key && IsOperation(req, formats[i].role)
  }

  predicate DistinctFormats(formats: seq<Format>) {
    forall i, j :: 0 <= i < j < |formats| ==> formats[i].name != formats[j].name
  }

  /** With distinct names an entry is bound exactly if some pair names it. */
  lemma {:induction false} BoundByName(f: Filling, ps: seq<Pair>, e: nat)
    requires Dml.DistinctNames(f.values) && e < |f.values|
    ensures var v := BindAll(f, ps).values[e];
      && v.role == f.values[e].role
      && (v.value.Some? <==> f.values[e].value.Some? || KeyIn(ps, f.values[e].name))
    decreases |ps|
  {
    hide Target, KeyIn;
    if ps == [] {
      NoKey(f.values[e].name);
    } else {
      KeyInTail(ps, f.values[e].name);
      BindStep(f, ps[0], e);
      OwnTarget(f, ps[0]);
      BoundByName(Dml.BindOne(f, ps[0]), ps[1..], e);
    }
  }

  lemma NoKey(key: seq<byte>)
    ensures !KeyIn([], key)
  {
  }

  lemma BindStep(f: Filling, p: Pair, e: nat)
    requires Dml.DistinctNames(f.values) && e < |f.values|
    ensures var v := Dml.BindOne(f, p).values[e];
      && v.name == f.values[e].name && v.role == f.values[e].role
      && (v.value.Some? <==> f.values[e].value.Some? || p.key == f.values[e].name)
  {
    if p.key == f.values[e].name && Open(f.values[e]) {
      OpenTarget(f.values, e, 0);
    }
  }

  lemma {:induction false} OperationBound(req: ReqType, vs: seq<FormatValue>)
    ensures Operations(req, vs) != [] <==>
      exists i :: 0 <= i < |vs| && vs[i].value.Some? && IsOperation(req, vs[i].role)
    decreases |vs|
  {
    if vs != [] {
      OperationBound(req, vs[1..]);
      if i :| 0 <= i < |vs| && vs[i].value.Some? && IsOperation(req, vs[i].role) {
        assert i > 0 ==> vs[1..][i - 1] == vs[i];
      }
      if i :| 0 <= i < |vs[1..]| && vs[1..][i].value.Some? && IsOperation(req, vs[1..][i].role) {
        assert vs[i + 1] == vs[1..][i];
      }
    }
  }

  /** With distinct names some operation is bound exactly if some pair that is left over names one. */
  lemma OperationNamed(c: Conf, req: ReqType, formats: seq<Format>, ps: seq<Pair>)
    requires DistinctFormats(formats)
    ensures Operations(req, Bindings(c, formats, ps).values) != [] <==>
      exists p <- Left(c, ps, |ps|) :: NamesOperation(req, formats, p)
  {
    hide Operations, BindAll, Left, IsOperation;
    var f, left := Filling(Initial(formats), Counts(0, 0, 0)), Left(c, ps, |ps|);
    var vs := BindAll(f, left).values;
    OperationBound(req, vs);
    forall e | 0 <= e < |vs|
      ensures vs[e].role == formats[e].role && (vs[e].value.Some? <==> KeyIn(left, formats[e].name))
    {
      BoundByName(f, left, e);
    }
    if e :| 0 <= e < |vs| && vs[e].value.Some? && IsOperation(req, vs[e].role) {
      var i :| 0 <= i < |left| && left[i].key == formats[e].name;
      assert NamesOperation(req, formats, left[i]);
    }
    if p :| p in left && NamesOperation(req, formats, p) {
      var e :| 0 <= e < |formats| && formats[e].name == p.key && IsOperation(req, formats[e].role);
      assert KeyIn(left, formats[e].name);
    }
  }

  /**
   With distinct names, from the pairs left over alone: the frame is a request
   if and only if no name's first pair is empty and followed by another, and an
   update or upsert names an operation.
   */
  lemma DmlReadsByPosition(c: Conf, req: ReqType, formats: seq<Format>, ps: seq<Pair>, bs: seq<byte>, i: nat)
    requires FormatsOk(req, formats) && DistinctFormats(formats) && Emitted(c, req, formats, ps).Some?
    requires |bs| < TWO_32 && |ps| < TWO_32 && At(bs, i, Frame(Code(req), 0, DmlBody(c, req, formats, ps)))
    ensures Requests.ReadRequest(bs, i).Some? <==>
      && !FirstIsEmpty(Initial(formats), Left(c, ps, |ps|))
      && (HasOperations(req) ==> exists p <- Left(c, ps, |ps|) :: NamesOperation(req, formats, p))
  {
    hide Requests.ReadRequest, Frame, DmlBody, Emitted, Operations, Left, FirstIsEmpty, NamesOperation, FinalSlots;
    hide EmptyBeforeAnother, Bindings, Expected, FormatsOk;
    DmlReads(c, req, formats, ps, bs, i);
    EmptyByPosition(Filling(Initial(formats), Counts(0, 0, 0)), Left(c, ps, |ps|));
    OperationNamed(c, req, formats, ps);
  }

  // ------------------------------------------------- what arrives under a key

  lemma LookupFixed(fs: seq<(byte, nat)>, i: nat, key: byte)
    requires i < |fs| && fs[i].0 == key && forall j :: 0 <= j < i ==> fs[j].0 != key
    ensures Lookup(FixedEntries(fs), Uint(key)) == Some(Uint(fs[i].1))
    decreases |fs|
  {
    assert FixedEntries(fs)[1..] == FixedEntries(fs[1..]);
    if i > 0 {
      LookupFixed(fs[1..], i - 1, key);
    }
  }

  lemma {:induction false} NotFixed(fs: seq<(byte, nat)>, key: byte)
    requires forall j :: 0 <= j < |fs| ==> fs[j].0 != key
    ensures Lookup(FixedEntries(fs), Uint(key)) == None
    decreases |fs|
  {
    if fs != [] {
      assert FixedEntries(fs)[1..] == FixedEntries(fs[1..]);
      NotFixed(fs[1..], key);
    }
  }

  /** Every number of the location arrives under its own key. */
  lemma NumbersSent(req: ReqType, slots: seq<nat>, vs: seq<FormatValue>)
    requires |slots| == SLOTS
    ensures var es := Expected(req, slots, vs);
            && Lookup(es, Uint(0x10)) == Some(Uint(slots[SPACE] % TWO_32))
            && (req == Delete || req == Update || req == Select ==>
              Lookup(es, Uint(0x11)) == Some(Uint(slots[INDEX] % TWO_32)))
            && (req == Select ==> Lookup(es, Uint(0x12)) == Some(Uint(slots[LIMIT] % TWO_32)))
            && (req == Select ==> Lookup(es, Uint(0x13)) == Some(Uint(slots[OFFSET] % TWO_32)))
            && (req == Select ==> Lookup(es, Uint(0x14)) == Some(Uint(slots[ITERATOR] % TWO_32)))
  {
    hide FixedEntries, Lookup, Plain, Operations;
    var fs := FixedFields(req, slots);
    var lists := [ListEntry(ListKey(req), Plain(req, vs))]
              + if Operations(req, vs) == [] then [] else [ListEntry(OperationKey(req), Operations(req, vs))];
    assert Expected(req, slots, vs) == FixedEntries(fs) + lists;
    for i := 0 to |fs|
      invariant forall j :: 0 <= j < i ==> Lookup(Expected(req, slots, vs), Uint(fs[j].0)) == Some(Uint(fs[j].1))
    {
      LookupFixed(fs, i, fs[i].0);
      LookupConcat(FixedEntries(fs), lists, Uint(fs[i].0));
    }
    assert req == Delete || req == Update || req == Select ==> fs[1] == (INDEX_KEY, slots[INDEX] % TWO_32);
    assert req == Select ==> fs[2] == (OFFSET_KEY, slots[OFFSET] % TWO_32);
    assert req == Select ==> fs[3] == (LIMIT_KEY, slots[LIMIT] % TWO_32);
    assert req == Select ==> fs[4] == (ITERATOR_KEY, slots[ITERATOR] % TWO_32);
    assert fs[0] == (SPACE_KEY, slots[SPACE] % TWO_32);
  }

  /** The values arrive under the key of the tuple or the key, the operations under theirs. */
  lemma ListsSent(req: ReqType, slots: seq<nat>, vs: seq<FormatValue>)
    requires |slots| == SLOTS
    ensures var es := Expected(req, slots, vs);
            && Lookup(es, Uint(if req == Insert || req == Replace || req == Upsert then 0x21 else 0x20)) ==
              Some(Array(Plain(req, vs)))
            && (HasOperations(req) && Operations(req, vs) != [] ==>
                 Lookup(es, Uint(if req == Update then 0x21 else 0x28)) == Some(Array(Operations(req, vs))))
  {
    hide FixedEntries, Plain, Operations;
    var fs := FixedFields(req, slots);
    var lists := [ListEntry(ListKey(req), Plain(req, vs))]
              + if Operations(req, vs) == [] then [] else [ListEntry(OperationKey(req), Operations(req, vs))];
    assert Expected(req, slots, vs) == FixedEntries(fs) + lists;
    NotFixed(fs, ListKey(req));
    LookupConcat(FixedEntries(fs), lists, Uint(ListKey(req)));
    NotFixed(fs, OperationKey(req));
    LookupConcat(FixedEntries(fs), lists, Uint(OperationKey(req)));
    LookupConcat(lists[..1], lists[1..], Uint(OperationKey(req)));
    assert lists == lists[..1] + lists[1..];
  }

  /** A limit a client may choose never exceeds the maximum in what is sent. */
  lemma LimitSent(c: Conf, formats: seq<Format>, ps: seq<Pair>)
    requires Answer(c, ps) == Ok && c.limitName.Some?
    ensures var limit := Lookup(Expected(Select, FinalSlots(c, ps), Bindings(c, formats, ps).values), Uint(0x12));
            limit.Some? && limit.value.Uint? && limit.value.n <= c.limitMax
  {
    hide Lookup, Expected, Answer, Final, Bindings;
    Accepted(c, ps);
    NumbersSent(Select, FinalSlots(c, ps), Bindings(c, formats, ps).values);
  }

  lemma {:induction false} CountsAreSmall(f: Filling, ps: seq<Pair>)
    ensures forall role :: BindAll(f, ps).counts.Of(role) <= f.counts.Of(role) + |ps|
    decreases |ps|
  {
    if ps != [] {
      CountsAreSmall(Dml.BindOne(f, ps[0]), ps[1..]);
    }
  }

  lemma {:induction false} LeftIsShort(c: Conf, ps: seq<Pair>, n: nat)
    requires n <= |ps|
    ensures |Left(c, ps, n)| <= n
  {
    hide ToSlot;
    if n > 0 {
      LeftIsShort(c, ps, n - 1);
    }
  }
}

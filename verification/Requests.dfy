/**
 What the frames mean: a reader of Tarantool requests takes the output apart
 into the calls that went in.
 */
module Requests {
  import opened Bytes
  import opened MsgPack
  import opened Json
  import opened TpBuffer
  import opened Machine
  import opened Calls
  import opened Nested
  import opened Batches

  // -------------------------------------- a reading depends on its bytes only

  lemma NumberShift(a: seq<byte>, i: nat, b: seq<byte>, k: nat, w: nat)
    requires w == 1 || w == 2 || w == 4 || w == 8
    requires i + w <= |a| && At(b, k, a[i..i + w])
    ensures Number(b, k, w) == Number(a, i, w)
  {
    assert b[k..k + w] == a[i..i + w];
    if w == 1 {
      assert b[k] == b[k..k + 1][0] && a[i] == a[i..i + 1][0];
    }
  }

  lemma HeadShift(a: seq<byte>, i: nat, b: seq<byte>, k: nat)
    requires i <= |a| && ReadHead(a, i).Some? && At(b, k, a[i..ReadHead(a, i).value.1])
    ensures ReadHead(b, k) == Some((ReadHead(a, i).value.0, k + ReadHead(a, i).value.1 - i))
  {
    hide Number;
    var j := ReadHead(a, i).value.1;
    assert b[k..k + (j - i)][0] == a[i..j][0] == a[i];
    assert b[k] == a[i];
    var w := j - i - 1;
    if w > 0 {
      AtFirst(b, k, a[i..j]);
      assert a[i..j][1..] == a[i + 1..i + 1 + w];
      NumberShift(a, i + 1, b, k + 1, w);
    }
  }

  lemma AtPart(a: seq<byte>, i: nat, j: nat, e: nat, b: seq<byte>, k: nat)
    requires i <= j <= e <= |a| && At(b, k, a[i..e])
    ensures At(b, k, a[i..j]) && At(b, k + (j - i), a[j..e])
  {
    assert a[i..e] == a[i..j] + a[j..e];
    AtSplit(b, k, a[i..j], a[j..e]);
  }

  /** The same bytes elsewhere read as the same value. */
  lemma {:induction false} ReadShift(a: seq<byte>, i: nat, b: seq<byte>, k: nat)
    requires i <= |a| && Read(a, i).Some? && At(b, k, a[i..Read(a, i).value.1])
    ensures Read(b, k) == Some((Read(a, i).value.0, k + Read(a, i).value.1 - i))
    decreases |a| - i, 0, 0
  {
    hide ReadHead;
    var (h, j) := ReadHead(a, i).value;
    var e := Read(a, i).value.1;
    AtPart(a, i, j, e, b, k);
    HeadShift(a, i, b, k);
    match h
    case HArray(n) => ReadItemsShift(a, j, b, k + (j - i), n);
    case HMap(n) => ReadEntriesShift(a, j, b, k + (j - i), n);
    case HStr(len) => assert b[k + (j - i)..k + (e - i)] == a[j..e];
    case HBin(len) => assert b[k + (j - i)..k + (e - i)] == a[j..e];
    case _ =>
  }

  lemma {:induction false} ReadItemsShift(a: seq<byte>, i: nat, b: seq<byte>, k: nat, n: nat)
    requires i <= |a| && ReadItems(a, i, n).Some? && At(b, k, a[i..ReadItems(a, i, n).value.1])
    ensures ReadItems(b, k, n) == Some((ReadItems(a, i, n).value.0, k + ReadItems(a, i, n).value.1 - i))
    decreases |a| - i, 1, n
  {
    hide Read;
    if n > 0 {
      var j, e := Read(a, i).value.1, ReadItems(a, i, n).value.1;
      AtPart(a, i, j, e, b, k);
      ReadShift(a, i, b, k);
      ReadItemsShift(a, j, b, k + (j - i), n - 1);
    }
  }

  lemma {:induction false} ReadEntriesShift(a: seq<byte>, i: nat, b: seq<byte>, k: nat, n: nat)
    requires i <= |a| && ReadEntries(a, i, n).Some? && At(b, k, a[i..ReadEntries(a, i, n).value.1])
    ensures ReadEntries(b, k, n) == Some((ReadEntries(a, i, n).value.0, k + ReadEntries(a, i, n).value.1 - i))
    decreases |a| - i, 1, n
  {
    hide Read;
    if n > 0 {
      var j, e := Read(a, i).value.1, ReadEntries(a, i, n).value.1;
      var j' := Read(a, j).value.1;
      AtPart(a, i, j, e, b, k);
      ReadShift(a, i, b, k);
      AtPart(a, j, j', e, b, k + (j - i));
      ReadShift(a, j, b, k + (j - i));
      ReadEntriesShift(a, j', b, k + (j' - i), n - 1);
    }
  }

  // --------------------------------------------------------- request reader

  datatype Request = Request(code: nat, sync: nat, body: seq<Entry>)

  /** A request at bs[i]: length field, header map, body map, together exactly as long as announced. */
  function ReadRequest(bs: seq<byte>, i: nat): Option<(Request, nat)>
    requires i <= |bs|
  {
    match ReadHead(bs, i)
    case Some((HUint(len), j)) =>
      if bs[i] != 0xce then None
      else
        (match Read(bs, j)
         case Some((Map(header), k)) =>
           if |header| == 2 && header[0].key == Uint(0) && header[0].value.Uint?
              && header[1].key == Uint(1) && header[1].value.Uint?
           then
             match Read(bs, k)
             case Some((Map(body), e)) =>
               if e == j + len then Some((Request(header[0].value.n, header[1].value.n, body), e)) else None
             case _ => None
           else None
         case _ => None)
    case _ => None
  }

  function ReadRequests(bs: seq<byte>, i: nat, n: nat): Option<seq<Request>>
    requires i <= |bs|
    decreases n
  {
    if n == 0 then if i == |bs| then Some([]) else None
    else
      match ReadRequest(bs, i)
      case None => None
      case Some((r, j)) =>
        if j > |bs| then None
        else
          match ReadRequests(bs, j, n - 1)
          case None => None
          case Some(rs) => Some([r] + rs)
  }

  // ----------------------------------------------- what a call should become

  /** The bound data, when there is any, is one MessagePack value: d. */
  predicate DataIs(c: Conf, d: Mp) {
    c.data == [] || Read(c.data, 0) == Some((d, |c.data|))
  }

  function FunctionValue(name: seq<byte>): Entry {
    Entry(Uint(FUNCTION), Str(name))
  }

  /** The tuple: bound data first, then the params. */
  function TupleValue(c: Conf, d: Mp, items: seq<Json>): Entry {
    Entry(Uint(TUPLE), Array((if c.data == [] then [] else [d]) + ToMps(items)))
  }

  function FieldEntries(c: Conf, d: Mp, m: Member): seq<Entry> {
    if IsParams(m) && m.value.JArr? then [TupleValue(c, d, m.value.items)]
    else if IsMethod(c, m) && m.value.JStr? then [FunctionValue(m.value.s)]
    else []
  }

  function FieldsEntries(c: Conf, d: Mp, ms: seq<Member>): seq<Entry> {
    if ms == [] then [] else FieldEntries(c, d, ms[0]) + FieldsEntries(c, d, ms[1..])
  }

  function BodyEntries(c: Conf, d: Mp, call: Call): seq<Entry> {
    (if c.preset == [] then [] else [FunctionValue(c.preset)])
    + FieldsEntries(c, d, call)
    + if HasParams(call) then [] else [TupleValue(c, d, [])]
  }

  function RequestOf(c: Conf, d: Mp, call: Call): Request {
    Request(CALL, CallId(call, 0), BodyEntries(c, d, call))
  }

  // --------------------------------------------------------- reading it back

  /** The entries es stand at bs[i..j]. */
  ghost predicate EntriesAt(bs: seq<byte>, i: nat, es: seq<Entry>, j: nat) {
    i <= |bs| && ReadEntries(bs, i, |es|) == Some((es, j))
  }

  lemma {:induction false} EntriesConcat(bs: seq<byte>, i: nat, a: seq<Entry>, j: nat, b: seq<Entry>, k: nat)
    requires EntriesAt(bs, i, a, j) && EntriesAt(bs, j, b, k)
    ensures EntriesAt(bs, i, a + b, k)
    decreases |a|
  {
    hide Read;
    if a == [] {
      assert a + b == b;
    } else {
      var i1 := Read(bs, Read(bs, i).value.1).value.1;
      EntriesConcat(bs, i1, a[1..], j, b, k);
      assert a == [a[0]] + a[1..] && a + b == [a[0]] + (a[1..] + b);
    }
  }

  lemma EntriesSingle(bs: seq<byte>, i: nat, k: nat, j: nat, e: Entry)
    requires i <= |bs| && k <= |bs| && Read(bs, i) == Some((e.key, k)) && Read(bs, k) == Some((e.value, j))
    ensures EntriesAt(bs, i, [e], j)
  {
    hide Read;
    assert ReadEntries(bs, j, 0) == Some(([], j));
    assert [e] + [] == [e];
  }

  /** Reading more entries ends later. */
  lemma {:induction false} EndsGrow(bs: seq<byte>, i: nat, m: nat, n: nat)
    requires i <= |bs| && m < n && ReadEntries(bs, i, m).Some? && ReadEntries(bs, i, n).Some?
    ensures ReadEntries(bs, i, m).value.1 < ReadEntries(bs, i, n).value.1
    decreases m
  {
    hide Read;
    if m > 0 {
      EndsGrow(bs, Read(bs, Read(bs, i).value.1).value.1, m - 1, n - 1);
    }
  }

  lemma ReadSmallUint(bs: seq<byte>, i: nat, k: byte)
    requires k <= 0x7f && At(bs, i, [k])
    ensures Read(bs, i) == Some((Uint(k), i + 1))
  {
    ReadUint(bs, i, k);
  }

  lemma ReadFunction(bs: seq<byte>, i: nat, name: seq<byte>)
    requires |bs| < TWO_32 && At(bs, i, FunctionEntry(name))
    ensures EntriesAt(bs, i, [FunctionValue(name)], i + |FunctionEntry(name)|)
  {
    hide Read, StrHead;
    AtSplit(bs, i, [FUNCTION], EncStr(name));
    ReadSmallUint(bs, i, FUNCTION);
    ReadStr(bs, i + 1, name);
    EntriesSingle(bs, i, i + 1, i + 1 + |EncStr(name)|, FunctionValue(name));
  }

  lemma ReadBound(c: Conf, d: Mp, bs: seq<byte>, i: nat)
    requires DataIs(c, d) && At(bs, i, c.data)
    ensures ItemsAt(bs, i, if c.data == [] then [] else [d], i + |c.data|)
  {
    hide Read;
    if c.data != [] {
      assert c.data[0..|c.data|] == c.data;
      ReadShift(c.data, 0, bs, i);
      assert ReadItems(bs, i + |c.data|, 0) == Some(([], i + |c.data|));
      assert [d] + [] == [d];
    }
  }

  /** The items vs stand at bs[i..j]. */
  ghost predicate ItemsAt(bs: seq<byte>, i: nat, vs: seq<Mp>, j: nat) {
    i <= |bs| && ReadItems(bs, i, |vs|) == Some((vs, j))
  }

  lemma {:induction false} ItemsConcat(bs: seq<byte>, i: nat, a: seq<Mp>, j: nat, b: seq<Mp>, k: nat)
    requires ItemsAt(bs, i, a, j) && ItemsAt(bs, j, b, k)
    ensures ItemsAt(bs, i, a + b, k)
    decreases |a|
  {
    hide Read;
    if a == [] {
      assert a + b == b;
    } else {
      ItemsConcat(bs, Read(bs, i).value.1, a[1..], j, b, k);
      assert a == [a[0]] + a[1..] && a + b == [a[0]] + (a[1..] + b);
    }
  }

  /** The tuple, however its header is encoded. */
  lemma ReadTuple(c: Conf, d: Mp, bs: seq<byte>, i: nat, head: seq<byte>, items: seq<Json>)
    requires |bs| < TWO_32 && DataIs(c, d)
    requires At(bs, i, [TUPLE] + head + c.data + EncItems(items))
    requires head == WideArrayHead(|items| + Bound(c)) || head == ArrayHead(|items| + Bound(c))
    ensures EntriesAt(bs, i, [TupleValue(c, d, items)], i + 1 + |head| + |c.data| + |EncItems(items)|)
  {
    hide ReadHead, ArrayHead, WideArrayHead, EncItems, ReadItems, ReadEntries, ToMps;
    var n := |items| + Bound(c);
    AtSplit(bs, i, [TUPLE] + head + c.data, EncItems(items));
    AtSplit3(bs, i, [TUPLE], head, c.data);
    ReadSmallUint(bs, i, TUPLE);
    var j := i + 1 + |head|;
    TupleHead(bs, i + 1, head, n);
    ReadBound(c, d, bs, j);
    ReadEncItems(bs, j + |c.data|, items);
    var bound := if c.data == [] then [] else [d];
    ItemsConcat(bs, j, bound, j + |c.data|, ToMps(items), j + |c.data| + |EncItems(items)|);
    EntriesSingle(bs, i, i + 1, j + |c.data| + |EncItems(items)|, TupleValue(c, d, items));
  }

  lemma TupleHead(bs: seq<byte>, i: nat, head: seq<byte>, n: nat)
    requires n < TWO_32 && At(bs, i, head) && (head == WideArrayHead(n) || head == ArrayHead(n))
    ensures ReadHead(bs, i) == Some((HArray(n), i + |head|))
  {
    if head == ArrayHead(n) { ReadArrayHead(bs, i, n); } else { ReadWideHead(bs, i, 0xdd, n); }
  }

  /** What a field writes, by its kind. */
  lemma FieldForms(c: Conf, d: Mp, m: Member)
    requires FieldOk(c, m)
    ensures IsParams(m) ==>
      && m.value.JArr?
      && FieldBytes(c, m)
         == [TUPLE] + WideArrayHead(|m.value.items| + Bound(c)) + c.data + EncItems(m.value.items)
      && FieldEntries(c, d, m) == [TupleValue(c, d, m.value.items)]
    ensures !IsParams(m) && !IsId(m) && IsMethod(c, m) ==>
      && m.value.JStr? && FieldBytes(c, m) == FunctionEntry(m.value.s)
      && FieldEntries(c, d, m) == [FunctionValue(m.value.s)]
    ensures !IsParams(m) && (IsId(m) || !IsMethod(c, m)) ==> FieldBytes(c, m) == [] && FieldEntries(c, d, m) == []
  {
    hide EncItems, FunctionEntry, WideArrayHead, Harmless, Depth, FunctionValue, TupleValue;
  }

  lemma ReadField(c: Conf, d: Mp, bs: seq<byte>, i: nat, m: Member)
    requires |bs| < TWO_32 && DataIs(c, d) && FieldOk(c, m) && At(bs, i, FieldBytes(c, m))
    ensures EntriesAt(bs, i, FieldEntries(c, d, m), i + |FieldBytes(c, m)|)
  {
    hide Read, EncItems, FunctionEntry, WideArrayHead, ReadEntries, FieldOk, FieldBytes, FieldEntries;
    hide FunctionValue, TupleValue, IsId, IsMethod, IsParams;
    FieldForms(c, d, m);
    if IsParams(m) {
      ReadTuple(c, d, bs, i, WideArrayHead(|m.value.items| + Bound(c)), m.value.items);
    } else if !IsId(m) && IsMethod(c, m) {
      ReadFunction(bs, i, m.value.s);
    } else {
      NoEntriesRead(bs, i);
    }
  }

  lemma {:induction false} ReadFields(c: Conf, d: Mp, bs: seq<byte>, i: nat, ms: seq<Member>)
    requires |bs| < TWO_32 && DataIs(c, d) && At(bs, i, FieldsBytes(c, ms))
    requires forall k :: 0 <= k < |ms| ==> FieldOk(c, ms[k])
    ensures EntriesAt(bs, i, FieldsEntries(c, d, ms), i + |FieldsBytes(c, ms)|)
    decreases ms
  {
    hide FieldBytes, FieldEntries, FieldOk, Read;
    if ms != [] {
      var head, tail := FieldBytes(c, ms[0]), FieldsBytes(c, ms[1..]);
      AtSplit(bs, i, head, tail);
      ReadField(c, d, bs, i, ms[0]);
      ReadFields(c, d, bs, i + |head|, ms[1..]);
      EntriesConcat(bs, i, FieldEntries(c, d, ms[0]), i + |head|, FieldsEntries(c, d, ms[1..]), i + |head| + |tail|);
    }
  }

  lemma ReadBody(c: Conf, d: Mp, bs: seq<byte>, i: nat, call: Call)
    requires |bs| < TWO_32 && DataIs(c, d) && CallOk(c, call) && At(bs, i, Body(c, call))
    ensures EntriesAt(bs, i, BodyEntries(c, d, call), i + |Body(c, call)|)
  {
    hide Read, FieldsBytes, FieldsEntries, FunctionEntry, ArrayHead, FieldOk;
    var first, fields := PresetEntry(c), FieldsBytes(c, call);
    var last := if HasParams(call) then [] else [TUPLE] + ArrayHead(Bound(c)) + c.data;
    assert Body(c, call) == first + fields + last;
    AtSplit3(bs, i, first, fields, last);
    if c.preset != [] {
      ReadFunction(bs, i, c.preset);
    }
    var j, k := i + |first|, i + |first| + |fields|;
    ReadFields(c, d, bs, j, call);
    var a := if c.preset == [] then [] else [FunctionValue(c.preset)];
    EntriesConcat(bs, i, a, j, FieldsEntries(c, d, call), k);
    if !HasParams(call) {
      assert last == last + EncItems([]);
      ReadTuple(c, d, bs, k, ArrayHead(Bound(c)), []);
    }
    var z := if HasParams(call) then [] else [TupleValue(c, d, [])];
    EntriesConcat(bs, i, a + FieldsEntries(c, d, call), k, z, k + |last|);
  }

  lemma ReadHeader(bs: seq<byte>, i: nat, code: byte, id: nat)
    requires |bs| < TWO_32 && code <= 0x7f && id < TWO_32 && At(bs, i, Header(code, id))
    ensures Read(bs, i) == Some((Map([Entry(Uint(0), Uint(code)), Entry(Uint(1), Uint(id))]), i + 9))
  {
    hide ReadHead, Read;
    var sync := [0xce] + BE32(id);
    assert Header(code, id) == MapHead(2) + ([0x00] + [code] + [0x01] + sync);
    AtSplit(bs, i, MapHead(2), [0x00] + [code] + [0x01] + sync);
    AtSplit(bs, i + 1, [0x00] + [code] + [0x01], sync);
    AtSplit3(bs, i + 1, [0x00], [code], [0x01]);
    ReadSmallUint(bs, i + 1, 0x00);
    ReadSmallUint(bs, i + 2, code);
    ReadSmallUint(bs, i + 3, 0x01);
    ReadSync(bs, i + 4, id);
    EntriesSingle(bs, i + 1, i + 2, i + 3, Entry(Uint(0), Uint(code)));
    EntriesSingle(bs, i + 3, i + 4, i + 9, Entry(Uint(1), Uint(id)));
    EntriesConcat(bs, i + 1, [Entry(Uint(0), Uint(code))], i + 3, [Entry(Uint(1), Uint(id))], i + 9);
    var es := [Entry(Uint(0), Uint(code)), Entry(Uint(1), Uint(id))];
    assert es == [Entry(Uint(0), Uint(code))] + [Entry(Uint(1), Uint(id))];
    ReadMap(bs, i, 2, i + 1, es, i + 9);
  }

  lemma ReadSync(bs: seq<byte>, i: nat, id: nat)
    requires id < TWO_32 && At(bs, i, [0xce] + BE32(id))
    ensures Read(bs, i) == Some((Uint(id), i + 5))
  {
    hide ReadHead;
    ReadWideHead(bs, i, 0xce, id);
  }

  /** A map header followed by its entries reads as the map. */
  lemma ReadMap(bs: seq<byte>, i: nat, n: nat, j: nat, es: seq<Entry>, k: nat)
    requires n <= 15 && At(bs, i, MapHead(n)) && j == i + 1 && n == |es| && EntriesAt(bs, j, es, k)
    ensures Read(bs, i) == Some((Map(es), k))
  {
    hide ReadHead;
    ReadMapHead(bs, i, n);
  }

  lemma {:induction false} CallIdFits(ms: seq<Member>, before: nat)
    requires before < TWO_32
    ensures CallId(ms, before) < TWO_32
    decreases ms
  {
    if ms != [] {
      CallIdFits(ms[1..], FieldId(ms[0], before));
    }
  }

  /** The map at bs[i..e]. */
  function BodyAt(bs: seq<byte>, i: nat, e: nat): Option<seq<Entry>>
    requires i <= |bs|
  {
    match Read(bs, i)
    case Some((Map(es), k)) => if k == e then Some(es) else None
    case _ => None
  }

  /** A frame is a request exactly when its body is a map that ends where the frame does. */
  lemma RequestFromFrame(bs: seq<byte>, i: nat, code: byte, id: nat, body: seq<byte>)
    requires |bs| < TWO_32 && code <= 0x7f && id < TWO_32 && At(bs, i, Frame(code, id, body))
    ensures i + 14 + |body| <= |bs| && At(bs, i + 14, body)
    ensures var es := BodyAt(bs, i + 14, i + 14 + |body|);
            ReadRequest(bs, i) == if es.Some? then Some((Request(code, id, es.value), i + 14 + |body|)) else None
  {
    hide Header, ReadHead, Read;
    AtSplit3(bs, i, LengthField(9 + |body|), Header(code, id), body);
    AtFirst(bs, i, LengthField(9 + |body|));
    ReadWideHead(bs, i, 0xce, 9 + |body|);
    ReadHeader(bs, i + 5, code, id);
  }

  /** A map header announcing m entries, with the entries es behind it, is a map up to their end when m is right. */
  lemma Announced(bs: seq<byte>, i: nat, m: nat, es: seq<Entry>, k: nat)
    requires m <= 15 && At(bs, i, MapHead(m)) && EntriesAt(bs, i + 1, es, k)
    ensures BodyAt(bs, i, k) == if |es| == m then Some(es) else None
  {
    hide ReadHead;
    ReadMapHead(bs, i, m);
    if |es| != m && Read(bs, i).Some? {
      if |es| < m { EndsGrow(bs, i + 1, |es|, m); } else { EndsGrow(bs, i + 1, m, |es|); }
    }
  }

  /**
   The frame of a call is a request of its function, its tuple and its id
   exactly when two body entries were written, as the body map announces.
   */
  lemma FrameReads(c: Conf, d: Mp, call: Call, bs: seq<byte>, i: nat)
    requires |bs| < TWO_32 && DataIs(c, d) && CallOk(c, call) && At(bs, i, FrameOf(c, call))
    ensures ReadRequest(bs, i) ==
      if |BodyEntries(c, d, call)| == 2 then Some((RequestOf(c, d, call), i + |FrameOf(c, call)|)) else None
  {
    hide Body, BodyEntries, Frame, ReadRequest, CallOk, CallId, BodyAt, ReadEntries;
    var body := Body(c, call);
    CallIdFits(call, 0);
    RequestFromFrame(bs, i, CALL, CallId(call, 0), [0x82] + body);
    AtSplit(bs, i + 14, [0x82], body);
    ReadBody(c, d, bs, i + 15, call);
    assert [0x82] == MapHead(2);
    Announced(bs, i + 14, 2, BodyEntries(c, d, call), i + 15 + |body|);
  }

  function Methods(c: Conf, ms: seq<Member>): nat {
    if ms == [] then 0 else (if !IsParams(ms[0]) && IsMethod(c, ms[0]) then 1 else 0) + Methods(c, ms[1..])
  }

  function ParamsFields(ms: seq<Member>): nat {
    if ms == [] then 0 else (if IsParams(ms[0]) then 1 else 0) + ParamsFields(ms[1..])
  }

  lemma {:induction false} CountFieldEntries(c: Conf, d: Mp, ms: seq<Member>)
    requires forall i :: 0 <= i < |ms| ==> FieldOk(c, ms[i])
    ensures |FieldsEntries(c, d, ms)| == Methods(c, ms) + ParamsFields(ms)
    ensures HasParams(ms) <==> ParamsFields(ms) > 0
  {
    if ms == [] {
      NoFields();
    } else {
      SplitFields(ms);
      CountFieldEntries(c, d, ms[1..]);
    }
  }

  /** How many body entries a call gives, from its field names alone. */
  lemma CountEntries(c: Conf, d: Mp, call: Call)
    requires CallOk(c, call)
    ensures |BodyEntries(c, d, call)|
         == (if c.preset == [] then 0 else 1) + Methods(c, call) + Max(1, ParamsFields(call))
  {
    hide FieldsEntries, FieldOk;
    CountFieldEntries(c, d, call);
  }

  /** A method, set in advance or named once in the call, and at most one params field. */
  predicate Complete(c: Conf, call: Call) {
    && (if c.preset == [] then Methods(c, call) == 1 else true)
    && ParamsFields(call) <= 1
  }

  /** How many entries have this key. */
  function KeyCount(es: seq<Entry>, key: byte): nat {
    if es == [] then 0 else (if es[0].key == Uint(key) then 1 else 0) + KeyCount(es[1..], key)
  }

  lemma {:induction false} KeyCountConcat(a: seq<Entry>, b: seq<Entry>, key: byte)
    ensures KeyCount(a + b, key) == KeyCount(a, key) + KeyCount(b, key)
    decreases |a|
  {
    if a == [] {
      assert a + b == b;
    } else {
      assert (a + b)[0] == a[0] && (a + b)[1..] == a[1..] + b;
      KeyCountConcat(a[1..], b, key);
    }
  }

  lemma OneKey(e: Entry, key: byte)
    ensures KeyCount([e], key) == if e.key == Uint(key) then 1 else 0
  {
    assert [e][1..] == [];
  }

  lemma {:induction false} FieldKeys(c: Conf, d: Mp, ms: seq<Member>)
    requires forall i :: 0 <= i < |ms| ==> FieldOk(c, ms[i])
    ensures KeyCount(FieldsEntries(c, d, ms), FUNCTION) == Methods(c, ms)
    ensures KeyCount(FieldsEntries(c, d, ms), TUPLE) == ParamsFields(ms)
    decreases |ms|
  {
    hide KeyCount;
    if ms == [] {
      assert KeyCount([], FUNCTION) == KeyCount([], TUPLE) == 0 by { NoKeys(); }
    } else {
      FieldKeys(c, d, ms[1..]);
      var head := FieldEntries(c, d, ms[0]);
      assert FieldOk(c, ms[0]);
      NoKeys();
      if head != [] {
        OneKey(head[0], FUNCTION);
        OneKey(head[0], TUPLE);
        assert head == [head[0]];
      }
      KeyCountConcat(head, FieldsEntries(c, d, ms[1..]), FUNCTION);
      KeyCountConcat(head, FieldsEntries(c, d, ms[1..]), TUPLE);
    }
  }

  lemma NoKeys()
    ensures forall key :: KeyCount([], key) == 0
  {
  }

  /** How many functions and how many tuples a call writes. */
  lemma BodyKeys(c: Conf, d: Mp, call: Call)
    requires CallOk(c, call)
    ensures KeyCount(BodyEntries(c, d, call), FUNCTION) == (if c.preset == [] then 0 else 1) + Methods(c, call)
    ensures KeyCount(BodyEntries(c, d, call), TUPLE) == Max(1, ParamsFields(call))
  {
    hide FieldsEntries, FieldOk, KeyCount, HasParams;
    var a := if c.preset == [] then [] else [FunctionValue(c.preset)];
    var b := FieldsEntries(c, d, call);
    var z := if HasParams(call) then [] else [TupleValue(c, d, [])];
    FieldKeys(c, d, call);
    CountFieldEntries(c, d, call);
    NoKeys();
    forall key
      ensures KeyCount(a + b + z, key) == KeyCount(a, key) + KeyCount(b, key) + KeyCount(z, key)
    {
      KeyCountConcat(a + b, z, key);
      KeyCountConcat(a, b, key);
    }
    OneKey(FunctionValue(c.preset), FUNCTION);
    OneKey(FunctionValue(c.preset), TUPLE);
    OneKey(TupleValue(c, d, []), FUNCTION);
    OneKey(TupleValue(c, d, []), TUPLE);
  }

  /** A request that calls one function with one tuple. */
  predicate IsCall(r: Request) {
    r.code == CALL && |r.body| == 2 && KeyCount(r.body, FUNCTION) == 1 && KeyCount(r.body, TUPLE) == 1
  }

  /** The frame of a call object is the call it stands for if and only if the call object is complete. */
  lemma FrameIsCall(c: Conf, d: Mp, call: Call, bs: seq<byte>, i: nat)
    requires |bs| < TWO_32 && DataIs(c, d) && CallOk(c, call) && At(bs, i, FrameOf(c, call))
    ensures ReadRequest(bs, i).Some? && IsCall(ReadRequest(bs, i).value.0) <==> Complete(c, call)
    ensures Complete(c, call) ==> ReadRequest(bs, i) == Some((RequestOf(c, d, call), i + |FrameOf(c, call)|))
  {
    hide ReadRequest, FrameOf, CallOk, BodyEntries, KeyCount;
    FrameReads(c, d, call, bs, i);
    CountEntries(c, d, call);
    BodyKeys(c, d, call);
    PresetTakesNoMethod(c, call);
  }

  /** {"params":[],"params":[]}: two entries, so the frame is a request, but it has two tuples and no function. */
  lemma TwoTuples(bs: seq<byte>, i: nat)
    requires |bs| < TWO_32
    requires var m := Member(KEY_PARAMS, JArr([]));
             At(bs, i, FrameOf(Conf([], []), [m, m]))
    ensures var c, m := Conf([], []), Member(KEY_PARAMS, JArr([]));
            && CallOk(c, [m, m]) && !Complete(c, [m, m])
            && ReadRequest(bs, i).Some?
            && ReadRequest(bs, i).value.0.body == [TupleValue(c, Nil, []), TupleValue(c, Nil, [])]
  {
    hide ReadRequest, FrameOf;
    var c, m := Conf([], []), Member(KEY_PARAMS, JArr([]));
    var call := [m, m];
    assert call[1..] == [m] && [m][1..] == [];
    assert ParamsFields([m]) == 1 && ParamsFields(call) == 2;
    assert Methods(c, [m]) == 0 && Methods(c, call) == 0;
    assert IsParams(call[0]);
    FrameReads(c, Nil, call, bs, i);
    CountEntries(c, Nil, call);
    var t := TupleValue(c, Nil, []);
    assert FieldsEntries(c, Nil, [m]) == [t] + FieldsEntries(c, Nil, []);
    assert FieldsEntries(c, Nil, call) == [t] + FieldsEntries(c, Nil, [m]);
    assert BodyEntries(c, Nil, call) == [t, t];
  }

  // ------------------------------------------------------------ whole output

  function RequestsOf(c: Conf, d: Mp, calls: seq<Call>): seq<Request> {
    if calls == [] then [] else [RequestOf(c, d, calls[0])] + RequestsOf(c, d, calls[1..])
  }

  lemma {:induction false} StreamReads(c: Conf, d: Mp, calls: seq<Call>, bs: seq<byte>, i: nat)
    requires |bs| < TWO_32 && DataIs(c, d) && CallsOk(c, calls)
    requires forall k :: 0 <= k < |calls| ==> Complete(c, calls[k])
    requires i + |Stream(c, calls)| == |bs| && At(bs, i, Stream(c, calls))
    ensures ReadRequests(bs, i, |calls|) == Some(RequestsOf(c, d, calls))
    decreases calls
  {
    hide FrameOf, RequestOf, ReadRequest, CallOk;
    if calls != [] {
      AtSplit(bs, i, FrameOf(c, calls[0]), Stream(c, calls[1..]));
      FrameIsCall(c, d, calls[0], bs, i);
      StreamReads(c, d, calls[1..], bs, i + |FrameOf(c, calls[0])|);
    }
  }

  lemma {:induction false} PresetTakesNoMethod(c: Conf, ms: seq<Member>)
    ensures c.preset != [] ==> Methods(c, ms) == 0
    decreases ms
  {
    if ms != [] {
      PresetTakesNoMethod(c, ms[1..]);
    }
  }

  /** Fewer bytes than a value is: the entry under way cannot be read. */
  lemma CutEntry(bs: seq<byte>, i: nat, key: byte, n: nat)
    requires key <= 0x7f && At(bs, i, [key]) && i + 1 == |bs| && n > 0
    ensures ReadEntries(bs, i, n) == None
  {
    hide ReadHead;
    ReadSmallUint(bs, i, key);
  }

  /** Entries read one after the other: no value for the last one. */
  lemma {:induction false} EntriesStop(bs: seq<byte>, i: nat, a: seq<Entry>, j: nat, n: nat)
    requires EntriesAt(bs, i, a, j) && j <= |bs| && ReadEntries(bs, j, n) == None
    ensures ReadEntries(bs, i, |a| + n) == None
    decreases |a|
  {
    hide Read;
    if a != [] {
      EntriesStop(bs, Read(bs, Read(bs, i).value.1).value.1, a[1..], j, n);
    }
  }

  /** The frame without the header of its empty tuple, at the end of the output, is no request. */
  lemma TruncatedReads(c: Conf, d: Mp, call: Call, bs: seq<byte>, i: nat)
    requires |bs| < TWO_32 && DataIs(c, d) && CallOk(c, call)
    requires At(bs, i, TruncatedFrame(c, call)) && i + |TruncatedFrame(c, call)| == |bs|
    ensures ReadRequest(bs, i) == None
  {
    hide FieldsBytes, FieldsEntries, Frame, ReadRequest, BodyAt, CallId, ReadEntries, FunctionEntry, FieldOk;
    var first, fields := PresetEntry(c), FieldsBytes(c, call);
    var body := [0x82] + (first + fields + [TUPLE]);
    CallIdFits(call, 0);
    RequestFromFrame(bs, i, CALL, CallId(call, 0), body);
    AtSplit(bs, i + 14, [0x82], first + fields + [TUPLE]);
    AtSplit3(bs, i + 15, first, fields, [TUPLE]);
    if c.preset != [] {
      ReadFunction(bs, i + 15, c.preset);
    } else {
      assert ReadEntries(bs, i + 15, 0) == Some(([], i + 15)) by { NoEntriesRead(bs, i + 15); }
    }
    var a := if c.preset == [] then [] else [FunctionValue(c.preset)];
    var j, k := i + 15 + |first|, i + 15 + |first| + |fields|;
    ReadFields(c, d, bs, j, call);
    EntriesConcat(bs, i + 15, a, j, FieldsEntries(c, d, call), k);
    CutMap(bs, i + 14, a + FieldsEntries(c, d, call), k);
  }

  lemma NoEntriesRead(bs: seq<byte>, i: nat)
    requires i <= |bs|
    ensures ReadEntries(bs, i, 0) == Some(([], i))
  {
  }

  lemma CutMap(bs: seq<byte>, i: nat, es: seq<Entry>, k: nat)
    requires At(bs, i, [0x82]) && EntriesAt(bs, i + 1, es, k) && At(bs, k, [TUPLE]) && k + 1 == |bs|
    ensures i <= |bs| && BodyAt(bs, i, |bs|) == None
  {
    hide ReadHead;
    assert [0x82] == MapHead(2);
    ReadMapHead(bs, i, 2);
    if |es| < 2 {
      CutEntry(bs, k, TUPLE, 2 - |es|);
      EntriesStop(bs, i + 1, es, k, 2 - |es|);
    } else if |es| > 2 && ReadEntries(bs, i + 1, 2).Some? {
      EndsGrow(bs, i + 1, 2, |es|);
    }
  }

  lemma {:induction false} TruncatedStreamReads(c: Conf, d: Mp, calls: seq<Call>, bs: seq<byte>, i: nat)
    requires |bs| < TWO_32 && DataIs(c, d) && CallsOk(c, calls) && calls != []
    requires forall k :: 0 <= k < |calls| ==> Complete(c, calls[k])
    requires i + |TruncatedStream(c, calls)| == |bs| && At(bs, i, TruncatedStream(c, calls))
    ensures ReadRequests(bs, i, |calls|) == None
    decreases calls
  {
    hide FrameOf, TruncatedFrame, RequestOf, ReadRequest, CallOk, Complete;
    if |calls| == 1 {
      TruncatedReads(c, d, calls[0], bs, i);
    } else {
      AtSplit(bs, i, FrameOf(c, calls[0]), TruncatedStream(c, calls[1..]));
      FrameIsCall(c, d, calls[0], bs, i);
      TruncatedStreamReads(c, d, calls[1..], bs, i + |FrameOf(c, calls[0])|);
    }
  }

  /**
   End to end, for a buffer of any size: what an accepted document leaves in it
   reads back as its calls, in order, exactly when all of them fit; the frame
   accepted without its last byte is no request.
   */
  lemma OutputMeansCalls(c: Conf, d: Mp, mem: seq<byte>, doc: Document)
    requires CallsOk(c, doc.Calls()) && |mem| < TWO_32 && DataIs(c, d)
    requires forall k :: 0 <= k < |doc.Calls()| ==> Complete(c, doc.Calls()[k])
    ensures var o := Run(c, Init(mem), DocumentEvents(doc));
            o.Ok? ==>
              && o.state.tp.p <= |o.state.tp.mem|
              && ReadRequests(o.state.tp.mem[..o.state.tp.p], 0, |doc.Calls()|)
                 == if |Stream(c, doc.Calls())| <= |mem| then Some(RequestsOf(c, d, doc.Calls())) else None
  {
    hide Run, Stream, TruncatedStream, ReadRequests, CallOk, Complete, IdsOk;
    Transcode(c, mem, doc);
    var o := Run(c, Init(mem), DocumentEvents(doc));
    if o.Ok? {
      var bs := Output(c, |mem|, doc);
      assert o.state.tp.mem[..o.state.tp.p] == bs;
      assert bs[0..|bs|] == bs;
      NoCalls(c);
      if |Stream(c, doc.Calls())| <= |mem| {
        StreamReads(c, d, doc.Calls(), bs, 0);
      } else {
        TruncatedStreamReads(c, d, doc.Calls(), bs, 0);
      }
    }
  }

  // -------------------------------------------------------- order of fields

  lemma {:induction false} FieldsEntriesConcat(c: Conf, d: Mp, a: seq<Member>, b: seq<Member>)
    ensures FieldsEntries(c, d, a + b) == FieldsEntries(c, d, a) + FieldsEntries(c, d, b)
  {
    if a == [] {
      assert a + b == b;
    } else {
      assert (a + b)[0] == a[0] && (a + b)[1..] == a[1..] + b;
      FieldsEntriesConcat(c, d, a[1..], b);
    }
  }

  lemma RemoveFirst<T>(a: seq<T>, b: seq<T>, i: nat)
    requires a != [] && i < |b| && b[i] == a[0] && multiset(a) == multiset(b)
    ensures multiset(a[1..]) == multiset(b[..i] + b[i + 1..])
  {
    var x, y := b[..i], b[i + 1..];
    assert multiset(a[1..]) == multiset(a) - multiset{a[0]} by {
      assert a == [a[0]] + a[1..];
    }
    assert multiset(x + y) == multiset(b) - multiset{b[i]} by {
      assert b == x + [b[i]] + y;
      assert multiset(x + y) == multiset(x) + multiset(y);
    }
  }

  /** Taking the field at i out takes its entries out. */
  lemma FieldAmong(c: Conf, d: Mp, ms: seq<Member>, i: nat)
    requires i < |ms|
    ensures multiset(FieldsEntries(c, d, ms))
         == multiset(FieldEntries(c, d, ms[i])) + multiset(FieldsEntries(c, d, ms[..i] + ms[i + 1..]))
  {
    var x, y := ms[..i], ms[i + 1..];
    assert FieldsEntries(c, d, [ms[i]]) == FieldEntries(c, d, ms[i]) by {
      assert [ms[i]][1..] == [];
    }
    hide FieldsEntries, FieldEntries;
    assert ms == x + [ms[i]] + y;
    FieldsEntriesConcat(c, d, x + [ms[i]], y);
    FieldsEntriesConcat(c, d, x, [ms[i]]);
    FieldsEntriesConcat(c, d, x, y);
  }

  /** Fields in another order give the same entries, possibly in another order. */
  lemma {:induction false} EntriesPermute(c: Conf, d: Mp, a: seq<Member>, b: seq<Member>)
    requires multiset(a) == multiset(b)
    ensures multiset(FieldsEntries(c, d, a)) == multiset(FieldsEntries(c, d, b))
    decreases |a|
  {
    if a == [] {
      assert |b| == |multiset(b)| == 0;
    } else {
      hide FieldsEntries, FieldEntries;
      assert a[0] in multiset(b);
      var i :| 0 <= i < |b| && b[i] == a[0];
      RemoveFirst(a, b, i);
      EntriesPermute(c, d, a[1..], b[..i] + b[i + 1..]);
      FieldAmong(c, d, a, 0);
      FieldAmong(c, d, b, i);
      assert a[..0] + a[1..] == a[1..];
    }
  }

  /** All id fields of the call agree (a call with one id, or none, is such a call). */
  predicate OneId(ms: seq<Member>) {
    forall i, j :: 0 <= i < |ms| && 0 <= j < |ms| && IsId(ms[i]) && IsId(ms[j]) ==> ms[i] == ms[j]
  }

  lemma {:induction false} CallIdIs(ms: seq<Member>, before: nat, m: Member)
    requires IsId(m) && m.value.JInt?
    requires forall i :: 0 <= i < |ms| && IsId(ms[i]) ==> ms[i] == m
    ensures CallId(ms, before) == if m in ms then m.value.i % TWO_32 else before
    decreases ms
  {
    if ms != [] {
      assert forall i :: 0 <= i < |ms| - 1 ==> ms[1..][i] == ms[i + 1];
      assert m in ms <==> m == ms[0] || m in ms[1..];
      CallIdIs(ms[1..], FieldId(ms[0], before), m);
    }
  }

  lemma {:induction false} NoId(ms: seq<Member>, before: nat)
    requires forall i :: 0 <= i < |ms| ==> !IsId(ms[i])
    ensures CallId(ms, before) == before
    decreases ms
  {
    if ms != [] {
      NoId(ms[1..], before);
    }
  }

  lemma SameId(c: Conf, a: Call, b: Call)
    requires multiset(a) == multiset(b) && OneId(a) && CallOk(c, a)
    ensures CallId(a, 0) == CallId(b, 0)
  {
    hide CallId;
    assert forall m :: m in a <==> m in multiset(a);
    assert forall m :: m in b <==> m in multiset(b);
    if i :| 0 <= i < |a| && IsId(a[i]) {
      assert FieldOk(c, a[i]);
      assert forall k :: 0 <= k < |b| && IsId(b[k]) ==> b[k] in a;
      CallIdIs(a, 0, a[i]);
      CallIdIs(b, 0, a[i]);
    } else {
      assert forall k :: 0 <= k < |b| ==> b[k] in a;
      NoId(a, 0);
      NoId(b, 0);
    }
  }

  /** The order of id, method and params changes only the order of the body entries. */
  lemma FieldOrder(c: Conf, d: Mp, a: Call, b: Call)
    requires multiset(a) == multiset(b) && OneId(a) && CallOk(c, a)
    ensures RequestOf(c, d, a).sync == RequestOf(c, d, b).sync
    ensures multiset(RequestOf(c, d, a).body) == multiset(RequestOf(c, d, b).body)
  {
    hide CallId, FieldsEntries, CallOk, FunctionValue, TupleValue;
    SameId(c, a, b);
    EntriesPermute(c, d, a, b);
    assert HasParams(a) <==> HasParams(b) by {
      assert forall m :: m in a <==> m in multiset(a);
      assert forall m :: m in b <==> m in multiset(b);
      assert HasParams(a) <==> exists m :: m in a && IsParams(m);
      assert HasParams(b) <==> exists m :: m in b && IsParams(m);
    }
  }
}

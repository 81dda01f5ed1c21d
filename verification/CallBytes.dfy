/**
 The transcoder in bytes: names of fields and codes of the protocol are written
 out here, and not taken from the model.
 */
module CallBytes {
  import opened Bytes
  import opened MsgPack
  import opened Json
  import opened TpBuffer
  import opened Machine
  import opened Nested
  import opened Calls
  import opened Batches
  import opened Requests

  /**
   These bytes are one request: the length of what follows, the header {0: 10
   (call), 1: sync}, and a body of two entries, the function under 0x22 and the
   tuple under 0x21.
   */
  predicate OneCall(bs: seq<byte>, name: seq<byte>, tuple: seq<Mp>, sync: nat) {
    && |bs| >= 14
    && Read(bs, 0) == Some((Uint(|bs| - 5), 5))
    && Read(bs, 5) == Some((Map([Entry(Uint(0), Uint(10)), Entry(Uint(1), Uint(sync))]), 14))
    && Read(bs, 14).Some?
    && var (body, end) := Read(bs, 14).value;
    && end == |bs|
    && body.Map? && |body.entries| == 2
    && Lookup(body.entries, Uint(0x22)) == Some(Str(name))
    && Lookup(body.entries, Uint(0x21)) == Some(Array(tuple))
  }

  /** {"method":name}, {"params":items} and {"id":n}, each as a field. */
  function MethodField(name: seq<byte>): Member {
    Member([0x6d, 0x65, 0x74, 0x68, 0x6f, 0x64], JStr(name))
  }

  function ParamsField(items: seq<Json>): Member {
    Member([0x70, 0x61, 0x72, 0x61, 0x6d, 0x73], JArr(items))
  }

  function IdField(n: int64): Member {
    Member([0x69, 0x64], JInt(n))
  }

  /** The three fields in one of their six orders. */
  predicate SomeOrder(call: Call, a: Member, b: Member, c: Member) {
    || call == [a, b, c] || call == [a, c, b] || call == [b, a, c]
    || call == [b, c, a] || call == [c, a, b] || call == [c, b, a]
  }

  lemma ThreeFields(c: Conf, d: Mp, x: Member, y: Member, z: Member)
    ensures FieldsBytes(c, [x, y, z]) == FieldBytes(c, x) + FieldBytes(c, y) + FieldBytes(c, z)
    ensures FieldsEntries(c, d, [x, y, z]) == FieldEntries(c, d, x) + FieldEntries(c, d, y) + FieldEntries(c, d, z)
    ensures CallId([x, y, z], 0) == FieldId(z, FieldId(y, FieldId(x, 0)))
  {
    hide FieldBytes, FieldEntries;
    assert [x, y, z][1..] == [y, z] && [y, z][1..] == [z] && [z][1..] == [];
    assert FieldsBytes(c, []) == [] && FieldsEntries(c, d, []) == [];
    assert FieldsBytes(c, [z]) == FieldBytes(c, z) && FieldsEntries(c, d, [z]) == FieldEntries(c, d, z);
    assert FieldsBytes(c, [y, z]) == FieldBytes(c, y) + FieldBytes(c, z);
    assert FieldsEntries(c, d, [y, z]) == FieldEntries(c, d, y) + FieldEntries(c, d, z);
    assert CallId([z], FieldId(y, FieldId(x, 0))) == FieldId(z, FieldId(y, FieldId(x, 0)));
    assert CallId([y, z], FieldId(x, 0)) == CallId([z], FieldId(y, FieldId(x, 0)));
  }

  /** The name that is called: the preset one if there is one. */
  function Name(preset: seq<byte>, name: seq<byte>): seq<byte> {
    if preset == [] then name else preset
  }

  /** The bound data if there is any, then the params. */
  function Arguments(data: seq<byte>, d: Mp, items: seq<Json>): seq<Mp> {
    (if data == [] then [] else [d]) + ToMps(items)
  }

  /** How long the frame of such a call is. */
  function FrameLength(preset: seq<byte>, data: seq<byte>, name: seq<byte>, items: seq<Json>): nat {
    15 + (1 + |EncStr(Name(preset, name))|) + (1 + 5 + |data| + |EncItems(items)|)
  }

  /** The bytes of the three names are the names the model looks for. */
  lemma FieldNames(c: Conf, d: Mp, name: seq<byte>, items: seq<Json>, n: int64)
    requires 1 + Depth(JArr(items)) <= 240
    ensures var f, p, i := MethodField(name), ParamsField(items), IdField(n);
      && FieldOk(c, f) && FieldOk(c, p) && FieldOk(c, i)
      && IsParams(p) && !IsParams(f) && !IsParams(i)
      && !BadId(f) && !BadId(p) && (BadId(i) <==> n > 0xffff_ffff)
      && FieldBytes(c, f) == (if c.preset == [] then FunctionEntry(name) else [])
      && FieldBytes(c, p) == [TUPLE] + Tuple(c, items) && FieldBytes(c, i) == []
      && FieldEntries(c, d, f) == (if c.preset == [] then [FunctionValue(name)] else [])
      && FieldEntries(c, d, p) == [TupleValue(c, d, items)] && FieldEntries(c, d, i) == []
      && forall before :: FieldId(f, before) == before && FieldId(p, before) == before
                          && FieldId(i, before) == n % TWO_32
  {
    hide FunctionEntry, Tuple, TupleValue, ItemsDepth;
    var f, p, i := MethodField(name), ParamsField(items), IdField(n);
    assert f.key != p.key && f.key != i.key && p.key != i.key;
    assert Scan(c, WAIT_NEXT, JStr(name)) == Scanned(WAIT_NEXT, []);
  }

  lemma ThreeOk(c: Conf, x: Member, y: Member, z: Member)
    ensures CallOk(c, [x, y, z]) <==> FieldOk(c, x) && FieldOk(c, y) && FieldOk(c, z)
    ensures HasParams([x, y, z]) <==> IsParams(x) || IsParams(y) || IsParams(z)
    ensures IdsOk([x, y, z]) <==> !BadId(x) && !BadId(y) && !BadId(z)
  {
    hide FieldOk, IsParams, BadId;
    var call := [x, y, z];
    assert call[0] == x && call[1] == y && call[2] == z;
  }

  /** The facts about a call that do not depend on the order of its fields. */
  ghost predicate Orderless(c: Conf, d: Mp, call: Call, name: seq<byte>, items: seq<Json>, n: int64) {
    && CallOk(c, call) && HasParams(call)
    && (IdsOk(call) <==> n <= 0xffff_ffff)
    && CallId(call, 0) == n % TWO_32
    && |FieldsBytes(c, call)| == |FieldBytes(c, MethodField(name))| + |FieldBytes(c, ParamsField(items))|
    && (FieldsEntries(c, d, call) == FieldEntries(c, d, MethodField(name)) + [TupleValue(c, d, items)]
        || FieldsEntries(c, d, call) == [TupleValue(c, d, items)] + FieldEntries(c, d, MethodField(name)))
  }

  /** Three fields of which one writes nothing: a and b, in this order. */
  lemma TwoWrite(c: Conf, d: Mp, x: Member, y: Member, z: Member, a: Member, b: Member, id: Member)
    requires [x, y, z] == [a, b, id] || [x, y, z] == [a, id, b] || [x, y, z] == [id, a, b]
    requires FieldBytes(c, id) == [] && FieldEntries(c, d, id) == []
    requires forall before :: FieldId(a, before) == before && FieldId(b, before) == before
                              && FieldId(id, before) == FieldId(id, 0)
    ensures FieldsBytes(c, [x, y, z]) == FieldBytes(c, a) + FieldBytes(c, b)
    ensures FieldsEntries(c, d, [x, y, z]) == FieldEntries(c, d, a) + FieldEntries(c, d, b)
    ensures CallId([x, y, z], 0) == FieldId(id, 0)
    ensures CallOk(c, [x, y, z]) <==> FieldOk(c, a) && FieldOk(c, b) && FieldOk(c, id)
    ensures HasParams([x, y, z]) <==> IsParams(a) || IsParams(b) || IsParams(id)
    ensures IdsOk([x, y, z]) <==> !BadId(a) && !BadId(b) && !BadId(id)
  {
    hide FieldBytes, FieldEntries, FieldOk, BadId, FieldId, IsParams, FieldsBytes, FieldsEntries;
    hide CallOk, IdsOk, HasParams, CallId;
    ThreeFields(c, d, x, y, z);
    ThreeOk(c, x, y, z);
    DropEmpty(FieldEntries(c, d, a), FieldEntries(c, d, b));
    DropEmpty(FieldBytes(c, a), FieldBytes(c, b));
    assert [x, y, z][0] == x && [x, y, z][1] == y && [x, y, z][2] == z;
  }

  lemma OneOrder(c: Conf, d: Mp, x: Member, y: Member, z: Member, name: seq<byte>, items: seq<Json>, n: int64)
    requires SomeOrder([x, y, z], MethodField(name), ParamsField(items), IdField(n))
    requires 1 + Depth(JArr(items)) <= 240
    ensures Orderless(c, d, [x, y, z], name, items, n)
  {
    hide FieldBytes, FieldEntries, FieldOk, BadId, FieldId, IsParams, TupleValue, Depth, FieldsBytes, FieldsEntries;
    hide MethodField, ParamsField, IdField, CallOk, IdsOk, HasParams, CallId;
    var f, p, i := MethodField(name), ParamsField(items), IdField(n);
    FieldNames(c, d, name, items, n);
    if [x, y, z] == [f, p, i] || [x, y, z] == [f, i, p] || [x, y, z] == [i, f, p] {
      TwoWrite(c, d, x, y, z, f, p, i);
    } else {
      TwoWrite(c, d, x, y, z, p, f, i);
    }
  }

  lemma DropEmpty<T>(a: seq<T>, b: seq<T>)
    ensures [] + a + b == a + b && a + [] + b == a + b && a + b + [] == a + b
  {
  }

  lemma InAnyOrder(c: Conf, d: Mp, call: Call, name: seq<byte>, items: seq<Json>, n: int64)
    requires SomeOrder(call, MethodField(name), ParamsField(items), IdField(n))
    requires 1 + Depth(JArr(items)) <= 240
    ensures Orderless(c, d, call, name, items, n)
  {
    hide Orderless, MethodField, ParamsField, IdField, Depth;
    assert call == [call[0], call[1], call[2]];
    OneOrder(c, d, call[0], call[1], call[2], name, items, n);
  }

  lemma TwoEntries(a: Entry, b: Entry)
    requires a.key != b.key
    ensures Lookup([a, b], a.key) == Some(a.value) && Lookup([a, b], b.key) == Some(b.value)
  {
    assert [a, b][1..] == [b];
  }

  /** What such a call is, whatever the order of its fields. */
  lemma CallParts(preset: seq<byte>, data: seq<byte>, d: Mp, name: seq<byte>, items: seq<Json>, n: int64, call: Call)
    requires SomeOrder(call, MethodField(name), ParamsField(items), IdField(n))
    requires 1 + Depth(JArr(items)) <= 240
    ensures var c := Conf(preset, data);
      && Orderless(c, d, call, name, items, n)
      && |FrameOf(c, call)| == FrameLength(preset, data, name, items)
      && |BodyEntries(c, d, call)| == 2
      && Lookup(BodyEntries(c, d, call), Uint(0x22)) == Some(Str(Name(preset, name)))
      && Lookup(BodyEntries(c, d, call), Uint(0x21)) == Some(Array(Arguments(data, d, items)))
  {
    hide EncItems, ToMps, FieldsBytes, FieldsEntries, CallId, Depth, WideArrayHead, MethodField, ParamsField, IdField;
    hide CallOk, IdsOk, HasParams, FieldBytes, FieldEntries, EncStr;
    var c := Conf(preset, data);
    InAnyOrder(c, d, call, name, items, n);
    FieldNames(c, d, name, items, n);
    FrameSizes(c, call);
    var f, t := FunctionValue(Name(preset, name)), TupleValue(c, d, items);
    assert BodyEntries(c, d, call) == [f, t] || BodyEntries(c, d, call) == [t, f];
    TwoEntries(f, t);
    TwoEntries(t, f);
  }

  /** A frame with the code 10, taken apart: its length, its header, its body. */
  lemma FrameParts(bs: seq<byte>, id: nat, body: seq<byte>, es: seq<Entry>)
    requires |bs| < TWO_32 && id < TWO_32 && bs == Frame(10, id, body)
    requires BodyAt(bs, 14, |bs|) == Some(es) && |es| == 2
    ensures Read(bs, 0) == Some((Uint(|bs| - 5), 5))
    ensures Read(bs, 5) == Some((Map([Entry(Uint(0), Uint(10)), Entry(Uint(1), Uint(id))]), 14))
    ensures Read(bs, 14) == Some((Map(es), |bs|))
  {
    hide Header, ReadHead, Read;
    assert bs[0..|bs|] == bs;
    AtSplit3(bs, 0, LengthField(9 + |body|), Header(10, id), body);
    ReadSync(bs, 0, 9 + |body|);
    ReadHeader(bs, 5, 10, id);
  }

  /**
   The events of {"method":name,"params":items,"id":n}, its fields in any of
   their orders, leave exactly one request, or are refused for the id or for want
   of room: it calls the preset function or else name, its tuple is the bound data
   and the params, its sync is the id.
   */
  lemma CallSent(preset: seq<byte>, data: seq<byte>, d: Mp, name: seq<byte>, items: seq<Json>, n: int64, call: Call,
                 mem: seq<byte>)
    requires SomeOrder(call, MethodField(name), ParamsField(items), IdField(n))
    requires 1 + Depth(JArr(items)) <= 240 && |mem| < 0x1_0000_0000
    requires data == [] || Read(data, 0) == Some((d, |data|))
    ensures var o := Run(Conf(preset, data), Init(mem), Events(JObj(call)));
      && (o.Ok? <==> n <= 0xffff_ffff && FrameLength(preset, data, name, items) <= |mem|)
      && (o.Ok? ==>
            && o.state.tp.p <= |o.state.tp.mem|
            && OneCall(o.state.tp.mem[..o.state.tp.p], Name(preset, name), Arguments(data, d, items),
                       n % 0x1_0000_0000))
  {
    hide Run, Read, Events, Depth, Body, BodyEntries, CallOk, IdsOk, HasParams, FrameLength, Frame, ReadRequest, CallId;
    hide FieldsBytes, FieldsEntries, FieldBytes, FieldEntries, SomeOrder, Arguments, Name, Put, Lookup, BodyAt;
    var c, b := Conf(preset, data), Init(mem);
    CallParts(preset, data, d, name, items, n, call);
    InitIsIdle(mem, false);
    RunCall(c, b, call);
    var o := Run(c, b, Events(JObj(call)));
    if o.Ok? {
      var bs := FrameOf(c, call);
      PutFirst(mem, bs);
      AfterIsIdle(c, b, call);
      assert o.state.tp.mem[..o.state.tp.p] == bs;
      assert bs[0..|bs|] == bs;
      CallIdFits(call, 0);
      RequestFromFrame(bs, 0, CALL, CallId(call, 0), [0x82] + Body(c, call));
      FrameReads(c, d, call, bs, 0);
      FrameParts(bs, CallId(call, 0), [0x82] + Body(c, call), BodyEntries(c, d, call));
    }
  }

  /** A call of a method alone: its tuple is the bound data alone, its sync is 0. */
  lemma BareCallSent(preset: seq<byte>, data: seq<byte>, d: Mp, name: seq<byte>, mem: seq<byte>)
    requires |mem| < 0x1_0000_0000 && (data == [] || Read(data, 0) == Some((d, |data|)))
    requires 15 + (1 + |EncStr(Name(preset, name))|) + (2 + |data|) <= |mem|
    ensures var o := Run(Conf(preset, data), Init(mem), Events(JObj([MethodField(name)])));
      && o.Ok?
      && o.state.tp.p <= |o.state.tp.mem|
      && OneCall(o.state.tp.mem[..o.state.tp.p], Name(preset, name), if data == [] then [] else [d], 0)
  {
    hide Run, Read, Events, Body, BodyEntries, CallOk, IdsOk, HasParams, Frame, ReadRequest, CallId, EncStr;
    hide FieldsBytes, FieldsEntries, Name, Put, Lookup, BodyAt;
    var c, b, call := Conf(preset, data), Init(mem), [MethodField(name)];
    BareCallParts(preset, data, d, name);
    InitIsIdle(mem, false);
    RunCall(c, b, call);
    var o, bs := Run(c, b, Events(JObj(call))), FrameOf(c, call);
    PutFirst(mem, bs);
    AfterIsIdle(c, b, call);
    assert o.state.tp.mem[..o.state.tp.p] == bs;
    assert bs[0..|bs|] == bs;
    CallIdFits(call, 0);
    RequestFromFrame(bs, 0, CALL, CallId(call, 0), [0x82] + Body(c, call));
    FrameReads(c, d, call, bs, 0);
    FrameParts(bs, CallId(call, 0), [0x82] + Body(c, call), BodyEntries(c, d, call));
  }

  lemma TupleOfData(c: Conf, d: Mp)
    ensures TupleValue(c, d, []) == Entry(Uint(0x21), Array(if c.data == [] then [] else [d]))
  {
    var bound := if c.data == [] then [] else [d];
    assert bound + ToMps([]) == bound;
  }

  lemma OnlyField(c: Conf, d: Mp, x: Member)
    ensures FieldsBytes(c, [x]) == FieldBytes(c, x) && FieldsEntries(c, d, [x]) == FieldEntries(c, d, x)
    ensures CallId([x], 0) == FieldId(x, 0)
    ensures CallOk(c, [x]) <==> FieldOk(c, x)
    ensures HasParams([x]) <==> IsParams(x)
    ensures IdsOk([x]) <==> !BadId(x)
  {
    hide FieldBytes, FieldEntries, FieldOk, IsParams, BadId;
    assert [x][0] == x && [x][1..] == [];
    assert CallId([], FieldId(x, 0)) == FieldId(x, 0);
  }

  lemma BareCallParts(preset: seq<byte>, data: seq<byte>, d: Mp, name: seq<byte>)
    ensures var c, call := Conf(preset, data), [MethodField(name)];
      && CallOk(c, call) && IdsOk(call) && CallId(call, 0) == 0
      && |FrameOf(c, call)| == 15 + (1 + |EncStr(Name(preset, name))|) + (2 + |data|)
      && |BodyEntries(c, d, call)| == 2
      && Lookup(BodyEntries(c, d, call), Uint(0x22)) == Some(Str(Name(preset, name)))
      && Lookup(BodyEntries(c, d, call), Uint(0x21)) == Some(Array(if data == [] then [] else [d]))
  {
    hide EncStr, MethodField, FieldOk, FieldBytes, FieldEntries, IsParams, BadId, FieldId, TupleValue;
    hide CallOk, IdsOk, CallId, HasParams, FieldsBytes, FieldsEntries, Lookup;
    var c, call := Conf(preset, data), [MethodField(name)];
    NoDepth();
    FieldNames(c, d, name, [], 0);
    OnlyField(c, d, MethodField(name));
    FrameSizes(c, call);
    var f, t := FunctionValue(Name(preset, name)), TupleValue(c, d, []);
    TupleOfData(c, d);
    assert BodyEntries(c, d, call) == [f, t];
    TwoEntries(f, t);
  }

  lemma NoDepth()
    ensures Depth(JArr([])) == 1
  {
  }

  /** A document of calls: more than 16385 of them, or an id above 4294967295, and it is refused. */
  lemma Limits(c: Conf, mem: seq<byte>, doc: Document)
    requires CallsOk(c, doc.Calls())
    ensures |doc.Calls()| > 16385 ==> Run(c, Init(mem), DocumentEvents(doc)).Refused?
    ensures |doc.Calls()| <= 16385 && |Stream(c, doc.Calls())| <= |mem| ==>
      (Run(c, Init(mem), DocumentEvents(doc)).Refused? <==>
         exists i, k, n :: 0 <= i < |doc.Calls()| && 0 <= k < |doc.Calls()[i]|
           && doc.Calls()[i][k] == Member([0x69, 0x64], JInt(n)) && n > 0xffff_ffff)
  {
    hide Run, CallOk, Stream;
    Transcode(c, mem, doc);
  }
}

/**
 JSON documents, the parser events yajl reports for them, and the plain
 recursive MessagePack encoding with five-byte container headers.
 */
module Json {
  import opened Bytes
  import opened MsgPack

  /** yajl_integer hands over a long long. */
  type int64 = i: int | -TWO_63 <= i < TWO_63

  datatype Json =
    | JNull
    | JBool(b: bool)
    | JInt(i: int64)
    | JStr(s: seq<byte>)
    | JArr(items: seq<Json>)
    | JObj(members: seq<Member>)

  datatype Member = Member(key: seq<byte>, value: Json)

  /** One callback of the SAX parser. */
  datatype Event =
    | ENull
    | EBool(b: bool)
    | EInt(i: int64)
    | EStr(s: seq<byte>)
    | EStartMap
    | EKey(key: seq<byte>)
    | EEndMap
    | EStartArray
    | EEndArray

  function Events(j: Json): (r: seq<Event>)
    ensures |r| > 0
    decreases j, 0
  {
    match j
    case JNull => [ENull]
    case JBool(b) => [EBool(b)]
    case JInt(i) => [EInt(i)]
    case JStr(s) => [EStr(s)]
    case JArr(items) => [EStartArray] + ItemEvents(items) + [EEndArray]
    case JObj(ms) => [EStartMap] + MemberEvents(ms) + [EEndMap]
  }

  function ItemEvents(items: seq<Json>): seq<Event>
    decreases items, 1
  {
    if items == [] then [] else Events(items[0]) + ItemEvents(items[1..])
  }

  function MemberEvents(ms: seq<Member>): seq<Event>
    decreases ms, 1
  {
    if ms == [] then [] else [EKey(ms[0].key)] + Events(ms[0].value) + MemberEvents(ms[1..])
  }

  /** How many containers are open inside j at most, j included. */
  function Depth(j: Json): nat
    decreases j, 0
  {
    match j
    case JArr(items) => 1 + ItemsDepth(items)
    case JObj(ms) => 1 + MembersDepth(ms)
    case _ => 0
  }

  function ItemsDepth(items: seq<Json>): nat
    decreases items, 1
  {
    if items == [] then 0 else Max(Depth(items[0]), ItemsDepth(items[1..]))
  }

  function MembersDepth(ms: seq<Member>): nat
    decreases ms, 1
  {
    if ms == [] then 0 else Max(Depth(ms[0].value), MembersDepth(ms[1..]))
  }

  // ------------------------------------------------------ reference encoding

  function EncInt64(i: int64): seq<byte> {
    if i < 0 then EncInt(i) else EncUint(i)
  }

  function WideArrayHead(n: nat): (r: seq<byte>)
    ensures |r| == 5
  {
    [0xdd] + BE32(n)
  }

  function WideMapHead(n: nat): (r: seq<byte>)
    ensures |r| == 5
  {
    [0xdf] + BE32(n)
  }

  /** MessagePack with array 32 and map 32 headers. */
  function Enc(j: Json): (r: seq<byte>)
    ensures |r| > 0
    decreases j, 0
  {
    match j
    case JNull => NIL
    case JBool(b) => EncBool(b)
    case JInt(i) => EncInt64(i)
    case JStr(s) => EncStr(s)
    case JArr(items) => WideArrayHead(|items|) + EncItems(items)
    case JObj(ms) => WideMapHead(|ms|) + EncMembers(ms)
  }

  function EncItems(items: seq<Json>): (r: seq<byte>)
    ensures |r| >= |items|
    decreases items, 1
  {
    if items == [] then [] else Enc(items[0]) + EncItems(items[1..])
  }

  function EncMembers(ms: seq<Member>): (r: seq<byte>)
    ensures |r| >= |ms|
    decreases ms, 1
  {
    if ms == [] then [] else EncStr(ms[0].key) + Enc(ms[0].value) + EncMembers(ms[1..])
  }

  // -------------------------------------------- the encoding means the value

  /** The MessagePack value a JSON value stands for. */
  function ToMp(j: Json): Mp
    decreases j, 0
  {
    match j
    case JNull => Nil
    case JBool(b) => Bool(b)
    case JInt(i) => if i < 0 then Int(i) else Uint(i)
    case JStr(s) => Str(s)
    case JArr(items) => Array(ToMps(items))
    case JObj(ms) => Map(ToEntries(ms))
  }

  function ToMps(items: seq<Json>): (r: seq<Mp>)
    ensures |r| == |items|
    decreases items, 1
  {
    if items == [] then [] else [ToMp(items[0])] + ToMps(items[1..])
  }

  function ToEntries(ms: seq<Member>): (r: seq<Entry>)
    ensures |r| == |ms|
    decreases ms, 1
  {
    if ms == [] then [] else [Entry(Str(ms[0].key), ToMp(ms[0].value))] + ToEntries(ms[1..])
  }

  lemma {:induction false} ReadEnc(bs: seq<byte>, at: nat, j: Json)
    requires |bs| < TWO_32 && At(bs, at, Enc(j))
    ensures Read(bs, at) == Some((ToMp(j), at + |Enc(j)|))
    decreases j, 0
  {
    hide ReadHead, EncUint, EncInt, StrHead, ReadItems, ReadEntries, EncItems, EncMembers;
    match j
    case JNull =>
      ReadConstant(bs, at);
    case JBool(_) =>
      ReadConstant(bs, at);
    case JInt(i) =>
      if i < 0 { ReadInt(bs, at, i); } else { ReadUint(bs, at, i); }
    case JStr(s) =>
      ReadStr(bs, at, s);
    case JArr(items) =>
      AtSplit(bs, at, WideArrayHead(|items|), EncItems(items));
      ReadWideHead(bs, at, 0xdd, |items|);
      ReadEncItems(bs, at + 5, items);
    case JObj(ms) =>
      AtSplit(bs, at, WideMapHead(|ms|), EncMembers(ms));
      ReadWideHead(bs, at, 0xdf, |ms|);
      ReadEncMembers(bs, at + 5, ms);
  }

  lemma {:induction false} ReadEncItems(bs: seq<byte>, at: nat, items: seq<Json>)
    requires |bs| < TWO_32 && At(bs, at, EncItems(items))
    ensures ReadItems(bs, at, |items|) == Some((ToMps(items), at + |EncItems(items)|))
    decreases items, 1
  {
    hide Read, Enc;
    if items != [] {
      AtSplit(bs, at, Enc(items[0]), EncItems(items[1..]));
      ReadEnc(bs, at, items[0]);
      ReadEncItems(bs, at + |Enc(items[0])|, items[1..]);
    }
  }

  lemma {:induction false} ReadEncMembers(bs: seq<byte>, at: nat, ms: seq<Member>)
    requires |bs| < TWO_32 && At(bs, at, EncMembers(ms))
    ensures ReadEntries(bs, at, |ms|) == Some((ToEntries(ms), at + |EncMembers(ms)|))
    decreases ms, 1
  {
    hide Read, Enc, StrHead;
    if ms != [] {
      var key, value := EncStr(ms[0].key), Enc(ms[0].value);
      AtSplit3(bs, at, key, value, EncMembers(ms[1..]));
      ReadStr(bs, at, ms[0].key);
      ReadEnc(bs, at + |key|, ms[0].value);
      ReadEncMembers(bs, at + |key| + |value|, ms[1..]);
    }
  }
}

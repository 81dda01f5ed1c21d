/** The writing of the request map, part by part, into holes that are filled in afterwards. */
module RequestWriter {
  import opened Bytes
  import opened MsgPack
  import opened Json
  import opened TpBuffer
  import opened QueryArgs
  import opened RequestMap

  // ------------------------------------------------------------------- holes

  /** A name, a five-byte hole, the children, and then the header in the hole. */
  lemma HoleFilled(t: Tp, name: seq<byte>, head: seq<byte>, children: seq<byte>)
    requires Started(t) && t.size.value + 5 <= t.p && Fits(t, |name| + 5 + |children|) && |head| == 5
    ensures Patch(Append(Reserve(Append(t, name)), children), t.p + |name|, head) == Append(t, name + (head + children))
  {
    hide Append, Reserve, Patch;
    PatchReserved(Append(t, name), head, children);
    AppendAppend(t, name, head + children);
  }

  lemma CountedFacts(t: Tp)
    requires Counted(t)
    ensures Started(t) && t.size.value + 5 <= t.p
  {
  }

  lemma ReserveCounted(t: Tp)
    requires Started(t) && Fits(t, 5) && t.size.value <= t.p
    ensures Counted(Reserve(t))
  {
    hide LengthField;
    var i, u := t.size.value, Reserve(t);
    assert u.mem[i..i + 5] == LengthField(u.p - i - 5);
  }

  /** The hole at the very place of the length field: the header replaces it. */
  function Filled(t: Tp, bs: seq<byte>): Tp
    requires Started(t) && Fits(t, |bs|) && (t.size.value == t.p || t.size.value + 5 <= t.p)
  {
    if t.size.value == t.p then t.(mem := Put(t.mem, t.p, bs), p := t.p + |bs|) else Append(t, bs)
  }

  lemma RootFilled(t: Tp, head: seq<byte>, children: seq<byte>)
    requires |head| == 5
    requires Started(t) && Fits(t, 5 + |children|) && (t.size.value == t.p || t.size.value + 5 <= t.p)
    ensures Patch(Append(Reserve(t), children), t.p, head) == Filled(t, head + children)
  {
    hide LengthField;
    if t.size.value == t.p {
      assert Patch(Append(Reserve(t), children), t.p, head).mem == Filled(t, head + children).mem;
    } else {
      PatchReserved(t, head, children);
    }
  }

  // ----------------------------------------------------------------- headers

  /** The headers from element i of part k on. */
  function HeadersFrom(parts: seq<seq<Pair>>, k: nat, i: nat): seq<Pair>
    requires k < |parts| && i <= |parts[k]|
  {
    parts[k][i..] + Flatten(parts[k + 1..])
  }

  lemma NextHeader(parts: seq<seq<Pair>>, k: nat, i: nat)
    requires k < |parts| && i <= |parts[k]|
    ensures i < |parts[k]| ==> HeadersFrom(parts, k, i) == [parts[k][i]] + HeadersFrom(parts, k, i + 1)
    ensures i == |parts[k]| && k + 1 < |parts| ==> HeadersFrom(parts, k, i) == HeadersFrom(parts, k + 1, 0)
    ensures i == |parts[k]| && k + 1 == |parts| ==> HeadersFrom(parts, k, i) == []
  {
    if i < |parts[k]| {
      assert parts[k][i..] == [parts[k][i]] + parts[k][i + 1..];
    } else if k + 1 < |parts| {
      assert parts[k + 1..][1..] == parts[k + 2..];
      assert parts[k + 1][0..] == parts[k + 1];
    }
  }

  lemma FirstHeader(parts: seq<seq<Pair>>)
    requires parts != []
    ensures HeadersFrom(parts, 0, 0) == Flatten(parts)
  {
    assert parts[0][0..] == parts[0];
  }

  /** ngx_http_tnt_copy_headers. */
  method CopyHeaders(tp: TpStream, l: HeaderList, items: nat) returns (ok: bool, items': nat)
    requires tp.Valid() && Counted(tp.State()) && ListOk(l)
    requires Fits(tp.State(), |PairsBytes(Headers(l), [], false)|)
    modifies tp, tp.buf
    ensures tp.Valid() && ok && items' == items + |Headers(l)|
    ensures tp.State() == Append(old(tp.State()), PairsBytes(Headers(l), [], false))
  {
    hide Append, PairsBytes, Flatten, HeadersFrom, SoFar, Counted;
    ghost var t, all := tp.State(), Headers(l);
    ghost var seen: seq<Pair> := [];
    NoneWritten(t, all, [], false);
    ok, items' := true, items;
    if l.elementSize > 0 {
      var k, i := 0, 0;
      FirstHeader(l.parts);
      while true
        invariant k < |l.parts| && i <= |l.parts[k]| && ok && items' == items + |seen|
        invariant tp.Valid() && tp.size == t.size
        invariant SoFar(t, all, seen, HeadersFrom(l.parts, k, i), [], false, tp.State())
        decreases |l.parts| - k, |l.parts[k]| - i
      {
        NextHeader(l.parts, k, i);
        if i >= |l.parts[k]| {
          if k + 1 == |l.parts| {
            break;
          }
          k, i := k + 1, 0;
          NextHeader(l.parts, k, i);
        }
        var h := l.parts[k][i];
        MorePairs(t, all, seen, h, HeadersFrom(l.parts, k, i + 1), [], false, tp.State());
        ok := EncodeItem(tp, h.key, h.value);
        items' := items' + 1;
        seen := seen + [h];
        i := i + 1;
      }
    }
    Finished(t, all, seen, [], false, tp.State());
  }

  // -------------------------------------------------------------------- body

  lemma {:induction false} WholeSplit(bufs: seq<Chunk>, i: nat)
    requires i <= |bufs|
    ensures Whole(bufs) == Whole(bufs[..i]) + Whole(bufs[i..])
    decreases |bufs|
  {
    if i == 0 {
      assert bufs[0..] == bufs;
    } else {
      assert bufs[..i][1..] == bufs[1..][..i - 1] && bufs[i..] == bufs[1..][i - 1..];
      WholeSplit(bufs[1..], i - 1);
    }
  }

  lemma NextChunk(bufs: seq<Chunk>, i: nat)
    requires i < |bufs|
    ensures Whole(bufs[..i + 1]) == Whole(bufs[..i]) + bufs[i].bytes
    ensures |Whole(bufs[..i + 1])| <= |Whole(bufs)|
  {
    assert bufs[..i + 1][..i] == bufs[..i] && bufs[..i + 1][i..] == [bufs[i]];
    WholeSplit(bufs[..i + 1], i);
    assert Whole([bufs[i]]) == bufs[i].bytes + Whole([]);
    WholeSplit(bufs, i + 1);
  }

  /** The body chain copied into one block of content_length + 1 bytes; in-file buffers are refused. */
  method CollectBody(bufs: seq<Chunk>, contentLength: nat) returns (ok: bool, text: seq<byte>)
    requires |Whole(bufs)| == contentLength
    ensures ok <==> InMemory(bufs)
    ensures ok ==> text == Whole(bufs)
  {
    hide Whole, Put;
    var block := new byte[contentLength + 1](_ => 0);
    var last := 0;
    assert bufs[..0] == [];
    NoChunks();
    for i := 0 to |bufs|
      invariant forall j :: 0 <= j < i ==> !bufs[j].inFile
      invariant block.Length == contentLength + 1
      invariant 0 <= last <= contentLength && block[..last] == Whole(bufs[..i])
    {
      if bufs[i].inFile {
        return false, [];
      }
      NextChunk(bufs, i);
      ghost var before := block[..last];
      var data := bufs[i].bytes;
      for k := 0 to |data|
        invariant block.Length == contentLength + 1
        invariant block[..last + k] == before + data[..k]
      {
        block[last + k] := data[k];
      }
      assert data[..|data|] == data;
      last := last + |data|;
    }
    assert bufs[..|bufs|] == bufs;
    ok, text := true, block[..last];
  }

  lemma NoChunks()
    ensures Whole([]) == []
  {
  }

  /** The chunks written one after the other at offset i. */
  method CopyBody(tp: TpStream, at: nat, bufs: seq<Chunk>) returns (ok: bool)
    requires at + |Whole(bufs)| <= tp.buf.Length
    modifies tp.buf
    ensures ok <==> InMemory(bufs)
    ensures ok ==> tp.buf[..] == Put(old(tp.buf[..]), at, Whole(bufs))
  {
    hide Whole, Put;
    ghost var m := tp.buf[..];
    var p := at;
    assert bufs[..0] == [];
    NoChunks();
    PutNothing(m, at);
    for i := 0 to |bufs|
      invariant forall j :: 0 <= j < i ==> !bufs[j].inFile
      invariant p == at + |Whole(bufs[..i])| <= at + |Whole(bufs)|
      invariant tp.buf[..] == Put(m, at, Whole(bufs[..i]))
    {
      if bufs[i].inFile {
        return false;
      }
      NextChunk(bufs, i);
      tp.Write(p, bufs[i].bytes);
      PutPut(m, at, Whole(bufs[..i]), bufs[i].bytes);
      p := p + |bufs[i].bytes|;
    }
    assert bufs[..|bufs|] == bufs;
    ok := true;
  }

  // ------------------------------------------------------------------ fields

  /** Every field but the last of what is to be written has been written: room for the next one. */
  ghost predicate Reached(u: Tp, done: seq<Field>, rest: seq<Field>, now: Tp) {
    && Counted(u)
    && Fits(u, |FieldsBytes(done)| + |FieldsBytes(rest)|)
    && now == Append(u, FieldsBytes(done))
  }

  lemma NoneReached(u: Tp, all: seq<Field>)
    requires Counted(u) && Fits(u, |FieldsBytes(all)|)
    ensures Reached(u, [], all, u)
  {
    hide Append, Counted, FieldBytes;
    AppendEmpty(u);
  }

  lemma RoomForNext(u: Tp, done: seq<Field>, next: seq<Field>, rest: seq<Field>, now: Tp)
    requires Reached(u, done, next + rest, now)
    ensures Counted(now) && Fits(now, |FieldsBytes(next)|)
    ensures Reached(u, done + next, rest, Append(now, FieldsBytes(next)))
  {
    hide Append, FieldBytes;
    FieldsBytesConcat(next, rest);
    FieldsBytesConcat(done, next);
    AppendCounted(u, FieldsBytes(done));
    AppendAppend(u, FieldsBytes(done), FieldsBytes(next));
  }

  lemma AllReached(u: Tp, all: seq<Field>, now: Tp)
    requires Reached(u, all, [], now)
    ensures Started(u) && Fits(u, |FieldsBytes(all)|) && u.size.value + 5 <= u.p && now == Append(u, FieldsBytes(all))
  {
  }

  /** The protocol, the method and the uri. */
  method EncodeLine(tp: TpStream, o: Options, r: HttpRequest) returns (ok: bool)
    requires tp.Valid() && Counted(tp.State()) && Fits(tp.State(), |FieldsBytes(Line(o, r))|)
    modifies tp, tp.buf
    ensures tp.Valid() && ok && tp.State() == Append(old(tp.State()), FieldsBytes(Line(o, r)))
  {
    hide Append, StrHead, Passed, Counted;
    ghost var t := tp.State();
    var uri := if o.subrequestUri then r.uri else r.unparsedUri;
    ghost var a, b, c := FieldBytes(Line(o, r)[0]), FieldBytes(Line(o, r)[1]), FieldBytes(Line(o, r)[2]);
    LineBytes(t, o, r, a, b, c);
    ok := EncodeItem(tp, PROTO, r.protocol);
    ok := EncodeItem(tp, METHOD, r.verb);
    ok := EncodeStrMapItem(tp, URI, uri, o.unescape);
  }

  lemma LineBytes(t: Tp, o: Options, r: HttpRequest, a: seq<byte>, b: seq<byte>, c: seq<byte>)
    requires a == FieldBytes(Line(o, r)[0]) && b == FieldBytes(Line(o, r)[1]) && c == FieldBytes(Line(o, r)[2])
    requires Counted(t) && Fits(t, |FieldsBytes(Line(o, r))|)
    ensures |FieldsBytes(Line(o, r))| == |a| + |b| + |c|
    ensures Started(t) && t.size.value + 5 <= t.p
    ensures Append(Append(Append(t, a), b), c) == Append(t, FieldsBytes(Line(o, r)))
  {
    hide Append, FieldBytes;
    var fs := Line(o, r);
    assert fs == [fs[0]] + [fs[1]] + [fs[2]];
    FieldsBytesConcat([fs[0]] + [fs[1]], [fs[2]]);
    FieldsBytesConcat([fs[0]], [fs[1]]);
    OneField(fs[0]);
    OneField(fs[1]);
    OneField(fs[2]);
    AppendAppend(t, a, b);
    AppendAppend(t, a + b, c);
  }

  /** The query arguments as a map. */
  method EncodeArgsPart(tp: TpStream, o: Options, r: HttpRequest) returns (ok: bool, items: nat)
    requires tp.Valid() && Counted(tp.State()) && Fits(tp.State(), |FieldsBytes(ArgsPart(o, r))|)
    modifies tp, tp.buf
    ensures tp.Valid() && ok && items == |ArgsPart(o, r)|
    ensures tp.State() == Append(old(tp.State()), FieldsBytes(ArgsPart(o, r)))
  {
    hide Append, Reserve, Patch, Counted, StrHead, PairsBytes, Args;
    ghost var t := tp.State();
    ok, items := true, 0;
    CountedFacts(t);
    AppendEmpty(t);
    if o.parseArgs {
      items := 1;
      OneField(ArgsPart(o, r)[0]);
      ok := tp.Encode(EncStr(ARGS));
      var place := tp.p;
      tp.Skip();
      ReserveCounted(Append(t, EncStr(ARGS)));
      var n: nat;
      ok, n := EncodeArgs(tp, r.args, [], o.unescape);
      tp.Fill(place, WideMapHead(n));
      HoleFilled(t, EncStr(ARGS), WideMapHead(n), PairsBytes(Args(r.args), [], o.unescape));
    }
  }

  /** The headers of the request and, if asked for, of the answer so far. */
  method EncodeHeadersPart(tp: TpStream, o: Options, r: HttpRequest) returns (ok: bool)
    requires tp.Valid() && Counted(tp.State()) && Fits(tp.State(), |FieldsBytes(HeadersPart(o, r))|)
    requires ListOk(r.headersIn) && ListOk(r.headersOut)
    modifies tp, tp.buf
    ensures tp.Valid() && ok && tp.State() == Append(old(tp.State()), FieldsBytes(HeadersPart(o, r)))
  {
    hide Append, Reserve, Patch, Counted, StrHead, PairsBytes, Headers, ListOk;
    ghost var t, a := tp.State(), Headers(r.headersIn);
    ghost var b := if o.passHeadersOut then Headers(r.headersOut) else [];
    CountedFacts(t);
    OneField(HeadersPart(o, r)[0]);
    PairsBytesConcat(a, b, [], false);
    ok := tp.Encode(EncStr(HEADERS));
    var place := tp.p;
    tp.Skip();
    ghost var u := tp.State();
    ReserveCounted(Append(t, EncStr(HEADERS)));
    var n: nat;
    ok, n := CopyHeaders(tp, r.headersIn, 0);
    AppendCounted(u, PairsBytes(a, [], false));
    if o.passHeadersOut {
      ok, n := CopyHeaders(tp, r.headersOut, n);
      AppendAppend(u, PairsBytes(a, [], false), PairsBytes(b, [], false));
    } else {
      assert a + b == a;
    }
    tp.Fill(place, WideMapHead(n));
    HoleFilled(t, EncStr(HEADERS), WideMapHead(n), PairsBytes(a + b, [], false));
  }

  /** The arguments of an urlencoded body, as an array of one-entry maps. */
  method EncodeUrlencodedPart(tp: TpStream, o: Options, r: HttpRequest) returns (ok: bool, items: nat)
    requires tp.Valid() && Counted(tp.State()) && Fits(tp.State(), |FieldsBytes(UrlencodedPart(o, r))|)
    requires HasBody(r) ==> |Whole(r.bufs)| == r.contentLength
    modifies tp, tp.buf
    ensures tp.Valid() && items == |UrlencodedPart(o, r)|
    ensures ok <==> (UrlencodedPart(o, r) == [] || InMemory(r.bufs))
    ensures ok ==> tp.State() == Append(old(tp.State()), FieldsBytes(UrlencodedPart(o, r)))
  {
    hide Append, Reserve, Patch, Counted, StrHead, PairsBytes, Args, Whole, InMemory;
    ghost var t := tp.State();
    ok, items := true, 0;
    CountedFacts(t);
    AppendEmpty(t);
    if o.parseUrlencoded && HasBody(r) {
      items := 1;
      OneField(UrlencodedPart(o, r)[0]);
      ok := tp.Encode(EncStr(ARGS_URLENCODED));
      var place := tp.p;
      tp.Skip();
      ReserveCounted(Append(t, EncStr(ARGS_URLENCODED)));
      var text: seq<byte>;
      ok, text := CollectBody(r.bufs, r.contentLength);
      if ok {
        var n: nat;
        ok, n := EncodeArgs(tp, text, ROW, o.unescape);
        tp.Fill(place, WideArrayHead(n));
        HoleFilled(t, EncStr(ARGS_URLENCODED), WideArrayHead(n), PairsBytes(Args(text), ROW, o.unescape));
      }
    }
  }

  /** The raw body as one string, written past p and then accounted for at once. */
  method EncodeBody(tp: TpStream, contentLength: nat, bufs: seq<Chunk>) returns (ok: bool)
    requires tp.Valid() && tp.size.Some? && |Whole(bufs)| == contentLength && Fits(tp.State(), |EncStr(Whole(bufs))|)
    modifies tp, tp.buf
    ensures tp.Valid()
    ensures ok <==> InMemory(bufs)
    ensures ok ==> tp.State() == Append(old(tp.State()), EncStr(Whole(bufs)))
  {
    hide StrHead, Whole, Put, LengthField, InMemory;
    ghost var m := tp.buf[..];
    var head := StrHead(contentLength);
    tp.Write(tp.p, head);
    ok := CopyBody(tp, tp.p + |head|, bufs);
    if ok {
      PutPut(m, tp.p, head, Whole(bufs));
      tp.Advance(|head| + contentLength);
    }
  }

  /** The body as it is. */
  method EncodeBodyPart(tp: TpStream, o: Options, r: HttpRequest) returns (ok: bool, items: nat)
    requires tp.Valid() && Counted(tp.State()) && Fits(tp.State(), |FieldsBytes(BodyPart(o, r))|)
    requires HasBody(r) ==> |Whole(r.bufs)| == r.contentLength
    modifies tp, tp.buf
    ensures tp.Valid() && items == |BodyPart(o, r)|
    ensures ok <==> (BodyPart(o, r) == [] || InMemory(r.bufs))
    ensures ok ==> tp.State() == Append(old(tp.State()), FieldsBytes(BodyPart(o, r)))
  {
    hide Append, Counted, StrHead, Whole, InMemory;
    ghost var t := tp.State();
    ok, items := true, 0;
    CountedFacts(t);
    AppendEmpty(t);
    if o.passBody && HasBody(r) {
      items := 1;
      OneField(BodyPart(o, r)[0]);
      ok := tp.Encode(EncStr(BODY));
      ok := EncodeBody(tp, r.contentLength, r.bufs);
      AppendAppend(t, EncStr(BODY), EncStr(Whole(r.bufs)));
    }
  }

  // ----------------------------------------------------------- the whole map

  /** No part of the body that is passed on lies in a file. */
  predicate Readable(o: Options, r: HttpRequest) {
    (o.parseUrlencoded || o.passBody) && HasBody(r) ==> InMemory(r.bufs)
  }

  /** The parts in their order, each behind the one before. */
  method EncodeParts(tp: TpStream, o: Options, r: HttpRequest) returns (ok: bool, items: nat)
    requires tp.Valid() && Counted(tp.State()) && RequestOk(r) && Fits(tp.State(), |FieldsBytes(Fields(o, r))|)
    modifies tp, tp.buf
    ensures tp.Valid() && (ok <==> Readable(o, r))
    ensures ok ==> items == |Fields(o, r)| && tp.State() == Append(old(tp.State()), FieldsBytes(Fields(o, r)))
  {
    hide Append, Counted, FieldsBytes, Reached, ListOk, InMemory, Whole, HasBody;
    hide Line, ArgsPart, HeadersPart, UrlencodedPart, BodyPart;
    ghost var u, all := tp.State(), Fields(o, r);
    ghost var a, b, c, d, e := Line(o, r), ArgsPart(o, r), HeadersPart(o, r), UrlencodedPart(o, r), BodyPart(o, r);
    PartSizes(o, r);
    NoneReached(u, all);
    Associate(a, b, c, d, e);
    RoomForNext(u, [], a, b + (c + (d + e)), tp.State());
    ok := EncodeLine(tp, o, r);
    items := 3;
    RoomForNext(u, [] + a, b, c + (d + e), tp.State());
    var n: nat;
    ok, n := EncodeArgsPart(tp, o, r);
    items := items + n;
    RoomForNext(u, [] + a + b, c, d + e, tp.State());
    ok := EncodeHeadersPart(tp, o, r);
    items := items + 1;
    RoomForNext(u, [] + a + b + c, d, e, tp.State());
    ok, n := EncodeUrlencodedPart(tp, o, r);
    items := items + n;
    if ok {
      RoomForNext(u, [] + a + b + c + d, e, [], tp.State());
      ok, n := EncodeBodyPart(tp, o, r);
      items := items + n;
      if ok {
        AllReached(u, all, tp.State());
      }
    }
  }

  /** ngx_http_tnt_get_request_data: behind what a frame holds so far, or at the very start of a buffer. */
  method GetRequestData(tp: TpStream, o: Options, r: HttpRequest) returns (ok: bool)
    requires tp.p <= tp.buf.Length && Started(tp.State()) && (tp.size == Some(tp.p) || tp.Valid())
    requires tp.sync.Some? ==> tp.sync.value + 5 <= tp.p
    requires RequestOk(r) && Fits(tp.State(), |MapBytes(o, r)|)
    modifies tp, tp.buf
    ensures tp.Valid()
    ensures ok <==> Readable(o, r)
    ensures ok ==> tp.State() == Filled(old(tp.State()), MapBytes(o, r))
  {
    hide Append, Reserve, Patch, Counted, FieldsBytes, Fields, RequestOk, Readable, Put;
    ghost var t := tp.State();
    var root := tp.p;
    tp.Skip();
    ReserveCounted(t);
    var items: nat;
    ok, items := EncodeParts(tp, o, r);
    if ok {
      tp.Fill(root, WideMapHead(items));
      RootFilled(t, WideMapHead(items), FieldsBytes(Fields(o, r)));
    }
  }

  lemma Associate<T>(a: seq<T>, b: seq<T>, c: seq<T>, d: seq<T>, e: seq<T>)
    ensures a + b + c + d + e == a + (b + (c + (d + e)))
    ensures [] + a + b + c + d + e == a + b + c + d + e
    ensures e + [] == e
  {
  }

  lemma PartSizes(o: Options, r: HttpRequest)
    ensures |Line(o, r)| == 3 && |HeadersPart(o, r)| == 1
    ensures UrlencodedPart(o, r) != [] <==> o.parseUrlencoded && HasBody(r)
    ensures BodyPart(o, r) != [] <==> o.passBody && HasBody(r)
  {
  }

  /** ngx_http_tnt_get_request_data_map: the length field starts where the map does, and is overwritten by it. */
  method GetRequestDataMap(o: Options, r: HttpRequest, output: array<byte>) returns (ok: bool, last: nat)
    requires RequestOk(r) && |MapBytes(o, r)| <= output.Length
    modifies output
    ensures ok <==> Readable(o, r)
    ensures ok ==> last <= output.Length && output[..last] == MapBytes(o, r)
  {
    hide MapBytes, Readable, RequestOk;
    var tp := new TpStream(output);
    tp.size := Some(tp.p);
    ghost var m := output[..];
    MapIsLong(o, r);
    ok := GetRequestData(tp, o, r);
    last := tp.p;
    assert ok ==> Put(m, 0, MapBytes(o, r))[..last] == MapBytes(o, r);
  }

  lemma MapIsLong(o: Options, r: HttpRequest)
    ensures |MapBytes(o, r)| >= 5
  {
  }
}

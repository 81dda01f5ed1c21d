/** What a Tarantool function finds in the request map, under names written out here. */
module RequestNames {
  import opened Bytes
  import opened MsgPack
  import opened UrlCoding
  import opened QueryArgs
  import opened RequestMap
  import opened Requests
  import opened RequestHandlers
  import CallBytes
  import TpBuffer

  /** A text as it is, or decoded. */
  function Decoded(s: seq<byte>, unescape: bool): seq<byte> {
    if unescape then UrlDecode(s) else s
  }

  /** The entries of a map are these pairs, in order. */
  predicate IsDict(es: seq<Entry>, ps: seq<Pair>, unescape: bool) {
    |es| == |ps| && forall i :: 0 <= i < |es| ==> es[i] == Entry(Str(ps[i].key), Str(Decoded(ps[i].value, unescape)))
  }

  /** The elements of an array are maps of one of these pairs each, in order. */
  predicate IsRows(vs: seq<Mp>, ps: seq<Pair>, unescape: bool) {
    |vs| == |ps| && forall i :: 0 <= i < |vs| ==> vs[i].Map? && IsDict(vs[i].entries, [ps[i]], unescape)
  }

  lemma {:induction false} DictIs(ps: seq<Pair>, u: bool)
    ensures IsDict(PairEntries(ps, u), ps, u)
    decreases |ps|
  {
    hide UrlDecode;
    if ps != [] {
      DictIs(ps[1..], u);
    }
  }

  lemma {:induction false} RowsAre(ps: seq<Pair>, u: bool)
    ensures IsRows(PairRows(ps, u), ps, u)
    decreases |ps|
  {
    hide UrlDecode;
    if ps != [] {
      RowsAre(ps[1..], u);
    }
  }

  lemma {:induction false} EntriesOfBoth(a: seq<Field>, b: seq<Field>)
    ensures RequestMap.FieldEntries(a + b) == RequestMap.FieldEntries(a) + RequestMap.FieldEntries(b)
    decreases |a|
  {
    hide ContentValue;
    if a == [] {
      assert a + b == b;
    } else {
      assert (a + b)[0] == a[0] && (a + b)[1..] == a[1..] + b;
      EntriesOfBoth(a[1..], b);
    }
  }

  /** The value under a name among fields. */
  function Under(fs: seq<Field>, name: seq<byte>): Option<Mp> {
    Lookup(RequestMap.FieldEntries(fs), Str(name))
  }

  lemma UnderBoth(a: seq<Field>, b: seq<Field>, name: seq<byte>)
    ensures Under(a + b, name) == if Under(a, name).Some? then Under(a, name) else Under(b, name)
  {
    hide RequestMap.FieldEntries, Lookup;
    EntriesOfBoth(a, b);
    LookupConcat(RequestMap.FieldEntries(a), RequestMap.FieldEntries(b), Str(name));
  }

  lemma UnderOne(f: Field, name: seq<byte>)
    ensures Under([f], name) == if f.name == name then Some(ContentValue(f.content)) else None
    ensures Under([], name) == None
  {
    hide ContentValue;
    var e := Entry(Str(f.name), ContentValue(f.content));
    assert [f][1..] == [] && RequestMap.FieldEntries([]) == [];
    assert RequestMap.FieldEntries([f]) == [e];
    assert [e][1..] == [] && Lookup([], Str(name)) == None;
    assert Lookup([e], Str(name)) == if f.name == name then Some(e.value) else None;
  }

  lemma UnderThree(a: Field, b: Field, c: Field, name: seq<byte>)
    requires a.name != b.name && a.name != c.name && b.name != c.name
    ensures Under([a, b, c], name) ==
      if name == a.name then Some(ContentValue(a.content))
      else if name == b.name then Some(ContentValue(b.content))
      else if name == c.name then Some(ContentValue(c.content))
      else None
  {
    hide Under, ContentValue;
    assert [a, b, c] == [a] + ([b] + [c]);
    UnderBoth([a], [b] + [c], name);
    UnderBoth([b], [c], name);
    UnderOne(a, name);
    UnderOne(b, name);
    UnderOne(c, name);
  }

  lemma UnderLine(o: Options, r: HttpRequest, name: seq<byte>)
    ensures Under(Line(o, r), name) ==
      if name == [0x70, 0x72, 0x6f, 0x74, 0x6f] then Some(Str(r.protocol))
      else if name == [0x6d, 0x65, 0x74, 0x68, 0x6f, 0x64] then Some(Str(r.verb))
      else if name == [0x75, 0x72, 0x69]
      then Some(Str(Decoded(if o.subrequestUri then r.uri else r.unparsedUri, o.unescape)))
      else None
  {
    hide Under, UrlDecode;
    var fs := Line(o, r);
    assert |fs[0].name| == 5 && |fs[1].name| == 6 && |fs[2].name| == 3;
    UnderThree(fs[0], fs[1], fs[2], name);
    assert fs == [fs[0], fs[1], fs[2]];
    assert Under(fs, name) == Under([fs[0], fs[1], fs[2]], name);
  }

  /** A name is found in the part that holds it. */
  lemma UnderParts(o: Options, r: HttpRequest, name: seq<byte>)
    ensures Under(Fields(o, r), name) ==
      if Under(Line(o, r), name).Some? then Under(Line(o, r), name)
      else if Under(ArgsPart(o, r), name).Some? then Under(ArgsPart(o, r), name)
      else if Under(HeadersPart(o, r), name).Some? then Under(HeadersPart(o, r), name)
      else if Under(UrlencodedPart(o, r), name).Some? then Under(UrlencodedPart(o, r), name)
      else Under(BodyPart(o, r), name)
  {
    hide Under, Line, ArgsPart, HeadersPart, UrlencodedPart, BodyPart;
    var a, b, c, d, e := Line(o, r), ArgsPart(o, r), HeadersPart(o, r), UrlencodedPart(o, r), BodyPart(o, r);
    UnderBoth(a + b + c + d, e, name);
    UnderBoth(a + b + c, d, name);
    UnderBoth(a + b, c, name);
    UnderBoth(a, b, name);
  }

  predicate BodyThere(r: HttpRequest) {
    r.contentLength > 0 && r.bufs != []
  }

  /** The content of the parts behind the first line, by name. */
  function Later(o: Options, r: HttpRequest, name: seq<byte>): Option<Content> {
    if name == [0x61, 0x72, 0x67, 0x73] then
      if o.parseArgs then Some(Dict(Args(r.args), o.unescape)) else None
    else if name == [0x68, 0x65, 0x61, 0x64, 0x65, 0x72, 0x73] then
      Some(Dict(Headers(r.headersIn) + if o.passHeadersOut then Headers(r.headersOut) else [], false))
    else if name == [0x61, 0x72, 0x67, 0x73, 0x5f, 0x75, 0x72, 0x6c, 0x65, 0x6e, 0x63, 0x6f, 0x64, 0x65, 0x64] then
      if o.parseUrlencoded && BodyThere(r) then Some(Rows(Args(Whole(r.bufs)), o.unescape)) else None
    else if name == [0x62, 0x6f, 0x64, 0x79] then
      if o.passBody && BodyThere(r) then Some(Text(Whole(r.bufs))) else None
    else None
  }

  lemma UnderTheRest(o: Options, r: HttpRequest, name: seq<byte>)
    ensures var a, h, u, b := Under(ArgsPart(o, r), name), Under(HeadersPart(o, r), name),
                              Under(UrlencodedPart(o, r), name), Under(BodyPart(o, r), name);
      (if a.Some? then a else if h.Some? then h else if u.Some? then u else b)
      == if Later(o, r, name).Some? then Some(ContentValue(Later(o, r, name).value)) else None
  {
    hide Under, Args, Headers, Whole, ContentValue;
    UnderOne(Field(ARGS, Dict(Args(r.args), o.unescape)), name);
    UnderOne(HeadersPart(o, r)[0], name);
    UnderOne(Field(ARGS_URLENCODED, Rows(Args(Whole(r.bufs)), o.unescape)), name);
    UnderOne(Field(BODY, Text(Whole(r.bufs))), name);
    assert |ARGS| == 4 && |HEADERS| == 7 && |ARGS_URLENCODED| == 15 && |BODY| == 4 && ARGS[0] != BODY[0];
  }

  /** The value under a name in what a location passes on for a request. */
  function Found(o: Options, r: HttpRequest, name: seq<byte>): Option<Mp> {
    var v := RequestValue(o, r);
    if v.Map? then Lookup(v.entries, Str(name)) else None
  }

  lemma FoundIs(o: Options, r: HttpRequest, name: seq<byte>)
    ensures Found(o, r, name) ==
      if Under(Line(o, r), name).Some? then Under(Line(o, r), name)
      else if Later(o, r, name).Some? then Some(ContentValue(Later(o, r, name).value))
      else None
    ensures Under(Line(o, r), name) ==
      if name == [0x70, 0x72, 0x6f, 0x74, 0x6f] then Some(Str(r.protocol))
      else if name == [0x6d, 0x65, 0x74, 0x68, 0x6f, 0x64] then Some(Str(r.verb))
      else if name == [0x75, 0x72, 0x69]
      then Some(Str(Decoded(if o.subrequestUri then r.uri else r.unparsedUri, o.unescape)))
      else None
  {
    hide Fields, RequestMap.FieldEntries, Lookup, Later, Line, Decoded;
    hide ArgsPart, HeadersPart, UrlencodedPart, BodyPart, ContentValue;
    UnderParts(o, r, name);
    UnderLine(o, r, name);
    UnderTheRest(o, r, name);
    assert Found(o, r, name) == Under(Fields(o, r), name);
  }

  /**
   Every part of a request is found under its name: protocol, method and uri
   always, the headers always, the arguments, the urlencoded body and the body
   exactly under their flags.
   */
  lemma RequestSays(o: Options, r: HttpRequest)
    ensures Found(o, r, [0x70, 0x72, 0x6f, 0x74, 0x6f]) == Some(Str(r.protocol))
    ensures Found(o, r, [0x6d, 0x65, 0x74, 0x68, 0x6f, 0x64]) == Some(Str(r.verb))
    ensures Found(o, r, [0x75, 0x72, 0x69])
         == Some(Str(Decoded(if o.subrequestUri then r.uri else r.unparsedUri, o.unescape)))
    ensures var args := Found(o, r, [0x61, 0x72, 0x67, 0x73]);
      if o.parseArgs then args.Some? && args.value.Map? && IsDict(args.value.entries, Args(r.args), o.unescape)
      else args == None
    ensures var headers := Found(o, r, [0x68, 0x65, 0x61, 0x64, 0x65, 0x72, 0x73]);
      && headers.Some? && headers.value.Map?
      && IsDict(headers.value.entries,
           Headers(r.headersIn) + if o.passHeadersOut then Headers(r.headersOut) else [], false)
    ensures var rows := Found(o, r,
        [0x61, 0x72, 0x67, 0x73, 0x5f, 0x75, 0x72, 0x6c, 0x65, 0x6e, 0x63, 0x6f, 0x64, 0x65, 0x64]);
      if o.parseUrlencoded && BodyThere(r)
      then rows.Some? && rows.value.Array? && IsRows(rows.value.items, Args(Whole(r.bufs)), o.unescape)
      else rows == None
    ensures Found(o, r, [0x62, 0x6f, 0x64, 0x79])
         == if o.passBody && BodyThere(r) then Some(Str(Whole(r.bufs))) else None
  {
    hide Under, Fields, Line, ArgsPart, HeadersPart, UrlencodedPart, BodyPart, Args, Headers, Whole, IsDict, IsRows;
    hide Decoded, PairEntries, PairRows;
    FoundIs(o, r, [0x70, 0x72, 0x6f, 0x74, 0x6f]);
    FoundIs(o, r, [0x6d, 0x65, 0x74, 0x68, 0x6f, 0x64]);
    FoundIs(o, r, [0x75, 0x72, 0x69]);
    FoundIs(o, r, [0x61, 0x72, 0x67, 0x73]);
    FoundIs(o, r, [0x68, 0x65, 0x61, 0x64, 0x65, 0x72, 0x73]);
    FoundIs(o, r, [0x61, 0x72, 0x67, 0x73, 0x5f, 0x75, 0x72, 0x6c, 0x65, 0x6e, 0x63, 0x6f, 0x64, 0x65, 0x64]);
    FoundIs(o, r, [0x62, 0x6f, 0x64, 0x79]);
    DictIs(Args(r.args), o.unescape);
    DictIs(Headers(r.headersIn) + if o.passHeadersOut then Headers(r.headersOut) else [], false);
    RowsAre(Args(Whole(r.bufs)), o.unescape);
  }

  /** The frame of the query handler: a call of that function with this map as the only argument. */
  lemma QuerySays(o: Options, r: HttpRequest, name: seq<byte>, bs: seq<byte>)
    requires |bs| < TWO_32 && bs == TpBuffer.Frame(10, 0, QueryBody(name, MapBytes(o, r)))
    ensures CallBytes.OneCall(bs, name, [RequestValue(o, r)], 0)
  {
    hide TpBuffer.Frame, BodyAt, ReadRequest, QueryBody, MapBytes, RequestValue, Read;
    assert bs[0..|bs|] == bs;
    QueryReads(o, r, name, bs, 0);
    RequestFromFrame(bs, 0, 10, 0, QueryBody(name, MapBytes(o, r)));
    var f, t := FunctionValue(name), Entry(Uint(TpBuffer.TUPLE), Array([RequestValue(o, r)]));
    CallBytes.FrameParts(bs, 0, QueryBody(name, MapBytes(o, r)), [f, t]);
    CallBytes.TwoEntries(f, t);
  }
}

/**
 The HTTP request as one MessagePack map: ngx_http_tnt_get_request_data, and
 what it is to say. Every header that is patched in afterwards announces the
 entries written behind it.
 */
module RequestMap {
  import opened Bytes
  import opened MsgPack
  import opened Json
  import opened QueryArgs
  import opened Requests

  // ---------------------------------------------------------------- the data

  /** The pass_http_request flags of a location. */
  datatype Options = Options(
    parseArgs: bool,
    unescape: bool,
    subrequestUri: bool,
    passHeadersOut: bool,
    parseUrlencoded: bool,
    passBody: bool)

  /** ngx_list_t: never used if its element size is 0. */
  datatype HeaderList = HeaderList(elementSize: nat, parts: seq<seq<Pair>>)

  /** A buffer of the body chain. */
  datatype Chunk = Chunk(bytes: seq<byte>, inFile: bool)

  datatype HttpRequest = HttpRequest(
    protocol: seq<byte>,
    verb: seq<byte>,
    uri: seq<byte>,
    unparsedUri: seq<byte>,
    args: seq<byte>,
    headersIn: HeaderList,
    headersOut: HeaderList,
    contentLength: int,
    bufs: seq<Chunk>)

  const PROTO: seq<byte> := [0x70, 0x72, 0x6f, 0x74, 0x6f]
  const METHOD: seq<byte> := [0x6d, 0x65, 0x74, 0x68, 0x6f, 0x64]
  const URI: seq<byte> := [0x75, 0x72, 0x69]
  const ARGS: seq<byte> := [0x61, 0x72, 0x67, 0x73]
  const HEADERS: seq<byte> := [0x68, 0x65, 0x61, 0x64, 0x65, 0x72, 0x73]
  const ARGS_URLENCODED: seq<byte> :=
    [0x61, 0x72, 0x67, 0x73, 0x5f, 0x75, 0x72, 0x6c, 0x65, 0x6e, 0x63, 0x6f, 0x64, 0x65, 0x64]
  const BODY: seq<byte> := [0x62, 0x6f, 0x64, 0x79]

  /** The header of a map with one entry. */
  const ROW: seq<byte> := [0x81]

  function Flatten(parts: seq<seq<Pair>>): seq<Pair> {
    if parts == [] then [] else parts[0] + Flatten(parts[1..])
  }

  function Headers(l: HeaderList): seq<Pair> {
    if l.elementSize > 0 then Flatten(l.parts) else []
  }

  /** Only the first part of a list may be empty: a further part is added for an element. */
  predicate ListOk(l: HeaderList) {
    l.elementSize > 0 ==> l.parts != [] && forall i :: 0 < i < |l.parts| ==> l.parts[i] != []
  }

  function Whole(bufs: seq<Chunk>): seq<byte> {
    if bufs == [] then [] else bufs[0].bytes + Whole(bufs[1..])
  }

  predicate HasBody(r: HttpRequest) {
    r.contentLength > 0 && r.bufs != []
  }

  predicate InMemory(bufs: seq<Chunk>) {
    forall i :: 0 <= i < |bufs| ==> !bufs[i].inFile
  }

  /** What nginx guarantees of a request it hands over. */
  predicate RequestOk(r: HttpRequest) {
    && ListOk(r.headersIn)
    && ListOk(r.headersOut)
    && (HasBody(r) ==> |Whole(r.bufs)| == r.contentLength)
  }

  // ------------------------------------------------------------- the meaning

  datatype Content =
    | Text(s: seq<byte>)
    | Dict(pairs: seq<Pair>, unescape: bool)
    | Rows(pairs: seq<Pair>, unescape: bool)

  datatype Field = Field(name: seq<byte>, content: Content)

  function Line(o: Options, r: HttpRequest): seq<Field> {
    var uri := if o.subrequestUri then r.uri else r.unparsedUri;
    [Field(PROTO, Text(r.protocol)), Field(METHOD, Text(r.verb)), Field(URI, Text(Passed(uri, o.unescape)))]
  }

  function ArgsPart(o: Options, r: HttpRequest): seq<Field> {
    if o.parseArgs then [Field(ARGS, Dict(Args(r.args), o.unescape))] else []
  }

  function HeadersPart(o: Options, r: HttpRequest): seq<Field> {
    [Field(HEADERS, Dict(Headers(r.headersIn) + if o.passHeadersOut then Headers(r.headersOut) else [], false))]
  }

  function UrlencodedPart(o: Options, r: HttpRequest): seq<Field> {
    if o.parseUrlencoded && HasBody(r) then [Field(ARGS_URLENCODED, Rows(Args(Whole(r.bufs)), o.unescape))] else []
  }

  function BodyPart(o: Options, r: HttpRequest): seq<Field> {
    if o.passBody && HasBody(r) then [Field(BODY, Text(Whole(r.bufs)))] else []
  }

  /** The entries of the request map, for every combination of flags. */
  function Fields(o: Options, r: HttpRequest): seq<Field> {
    Line(o, r) + ArgsPart(o, r) + HeadersPart(o, r) + UrlencodedPart(o, r) + BodyPart(o, r)
  }

  function PairEntry(p: Pair, unescape: bool): Entry {
    Entry(Str(p.key), Str(Passed(p.value, unescape)))
  }

  function PairEntries(ps: seq<Pair>, unescape: bool): (r: seq<Entry>)
    ensures |r| == |ps|
  {
    if ps == [] then [] else [PairEntry(ps[0], unescape)] + PairEntries(ps[1..], unescape)
  }

  function PairRows(ps: seq<Pair>, unescape: bool): (r: seq<Mp>)
    ensures |r| == |ps|
  {
    if ps == [] then [] else [Map([PairEntry(ps[0], unescape)])] + PairRows(ps[1..], unescape)
  }

  function ContentValue(c: Content): Mp {
    match c
    case Text(s) => Str(s)
    case Dict(ps, u) => Map(PairEntries(ps, u))
    case Rows(ps, u) => Array(PairRows(ps, u))
  }

  function FieldEntries(fs: seq<Field>): (r: seq<Entry>)
    ensures |r| == |fs|
  {
    if fs == [] then [] else [Entry(Str(fs[0].name), ContentValue(fs[0].content))] + FieldEntries(fs[1..])
  }

  /** The value a location passes on for a request. */
  function RequestValue(o: Options, r: HttpRequest): Mp {
    Map(FieldEntries(Fields(o, r)))
  }

  // --------------------------------------------------------------- the bytes

  function ContentBytes(c: Content): seq<byte> {
    match c
    case Text(s) => EncStr(s)
    case Dict(ps, u) => WideMapHead(|ps|) + PairsBytes(ps, [], u)
    case Rows(ps, u) => WideArrayHead(|ps|) + PairsBytes(ps, ROW, u)
  }

  function FieldBytes(f: Field): seq<byte> {
    EncStr(f.name) + ContentBytes(f.content)
  }

  function FieldsBytes(fs: seq<Field>): (r: seq<byte>)
    ensures |r| >= |fs|
  {
    if fs == [] then [] else FieldBytes(fs[0]) + FieldsBytes(fs[1..])
  }

  function MapBytes(o: Options, r: HttpRequest): seq<byte> {
    WideMapHead(|Fields(o, r)|) + FieldsBytes(Fields(o, r))
  }

  lemma {:induction false} FieldsBytesConcat(a: seq<Field>, b: seq<Field>)
    ensures FieldsBytes(a + b) == FieldsBytes(a) + FieldsBytes(b)
  {
    hide FieldBytes;
    if a == [] {
      assert a + b == b;
    } else {
      assert (a + b)[0] == a[0] && (a + b)[1..] == a[1..] + b;
      FieldsBytesConcat(a[1..], b);
    }
  }

  lemma OneField(f: Field)
    ensures FieldsBytes([f]) == FieldBytes(f)
  {
    hide FieldBytes;
    assert [f][1..] == [];
  }

  // ---------------------------------------------------- the bytes are a value

  lemma ReadPair(bs: seq<byte>, i: nat, p: Pair, u: bool)
    requires |bs| < TWO_32 && At(bs, i, PairBytes(p, u))
    ensures EntriesAt(bs, i, [PairEntry(p, u)], i + |PairBytes(p, u)|)
  {
    hide Read, StrHead;
    AtSplit(bs, i, EncStr(p.key), EncStr(Passed(p.value, u)));
    ReadStr(bs, i, p.key);
    ReadStr(bs, i + |EncStr(p.key)|, Passed(p.value, u));
    EntriesSingle(bs, i, i + |EncStr(p.key)|, i + |PairBytes(p, u)|, PairEntry(p, u));
  }

  lemma {:induction false} ReadPairs(bs: seq<byte>, i: nat, ps: seq<Pair>, u: bool)
    requires |bs| < TWO_32 && At(bs, i, PairsBytes(ps, [], u))
    ensures EntriesAt(bs, i, PairEntries(ps, u), i + |PairsBytes(ps, [], u)|)
    decreases |ps|
  {
    hide Read, PairBytes, PairEntry;
    if ps != [] {
      var first, rest := PairBytes(ps[0], u), PairsBytes(ps[1..], [], u);
      assert PairsBytes(ps, [], u) == first + rest;
      AtSplit(bs, i, first, rest);
      ReadPair(bs, i, ps[0], u);
      ReadPairs(bs, i + |first|, ps[1..], u);
      EntriesConcat(bs, i, [PairEntry(ps[0], u)], i + |first|, PairEntries(ps[1..], u), i + |first| + |rest|);
    }
  }

  lemma {:induction false} ReadRows(bs: seq<byte>, i: nat, ps: seq<Pair>, u: bool)
    requires |bs| < TWO_32 && At(bs, i, PairsBytes(ps, ROW, u))
    ensures ItemsAt(bs, i, PairRows(ps, u), i + |PairsBytes(ps, ROW, u)|)
    decreases |ps|
  {
    hide Read, PairBytes, PairEntry;
    if ps != [] {
      var first, rest := PairBytes(ps[0], u), PairsBytes(ps[1..], ROW, u);
      assert PairsBytes(ps, ROW, u) == ROW + first + rest;
      AtSplit3(bs, i, ROW, first, rest);
      ReadPair(bs, i + 1, ps[0], u);
      assert ROW == MapHead(1);
      ReadMap(bs, i, 1, i + 1, [PairEntry(ps[0], u)], i + 1 + |first|);
      ReadRows(bs, i + 1 + |first|, ps[1..], u);
    }
  }

  lemma {:induction false} PairsSize(ps: seq<Pair>, prefix: seq<byte>, u: bool)
    ensures |PairsBytes(ps, prefix, u)| >= |ps|
  {
    if ps != [] {
      PairsSize(ps[1..], prefix, u);
    }
  }

  lemma ReadContent(bs: seq<byte>, i: nat, c: Content)
    requires |bs| < TWO_32 && At(bs, i, ContentBytes(c))
    ensures Read(bs, i) == Some((ContentValue(c), i + |ContentBytes(c)|))
  {
    hide ReadHead, PairsBytes, PairEntries, PairRows, StrHead, ReadItems, ReadEntries;
    match c
    case Text(s) =>
      ReadStr(bs, i, s);
    case Dict(ps, u) =>
      PairsSize(ps, [], u);
      AtSplit(bs, i, WideMapHead(|ps|), PairsBytes(ps, [], u));
      ReadWideHead(bs, i, 0xdf, |ps|);
      ReadPairs(bs, i + 5, ps, u);
    case Rows(ps, u) =>
      PairsSize(ps, ROW, u);
      AtSplit(bs, i, WideArrayHead(|ps|), PairsBytes(ps, ROW, u));
      ReadWideHead(bs, i, 0xdd, |ps|);
      ReadRows(bs, i + 5, ps, u);
  }

  lemma {:induction false} ReadFields(bs: seq<byte>, i: nat, fs: seq<Field>)
    requires |bs| < TWO_32 && At(bs, i, FieldsBytes(fs))
    ensures EntriesAt(bs, i, FieldEntries(fs), i + |FieldsBytes(fs)|)
    decreases |fs|
  {
    hide Read, StrHead, ContentBytes, ContentValue;
    if fs != [] {
      var name, content, rest := EncStr(fs[0].name), ContentBytes(fs[0].content), FieldsBytes(fs[1..]);
      assert FieldsBytes(fs) == name + content + rest;
      AtSplit3(bs, i, name, content, rest);
      ReadStr(bs, i, fs[0].name);
      ReadContent(bs, i + |name|, fs[0].content);
      ReadFields(bs, i + |name| + |content|, fs[1..]);
    }
  }

  /** One well-formed value: a map whose announced count is the number of its entries. */
  lemma MapReads(o: Options, r: HttpRequest, bs: seq<byte>, i: nat)
    requires |bs| < TWO_32 && At(bs, i, MapBytes(o, r))
    ensures Read(bs, i) == Some((RequestValue(o, r), i + |MapBytes(o, r)|))
  {
    hide ReadHead, FieldsBytes, FieldEntries, Fields, ReadEntries;
    var fs := Fields(o, r);
    AtSplit(bs, i, WideMapHead(|fs|), FieldsBytes(fs));
    ReadWideHead(bs, i, 0xdf, |fs|);
    ReadFields(bs, i + 5, fs);
  }
}

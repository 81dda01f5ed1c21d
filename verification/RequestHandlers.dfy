/** What becomes of the request map: an argument of its own call, or the first value of every tuple of a batch. */
module RequestHandlers {
  import opened Bytes
  import opened MsgPack
  import opened TpBuffer
  import opened Machine
  import opened Calls
  import opened Batches
  import opened Requests
  import opened RequestMap
  import opened RequestWriter

  /** tp_call_nargs with one argument, and the argument. */
  function QueryBody(name: seq<byte>, arg: seq<byte>): seq<byte> {
    [0x82] + FunctionEntry(name) + [TUPLE] + ArrayHead(1) + arg
  }

  /** ngx_http_tnt_query_handler: one call of the preset function, with the request as its argument. */
  method QueryHandler(o: Options, r: HttpRequest, name: seq<byte>, output: array<byte>) returns (ok: bool, last: nat)
    requires RequestOk(r) && 14 + |QueryBody(name, MapBytes(o, r))| <= output.Length
    modifies output
    ensures ok <==> Readable(o, r)
    ensures ok ==> last <= output.Length
    ensures ok ==> output[..last] == Frame(CALL, 0, QueryBody(name, MapBytes(o, r)))
  {
    hide MapBytes, Readable, RequestOk, FrameAt, Frame, Append, FunctionEntry;
    var tp := new TpStream(output);
    ghost var t := tp.State();
    var body := [0x82] + FunctionEntry(name) + [TUPLE];
    ok := tp.StartRequest(CALL, body, 14 + |body|);
    ok := tp.Encode(ArrayHead(1));
    AppendToFrame(t, CALL, 0, body, ArrayHead(1));
    ok := GetRequestData(tp, o, r);
    last := tp.p;
    AppendToFrame(t, CALL, 0, body + ArrayHead(1), MapBytes(o, r));
    if ok {
      FrameFirst(t, CALL, 0, body + ArrayHead(1) + MapBytes(o, r));
    }
  }

  // ------------------------------------------------------------ what is sent

  /** The frame of the query handler is a call of that function with the request map as the only argument. */
  lemma QueryReads(o: Options, r: HttpRequest, name: seq<byte>, bs: seq<byte>, i: nat)
    requires |bs| < TWO_32 && At(bs, i, Frame(CALL, 0, QueryBody(name, MapBytes(o, r))))
    ensures ReadRequest(bs, i)
         == Some((Requests.Request(CALL, 0, [FunctionValue(name), Entry(Uint(TUPLE), Array([RequestValue(o, r)]))]),
                  i + 14 + |QueryBody(name, MapBytes(o, r))|))
  {
    hide Frame, BodyAt, ReadRequest, FunctionEntry, MapBytes, RequestValue, ReadEntries;
    var arg := MapBytes(o, r);
    var tuple := [TUPLE] + ArrayHead(1) + arg;
    assert QueryBody(name, arg) == [0x82] + FunctionEntry(name) + tuple;
    RequestFromFrame(bs, i, CALL, 0, QueryBody(name, arg));
    AtSplit3(bs, i + 14, [0x82], FunctionEntry(name), tuple);
    var j := i + 15 + |FunctionEntry(name)|;
    ReadFunction(bs, i + 15, name);
    ReadArgument(o, r, bs, j);
    var es := [FunctionValue(name)] + [Entry(Uint(TUPLE), Array([RequestValue(o, r)]))];
    EntriesConcat(bs, i + 15, [FunctionValue(name)], j, [Entry(Uint(TUPLE), Array([RequestValue(o, r)]))], j + |tuple|);
    assert [0x82] == MapHead(2);
    Announced(bs, i + 14, 2, es, j + |tuple|);
    assert es == [FunctionValue(name), Entry(Uint(TUPLE), Array([RequestValue(o, r)]))];
  }

  lemma ReadArgument(o: Options, r: HttpRequest, bs: seq<byte>, j: nat)
    requires |bs| < TWO_32 && At(bs, j, [TUPLE] + ArrayHead(1) + MapBytes(o, r))
    ensures EntriesAt(bs, j, [Entry(Uint(TUPLE), Array([RequestValue(o, r)]))], j + 2 + |MapBytes(o, r)|)
  {
    hide ReadHead, MapBytes, RequestValue;
    var arg := MapBytes(o, r);
    AtSplit3(bs, j, [TUPLE], ArrayHead(1), arg);
    ReadSmallUint(bs, j, TUPLE);
    ReadArrayHead(bs, j + 1, 1);
    MapReads(o, r, bs, j + 2);
    var v, e := RequestValue(o, r), j + 2 + |arg|;
    assert ItemsAt(bs, j + 2, [v], e) by {
      assert ReadItems(bs, e, 0) == Some(([], e));
      assert [v] + [] == [v];
    }
    EntriesSingle(bs, j, j + 1, e, Entry(Uint(TUPLE), Array([v])));
  }

  /** The map passed on to the transcoder is the data every tuple of a batch begins with. */
  lemma RequestRidesAlong(c: Conf, o: Options, r: HttpRequest, mem: seq<byte>, doc: Document)
    requires c.data == MapBytes(o, r) && |c.data| < TWO_32
    requires CallsOk(c, doc.Calls()) && |mem| < TWO_32
    requires forall k :: 0 <= k < |doc.Calls()| ==> Complete(c, doc.Calls()[k])
    ensures DataIs(c, RequestValue(o, r))
    ensures var out := Run(c, Init(mem), DocumentEvents(doc));
            out.Ok? ==>
              && out.state.tp.p <= |out.state.tp.mem|
              && ReadRequests(out.state.tp.mem[..out.state.tp.p], 0, |doc.Calls()|)
                 == Some(RequestsOf(c, RequestValue(o, r), doc.Calls()))
  {
    hide Run, Stream, ReadRequests, CallOk, Complete, RequestValue, Read, IdsOk;
    assert c.data[0..|c.data|] == c.data;
    Transcode(c, mem, doc);
    MapReads(o, r, c.data, 0);
    OutputMeansCalls(c, RequestValue(o, r), mem, doc);
  }
}

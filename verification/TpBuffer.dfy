/**
 struct tp of third_party/tp.h with a fixed buffer (no reserve function): the
 output position, and where the length field and the sync field of the request
 under way are. Tp and its functions say what the memory holds;
 the class TpStream does the writing.
 */
module TpBuffer {
  import opened Bytes

  const CALL: byte := 10
  const FUNCTION: byte := 0x22
  const TUPLE: byte := 0x21

  /** mem is [s, e), the other fields are offsets into it. */
  datatype Tp = Tp(mem: seq<byte>, p: nat, size: Option<nat>, sync: Option<nat>)

  predicate Fits(t: Tp, n: nat) {
    t.p + n <= |t.mem|
  }

  /** The request length field is in the buffer, so tp_add may be called. */
  predicate Started(t: Tp) {
    && t.p <= |t.mem|
    && t.size.Some?
    && t.size.value + 5 <= |t.mem|
  }

  function LengthField(n: nat): (r: seq<byte>)
    ensures |r| == 5
  {
    [0xce] + BE32(n)
  }

  /** tp_add: advance over n bytes and restate the length of the request. */
  function Add(t: Tp, n: nat): (r: Tp)
    requires Started(t) && Fits(t, n) && t.size.value + 5 <= t.p + n
    ensures Started(r) && r == t.(mem := r.mem, p := t.p + n) && |r.mem| == |t.mem|
  {
    var p := t.p + n;
    t.(p := p, mem := Put(t.mem, t.size.value, LengthField(p - t.size.value - 5)))
  }

  /** Every tp_encode function with room: bytes at p, then tp_add. */
  function Append(t: Tp, bs: seq<byte>): (r: Tp)
    requires Started(t) && Fits(t, |bs|) && t.size.value + 5 <= t.p + |bs|
    ensures Started(r) && r == t.(mem := r.mem, p := t.p + |bs|) && |r.mem| == |t.mem|
  {
    Add(t.(mem := Put(t.mem, t.p, bs)), |bs|)
  }

  /** Five bytes reserved for a header that is written when the container closes. */
  function Reserve(t: Tp): (r: Tp)
    requires Started(t) && Fits(t, 5) && t.size.value <= t.p
    ensures Started(r) && r == t.(mem := r.mem, p := t.p + 5) && |r.mem| == |t.mem|
  {
    Add(t, 5)
  }

  function Patch(t: Tp, i: nat, bs: seq<byte>): (r: Tp)
    requires i + |bs| <= |t.mem|
    ensures r == t.(mem := r.mem) && |r.mem| == |t.mem|
  {
    t.(mem := Put(t.mem, i, bs))
  }

  // ------------------------------------------------------------------ frames

  /** The header map {code: c, sync: id} as tpi_encode_header and tp_reqid leave it. */
  function Header(code: byte, id: nat): (r: seq<byte>)
    ensures |r| == 9
  {
    [0x82, 0x00, code, 0x01, 0xce] + BE32(id)
  }

  /** A whole request: length field, header map, body. */
  function Frame(code: byte, id: nat, body: seq<byte>): (r: seq<byte>)
    ensures |r| == 14 + |body|
  {
    LengthField(9 + |body|) + Header(code, id) + body
  }

  /** The buffer t with one frame begun at t.p and written so far up to the end of body. */
  function FrameAt(t: Tp, code: byte, id: nat, body: seq<byte>): (r: Tp)
    requires Fits(t, 14 + |body|)
    ensures Started(r) && |r.mem| == |t.mem|
    ensures r == Tp(r.mem, t.p + 14 + |body|, Some(t.p), Some(t.p + 9))
  {
    Tp(Put(t.mem, t.p, Frame(code, id, body)), t.p + 14 + |body|, Some(t.p), Some(t.p + 9))
  }

  /** What a request function does: returns NULL, writes past the end of the buffer, or begins a frame. */
  datatype Start = NotBegun | Overrun | Begun(t: Tp)

  /** tp_ensure asks for ensured bytes, and then 14 + |body| are written. */
  function StartOf(t: Tp, code: byte, body: seq<byte>, ensured: nat): Start {
    if !Fits(t, ensured) then NotBegun
    else if !Fits(t, 14 + |body|) then Overrun
    else Begun(FrameAt(t, code, 0, body))
  }

  /** tp_call_wof: a CALL frame whose body map announces two entries. */
  function CallWof(t: Tp): (r: Tp)
    requires Fits(t, 15)
  {
    FrameAt(t, CALL, 0, [0x82])
  }

  /** tp_reqid. */
  function Reqid(t: Tp, id: nat): (r: Tp)
    requires t.sync.Some? && t.sync.value + 5 <= |t.mem|
    ensures r == t.(mem := r.mem) && |r.mem| == |t.mem|
  {
    Patch(t, t.sync.value, [0xce] + BE32(id))
  }

  lemma AppendToFrame(t: Tp, code: byte, id: nat, body: seq<byte>, bs: seq<byte>)
    requires Fits(t, 14 + |body| + |bs|)
    ensures Append(FrameAt(t, code, id, body), bs) == FrameAt(t, code, id, body + bs)
  {
    hide LengthField, Header;
    assert Append(FrameAt(t, code, id, body), bs).mem == FrameAt(t, code, id, body + bs).mem;
  }

  lemma ReqidOnFrame(t: Tp, code: byte, id: nat, body: seq<byte>, id': nat)
    requires Fits(t, 14 + |body|)
    ensures Reqid(FrameAt(t, code, id, body), id') == FrameAt(t, code, id', body)
  {
    hide LengthField, BE32;
    assert Reqid(FrameAt(t, code, id, body), id').mem == FrameAt(t, code, id', body).mem;
  }

  lemma PutBefore(m: seq<byte>, i: nat, a: seq<byte>, b: seq<byte>)
    requires i + |a| + |b| <= |m|
    ensures Put(Put(m, i + |a|, b), i, a) == Put(m, i, a + b)
  {
  }

  lemma FrameFromParts(m: seq<byte>, i: nat, code: byte, id: nat, body: seq<byte>)
    requires i + 14 + |body| <= |m|
    ensures Put(Put(m, i + 5, Header(code, id) + body), i, LengthField(9 + |body|)) == Put(m, i, Frame(code, id, body))
  {
    hide Header, LengthField, Put;
    PutBefore(m, i, LengthField(9 + |body|), Header(code, id) + body);
    assert LengthField(9 + |body|) + (Header(code, id) + body) == Frame(code, id, body);
  }

  /** Frames one after the other: the second begins where the first ends. */
  lemma FrameAfter(t: Tp, a: seq<byte>, b: seq<byte>)
    requires Fits(t, |a| + |b|)
    ensures Put(Put(t.mem, t.p, a), t.p + |a|, b) == Put(t.mem, t.p, a + b)
  {
  }

  lemma AppendAppend(t: Tp, a: seq<byte>, b: seq<byte>)
    requires Started(t) && Fits(t, |a| + |b|) && t.size.value + 5 <= t.p
    ensures Append(Append(t, a), b) == Append(t, a + b)
  {
    hide LengthField;
    assert Append(Append(t, a), b).mem == Append(t, a + b).mem;
  }

  /** Back-patching: reserve, write the children, patch the header - as if written in order. */
  lemma PatchReserved(t: Tp, head: seq<byte>, children: seq<byte>)
    requires |head| == 5
    requires Started(t) && Fits(t, 5 + |children|) && t.size.value + 5 <= t.p
    ensures Patch(Append(Reserve(t), children), t.p, head) == Append(t, head + children)
  {
    hide LengthField;
    assert Patch(Append(Reserve(t), children), t.p, head).mem == Append(t, head + children).mem;
  }

  lemma PatchEmpty(t: Tp, head: seq<byte>)
    requires |head| == 5
    requires Started(t) && Fits(t, 5) && t.size.value + 5 <= t.p
    ensures Patch(Reserve(t), t.p, head) == Append(t, head)
  {
    hide LengthField;
    assert Patch(Reserve(t), t.p, head).mem == Append(t, head).mem;
  }

  lemma FrameFirst(t: Tp, code: byte, id: nat, body: seq<byte>)
    requires Fits(t, 14 + |body|) && t.p == 0
    ensures var u := FrameAt(t, code, id, body); u.p <= |u.mem| && u.mem[..u.p] == Frame(code, id, body)
  {
    hide Frame;
  }

  /** The length field says how much follows it, as tp_add leaves it. */
  ghost predicate Counted(t: Tp) {
    && Started(t)
    && t.size.value + 5 <= t.p
    && At(t.mem, t.size.value, LengthField(t.p - t.size.value - 5))
  }

  lemma AppendEmpty(t: Tp)
    requires Counted(t)
    ensures Append(t, []) == t
  {
    hide LengthField;
    assert forall k {:trigger t.mem[k]} :: 0 <= k < 5 ==>
      t.mem[t.size.value + k] == t.mem[t.size.value..t.size.value + 5][k];
    assert Append(t, []).mem == t.mem;
  }

  lemma AppendCounted(t: Tp, bs: seq<byte>)
    requires Started(t) && Fits(t, |bs|) && t.size.value + 5 <= t.p + |bs|
    ensures Counted(Append(t, bs))
  {
    hide LengthField;
    var i, u := t.size.value, Append(t, bs);
    assert u.mem[i..i + 5] == LengthField(u.p - i - 5);
  }

  lemma FrameCounted(t: Tp, code: byte, id: nat, body: seq<byte>)
    requires Fits(t, 14 + |body|)
    ensures Counted(FrameAt(t, code, id, body))
  {
    hide LengthField, Header;
    assert FrameAt(t, code, id, body).mem[t.p..t.p + 5] == LengthField(9 + |body|);
  }

  // --------------------------------------------------------------- the stream

  class TpStream {
    const buf: array<byte>
    var p: nat
    var size: Option<nat>
    var sync: Option<nat>

    ghost predicate Valid()
      reads this
    {
      && p <= buf.Length
      && (size.Some? ==> size.value + 5 <= p)
      && (sync.Some? ==> sync.value + 5 <= p)
    }

    ghost function State(): Tp
      reads this, buf
    {
      Tp(buf[..], p, size, sync)
    }

    /** tp_init. */
    constructor (output: array<byte>)
      ensures Valid() && buf == output
      ensures State() == Tp(output[..], 0, None, None)
    {
      buf := output;
      p, size, sync := 0, None, None;
    }

    /** memcpy to offset i. */
    method Write(i: nat, bs: seq<byte>)
      requires i + |bs| <= buf.Length
      modifies buf
      ensures buf[..] == Put(old(buf[..]), i, bs)
    {
      for k := 0 to |bs|
        invariant buf[..] == Put(old(buf[..]), i, bs[..k])
      {
        buf[i + k] := bs[k];
      }
      assert bs[..|bs|] == bs;
    }

    /** tp_add. */
    method Advance(n: nat)
      requires size.Some? && size.value <= p && size.value + 5 <= p + n <= buf.Length
      requires sync.Some? ==> sync.value + 5 <= p + n
      modifies `p, buf
      ensures Valid() && State() == Add(old(State()), n)
    {
      p := p + n;
      Write(size.value, LengthField(p - size.value - 5));
    }

    /** tp_encode_nil, _bool, _uint, _int, _str, _array, _map: all ensure, write and add. */
    method Encode(bs: seq<byte>) returns (ok: bool)
      requires Valid() && size.Some?
      modifies this, buf
      ensures Valid()
      ensures ok <==> Fits(old(State()), |bs|)
      ensures State() == if ok then Append(old(State()), bs) else old(State())
    {
      ok := buf.Length - p >= |bs|;
      if ok {
        Write(p, bs);
        Advance(|bs|);
      }
    }

    /** tp_add over the five bytes of a header written later. */
    method Skip()
      requires size.Some? && size.value <= p && Fits(State(), 5)
      requires sync.Some? ==> sync.value <= p
      modifies `p, buf
      ensures Valid() && State() == Reserve(old(State()))
    {
      hide Put, LengthField;
      Advance(5);
    }

    /** The header stored at the place skipped. */
    method Fill(i: nat, head: seq<byte>)
      requires Valid() && i + |head| <= p
      modifies buf
      ensures Valid() && State() == Patch(old(State()), i, head)
    {
      hide Put;
      Write(i, head);
    }

    /**
     The request functions: tp_ensure of as many bytes as the function names
     (some leave out the 14 bytes of length field and header), then all at once.
     */
    method StartRequest(code: byte, body: seq<byte>, ensured: nat) returns (ok: bool)
      requires Valid() && StartOf(State(), code, body, ensured) != Overrun
      modifies this, buf
      ensures Valid()
      ensures ok <==> StartOf(old(State()), code, body, ensured).Begun?
      ensures State() == if ok then FrameAt(old(State()), code, 0, body) else old(State())
    {
      hide Header, LengthField, Frame, Put;
      ok := buf.Length - p >= ensured;
      if ok {
        size, sync := Some(p), Some(p + 9);
        Write(p + 5, Header(code, 0) + body);
        Advance(14 + |body|);
        FrameFromParts(old(buf[..]), old(p), code, 0, body);
      }
    }

    /** tp_call_wof. */
    method StartCall() returns (ok: bool)
      requires Valid()
      modifies this, buf
      ensures Valid()
      ensures ok <==> Fits(old(State()), 15)
      ensures State() == if ok then CallWof(old(State())) else old(State())
    {
      hide FrameAt;
      ok := StartRequest(CALL, [0x82], 15);
    }

    /** tp_reqid. */
    method SetRequestId(id: nat)
      requires Valid() && sync.Some?
      modifies buf
      ensures State() == Reqid(old(State()), id)
    {
      Write(sync.value, [0xce] + BE32(id));
    }
  }
}

/**
 MessagePack, as the msgpuck calls of tp.h use it: the encoders choose the
 shortest form, and one reader accepts every form but floats and extensions.
 */
module MsgPack {
  import opened Bytes

  /** A value. Int is the class read by mp_decode_int, Uint the one read by mp_decode_uint. */
  datatype Mp =
    | Nil
    | Bool(b: bool)
    | Uint(n: nat)
    | Int(i: int)
    | Str(s: seq<byte>)
    | Bin(s: seq<byte>)
    | Array(items: seq<Mp>)
    | Map(entries: seq<Entry>)

  datatype Entry = Entry(key: Mp, value: Mp)

  // ---------------------------------------------------------------- encoders

  const NIL: seq<byte> := [0xc0]

  function EncBool(b: bool): seq<byte> {
    if b then [0xc3] else [0xc2]
  }

  function EncUint(n: nat): (r: seq<byte>)
    requires n < TWO_64
    ensures 0 < |r| <= 9
  {
    if n <= 0x7f then [n]
    else if n <= 0xff then [0xcc, n]
    else if n <= 0xffff then [0xcd] + BE16(n)
    else if n <= 0xffff_ffff then [0xce] + BE32(n)
    else [0xcf] + BE64(n)
  }

  function EncInt(i: int): (r: seq<byte>)
    requires -TWO_63 <= i < 0
    ensures 0 < |r| <= 9
  {
    if i >= -0x20 then [0x100 + i]
    else if i >= -0x80 then [0xd0, 0x100 + i]
    else if i >= -0x8000 then [0xd1] + BE16(TWO_16 + i)
    else if i >= -0x8000_0000 then [0xd2] + BE32(TWO_32 + i)
    else [0xd3] + BE64(TWO_64 + i)
  }

  function StrHead(len: nat): (r: seq<byte>)
    ensures 0 < |r| <= 5
  {
    if len <= 31 then [0xa0 + len]
    else if len <= 0xff then [0xd9, len]
    else if len <= 0xffff then [0xda] + BE16(len)
    else [0xdb] + BE32(len)
  }

  function EncStr(s: seq<byte>): seq<byte> {
    StrHead(|s|) + s
  }

  function ArrayHead(n: nat): (r: seq<byte>)
    ensures 0 < |r| <= 5
  {
    if n <= 15 then [0x90 + n]
    else if n <= 0xffff then [0xdc] + BE16(n)
    else [0xdd] + BE32(n)
  }

  function MapHead(n: nat): (r: seq<byte>)
    ensures 0 < |r| <= 5
  {
    if n <= 15 then [0x80 + n]
    else if n <= 0xffff then [0xde] + BE16(n)
    else [0xdf] + BE32(n)
  }

  // ------------------------------------------------------------------ reader

  /** What the first bytes of a value announce. */
  datatype Head =
    | HNil
    | HBool(b: bool)
    | HUint(n: nat)
    | HInt(i: int)
    | HStr(len: nat)
    | HBin(len: nat)
    | HArray(count: nat)
    | HMap(count: nat)

  /** The w-byte big-endian number at bs[i..], when it is all there. */
  function Number(bs: seq<byte>, i: nat, w: nat): (r: Option<nat>)
    requires w == 1 || w == 2 || w == 4 || w == 8
    ensures r.Some? <==> i + w <= |bs|
    ensures r.Some? && w == 1 ==> r.value < 0x100
    ensures r.Some? && w == 2 ==> r.value < TWO_16
    ensures r.Some? && w == 4 ==> r.value < TWO_32
    ensures r.Some? ==> r.value < TWO_64
  {
    if i + w > |bs| then None
    else if w == 1 then Some(bs[i])
    else if w == 2 then Some(U16(bs[i..i + 2]))
    else if w == 4 then Some(U32(bs[i..i + 4]))
    else Some(U64(bs[i..i + 8]))
  }

  /** n read as a two's complement number below the given power of two. */
  function Signed(n: nat, power: nat): int {
    if n < power / 2 then n else n - power
  }

  /** The head at bs[i] and the offset after it; None when cut off, a float, an extension or unused. */
  function ReadHead(bs: seq<byte>, i: nat): (r: Option<(Head, nat)>)
    requires i <= |bs|
    ensures r.Some? ==> i < r.value.1 <= |bs|
    ensures r.Some? && r.value.0.HUint? ==> r.value.0.n < TWO_64
    ensures r.Some? && r.value.0.HInt? ==> -TWO_63 <= r.value.0.i < TWO_63
  {
    if i == |bs| then None
    else
      var c: int := bs[i];
      if c <= 0x7f then Some((HUint(c), i + 1))
      else if c <= 0x8f then Some((HMap(c - 0x80), i + 1))
      else if c <= 0x9f then Some((HArray(c - 0x90), i + 1))
      else if c <= 0xbf then Some((HStr(c - 0xa0), i + 1))
      else if c == 0xc0 then Some((HNil, i + 1))
      else if c == 0xc2 then Some((HBool(false), i + 1))
      else if c == 0xc3 then Some((HBool(true), i + 1))
      else if c >= 0xe0 then Some((HInt(c - 0x100), i + 1))
      else
        var w :=
          if c == 0xcc || c == 0xd0 || c == 0xd9 || c == 0xc4 then 1
          else if c == 0xcd || c == 0xd1 || c == 0xda || c == 0xc5 || c == 0xdc || c == 0xde then 2
          else if c == 0xcf || c == 0xd3 then 8
          else 4;
        match Number(bs, i + 1, w)
        case None => None
        case Some(n) =>
          if 0xcc <= c <= 0xcf then Some((HUint(n), i + 1 + w))
          else if c == 0xd0 then Some((HInt(Signed(n, 0x100)), i + 1 + w))
          else if c == 0xd1 then Some((HInt(Signed(n, TWO_16)), i + 1 + w))
          else if c == 0xd2 then Some((HInt(Signed(n, TWO_32)), i + 1 + w))
          else if c == 0xd3 then Some((HInt(Signed(n, TWO_64)), i + 1 + w))
          else if 0xd9 <= c <= 0xdb then Some((HStr(n), i + 1 + w))
          else if 0xc4 <= c <= 0xc6 then Some((HBin(n), i + 1 + w))
          else if 0xdc <= c <= 0xdd then Some((HArray(n), i + 1 + w))
          else if 0xde <= c <= 0xdf then Some((HMap(n), i + 1 + w))
          else None
  }

  /** The value at bs[i] and the offset after it. */
  function Read(bs: seq<byte>, i: nat): (r: Option<(Mp, nat)>)
    requires i <= |bs|
    ensures r.Some? ==> i < r.value.1 <= |bs|
    decreases |bs| - i, 0, 0
  {
    match ReadHead(bs, i)
    case None => None
    case Some((h, j)) =>
      match h
      case HNil => Some((Nil, j))
      case HBool(b) => Some((Bool(b), j))
      case HUint(n) => Some((Uint(n), j))
      case HInt(v) => Some((Int(v), j))
      case HStr(len) => if j + len <= |bs| then Some((Str(bs[j..j + len]), j + len)) else None
      case HBin(len) => if j + len <= |bs| then Some((Bin(bs[j..j + len]), j + len)) else None
      case HArray(n) =>
        (match ReadItems(bs, j, n)
         case None => None
         case Some((items, k)) => Some((Array(items), k)))
      case HMap(n) =>
        (match ReadEntries(bs, j, n)
         case None => None
         case Some((entries, k)) => Some((Map(entries), k)))
  }

  /** The n values from bs[i] on. */
  function ReadItems(bs: seq<byte>, i: nat, n: nat): (r: Option<(seq<Mp>, nat)>)
    requires i <= |bs|
    ensures r.Some? ==> i <= r.value.1 <= |bs| && |r.value.0| == n
    decreases |bs| - i, 1, n
  {
    if n == 0 then Some(([], i))
    else
      match Read(bs, i)
      case None => None
      case Some((v, j)) =>
        match ReadItems(bs, j, n - 1)
        case None => None
        case Some((vs, k)) => Some(([v] + vs, k))
  }

  /** The n key-value pairs from bs[i] on. */
  function ReadEntries(bs: seq<byte>, i: nat, n: nat): (r: Option<(seq<Entry>, nat)>)
    requires i <= |bs|
    ensures r.Some? ==> i <= r.value.1 <= |bs| && |r.value.0| == n
    decreases |bs| - i, 1, n
  {
    if n == 0 then Some(([], i))
    else
      match Read(bs, i)
      case None => None
      case Some((k, j)) =>
        match Read(bs, j)
        case None => None
        case Some((v, j')) =>
          match ReadEntries(bs, j', n - 1)
          case None => None
          case Some((es, e)) => Some(([Entry(k, v)] + es, e))
  }

  // -------------------------------------------------------- looking up a key

  /** The value under a key: that of the first entry with it. */
  function Lookup(es: seq<Entry>, key: Mp): Option<Mp> {
    if es == [] then None else if es[0].key == key then Some(es[0].value) else Lookup(es[1..], key)
  }

  lemma {:induction false} LookupConcat(a: seq<Entry>, b: seq<Entry>, key: Mp)
    ensures Lookup(a + b, key) == if Lookup(a, key).Some? then Lookup(a, key) else Lookup(b, key)
    decreases |a|
  {
    if a == [] {
      assert a + b == b;
    } else {
      assert (a + b)[0] == a[0] && (a + b)[1..] == a[1..] + b;
      LookupConcat(a[1..], b, key);
    }
  }

  // ------------------------------------------------- the reader undoes encoders

  lemma NumberAt(bs: seq<byte>, i: nat, n: nat)
    ensures n < TWO_16 && At(bs, i, BE16(n)) ==> Number(bs, i, 2) == Some(n)
    ensures n < TWO_32 && At(bs, i, BE32(n)) ==> Number(bs, i, 4) == Some(n)
    ensures n < TWO_64 && At(bs, i, BE64(n)) ==> Number(bs, i, 8) == Some(n)
  {
    hide BE16, BE32, BE64, U16, U32, U64;
    U16OfBE16(n);
    U32OfBE32(n);
    if n < TWO_64 {
      U64OfBE64(n);
    }
  }

  lemma ReadUint(bs: seq<byte>, i: nat, n: nat)
    requires n < TWO_64 && At(bs, i, EncUint(n))
    ensures Read(bs, i) == Some((Uint(n), i + |EncUint(n)|))
  {
    AtFirst(bs, i, EncUint(n));
    if 0x7f < n <= 0xff {
      AtFirst(bs, i + 1, [n]);
    }
    NumberAt(bs, i + 1, n);
  }

  lemma ReadInt(bs: seq<byte>, i: nat, v: int)
    requires -TWO_63 <= v < 0 && At(bs, i, EncInt(v))
    ensures Read(bs, i) == Some((Int(v), i + |EncInt(v)|))
  {
    AtFirst(bs, i, EncInt(v));
    if -0x80 <= v < -0x20 {
      AtFirst(bs, i + 1, [0x100 + v]);
    }
    NumberAt(bs, i + 1, if v >= -0x8000 then TWO_16 + v else if v >= -0x8000_0000 then TWO_32 + v else TWO_64 + v);
  }

  lemma ReadConstant(bs: seq<byte>, i: nat)
    ensures At(bs, i, NIL) ==> Read(bs, i) == Some((Nil, i + 1))
    ensures forall b :: At(bs, i, EncBool(b)) ==> Read(bs, i) == Some((Bool(b), i + 1))
  {
    forall e: seq<byte> | e != [] && At(bs, i, e)
      ensures bs[i] == e[0]
    {
      AtFirst(bs, i, e);
    }
  }

  lemma ReadStrHead(bs: seq<byte>, i: nat, n: nat)
    requires n < TWO_32 && At(bs, i, StrHead(n))
    ensures ReadHead(bs, i) == Some((HStr(n), i + |StrHead(n)|))
  {
    AtFirst(bs, i, StrHead(n));
    if 31 < n <= 0xff {
      AtFirst(bs, i + 1, [n]);
    }
    NumberAt(bs, i + 1, n);
  }

  lemma ReadArrayHead(bs: seq<byte>, i: nat, n: nat)
    requires n < TWO_32 && At(bs, i, ArrayHead(n))
    ensures ReadHead(bs, i) == Some((HArray(n), i + |ArrayHead(n)|))
  {
    AtFirst(bs, i, ArrayHead(n));
    NumberAt(bs, i + 1, n);
  }

  lemma ReadMapHead(bs: seq<byte>, i: nat, n: nat)
    requires n < TWO_32 && At(bs, i, MapHead(n))
    ensures ReadHead(bs, i) == Some((HMap(n), i + |MapHead(n)|))
  {
    AtFirst(bs, i, MapHead(n));
    NumberAt(bs, i + 1, n);
  }

  /** The five-byte headers the transcoder patches in by hand, and the length field of a frame. */
  lemma ReadWideHead(bs: seq<byte>, i: nat, tag: byte, n: nat)
    requires tag == 0xdd || tag == 0xdf || tag == 0xce
    requires n < TWO_32 && At(bs, i, [tag] + BE32(n))
    ensures var head := if tag == 0xdd then HArray(n) else if tag == 0xdf then HMap(n) else HUint(n);
            ReadHead(bs, i) == Some((head, i + 5))
  {
    AtFirst(bs, i, [tag] + BE32(n));
    assert ([tag] + BE32(n))[1..] == BE32(n);
    NumberAt(bs, i + 1, n);
  }

  lemma ReadStr(bs: seq<byte>, i: nat, s: seq<byte>)
    requires |s| < TWO_32 && At(bs, i, EncStr(s))
    ensures Read(bs, i) == Some((Str(s), i + |EncStr(s)|))
  {
    AtSplit(bs, i, StrHead(|s|), s);
    ReadStrHead(bs, i, |s|);
  }
}

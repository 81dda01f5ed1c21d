/** The formats everything else is stated in, byte by byte: MessagePack, JSON escapes, percent-encoding, query texts. */
module Formats {
  import opened Bytes
  import opened MsgPack
  import opened JsonText
  import opened JsonReader
  import opened Unicode
  import opened UrlCoding
  import opened QueryArgs

  // ----------------------------------------------------- numbers and heads

  /** Numbers are stored with their highest byte first. */
  lemma HighestFirst(n: nat)
    ensures n < 0x1_0000 ==> 0x100 * BE16(n)[0] as int + BE16(n)[1] as int == n
    ensures n < 0x1_0000_0000 ==>
      0x100_0000 * BE32(n)[0] as int + 0x1_0000 * BE32(n)[1] as int + 0x100 * BE32(n)[2] as int + BE32(n)[3] as int == n
    ensures BE64(n)[..4] == BE32(n / 0x1_0000_0000) && BE64(n)[4..] == BE32(n)
  {
    U16OfBE16(n);
    U32OfBE32(n);
    hide BE16, BE32;
  }

  /** The number in n bytes at bs[i], highest first. */
  function NumberAt(bs: seq<byte>, i: nat, n: nat): nat
    requires i + n <= |bs|
    decreases n
  {
    if n == 0 then 0 else 0x100 * NumberAt(bs, i, n - 1) + bs[i + n - 1]
  }

  lemma NumberIs(bs: seq<byte>, i: nat)
    ensures i + 1 <= |bs| ==> Number(bs, i, 1) == Some(NumberAt(bs, i, 1))
    ensures i + 2 <= |bs| ==> Number(bs, i, 2) == Some(NumberAt(bs, i, 2))
    ensures i + 4 <= |bs| ==> Number(bs, i, 4) == Some(NumberAt(bs, i, 4))
    ensures i + 8 <= |bs| ==> Number(bs, i, 8) == Some(NumberAt(bs, i, 8))
  {
    if i + 2 <= |bs| {
      assert NumberAt(bs, i, 2) == 0x100 * bs[i] as int + bs[i + 1] as int;
    }
    if i + 4 <= |bs| {
      FourBytes(bs, i);
    }
    if i + 8 <= |bs| {
      FourBytes(bs, i);
      FourBytes(bs, i + 4);
      EightBytes(bs, i);
    }
  }

  lemma FourBytes(bs: seq<byte>, i: nat)
    requires i + 4 <= |bs|
    ensures NumberAt(bs, i, 4) == U32(bs[i..i + 4])
  {
    assert NumberAt(bs, i, 2) == 0x100 * bs[i] as int + bs[i + 1] as int;
    assert NumberAt(bs, i, 3) == 0x100 * NumberAt(bs, i, 2) + bs[i + 2] as int;
  }

  lemma EightBytes(bs: seq<byte>, i: nat)
    requires i + 8 <= |bs|
    ensures NumberAt(bs, i, 8) == NumberAt(bs, i, 4) * 0x1_0000_0000 + NumberAt(bs, i + 4, 4)
    ensures U64(bs[i..i + 8]) == U32(bs[i..i + 4]) * 0x1_0000_0000 + U32(bs[i + 4..i + 8])
  {
    assert bs[i..i + 8][..4] == bs[i..i + 4] && bs[i..i + 8][4..] == bs[i + 4..i + 8];
    assert NumberAt(bs, i, 5) == 0x100 * NumberAt(bs, i, 4) + bs[i + 4] as int;
    assert NumberAt(bs, i, 6) == 0x100 * NumberAt(bs, i, 5) + bs[i + 5] as int;
    assert NumberAt(bs, i, 7) == 0x100 * NumberAt(bs, i, 6) + bs[i + 6] as int;
    assert NumberAt(bs, i, 8) == 0x100 * NumberAt(bs, i, 7) + bs[i + 7] as int;
    assert NumberAt(bs, i + 4, 2) == 0x100 * bs[i + 4] as int + bs[i + 5] as int;
    assert NumberAt(bs, i + 4, 3) == 0x100 * NumberAt(bs, i + 4, 2) + bs[i + 6] as int;
    assert NumberAt(bs, i + 4, 4) == 0x100 * NumberAt(bs, i + 4, 3) + bs[i + 7] as int;
  }

  /** A head of w bytes, its code c and the number behind it. */
  predicate Wide(bs: seq<byte>, i: nat, c: byte, w: nat, n: nat)
    requires i < |bs| && w >= 1
  {
    bs[i] == c && i + w <= |bs| && n == NumberAt(bs, i + 1, w - 1)
  }

  /** A number of w bytes as a two's complement one. */
  function TwosComplement(n: nat, power: nat): int {
    if n < power / 2 then n else n - power
  }

  predicate UintAt(bs: seq<byte>, i: nat, n: nat, w: nat)
    requires i < |bs|
  {
    || (w == 1 && bs[i] <= 0x7f && n == bs[i])
    || (w == 2 && Wide(bs, i, 0xcc, 2, n))
    || (w == 3 && Wide(bs, i, 0xcd, 3, n))
    || (w == 5 && Wide(bs, i, 0xce, 5, n))
    || (w == 9 && Wide(bs, i, 0xcf, 9, n))
  }

  predicate IntAt(bs: seq<byte>, i: nat, z: int, w: nat)
    requires i < |bs|
  {
    || (w == 1 && bs[i] >= 0xe0 && z == bs[i] as int - 0x100)
    || (w == 2 && i + 2 <= |bs| && bs[i] == 0xd0 && z == TwosComplement(NumberAt(bs, i + 1, 1), 0x100))
    || (w == 3 && i + 3 <= |bs| && bs[i] == 0xd1 && z == TwosComplement(NumberAt(bs, i + 1, 2), 0x1_0000))
    || (w == 5 && i + 5 <= |bs| && bs[i] == 0xd2 && z == TwosComplement(NumberAt(bs, i + 1, 4), 0x1_0000_0000))
    || (w == 9 && i + 9 <= |bs| && bs[i] == 0xd3
        && z == TwosComplement(NumberAt(bs, i + 1, 8), 0x1_0000_0000_0000_0000))
  }

  predicate StrHeadAt(bs: seq<byte>, i: nat, n: nat, w: nat)
    requires i < |bs|
  {
    || (w == 1 && 0xa0 <= bs[i] <= 0xbf && n == bs[i] as int - 0xa0)
    || (w == 2 && Wide(bs, i, 0xd9, 2, n))
    || (w == 3 && Wide(bs, i, 0xda, 3, n))
    || (w == 5 && Wide(bs, i, 0xdb, 5, n))
  }

  predicate BinHeadAt(bs: seq<byte>, i: nat, n: nat, w: nat)
    requires i < |bs|
  {
    || (w == 2 && Wide(bs, i, 0xc4, 2, n))
    || (w == 3 && Wide(bs, i, 0xc5, 3, n))
    || (w == 5 && Wide(bs, i, 0xc6, 5, n))
  }

  predicate ArrayHeadAt(bs: seq<byte>, i: nat, n: nat, w: nat)
    requires i < |bs|
  {
    || (w == 1 && 0x90 <= bs[i] <= 0x9f && n == bs[i] as int - 0x90)
    || (w == 3 && Wide(bs, i, 0xdc, 3, n))
    || (w == 5 && Wide(bs, i, 0xdd, 5, n))
  }

  predicate MapHeadAt(bs: seq<byte>, i: nat, n: nat, w: nat)
    requires i < |bs|
  {
    || (w == 1 && 0x80 <= bs[i] <= 0x8f && n == bs[i] as int - 0x80)
    || (w == 3 && Wide(bs, i, 0xde, 3, n))
    || (w == 5 && Wide(bs, i, 0xdf, 5, n))
  }

  /** The head h stands in w bytes at bs[i], as the MessagePack format has it. */
  predicate HeadAt(bs: seq<byte>, i: nat, h: Head, w: nat)
    requires i < |bs|
  {
    match h
    case HNil => w == 1 && bs[i] == 0xc0
    case HBool(b) => w == 1 && bs[i] == (if b then 0xc3 else 0xc2)
    case HUint(n) => UintAt(bs, i, n, w)
    case HInt(z) => IntAt(bs, i, z, w)
    case HStr(n) => StrHeadAt(bs, i, n, w)
    case HBin(n) => BinHeadAt(bs, i, n, w)
    case HArray(n) => ArrayHeadAt(bs, i, n, w)
    case HMap(n) => MapHeadAt(bs, i, n, w)
  }

  /** The reader takes a head exactly where the format has it, for every code but floats and extensions. */
  lemma ReadsHeads(bs: seq<byte>, i: nat, h: Head, w: nat)
    requires i < |bs|
    ensures ReadHead(bs, i) == Some((h, i + w)) <==> HeadAt(bs, i, h, w)
  {
    hide Number, NumberAt;
    NumberIs(bs, i + 1);
  }

  /** Strings and binaries are the bytes behind their heads. */
  lemma ReadsBytes(bs: seq<byte>, i: nat, s: seq<byte>, w: nat)
    requires i < |bs|
    ensures StrHeadAt(bs, i, |s|, w) && i + w + |s| <= |bs| && bs[i + w..i + w + |s|] == s ==>
      Read(bs, i) == Some((Str(s), i + w + |s|))
    ensures BinHeadAt(bs, i, |s|, w) && i + w + |s| <= |bs| && bs[i + w..i + w + |s|] == s ==>
      Read(bs, i) == Some((Bin(s), i + w + |s|))
  {
    hide ReadHead;
    ReadsHeads(bs, i, HStr(|s|), w);
    ReadsHeads(bs, i, HBin(|s|), w);
  }

  // ------------------------------------------------------------ JSON escapes

  /** The letter of a two-character escape: \" \\ \b \f \n \r \t. */
  function Letter(b: byte): Option<byte> {
    if b == 0x22 then Some(0x22)
    else if b == 0x5c then Some(0x5c)
    else if b == 0x08 then Some(0x62)
    else if b == 0x0c then Some(0x66)
    else if b == 0x0a then Some(0x6e)
    else if b == 0x0d then Some(0x72)
    else if b == 0x09 then Some(0x74)
    else None
  }

  /**
   One byte of a string: a letter escape, or \u00XX with upper-case digits below
   0x20, or the byte itself; the solidus is escaped only if that is asked for.
   */
  lemma EscapesAs(b: byte, solidus: bool)
    ensures EscapeByte(b, solidus) ==
      if Letter(b).Some? then [0x5c, Letter(b).value]
      else if b == 0x2f && solidus then [0x5c, 0x2f]
      else if b < 0x10 then [0x5c, 0x75, 0x30, 0x30, 0x30, if b < 0x0a then 0x30 + b else 0x37 + b]
      else if b < 0x1a then [0x5c, 0x75, 0x30, 0x30, 0x31, 0x20 + b]
      else if b < 0x20 then [0x5c, 0x75, 0x30, 0x30, 0x31, 0x27 + b]
      else [b]
  {
  }

  /** A decimal text is read from its first digit to its last: 120 and -7. */
  lemma DecimalTexts()
    ensures DecimalInt(120) == [0x31, 0x32, 0x30] && DecimalInt(-7) == [0x2d, 0x37] && DecimalInt(0) == [0x30]
  {
    assert Decimal(1) == [0x31] && Decimal(12) == [0x31, 0x32] && Decimal(120) == [0x31, 0x32, 0x30];
  }

  /** U+00E9, U+20AC and U+1F600. */
  lemma Utf8Texts()
    ensures Utf8(0xe9) == [0xc3, 0xa9] && Utf8(0x20ac) == [0xe2, 0x82, 0xac]
    ensures Utf8(0x1f600) == [0xf0, 0x9f, 0x98, 0x80]
  {
  }

  // -------------------------------------------------------- percent-encoding

  /** The value of a hexadecimal digit: 0 to 9, A to F, a to f. */
  function Nibble(c: byte): (r: Option<nat>)
    ensures r.Some? ==> r.value < 16
  {
    if 0x30 <= c <= 0x39 then Some(c - 0x30)
    else if 0x41 <= c <= 0x46 then Some(c - 0x37)
    else if 0x61 <= c <= 0x66 then Some(c - 0x57)
    else None
  }

  lemma NibbleIs(c: byte)
    ensures IsHex(c) <==> Nibble(c).Some?
    ensures IsHex(c) ==> Nibble(c).value == HexValue(c)
  {
  }

  /**
   What the first characters of a text decode to: % and two hexadecimal digits to
   that byte, % and two others to all three as they are, + to a space, and any
   other, a % before fewer than two included, to itself.
   */
  lemma DecodesAs(s: seq<byte>)
    requires s != []
    ensures s[0] == 0x25 && |s| >= 3 && Nibble(s[1]).Some? && Nibble(s[2]).Some? ==>
      UrlDecode(s) == [16 * Nibble(s[1]).value + Nibble(s[2]).value] + UrlDecode(s[3..])
    ensures s[0] == 0x25 && |s| >= 3 && !(Nibble(s[1]).Some? && Nibble(s[2]).Some?) ==>
      UrlDecode(s) == [s[0], s[1], s[2]] + UrlDecode(s[3..])
    ensures s[0] == 0x2b ==> UrlDecode(s) == [0x20] + UrlDecode(s[1..])
    ensures s[0] != 0x2b && (s[0] == 0x25 ==> |s| < 3) ==> UrlDecode(s) == [s[0]] + UrlDecode(s[1..])
    ensures UrlDecode([]) == []
  {
    hide UrlDecode, IsHex, HexValue, Nibble;
    DecodeStep(s);
    NothingToDecode();
    if |s| >= 3 {
      NibbleIs(s[1]);
      NibbleIs(s[2]);
    }
  }

  // ------------------------------------------------------------- query texts

  /** key=value&key=value. */
  function QueryText(ps: seq<Pair>): seq<byte> {
    if ps == [] then []
    else ps[0].key + [0x3d] + ps[0].value + if |ps| == 1 then [] else [0x26] + QueryText(ps[1..])
  }

  lemma {:induction false} QueryTextJoins(ps: seq<Pair>)
    requires ps != []
    ensures Texts(ps) != [] && Join(Texts(ps)) == QueryText(ps)
    decreases |ps|
  {
    if |ps| == 1 {
      assert Texts(ps) == [PairText(ps[0])];
    } else {
      QueryTextJoins(ps[1..]);
      assert Texts(ps)[1..] == Texts(ps[1..]);
      assert PairText(ps[0]) + [0x26] + QueryText(ps[1..])
          == ps[0].key + [0x3d] + ps[0].value + ([0x26] + QueryText(ps[1..]));
    }
  }

  /** Pairs are scanned back exactly if no key holds = or & and no value &; the arguments are those with a value. */
  lemma QueryTextScans(ps: seq<Pair>)
    requires ps != []
    ensures Pairs(QueryText(ps)) == ps <==> forall p <- ps :: 0x26 !in p.key && 0x3d !in p.key && 0x26 !in p.value
    ensures Pairs(QueryText(ps)) == ps ==>
      Args(QueryText(ps)) == (if ps[0].value == [] then [] else [ps[0]]) + WithValue(ps[1..])
  {
    hide Split, PairsOfAll, Join, Texts, QueryText;
    QueryTextJoins(ps);
    if forall p <- ps :: Plain(p) {
      ScanUndoesJoin(ps);
    }
    JoinSplit(QueryText(ps));
    PiecesArePlain(Split(QueryText(ps)));
  }
}

/** Bytes, big-endian numbers, and memory seen as a sequence of bytes. */
module Bytes {

  type byte = b: int | 0 <= b < 256

  datatype Option<+T> = None | Some(value: T)

  const COMMA: byte := 0x2c
  const MINUS: byte := 0x2d

  const TWO_16 := 0x1_0000
  const TWO_32 := 0x1_0000_0000
  const TWO_63 := 0x8000_0000_0000_0000
  const TWO_64 := 0x1_0000_0000_0000_0000

  function Max(a: nat, b: nat): nat {
    if a < b then b else a
  }

  /** The two low-order bytes of n, most significant first. */
  function BE16(n: nat): (r: seq<byte>)
    ensures |r| == 2
  {
    [n / 0x100 % 0x100, n % 0x100]
  }

  /** The four low-order bytes of n: what storing mp_bswap_u32 of a truncated n leaves in memory. */
  function BE32(n: nat): (r: seq<byte>)
    ensures |r| == 4
  {
    [n / 0x100_0000 % 0x100, n / 0x1_0000 % 0x100, n / 0x100 % 0x100, n % 0x100]
  }

  function BE64(n: nat): (r: seq<byte>)
    ensures |r| == 8
  {
    BE32(n / TWO_32) + BE32(n)
  }

  function U16(s: seq<byte>): (n: nat)
    requires |s| == 2
    ensures n < TWO_16
  {
    s[0] as int * 0x100 + s[1]
  }

  function U32(s: seq<byte>): (n: nat)
    requires |s| == 4
    ensures n < TWO_32
  {
    s[0] as int * 0x100_0000 + s[1] as int * 0x1_0000 + s[2] as int * 0x100 + s[3]
  }

  function U64(s: seq<byte>): (n: nat)
    requires |s| == 8
    ensures n < TWO_64
  {
    U32(s[..4]) * TWO_32 + U32(s[4..])
  }

  lemma U16OfBE16(n: nat)
    ensures U16(BE16(n)) == n % TWO_16
  {
    var a := n / 0x100;
    assert n % TWO_16 == a % 0x100 * 0x100 + n % 0x100;
  }

  lemma U32OfBE32(n: nat)
    ensures U32(BE32(n)) == n % TWO_32
  {
    var a, b, c := n / 0x100, n / 0x1_0000, n / 0x100_0000;
    assert b == a / 0x100 && c == b / 0x100;
    assert n % TWO_32 == c % 0x100 * 0x100_0000 + b % 0x100 * 0x1_0000 + a % 0x100 * 0x100 + n % 0x100;
  }

  lemma U64OfBE64(n: nat)
    requires n < TWO_64
    ensures U64(BE64(n)) == n
  {
    hide BE32, U32;
    var hi := n / TWO_32;
    U32OfBE32(hi);
    U32OfBE32(n);
    assert BE64(n)[..4] == BE32(hi) && BE64(n)[4..] == BE32(n);
  }

  /** isxdigit. */
  predicate IsHex(c: byte) {
    0x30 <= c <= 0x39 || 0x41 <= c <= 0x46 || 0x61 <= c <= 0x66
  }

  /** The value of a hexadecimal digit of either case. */
  function HexValue(c: byte): (n: nat)
    requires IsHex(c)
    ensures n < 16
  {
    if c <= 0x39 then c - 0x30 else if c <= 0x46 then c - 0x41 + 10 else c - 0x61 + 10
  }

  /** x stands in s at position i. */
  ghost predicate At(s: seq<byte>, i: nat, x: seq<byte>) {
    i + |x| <= |s| && s[i..i + |x|] == x
  }

  lemma AtSplit(s: seq<byte>, i: nat, x: seq<byte>, y: seq<byte>)
    ensures At(s, i, x + y) <==> At(s, i, x) && At(s, i + |x|, y)
  {
    if At(s, i, x + y) {
      assert x == (x + y)[..|x|] && y == (x + y)[|x|..];
      assert s[i..i + |x|] == s[i..i + |x + y|][..|x|];
      assert s[i + |x|..i + |x| + |y|] == s[i..i + |x + y|][|x|..];
    }
    if At(s, i, x) && At(s, i + |x|, y) {
      assert s[i..i + |x + y|] == s[i..i + |x|] + s[i + |x|..i + |x| + |y|];
    }
  }

  lemma AtSplit3(s: seq<byte>, i: nat, x: seq<byte>, y: seq<byte>, z: seq<byte>)
    ensures At(s, i, x + y + z) <==> At(s, i, x) && At(s, i + |x|, y) && At(s, i + |x| + |y|, z)
  {
    AtSplit(s, i, x + y, z);
    AtSplit(s, i, x, y);
  }

  lemma AtFirst(s: seq<byte>, i: nat, x: seq<byte>)
    requires x != [] && At(s, i, x)
    ensures s[i] == x[0]
    ensures At(s, i + 1, x[1..])
  {
    assert s[i] == s[i..i + |x|][0];
    assert x == x[..1] + x[1..];
    AtSplit(s, i, x[..1], x[1..]);
  }

  /** Memory m after bs is written at offset i. */
  function Put(m: seq<byte>, i: nat, bs: seq<byte>): (r: seq<byte>)
    requires i + |bs| <= |m|
    ensures |r| == |m|
    ensures forall k {:trigger r[k]} :: 0 <= k < |m| ==> r[k] == if i <= k < i + |bs| then bs[k - i] else m[k]
  {
    m[..i] + bs + m[i + |bs|..]
  }

  lemma PutNothing(m: seq<byte>, i: nat)
    requires i <= |m|
    ensures Put(m, i, []) == m
  {
  }

  lemma PutPut(m: seq<byte>, i: nat, a: seq<byte>, b: seq<byte>)
    requires i + |a| + |b| <= |m|
    ensures Put(Put(m, i, a), i + |a|, b) == Put(m, i, a + b)
  {
  }
}

/** ngx_http_tnt_urldecode: percent-decoding with plus for space. */
module UrlCoding {
  import opened Bytes

  const PERCENT: byte := 0x25
  const PLUS: byte := 0x2b
  const SPACE: byte := 0x20

  /** %XY is a byte, three characters that only look like it stay, + is a space. */
  function UrlDecode(s: seq<byte>): (r: seq<byte>)
    ensures |r| <= |s|
  {
    if s == [] then []
    else if s[0] == PERCENT && |s| >= 3 then
      (if IsHex(s[1]) && IsHex(s[2]) then [16 * HexValue(s[1]) + HexValue(s[2])] else s[..3]) + UrlDecode(s[3..])
    else if s[0] == PLUS then [SPACE] + UrlDecode(s[1..])
    else [s[0]] + UrlDecode(s[1..])
  }

  /** ngx_http_tnt_tolower on a byte. */
  function ToLower(c: byte): byte {
    if 0x41 <= c <= 0x5a then c + 0x20 else c
  }

  function DigitOf(c: byte): int {
    if c <= 0x39 then c - 0x30 else c - 0x61 + 10
  }

  /** dst.data[dst.len++] = c. */
  method Push(data: array<byte>, len: nat, c: byte) returns (len': nat)
    requires len < data.Length
    modifies data
    ensures len' == len + 1 && data[..len'] == old(data[..len]) + [c]
  {
    data[len] := c;
    len' := len + 1;
  }

  lemma Regroup(a: seq<byte>, b: seq<byte>, c: seq<byte>)
    ensures a + (b + c) == a + b + c
  {
  }

  /**
   The decoder's loop over a buffer no larger than the input: the output never
   gets ahead of the input position.
   */
  method Decode(src: seq<byte>) returns (dst: seq<byte>)
    ensures dst == UrlDecode(src)
  {
    hide UrlDecode;
    var data := new byte[|src|](_ => 0);
    var len, s := 0, 0;
    assert src[0..] == src && [] + UrlDecode(src) == UrlDecode(src);
    while s < |src|
      invariant len <= s <= |src| == data.Length
      invariant data[..len] + UrlDecode(src[s..]) == UrlDecode(src)
    {
      ghost var done, at, piece := data[..len], src[s..], [];
      DecodeStep(at);
      var c := src[s];
      s := s + 1;
      if c == PERCENT && s + 2 <= |src| {
        var c2, c3 := src[s], src[s + 1];
        s := s + 2;
        if IsHex(c2) && IsHex(c3) {
          len := Push(data, len, 16 * DigitOf(ToLower(c2)) + DigitOf(ToLower(c3)));
          piece := [16 * HexValue(c2) + HexValue(c3)];
        } else {
          len := Push(data, len, c);
          len := Push(data, len, c2);
          len := Push(data, len, c3);
          piece := [c, c2, c3];
        }
      } else if c == PLUS {
        len := Push(data, len, SPACE);
        piece := [SPACE];
      } else {
        len := Push(data, len, c);
        piece := [c];
      }
      assert data[..len] == done + piece;
      assert at[|at| - |src[s..]|..] == src[s..];
      assert UrlDecode(at) == piece + UrlDecode(src[s..]);
      Regroup(done, piece, UrlDecode(src[s..]));
    }
    assert src[s..] == [];
    NothingToDecode();
    dst := data[..len];
    assert dst + [] == dst;
  }

  lemma NothingToDecode()
    ensures UrlDecode([]) == []
  {
  }

  lemma DecodeStep(s: seq<byte>)
    requires s != []
    ensures s[0] == PERCENT && |s| >= 3 && IsHex(s[1]) && IsHex(s[2]) ==>
      UrlDecode(s) == [16 * HexValue(s[1]) + HexValue(s[2])] + UrlDecode(s[3..])
    ensures s[0] == PERCENT && |s| >= 3 && !(IsHex(s[1]) && IsHex(s[2])) ==>
      UrlDecode(s) == [s[0], s[1], s[2]] + UrlDecode(s[3..])
    ensures !(s[0] == PERCENT && |s| >= 3) ==>
      UrlDecode(s) == [if s[0] == PLUS then SPACE else s[0]] + UrlDecode(s[1..])
  {
    if |s| >= 3 {
      assert s[..3] == [s[0], s[1], s[2]];
    }
  }

  // ----------------------------------------------------------------- inverse

  function HexDigit(n: nat, upper: bool): (c: byte)
    requires n < 16
    ensures IsHex(c) && HexValue(c) == n
  {
    if n < 10 then 0x30 + n else if upper then 0x41 + (n - 10) else 0x61 + (n - 10)
  }

  /** One byte percent-encoded: literally if the encoder keeps it and it has no meaning of its own. */
  function EncodeByte(b: byte, keep: byte -> bool, upper: bool): seq<byte> {
    if keep(b) && b == SPACE then [PLUS]
    else if keep(b) && b != PERCENT && b != PLUS then [b]
    else [PERCENT, HexDigit(b / 16, upper), HexDigit(b % 16, upper)]
  }

  function PercentEncode(s: seq<byte>, keep: byte -> bool, upper: bool): seq<byte> {
    if s == [] then [] else EncodeByte(s[0], keep, upper) + PercentEncode(s[1..], keep, upper)
  }

  lemma DecodeEncoded(b: byte, keep: byte -> bool, upper: bool, rest: seq<byte>)
    ensures UrlDecode(EncodeByte(b, keep, upper) + rest) == [b] + UrlDecode(rest)
  {
    var e := EncodeByte(b, keep, upper);
    assert (e + rest)[|e|..] == rest;
    assert (e + rest)[0] == e[0];
    if |e| == 3 {
      assert (e + rest)[1] == e[1] && (e + rest)[2] == e[2];
      assert b == 16 * (b / 16) + b % 16;
    }
  }

  /** Decoding inverts every percent-encoding: whatever bytes are kept, in either hexadecimal case. */
  lemma {:induction false} DecodeInverts(s: seq<byte>, keep: byte -> bool, upper: bool)
    ensures UrlDecode(PercentEncode(s, keep, upper)) == s
  {
    if s != [] {
      DecodeEncoded(s[0], keep, upper, PercentEncode(s[1..], keep, upper));
      DecodeInverts(s[1..], keep, upper);
      assert [s[0]] + s[1..] == s;
    }
  }
}

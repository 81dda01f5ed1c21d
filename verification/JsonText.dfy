/**
 JSON text: the string encoder of json_encoders.c, decimal numbers, and a
 reader of compact JSON (RFC 8259 without insignificant white space, fractions
 and exponents) that says what a text means.
 */
module JsonText {
  import opened Bytes

  const QUOTE: byte := 0x22
  const BACKSLASH: byte := 0x5c
  const SOLIDUS: byte := 0x2f
  const COLON: byte := 0x3a
  const LBRACKET: byte := 0x5b
  const RBRACKET: byte := 0x5d
  const LBRACE: byte := 0x7b
  const RBRACE: byte := 0x7d
  const NULL_TEXT: seq<byte> := [0x6e, 0x75, 0x6c, 0x6c]
  const TRUE_TEXT: seq<byte> := [0x74, 0x72, 0x75, 0x65]
  const FALSE_TEXT: seq<byte> := [0x66, 0x61, 0x6c, 0x73, 0x65]

  // ----------------------------------------------------------------- strings

  /** char_to_hex: one upper-case hexadecimal digit. */
  function HexChar(d: nat): byte
    requires d < 16
  {
    if d < 10 then 0x30 + d else 0x41 + (d - 10)
  }

  function EscapeByte(b: byte, solidus: bool): (r: seq<byte>)
    ensures 1 <= |r| <= 6
  {
    if b == 0x0d then [BACKSLASH, 0x72]
    else if b == 0x0a then [BACKSLASH, 0x6e]
    else if b == BACKSLASH then [BACKSLASH, BACKSLASH]
    else if b == SOLIDUS && solidus then [BACKSLASH, SOLIDUS]
    else if b == QUOTE then [BACKSLASH, QUOTE]
    else if b == 0x0c then [BACKSLASH, 0x66]
    else if b == 0x08 then [BACKSLASH, 0x62]
    else if b == 0x09 then [BACKSLASH, 0x74]
    else if b < 32 then [BACKSLASH, 0x75, 0x30, 0x30, HexChar(b / 16), HexChar(b % 16)]
    else [b]
  }

  function Escape(s: seq<byte>, solidus: bool): (r: seq<byte>)
    ensures |s| <= |r| <= 6 * |s|
  {
    if s == [] then [] else EscapeByte(s[0], solidus) + Escape(s[1..], solidus)
  }

  function Quoted(s: seq<byte>, solidus: bool): (r: seq<byte>)
    ensures 2 <= |r| <= 6 * |s| + 2
  {
    [QUOTE] + Escape(s, solidus) + [QUOTE]
  }

  lemma {:induction false} EscapeConcat(a: seq<byte>, b: seq<byte>, solidus: bool)
    ensures Escape(a + b, solidus) == Escape(a, solidus) + Escape(b, solidus)
  {
    if a == [] {
      assert a + b == b;
    } else {
      assert (a + b)[0] == a[0] && (a + b)[1..] == a[1..] + b;
      EscapeConcat(a[1..], b, solidus);
    }
  }

  /** append_str: copy if there is room in the len bytes behind pos. */
  method AppendStr(out: array<byte>, pos: nat, len: nat, str: seq<byte>) returns (ok: bool, pos': nat, len': nat)
    requires pos + len <= out.Length
    modifies out
    ensures ok <==> |str| <= len
    ensures ok ==> out[..] == Put(old(out[..]), pos, str) && pos' == pos + |str| && len' == len - |str|
    ensures !ok ==> out[..] == old(out[..]) && pos' == pos && len' == len
  {
    ok, pos', len' := len >= |str|, pos, len;
    if ok {
      for k := 0 to |str|
        invariant out[..] == Put(old(out[..]), pos, str[..k])
      {
        out[pos + k] := str[k];
      }
      assert str[..|str|] == str;
      pos', len' := pos + |str|, len - |str|;
    }
  }

  /** The text x was written at pos, inside the len bytes allowed; the rest is as it was. */
  ghost predicate Wrote(before: seq<byte>, after: seq<byte>, pos: nat, len: nat, x: seq<byte>)
    requires pos + len <= |before|
  {
    |x| <= len && after == Put(before, pos, x)
  }

  /**
   json_encode_string: it succeeds exactly when the quoted text fits in bufLen
   bytes; it writes the text, or on failure some beginning of it, and nothing else.
   */
  method JsonEncodeString(out: array<byte>, pos: nat, bufLen: nat, str: seq<byte>, escapeSolidus: bool)
    returns (ok: bool, pos': nat)
    requires pos + bufLen <= out.Length
    modifies out
    ensures ok <==> |Quoted(str, escapeSolidus)| <= bufLen
    ensures ok ==> out[..] == Put(old(out[..]), pos, Quoted(str, escapeSolidus))
    ensures ok ==> pos' == pos + |Quoted(str, escapeSolidus)|
    ensures exists x ::
      x <= Quoted(str, escapeSolidus) && Wrote(old(out[..]), out[..], pos, bufLen, x) && pos' == pos + |x|
  {
    hide Put, Escape, EscapeByte;
    ghost var before, full := out[..], Quoted(str, escapeSolidus);
    ghost var x := [];
    PutNothing(before, pos);
    ok, pos' := false, pos;
    if bufLen == 0 {
      assert Wrote(before, out[..], pos, bufLen, x);
      return;
    }
    var len := bufLen;
    ok, pos', len := AppendStr(out, pos, len, [QUOTE]);
    x := [QUOTE];
    assert Escape(str[..0], escapeSolidus) == [];
    var i := 0;
    while i < |str|
      invariant i <= |str| && ok && pos' + len == pos + bufLen && pos' == pos + |x|
      invariant x == [QUOTE] + Escape(str[..i], escapeSolidus)
      invariant Wrote(before, out[..], pos, bufLen, x)
    {
      ghost var e := EscapeByte(str[i], escapeSolidus);
      EscapeStep(str, i, escapeSolidus);
      ok, pos', len := AppendStr(out, pos', len, EscapeByte(str[i], escapeSolidus));
      if !ok {
        return;
      }
      PutPut(before, pos, x, e);
      assert x + e == [QUOTE] + Escape(str[..i + 1], escapeSolidus);
      x := x + e;
      i := i + 1;
    }
    assert str[..|str|] == str;
    assert x <= full;
    ok, pos', len := AppendStr(out, pos', len, [QUOTE]);
    if ok {
      PutPut(before, pos, x, [QUOTE]);
      assert full <= full && Wrote(before, out[..], pos, bufLen, full);
    }
  }

  /** The escaped text up to i is a beginning of the whole, and grows by the escape of byte i. */
  lemma EscapeStep(s: seq<byte>, i: nat, solidus: bool)
    requires i < |s|
    ensures Escape(s[..i + 1], solidus) == Escape(s[..i], solidus) + EscapeByte(s[i], solidus)
    ensures [QUOTE] + Escape(s[..i], solidus) <= Quoted(s, solidus)
    ensures |Escape(s[..i + 1], solidus)| <= |Escape(s, solidus)|
  {
    assert s[..i + 1] == s[..i] + [s[i]] && s == s[..i + 1] + s[i + 1..];
    EscapeConcat(s[..i], [s[i]], solidus);
    EscapeConcat(s[..i + 1], s[i + 1..], solidus);
    assert Escape([s[i]], solidus) == EscapeByte(s[i], solidus) by {
      assert [s[i]][1..] == [];
    }
  }
}

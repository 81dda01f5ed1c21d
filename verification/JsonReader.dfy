/**
 A reader of compact JSON (RFC 8259 without insignificant white space,
 fractions and exponents). It says what a text means, as the MessagePack value
 with string keys that the text denotes.
 */
module JsonReader {
  import opened Bytes
  import opened MsgPack
  import opened JsonText
  import opened Unicode

  // ----------------------------------------------------------------- strings

  /** The code point of four hexadecimal digits at t[i]. */
  function Hex4(t: seq<byte>, i: nat): (r: Option<nat>)
    ensures r.Some? ==> i + 4 <= |t| && r.value < TWO_16
  {
    if i + 4 > |t| || !IsHex(t[i]) || !IsHex(t[i + 1]) || !IsHex(t[i + 2]) || !IsHex(t[i + 3]) then None
    else Some(((HexValue(t[i]) * 16 + HexValue(t[i + 1])) * 16 + HexValue(t[i + 2])) * 16 + HexValue(t[i + 3]))
  }

  /** The escape sequence at t[i]: what it stands for, and where it ends. */
  function Unescape(t: seq<byte>, i: nat): (r: Option<(seq<byte>, nat)>)
    requires i < |t|
    ensures r.Some? ==> i < r.value.1 <= |t|
  {
    if i + 1 == |t| then None
    else
      var c: int := t[i + 1];
      if c == 0x22 || c == 0x5c || c == 0x2f then Some(([t[i + 1]], i + 2))
      else if c == 0x72 then Some(([0x0d], i + 2))
      else if c == 0x6e then Some(([0x0a], i + 2))
      else if c == 0x66 then Some(([0x0c], i + 2))
      else if c == 0x62 then Some(([0x08], i + 2))
      else if c == 0x74 then Some(([0x09], i + 2))
      else if c == 0x75 then
        match Hex4(t, i + 2)
        case Some(cp) => Some((Utf8(cp), i + 6))
        case None => None
      else None
  }

  /** The characters of a string up to its closing quote, the first one not escaped. */
  function ReadChars(t: seq<byte>, i: nat): (r: Option<(seq<byte>, nat)>)
    requires i <= |t|
    ensures r.Some? ==> i < r.value.1 <= |t|
    decreases |t| - i
  {
    if i == |t| then None
    else if t[i] == 0x22 then Some(([], i + 1))
    else if t[i] < 0x20 then None
    else
      match if t[i] == 0x5c then Unescape(t, i) else Some(([t[i]], i + 1))
      case None => None
      case Some((c, j)) =>
        match ReadChars(t, j)
        case None => None
        case Some((s, k)) => Some((c + s, k))
  }

  /** A string, byte by byte. */
  function ReadString(t: seq<byte>, i: nat): (r: Option<(seq<byte>, nat)>)
    requires i <= |t|
    ensures r.Some? ==> i + 1 < r.value.1 <= |t|
  {
    if i < |t| && t[i] == 0x22 then ReadChars(t, i + 1) else None
  }

  // ------------------------------------------------------------------- UTF-8

  /** Escaping neither makes nor breaks UTF-8: what it replaces and what it writes are ASCII. */
  lemma {:induction false} EscapeUtf8From(d: Due, s: seq<byte>, solidus: bool)
    requires d.n <= 3 && d.lo >= (if d.n == 0 then 0 else 0x80)
    ensures Utf8From(d, Escape(s, solidus)) <==> Utf8From(d, s)
    decreases |s|
  {
    if s != [] {
      var e, x := EscapeByte(s[0], solidus), Escape(s[1..], solidus);
      if s[0] < 0x80 {
        AsciiFrom(d, e, x);
        AsciiFrom(d, [s[0]], s[1..]);
        assert [s[0]] + s[1..] == s;
        EscapeUtf8From(START, s[1..], solidus);
      } else {
        assert e == [s[0]] && (e + x)[0] == s[0] && (e + x)[1..] == x;
        if NextDue(d, s[0]).Some? {
          EscapeUtf8From(NextDue(d, s[0]).value, s[1..], solidus);
        }
      }
    }
  }

  /** A JSON string: between the quotes there is well-formed UTF-8 (RFC 8259 section 8.1). */
  function ReadText(t: seq<byte>, i: nat): (r: Option<(seq<byte>, nat)>)
    requires i <= |t|
    ensures r.Some? ==> i < r.value.1 <= |t|
  {
    match ReadString(t, i)
    case None => None
    case Some((s, j)) => if IsUtf8(t[i + 1..j - 1]) then Some((s, j)) else None
  }

  lemma AtBytes(t: seq<byte>, i: nat, x: seq<byte>)
    requires At(t, i, x)
    ensures forall k :: 0 <= k < |x| ==> t[i + k] == x[k]
  {
    forall k | 0 <= k < |x|
      ensures t[i + k] == x[k]
    {
      assert t[i + k] == t[i..i + |x|][k];
    }
  }

  function Prepend(b: byte, o: Option<(seq<byte>, nat)>): Option<(seq<byte>, nat)> {
    if o.Some? then Some(([b] + o.value.0, o.value.1)) else None
  }

  lemma ReadControl(t: seq<byte>, i: nat, b: byte)
    requires b < 32 && At(t, i, [BACKSLASH, 0x75, 0x30, 0x30, HexChar(b / 16), HexChar(b % 16)])
    ensures Hex4(t, i + 2) == Some(b)
  {
    AtBytes(t, i, [BACKSLASH, 0x75, 0x30, 0x30, HexChar(b / 16), HexChar(b % 16)]);
    assert t[i + 2] == 0x30 && t[i + 3] == 0x30 && t[i + 4] == HexChar(b / 16) && t[i + 5] == HexChar(b % 16);
  }

  /** One escaped byte, read as that byte. */
  lemma ReadEscapedByte(t: seq<byte>, i: nat, b: byte, solidus: bool)
    requires At(t, i, EscapeByte(b, solidus))
    ensures ReadChars(t, i) == Prepend(b, ReadChars(t, i + |EscapeByte(b, solidus)|))
  {
    hide Hex4;
    var e := EscapeByte(b, solidus);
    AtFirst(t, i, e);
    if |e| == 2 {
      AtFirst(t, i + 1, e[1..]);
    } else if |e| == 6 {
      AtFirst(t, i + 1, e[1..]);
      ReadControl(t, i, b);
    }
  }

  /** Unescaping undoes escaping, whatever follows the closing quote. */
  lemma {:induction false} ReadEscaped(t: seq<byte>, i: nat, s: seq<byte>, solidus: bool)
    requires At(t, i, Escape(s, solidus)) && i + |Escape(s, solidus)| < |t| && t[i + |Escape(s, solidus)|] == QUOTE
    ensures ReadChars(t, i) == Some((s, i + |Escape(s, solidus)| + 1))
    decreases s
  {
    hide EscapeByte, ReadChars, At;
    if s == [] {
      ReadEnd(t, i);
    } else {
      var e, rest := EscapeByte(s[0], solidus), Escape(s[1..], solidus);
      AtSplit(t, i, e, rest);
      ReadEscapedByte(t, i, s[0], solidus);
      ReadEscaped(t, i + |e|, s[1..], solidus);
      assert [s[0]] + s[1..] == s;
    }
  }

  lemma ReadEnd(t: seq<byte>, i: nat)
    requires i < |t| && t[i] == QUOTE
    ensures ReadChars(t, i) == Some(([], i + 1))
  {
  }

  /** The encoder's text, in either solidus mode, is a JSON string meaning the original bytes. */
  lemma ReadQuoted(t: seq<byte>, i: nat, s: seq<byte>, solidus: bool)
    requires At(t, i, Quoted(s, solidus))
    ensures ReadString(t, i) == Some((s, i + |Quoted(s, solidus)|))
  {
    hide Escape, ReadChars;
    AtSplit3(t, i, [QUOTE], Escape(s, solidus), [QUOTE]);
    AtFirst(t, i, [QUOTE]);
    AtFirst(t, i + 1 + |Escape(s, solidus)|, [QUOTE]);
    ReadEscaped(t, i + 1, s, solidus);
  }

  /** It is a string of JSON text exactly when the original bytes are UTF-8. */
  lemma ReadQuotedText(t: seq<byte>, i: nat, s: seq<byte>, solidus: bool)
    requires At(t, i, Quoted(s, solidus))
    ensures ReadText(t, i) == if IsUtf8(s) then Some((s, i + |Quoted(s, solidus)|)) else None
  {
    hide Escape, Utf8From, ReadString;
    ReadQuoted(t, i, s, solidus);
    AtSplit3(t, i, [QUOTE], Escape(s, solidus), [QUOTE]);
    EscapeUtf8From(START, s, solidus);
  }

  // ----------------------------------------------------------------- numbers

  predicate Digit(c: byte) { 0x30 <= c <= 0x39 }

  /** The digits snprintf prints for a number. */
  function Decimal(n: nat): (r: seq<byte>)
    ensures |r| > 0
    ensures forall k :: 0 <= k < |r| ==> Digit(r[k])
    ensures r[0] == 0x30 <==> n == 0
  {
    if n < 10 then [0x30 + n] else Decimal(n / 10) + [0x30 + n % 10]
  }

  function DecimalInt(i: int): (r: seq<byte>)
    ensures |r| > 0
  {
    if i < 0 then [MINUS] + Decimal(-i) else Decimal(i)
  }

  function Pow10(k: nat): nat {
    if k == 0 then 1 else 10 * Pow10(k - 1)
  }

  lemma {:induction false} PowPositive(k: nat)
    ensures Pow10(k) >= 1
    decreases k
  {
    if k > 0 { PowPositive(k - 1); }
  }

  /** n has at most k digits. */
  lemma {:induction false} DecimalBound(n: nat, k: nat)
    requires k >= 1
    ensures |Decimal(n)| <= k <==> n < Pow10(k)
    decreases k
  {
    PowPositive(k - 1);
    if n >= 10 && k > 1 {
      DecimalBound(n / 10, k - 1);
    } else if n >= 10 {
      assert Pow10(1) == 10 * Pow10(0);
    }
  }

  lemma Powers()
    ensures Pow10(2) == 100 && Pow10(3) == 1000 && Pow10(5) == 100_000
    ensures Pow10(10) == 10_000_000_000
    ensures Pow10(14) == 100_000_000_000_000 && Pow10(15) == 1_000_000_000_000_000
    ensures Pow10(19) == 10_000_000_000_000_000_000 && Pow10(20) == 100_000_000_000_000_000_000
  {
    assert Pow10(5) == 100_000;
    assert Pow10(10) == 100_000 * Pow10(5);
    assert Pow10(15) == 100_000 * Pow10(10);
    assert Pow10(19) == 10_000 * Pow10(15) && Pow10(20) == 10 * Pow10(19);
  }

  /** The number whose leading digits are acc, continued by the digits at t[i]. */
  function ReadDigits(t: seq<byte>, i: nat, acc: nat): (r: (nat, nat))
    requires i <= |t|
    ensures i <= r.1 <= |t|
    decreases |t| - i
  {
    if i < |t| && Digit(t[i]) then ReadDigits(t, i + 1, acc * 10 + (t[i] - 0x30)) else (acc, i)
  }

  /** An integer: no leading zeros, minus allowed; -0 is not a value printed here and reads as none. */
  function ReadNumber(t: seq<byte>, i: nat): (r: Option<(Mp, nat)>)
    requires i <= |t|
    ensures r.Some? ==> i < r.value.1 <= |t|
  {
    var j := if i < |t| && t[i] == 0x2d then i + 1 else i;
    if j == |t| || !Digit(t[j]) || (t[j] == 0x30 && (j > i || (j + 1 < |t| && Digit(t[j + 1])))) then None
    else
      var (n, k) := ReadDigits(t, j, 0);
      if j > i then Some((Int(0 - n as int), k)) else Some((Uint(n), k))
  }

  /** No digit follows at t[i]. */
  predicate Ends(t: seq<byte>, i: nat) {
    i >= |t| || !Digit(t[i])
  }

  lemma {:induction false} ReadDecimal(t: seq<byte>, i: nat, n: nat)
    requires At(t, i, Decimal(n))
    ensures ReadDigits(t, i, 0) == ReadDigits(t, i + |Decimal(n)|, n)
    decreases n
  {
    if n < 10 {
      AtFirst(t, i, Decimal(n));
    } else {
      var k := i + |Decimal(n / 10)|;
      AtSplit(t, i, Decimal(n / 10), [0x30 + n % 10]);
      AtFirst(t, k, [0x30 + n % 10]);
      ReadDecimal(t, i, n / 10);
      assert t[k] == 0x30 + n % 10;
    }
  }

  function Normal(i: int): Mp {
    if i < 0 then Int(i) else Uint(i)
  }

  lemma ReadDecimalInt(t: seq<byte>, i: nat, v: int)
    requires At(t, i, DecimalInt(v)) && Ends(t, i + |DecimalInt(v)|)
    ensures ReadNumber(t, i) == Some((Normal(v), i + |DecimalInt(v)|))
  {
    AtBytes(t, i, DecimalInt(v));
    if v < 0 {
      AtSplit(t, i, [MINUS], Decimal(-v));
      AtBytes(t, i + 1, Decimal(-v));
      ReadDecimal(t, i + 1, -v);
    } else {
      ReadDecimal(t, i, v);
    }
  }

  // ------------------------------------------------------------------ values

  function Literal(t: seq<byte>, i: nat, word: seq<byte>, v: Mp): (r: Option<(Mp, nat)>)
    requires i <= |t| && |word| > 0
    ensures r.Some? ==> i < r.value.1 <= |t|
  {
    if i + |word| <= |t| && t[i..i + |word|] == word then Some((v, i + |word|)) else None
  }

  function ReadJson(t: seq<byte>, i: nat): (r: Option<(Mp, nat)>)
    requires i <= |t|
    ensures r.Some? ==> i < r.value.1 <= |t|
    decreases |t| - i, 0
  {
    if i == |t| then None
    else if t[i] == 0x22 then
      match ReadText(t, i)
      case None => None
      case Some((s, j)) => Some((Str(s), j))
    else if t[i] == 0x5b then
      if i + 1 < |t| && t[i + 1] == 0x5d then Some((Array([]), i + 2))
      else
        match ReadElements(t, i + 1)
        case None => None
        case Some((vs, j)) => Some((Array(vs), j))
    else if t[i] == 0x7b then
      if i + 1 < |t| && t[i + 1] == 0x7d then Some((Map([]), i + 2))
      else
        match ReadMembers(t, i + 1)
        case None => None
        case Some((es, j)) => Some((Map(es), j))
    else if t[i] == 0x6e then Literal(t, i, [0x6e, 0x75, 0x6c, 0x6c], Nil)
    else if t[i] == 0x74 then Literal(t, i, [0x74, 0x72, 0x75, 0x65], Bool(true))
    else if t[i] == 0x66 then Literal(t, i, [0x66, 0x61, 0x6c, 0x73, 0x65], Bool(false))
    else ReadNumber(t, i)
  }

  /** The elements of an array, separated by commas, up to the closing bracket. */
  function ReadElements(t: seq<byte>, i: nat): (r: Option<(seq<Mp>, nat)>)
    requires i <= |t|
    ensures r.Some? ==> i < r.value.1 <= |t|
    decreases |t| - i, 1
  {
    match ReadJson(t, i)
    case None => None
    case Some((v, j)) =>
      if j < |t| && t[j] == 0x5d then Some(([v], j + 1))
      else if j < |t| && t[j] == 0x2c then
        match ReadElements(t, j + 1)
        case None => None
        case Some((vs, k)) => Some(([v] + vs, k))
      else None
  }

  /** The members of an object: string, colon, value, separated by commas, up to the closing brace. */
  function ReadMembers(t: seq<byte>, i: nat): (r: Option<(seq<Entry>, nat)>)
    requires i <= |t|
    ensures r.Some? ==> i < r.value.1 <= |t|
    decreases |t| - i, 1
  {
    match ReadText(t, i)
    case None => None
    case Some((key, j)) =>
      if j == |t| || t[j] != 0x3a then None
      else
        match ReadJson(t, j + 1)
        case None => None
        case Some((v, k)) =>
          if k < |t| && t[k] == 0x7d then Some(([Entry(Str(key), v)], k + 1))
          else if k < |t| && t[k] == 0x2c then
            match ReadMembers(t, k + 1)
            case None => None
            case Some((es, e)) => Some(([Entry(Str(key), v)] + es, e))
          else None
  }

  /** The value a complete text denotes. */
  function Meaning(t: seq<byte>): Option<Mp> {
    match ReadJson(t, 0)
    case Some((v, n)) => if n == |t| then Some(v) else None
    case None => None
  }
}

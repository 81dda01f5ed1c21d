/** UTF-8 (RFC 3629): a reader byte by byte, and the code points its texts encode. */
module Unicode {
  import opened Bytes

  /** The bytes of a code point, by its range (RFC 3629 section 3). */
  function Utf8(cp: nat): (r: seq<byte>)
    requires cp < 0x110000
    ensures |r| > 0
  {
    if cp < 0x80 then [cp]
    else if cp < 0x800 then [0xc0 + cp / 64, 0x80 + cp % 64]
    else if cp < 0x10000 then [0xe0 + cp / 64 / 64, 0x80 + cp / 64 % 64, 0x80 + cp % 64]
    else [0xf0 + cp / 64 / 64 / 64, 0x80 + cp / 64 / 64 % 64, 0x80 + cp / 64 % 64, 0x80 + cp % 64]
  }

  /** How many continuation bytes are due, and the range of the next one. */
  datatype Due = Due(n: nat, lo: nat, hi: nat)

  const START := Due(0, 0, 0)

  /** One byte of well-formed UTF-8 (RFC 3629 section 4): no overlong forms, no surrogates, nothing above U+10FFFF. */
  function NextDue(d: Due, b: byte): Option<Due> {
    if d.n > 0 then
      if !(d.lo <= b <= d.hi) then None else if d.n == 1 then Some(START) else Some(Due(d.n - 1, 0x80, 0xbf))
    else if b < 0x80 then Some(START)
    else if 0xc2 <= b <= 0xdf then Some(Due(1, 0x80, 0xbf))
    else if b == 0xe0 then Some(Due(2, 0xa0, 0xbf))
    else if b == 0xed then Some(Due(2, 0x80, 0x9f))
    else if 0xe1 <= b <= 0xef then Some(Due(2, 0x80, 0xbf))
    else if b == 0xf0 then Some(Due(3, 0x90, 0xbf))
    else if 0xf1 <= b <= 0xf3 then Some(Due(3, 0x80, 0xbf))
    else if b == 0xf4 then Some(Due(3, 0x80, 0x8f))
    else None
  }

  predicate Utf8From(d: Due, s: seq<byte>)
    decreases |s|
  {
    if s == [] then d.n == 0
    else NextDue(d, s[0]).Some? && Utf8From(NextDue(d, s[0]).value, s[1..])
  }

  predicate IsUtf8(s: seq<byte>) {
    Utf8From(START, s)
  }

  /** A code point that is no surrogate. */
  predicate Scalar(cp: nat) {
    cp < 0xd800 || 0xe000 <= cp < 0x110000
  }

  predicate AllScalars(cps: seq<nat>) {
    forall i :: 0 <= i < |cps| ==> Scalar(cps[i])
  }

  function Utf8All(cps: seq<nat>): seq<byte>
    requires AllScalars(cps)
  {
    if cps == [] then [] else Utf8(cps[0]) + Utf8All(cps[1..])
  }

  /** Where a sequence of bytes goes on after those in x. */
  function Shift(d: Due, x: seq<byte>): Option<Due>
    decreases |x|
  {
    if x == [] then Some(d) else if NextDue(d, x[0]).None? then None else Shift(NextDue(d, x[0]).value, x[1..])
  }

  lemma {:induction false} Utf8Split(d: Due, x: seq<byte>, y: seq<byte>)
    ensures Utf8From(d, x + y) <==> Shift(d, x).Some? && Utf8From(Shift(d, x).value, y)
    decreases |x|
  {
    hide NextDue;
    if x == [] {
      assert x + y == y;
    } else {
      assert (x + y)[0] == x[0] && (x + y)[1..] == x[1..] + y;
      if NextDue(d, x[0]).Some? {
        Utf8Split(NextDue(d, x[0]).value, x[1..], y);
      }
    }
  }

  const REST := Due(1, 0x80, 0xbf)

  lemma ShiftLast(b: byte)
    ensures Shift(REST, [b]) == if 0x80 <= b <= 0xbf then Some(START) else None
  {
    assert [b][1..] == [];
  }

  lemma ShiftTwo(d: Due, b: byte, c: byte)
    requires d.n == 2 && 0x80 <= c <= 0xbf
    ensures Shift(d, [b, c]) == if d.lo <= b <= d.hi then Some(START) else None
  {
    ShiftLast(c);
    assert [b, c][1..] == [c];
  }

  lemma ShiftThree(d: Due, a: byte, b: byte, c: byte)
    requires d.n == 3 && 0x80 <= b <= 0xbf && 0x80 <= c <= 0xbf
    ensures Shift(d, [a, b, c]) == if d.lo <= a <= d.hi then Some(START) else None
  {
    ShiftTwo(Due(2, 0x80, 0xbf), b, c);
    assert [a, b, c][1..] == [b, c];
  }

  lemma ShiftFirst(a: byte, x: seq<byte>)
    ensures Shift(START, [a] + x) == if NextDue(START, a).None? then None else Shift(NextDue(START, a).value, x)
  {
    assert ([a] + x)[1..] == x;
  }

  /** The bytes of a code point, one after the other: exactly those of a surrogate are not taken. */
  lemma CodePointShifts(cp: nat)
    requires cp < 0x110000
    ensures Shift(START, Utf8(cp)) == if Scalar(cp) then Some(START) else None
  {
    hide Shift;
    var x := Utf8(cp);
    ShiftFirst(x[0], x[1..]);
    assert x == [x[0]] + x[1..];
    if |x| == 1 {
      NothingShifts();
      assert x[1..] == [];
    } else if |x| == 2 {
      ShiftLast(x[1]);
      assert x[1..] == [x[1]];
    } else if |x| == 3 {
      ShiftTwo(NextDue(START, x[0]).value, x[1], x[2]);
      assert x[1..] == [x[1], x[2]];
    } else {
      ShiftThree(NextDue(START, x[0]).value, x[1], x[2], x[3]);
      assert x[1..] == [x[1], x[2], x[3]];
    }
  }

  lemma NothingShifts()
    ensures Shift(START, []) == Some(START)
  {
  }

  /** n, continued by the lower six bits of b. */
  function More(n: nat, b: byte): (r: nat)
    ensures r / 64 == n && (0x80 <= b <= 0xbf ==> 0x80 + r % 64 == b)
  {
    64 * n + b % 64
  }

  /** The code point the first bytes of well-formed UTF-8 encode. */
  function FirstCodePoint(s: seq<byte>): nat
    requires s != []
  {
    var a: nat := s[0];
    if a < 0xc2 || |s| < 2 then a
    else if a < 0xe0 then More(a - 0xc0, s[1])
    else if a < 0xf0 && |s| >= 3 then More(More(a - 0xe0, s[1]), s[2])
    else if a >= 0xf0 && |s| >= 4 then More(More(More(a - 0xf0, s[1]), s[2]), s[3])
    else 0
  }

  /** One byte that is taken. */
  lemma TakeOne(d: Due, s: seq<byte>, i: nat)
    requires i <= |s| && Utf8From(d, s[i..]) && d.n > 0
    ensures i < |s| && d.lo <= s[i] <= d.hi
    ensures Utf8From(if d.n == 1 then START else Due(d.n - 1, 0x80, 0xbf), s[i + 1..])
  {
    assert s[i..] != [] && s[i..][1..] == s[i + 1..];
  }

  lemma TwoBytes(a: byte, b: byte)
    requires 0xc2 <= a <= 0xdf && 0x80 <= b <= 0xbf
    ensures var cp := More(a - 0xc0, b); cp < 0xd800 && Utf8(cp) == [a, b]
  {
  }

  lemma ThreeBytes(a: byte, b: byte, c: byte)
    requires 0xe0 <= a <= 0xef && 0x80 <= b <= 0xbf && 0x80 <= c <= 0xbf
    requires (a == 0xe0 ==> b >= 0xa0) && (a == 0xed ==> b <= 0x9f)
    ensures var cp := More(More(a - 0xe0, b), c); Scalar(cp) && Utf8(cp) == [a, b, c]
  {
  }

  lemma FourBytes(a: byte, b: byte, c: byte, d: byte)
    requires 0xf0 <= a <= 0xf4 && 0x80 <= b <= 0xbf && 0x80 <= c <= 0xbf && 0x80 <= d <= 0xbf
    requires (a == 0xf0 ==> b >= 0x90) && (a == 0xf4 ==> b <= 0x8f)
    ensures var cp := More(More(More(a - 0xf0, b), c), d);
            Scalar(cp) && Utf8(cp) == [a, b, c, d]
  {
  }

  lemma FirstScalar(s: seq<byte>)
    requires s != [] && IsUtf8(s)
    ensures var cp := FirstCodePoint(s);
      && Scalar(cp) && Utf8(cp) <= s && IsUtf8(s[|Utf8(cp)|..])
  {
    hide Utf8From, More, Utf8;
    var d := FirstByte(s);
    if d.n == 0 {
      OneByte(s[0]);
    } else {
      TakeOne(d, s, 1);
      if d.n == 1 {
        TwoBytes(s[0], s[1]);
      } else {
        TakeOne(Due(d.n - 1, 0x80, 0xbf), s, 2);
        if d.n == 2 {
          ThreeBytes(s[0], s[1], s[2]);
        } else {
          TakeOne(REST, s, 3);
          FourBytes(s[0], s[1], s[2], s[3]);
        }
      }
    }
  }

  lemma OneByte(b: byte)
    requires b < 0x80
    ensures Utf8(b) == [b]
  {
  }

  lemma FirstByte(s: seq<byte>) returns (d: Due)
    requires s != [] && IsUtf8(s)
    ensures NextDue(START, s[0]) == Some(d) && Utf8From(d, s[1..])
  {
    d := NextDue(START, s[0]).value;
  }

  /** Encodings of code points are well-formed. */
  lemma {:induction false} Utf8Encoded(cps: seq<nat>)
    requires AllScalars(cps)
    ensures IsUtf8(Utf8All(cps))
    decreases |cps|
  {
    hide Utf8, Utf8From, Shift;
    if cps == [] {
      NothingDue();
    } else {
      CodePointShifts(cps[0]);
      Utf8Split(START, Utf8(cps[0]), Utf8All(cps[1..]));
      Utf8Encoded(cps[1..]);
    }
  }

  lemma NothingDue()
    ensures IsUtf8([])
  {
  }

  /** What is well-formed encodes some code points. */
  lemma {:induction false} Utf8Decoded(s: seq<byte>) returns (cps: seq<nat>)
    requires IsUtf8(s)
    ensures AllScalars(cps) && Utf8All(cps) == s
    decreases |s|
  {
    hide Utf8, IsUtf8, FirstCodePoint;
    if s == [] {
      cps := [];
    } else {
      FirstScalar(s);
      var cp := FirstCodePoint(s);
      assert |Utf8(cp)| <= |s|;
      var rest := Utf8Decoded(s[|Utf8(cp)|..]);
      cps := [cp] + rest;
      assert cps[1..] == rest;
      assert s == Utf8(cp) + s[|Utf8(cp)|..];
    }
  }

  /** Well-formed UTF-8 is exactly what a sequence of code points, none a surrogate, encodes to. */
  lemma Utf8Means(s: seq<byte>)
    ensures IsUtf8(s) <==> exists cps :: AllScalars(cps) && Utf8All(cps) == s
  {
    if IsUtf8(s) {
      var cps := Utf8Decoded(s);
    }
    if cps :| AllScalars(cps) && Utf8All(cps) == s {
      Utf8Encoded(cps);
    }
  }

  lemma {:induction false} AsciiFrom(d: Due, a: seq<byte>, x: seq<byte>)
    requires a != [] && d.n <= 3 && d.lo >= (if d.n == 0 then 0 else 0x80)
    requires forall k :: 0 <= k < |a| ==> a[k] < 0x80
    ensures Utf8From(d, a + x) <==> d.n == 0 && Utf8From(START, x)
    decreases |a|
  {
    assert (a + x)[0] == a[0] && (a + x)[1..] == a[1..] + x;
    if |a| == 1 {
      assert a[1..] + x == x;
    } else {
      AsciiFrom(START, a[1..], x);
    }
  }

  lemma AsciiIsUtf8(a: seq<byte>)
    requires forall k :: 0 <= k < |a| ==> a[k] < 0x80
    ensures IsUtf8(a)
  {
    if a != [] {
      AsciiFrom(START, a, []);
      assert a + [] == a;
    }
  }
}

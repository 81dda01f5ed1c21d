/** Which numbers survive: decimal texts as format values and as the numbers of special names. */
module FormatNumbers {
  import opened Bytes
  import opened MsgPack
  import opened JsonReader
  import opened QueryArgs
  import opened Dml
  import opened FormatPrepare
  import opened FormatBind

  /** Without its last digits, n of k digits. */
  function Shortened(n: nat, k: nat): nat
    decreases n
  {
    if |Decimal(n)| <= k || n < 10 then n else Shortened(n / 10, k)
  }

  lemma {:induction false} DecimalPrefix(n: nat, k: nat)
    requires 1 <= k < |Decimal(n)|
    ensures Decimal(n)[..k] == Decimal(Shortened(n, k)) && Shortened(n, k) < n
    decreases n
  {
    var t := Decimal(n / 10);
    assert Decimal(n)[..k] == t[..k];
    if k == |t| {
      assert t[..k] == t;
    } else {
      DecimalPrefix(n / 10, k);
    }
  }

  predicate AllDigits(s: seq<byte>) {
    forall i :: 0 <= i < |s| ==> Digit(s[i])
  }

  lemma {:induction false} LeadingAppend(a: seq<byte>, d: byte, acc: nat)
    requires AllDigits(a) && Digit(d)
    ensures LeadingDigits(a + [d], acc) == 10 * LeadingDigits(a, acc) + (d - 0x30)
    decreases |a|
  {
    if a == [] {
      assert (a + [d])[1..] == [];
    } else {
      assert (a + [d])[0] == a[0] && (a + [d])[1..] == a[1..] + [d];
      LeadingAppend(a[1..], d, 10 * acc + (a[0] - 0x30));
    }
  }

  lemma {:induction false} LeadingDecimal(n: nat)
    ensures LeadingDigits(Decimal(n), 0) == n
    decreases n
  {
    if n < 10 {
      assert Decimal(n)[1..] == [];
      assert LeadingDigits([], n) == n;
    } else {
      LeadingDecimal(n / 10);
      LeadingAppend(Decimal(n / 10), 0x30 + n % 10, 0);
    }
  }

  lemma NoNul(s: seq<byte>)
    requires forall i :: 0 <= i < |s| ==> s[i] != 0
    ensures s[..Find(s, 0, 0)] == s
  {
  }

  /** snprintf keeps 15 characters, and atoll reads them. */
  lemma AtollDecimal(n: nat)
    requires |Decimal(n)| <= 15
    ensures Atoll(Decimal(n)) == n
  {
    hide Pow10;
    DecimalBound(n, 15);
    Powers();
    LeadingDecimal(n);
  }

  lemma AtollNegative(n: nat)
    requires |Decimal(n)| <= 14
    ensures Atoll([MINUS] + Decimal(n)) == 0 - n as int
  {
    hide Pow10;
    DecimalBound(n, 14);
    Powers();
    LeadingDecimal(n);
    assert ([MINUS] + Decimal(n))[1..] == Decimal(n);
  }

  /** The digits kept in the buffer of 16 characters. */
  function Kept(v: int): int {
    if v < 0 then 0 - Shortened(-v, 14) as int else Shortened(v, 15)
  }

  lemma KeptDigits(n: nat, k: nat)
    requires k >= 1
    ensures var d := Decimal(n); Decimal(Shortened(n, k)) == if |d| <= k then d else d[..k]
    ensures Shortened(n, k) == n <==> |Decimal(n)| <= k
    ensures n > 0 ==> Shortened(n, k) > 0
  {
    if k < |Decimal(n)| {
      DecimalPrefix(n, k);
    }
  }

  lemma BufferedText(v: int)
    ensures NumBuf(DecimalInt(v)) == DecimalInt(Kept(v))
    ensures Kept(v) == v <==> |DecimalInt(v)| <= 15
    ensures Kept(v) < 0 <==> v < 0
  {
    hide Decimal, Shortened, Find;
    var text := DecimalInt(v);
    KeptDigits(if v < 0 then -v else v, if v < 0 then 14 else 15);
    assert DecimalInt(Kept(v)) == if |text| <= 15 then text else text[..15];
    NoNul(DecimalInt(Kept(v)));
  }

  lemma KeptIsShort(v: int)
    ensures if v < 0 then |Decimal(-v)| <= 14 <==> v > -100_000_000_000_000
            else |Decimal(v)| <= 15 <==> v < 1_000_000_000_000_000
  {
    hide Pow10;
    DecimalBound(if v < 0 then -v else v, if v < 0 then 14 else 15);
    Powers();
  }

  /** What is sent for an integer text: the integer itself up to 15 characters, else the one its first 15 spell. */
  lemma IntegerSent(v: int)
    ensures ValueOf(IntValue, DecimalInt(v)) == Some(Normal(Kept(v)))
    ensures ValueOf(IntValue, DecimalInt(v)) == Some(Normal(v))
        <==> -100_000_000_000_000 < v < 1_000_000_000_000_000
  {
    hide Decimal, Shortened, Find, NumBuf, Atoll, Kept;
    BufferedText(v);
    var m := Kept(v);
    BufferedText(m);
    KeptTwice(v);
    if v < 0 { AtollNegative(-m); } else { AtollDecimal(m); }
    KeptIsShort(v);
    KeptIsShort(m);
  }

  lemma KeptTwice(v: int)
    ensures if v < 0 then |Decimal(-Kept(v))| <= 14 else |Decimal(Kept(v))| <= 15
  {
    hide Decimal;
    KeptDigits(if v < 0 then -v else v, if v < 0 then 14 else 15);
  }

  /** 16 digits: the last one is not sent. */
  lemma SixteenDigits()
    ensures ValueOf(IntValue, DecimalInt(1_000_000_000_000_000)) == Some(Uint(100_000_000_000_000))
  {
    hide Decimal, ValueOf, Pow10;
    IntegerSent(1_000_000_000_000_000);
    DecimalBound(1_000_000_000_000_000, 15);
    DecimalBound(100_000_000_000_000, 15);
    Powers();
  }

  // ------------------------------------------- numbers of special names

  lemma {:induction false} DigitsDecimal(n: nat)
    ensures Digits(Decimal(n)) == n
    decreases n
  {
    var s := Decimal(n);
    if n < 10 {
      assert s[..|s| - 1] == [];
    } else {
      assert s[..|s| - 1] == Decimal(n / 10);
      DigitsDecimal(n / 10);
    }
  }

  /** Limits, offsets and ids are read in full, or refused from 2^63 on. */
  lemma AtoiDecimal(n: nat)
    ensures Atoi(Decimal(n)) == if n < TWO_63 then Some(n) else None
  {
    DigitsDecimal(n);
  }
}

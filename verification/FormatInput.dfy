/**
 ngx_http_tnt_format_read_input: the text the pairs of a format are taken from.
 It is decoded as a whole before it is split.
 */
module FormatInput {
  import opened Bytes
  import opened UrlCoding
  import opened QueryArgs
  import opened RequestMap
  import opened RequestWriter

  /** The body if there is one, otherwise the arguments, decoded. */
  function Input(args: seq<byte>, contentLength: nat, bufs: seq<Chunk>): seq<byte> {
    UrlDecode(if contentLength > 0 then Whole(bufs) else args)
  }

  method ReadInput(args: seq<byte>, contentLength: nat, bufs: seq<Chunk>) returns (ok: bool, text: seq<byte>)
    requires contentLength > 0 ==> |Whole(bufs)| == contentLength
    ensures ok <==> contentLength == 0 || InMemory(bufs)
    ensures ok && contentLength == 0 ==> text == UrlDecode(args)
    ensures ok && contentLength > 0 ==> text == UrlDecode(Whole(bufs))
    ensures ok ==> text == Input(args, contentLength, bufs)
  {
    hide Whole, UrlDecode;
    ok, text := true, args;
    if contentLength > 0 {
      ok, text := CollectBody(bufs, contentLength);
    }
    if ok {
      text := Decode(text);
    }
  }

  // --------------------------------------------- pairs encoded one by one

  /** Pairs whose keys and values are percent-encoded, as a client writes them. */
  function Encoded(ps: seq<Pair>, keep: byte -> bool, upper: bool): (r: seq<Pair>)
    ensures |r| == |ps|
  {
    if ps == [] then []
    else [Pair(PercentEncode(ps[0].key, keep, upper), PercentEncode(ps[0].value, keep, upper))]
         + Encoded(ps[1..], keep, upper)
  }

  lemma {:induction false} DecodeBefore(s: seq<byte>, keep: byte -> bool, upper: bool, rest: seq<byte>)
    ensures UrlDecode(PercentEncode(s, keep, upper) + rest) == s + UrlDecode(rest)
  {
    hide UrlDecode, EncodeByte;
    if s == [] {
      assert [] + rest == rest;
    } else {
      var e, x := EncodeByte(s[0], keep, upper), PercentEncode(s[1..], keep, upper);
      assert e + x + rest == e + (x + rest);
      DecodeEncoded(s[0], keep, upper, x + rest);
      DecodeBefore(s[1..], keep, upper, rest);
    }
  }

  lemma DecodeSeparator(b: byte, rest: seq<byte>)
    requires b == AMP || b == EQUALS
    ensures UrlDecode([b] + rest) == [b] + UrlDecode(rest)
  {
    assert ([b] + rest)[1..] == rest;
  }

  /** One encoded pair. */
  lemma DecodePair(p: Pair, keep: byte -> bool, upper: bool, rest: seq<byte>)
    ensures var k, v := PercentEncode(p.key, keep, upper), PercentEncode(p.value, keep, upper);
            UrlDecode(PairText(Pair(k, v)) + rest) == PairText(p) + UrlDecode(rest)
  {
    hide UrlDecode, PercentEncode;
    var k, v := PercentEncode(p.key, keep, upper), PercentEncode(p.value, keep, upper);
    assert k + [EQUALS] + v + rest == k + ([EQUALS] + (v + rest));
    DecodeBefore(p.key, keep, upper, [EQUALS] + (v + rest));
    DecodeSeparator(EQUALS, v + rest);
    DecodeBefore(p.value, keep, upper, rest);
  }

  /** Decoding the encoded text gives the text of the pairs themselves: every separator in them is back. */
  lemma {:induction false} DecodeText(ps: seq<Pair>, keep: byte -> bool, upper: bool)
    requires ps != []
    ensures UrlDecode(Join(Texts(Encoded(ps, keep, upper)))) == Join(Texts(ps))
    decreases |ps|
  {
    hide UrlDecode, PercentEncode, PairText;
    var es := Encoded(ps, keep, upper);
    var first := PairText(es[0]);
    if |ps| == 1 {
      DecodePair(ps[0], keep, upper, []);
      NothingToDecode();
      assert Texts(es) == [first] && Texts(ps) == [PairText(ps[0])];
      assert first + [] == first && PairText(ps[0]) + [] == PairText(ps[0]);
    } else {
      assert es[1..] == Encoded(ps[1..], keep, upper);
      var rest := Join(Texts(es[1..]));
      assert Texts(es)[1..] == Texts(es[1..]) && Texts(ps)[1..] == Texts(ps[1..]);
      assert Join(Texts(es)) == first + ([AMP] + rest);
      DecodePair(ps[0], keep, upper, [AMP] + rest);
      DecodeSeparator(AMP, rest);
      DecodeText(ps[1..], keep, upper);
    }
  }

  /**
   Pairs that a client encodes one by one come back from the decoded text
   exactly if none of them holds a separator where one is looked for.
   */
  lemma EncodedPairs(ps: seq<Pair>, keep: byte -> bool, upper: bool)
    requires ps != []
    ensures Pairs(UrlDecode(Join(Texts(Encoded(ps, keep, upper))))) == ps <==> forall p <- ps :: Plain(p)
  {
    hide UrlDecode, Split, PairsOfAll, Join, Plain;
    DecodeText(ps, keep, upper);
    var s := Join(Texts(ps));
    if forall p <- ps :: Plain(p) {
      ScanUndoesJoin(ps);
    }
    JoinSplit(s);
    PiecesArePlain(Split(s));
  }

  /** An escaped ampersand makes two pairs of one: a=1%26b=2 is read as a=1 and b=2. */
  lemma SplitByEscape(a: Pair, b: Pair, keep: byte -> bool, upper: bool)
    requires Plain(a) && Plain(b)
    ensures var one := Pair(a.key, a.value + [AMP] + PairText(b));
            Pairs(UrlDecode(Join(Texts(Encoded([one], keep, upper))))) == [a, b]
  {
    hide UrlDecode, Pairs, Encoded, Plain;
    var one := Pair(a.key, a.value + [AMP] + PairText(b));
    DecodeText([one], keep, upper);
    assert [a, b][1..] == [b] && Texts([b]) == [PairText(b)];
    assert Texts([one]) == [PairText(one)] && Texts([a, b]) == [PairText(a), PairText(b)];
    assert PairText(one) == PairText(a) + [AMP] + PairText(b);
    assert Join(Texts([a, b])) == PairText(a) + [AMP] + PairText(b);
    ScanUndoesJoin([a, b]);
  }
}

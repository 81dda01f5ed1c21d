/** Scanning of key=value&key=value texts, and their arguments as MessagePack strings. */
module QueryArgs {
  import opened Bytes
  import opened MsgPack
  import opened TpBuffer
  import opened UrlCoding

  const AMP: byte := 0x26
  const EQUALS: byte := 0x3d

  /** The first position from i on that holds c, or the end. */
  function Find(s: seq<byte>, i: nat, c: byte): (k: nat)
    requires i <= |s|
    ensures i <= k <= |s|
    ensures forall j :: i <= j < k ==> s[j] != c
    ensures k < |s| ==> s[k] == c
    decreases |s| - i
  {
    if i == |s| || s[i] == c then i else Find(s, i + 1, c)
  }

  datatype NextArg = NextArg(it: nat, value: Option<nat>)

  /** ngx_http_tnt_get_next_arg: the end of the argument at it, and where its value begins, if it has one. */
  method GetNextArg(s: seq<byte>, it: nat) returns (r: NextArg)
    requires it <= |s|
    ensures r.it == Find(s, it, AMP)
    ensures r.value == var e := Find(s, it, EQUALS); if e < r.it then Some(e + 1) else None
  {
    var i := it;
    var value: Option<nat> := None;
    while i < |s|
      invariant it <= i <= |s|
      invariant Find(s, it, AMP) == Find(s, i, AMP)
      invariant value.None? ==> Find(s, it, EQUALS) == Find(s, i, EQUALS)
      invariant value.Some? ==> value == Some(Find(s, it, EQUALS) + 1) && Find(s, it, EQUALS) < i
    {
      if value.None? && s[i] == EQUALS {
        value := Some(i + 1);
      } else if s[i] == AMP {
        return NextArg(i, value);
      }
      i := i + 1;
    }
    r := NextArg(|s|, value);
  }

  // ------------------------------------------------------------- the meaning

  /** The pieces between the ampersands. */
  function Split(s: seq<byte>): (r: seq<seq<byte>>)
    ensures r != []
    decreases |s|
  {
    var n := Find(s, 0, AMP);
    if n == |s| then [s] else [s[..n]] + Split(s[n + 1..])
  }

  function Join(pieces: seq<seq<byte>>): seq<byte>
    requires pieces != []
  {
    if |pieces| == 1 then pieces[0] else pieces[0] + [AMP] + Join(pieces[1..])
  }

  /** Split is the inverse of joining with ampersands, and leaves none. */
  lemma {:induction false} JoinSplit(s: seq<byte>)
    ensures Join(Split(s)) == s
    ensures forall i :: 0 <= i < |Split(s)| ==> AMP !in Split(s)[i]
    decreases |s|
  {
    var n := Find(s, 0, AMP);
    if n < |s| {
      JoinSplit(s[n + 1..]);
      assert s == s[..n] + [AMP] + s[n + 1..];
    }
  }

  datatype Pair = Pair(key: seq<byte>, value: seq<byte>)

  /** A piece split at its first equals sign; a piece without one is no pair. */
  function PairsOf(piece: seq<byte>): seq<Pair> {
    var e := Find(piece, 0, EQUALS);
    if e < |piece| then [Pair(piece[..e], piece[e + 1..])] else []
  }

  function PairsOfAll(pieces: seq<seq<byte>>): seq<Pair> {
    if pieces == [] then [] else PairsOf(pieces[0]) + PairsOfAll(pieces[1..])
  }

  /** The pairs of a query text, in order. */
  function Pairs(s: seq<byte>): seq<Pair> {
    PairsOfAll(Split(s))
  }

  function WithValue(ps: seq<Pair>): seq<Pair> {
    if ps == [] then [] else (if ps[0].value != [] then [ps[0]] else []) + WithValue(ps[1..])
  }

  /** The arguments that are passed on: the pairs with a value. */
  function Args(s: seq<byte>): seq<Pair> {
    WithValue(Pairs(s))
  }

  // ------------------------------------------------- the text of given pairs

  function PairText(p: Pair): seq<byte> {
    p.key + [EQUALS] + p.value
  }

  function Texts(ps: seq<Pair>): seq<seq<byte>> {
    if ps == [] then [] else [PairText(ps[0])] + Texts(ps[1..])
  }

  /** No separator where it would be taken for one. */
  predicate Plain(p: Pair) {
    AMP !in p.key && EQUALS !in p.key && AMP !in p.value
  }

  lemma {:induction false} FindSkips(s: seq<byte>, i: nat, k: nat, c: byte)
    requires i <= k <= |s| && forall j :: i <= j < k ==> s[j] != c
    requires k == |s| || s[k] == c
    ensures Find(s, i, c) == k
    decreases k - i
  {
    if i < k {
      FindSkips(s, i + 1, k, c);
    }
  }

  lemma FirstOfJoin(piece: seq<byte>, rest: seq<byte>)
    requires AMP !in piece
    ensures Split(piece) == [piece]
    ensures Split(piece + [AMP] + rest) == [piece] + Split(rest)
  {
    hide Find;
    var s := piece + [AMP] + rest;
    FindSkips(piece, 0, |piece|, AMP);
    FindSkips(s, 0, |piece|, AMP);
    assert s[..|piece|] == piece && s[|piece| + 1..] == rest;
  }

  lemma PairOfText(p: Pair)
    requires Plain(p)
    ensures PairsOf(PairText(p)) == [p] && AMP !in PairText(p)
  {
    hide Find;
    var s := PairText(p);
    FindSkips(s, 0, |p.key|, EQUALS);
    assert s[..|p.key|] == p.key && s[|p.key| + 1..] == p.value;
  }

  /** Scanning undoes writing: key=value texts joined with ampersands give back their pairs. */
  lemma {:induction false} ScanUndoesJoin(ps: seq<Pair>)
    requires ps != [] && forall i :: 0 <= i < |ps| ==> Plain(ps[i])
    ensures Texts(ps) != [] && Pairs(Join(Texts(ps))) == ps
  {
    hide Split, PairsOf, PairText, Plain;
    PairOfText(ps[0]);
    if |ps| == 1 {
      assert Texts(ps) == [PairText(ps[0])];
      FirstOfJoin(PairText(ps[0]), []);
      assert ps == [ps[0]];
      assert PairsOfAll([PairText(ps[0])]) == PairsOf(PairText(ps[0])) + PairsOfAll([]);
    } else {
      ScanUndoesJoin(ps[1..]);
      var rest := Join(Texts(ps[1..]));
      FirstOfJoin(PairText(ps[0]), rest);
      assert Texts(ps)[1..] == Texts(ps[1..]);
      assert Join(Texts(ps)) == PairText(ps[0]) + [AMP] + rest;
      FirstPiece(PairText(ps[0]), Split(rest));
    }
  }

  lemma {:induction false} PiecesArePlain(pieces: seq<seq<byte>>)
    requires forall i :: 0 <= i < |pieces| ==> AMP !in pieces[i]
    ensures forall p <- PairsOfAll(pieces) :: Plain(p)
    decreases |pieces|
  {
    hide Find;
    if pieces != [] {
      PiecesArePlain(pieces[1..]);
    }
  }

  // ------------------------------------------------------------ the encoding

  /** The value as it is passed on: decoded if the location asks for it. */
  function Passed(value: seq<byte>, unescape: bool): seq<byte> {
    if unescape then UrlDecode(value) else value
  }

  /** tp_encode_str_map_item. */
  function PairBytes(p: Pair, unescape: bool): seq<byte> {
    EncStr(p.key) + EncStr(Passed(p.value, unescape))
  }

  /** The pairs, each behind a prefix ([] inside one map, a one-entry map header in a list of maps). */
  function PairsBytes(ps: seq<Pair>, prefix: seq<byte>, unescape: bool): seq<byte> {
    if ps == [] then [] else prefix + PairBytes(ps[0], unescape) + PairsBytes(ps[1..], prefix, unescape)
  }

  lemma {:induction false} PairsBytesConcat(a: seq<Pair>, b: seq<Pair>, prefix: seq<byte>, unescape: bool)
    ensures PairsBytes(a + b, prefix, unescape) == PairsBytes(a, prefix, unescape) + PairsBytes(b, prefix, unescape)
  {
    if a == [] {
      assert a + b == b;
    } else {
      assert (a + b)[0] == a[0] && (a + b)[1..] == a[1..] + b;
      PairsBytesConcat(a[1..], b, prefix, unescape);
    }
  }

  // ------------------------------------------------------- the scanning loop

  /** The pair between i and n, its first equals sign at e. */
  function PairAt(s: seq<byte>, i: nat, n: nat, e: nat): seq<Pair>
    requires i <= n <= |s| && i <= e <= |s|
  {
    if e < n then [Pair(s[i..e], s[e + 1..n])] else []
  }

  /** The pairs found in s from position i on. */
  function PairsFrom(s: seq<byte>, i: nat): seq<Pair>
    decreases |s| - i
  {
    if i >= |s| then []
    else
      var n := Find(s, i, AMP);
      PairAt(s, i, n, Find(s, i, EQUALS)) + PairsFrom(s, n + 1)
  }

  lemma {:induction false} FindInSlice(s: seq<byte>, i: nat, j: nat, k: nat, c: byte)
    requires i <= j <= k <= |s|
    ensures Find(s[i..k], j - i, c) == (if Find(s, j, c) < k then Find(s, j, c) else k) - i
    decreases k - j
  {
    if j < k && s[j] != c {
      FindInSlice(s, i, j + 1, k, c);
    }
  }

  lemma PieceAt(s: seq<byte>, i: nat)
    requires i <= |s|
    ensures var n := Find(s, i, AMP); PairsOf(s[i..n]) == PairAt(s, i, n, Find(s, i, EQUALS))
  {
    hide Find;
    var n, e := Find(s, i, AMP), Find(s, i, EQUALS);
    FindInSlice(s, i, i, n, EQUALS);
    if e < n {
      assert s[i..n][..e - i] == s[i..e] && s[i..n][e - i + 1..] == s[e + 1..n];
    }
  }

  lemma SplitFirst(t: seq<byte>)
    ensures var n := Find(t, 0, AMP);
            Split(t) == [t[..n]] + if n < |t| then Split(t[n + 1..]) else []
  {
    hide Find;
    if Find(t, 0, AMP) == |t| {
      assert t[..|t|] == t;
      assert [t] + [] == [t];
    }
  }

  lemma SplitAt(s: seq<byte>, i: nat)
    requires i <= |s|
    ensures var n := Find(s, i, AMP);
            Split(s[i..]) == [s[i..n]] + if n < |s| then Split(s[n + 1..]) else []
  {
    hide Find, Split;
    var t, n := s[i..], Find(s, i, AMP);
    FindInSlice(s, i, i, |s|, AMP);
    assert s[i..|s|] == t;
    SplitFirst(t);
    assert t[..n - i] == s[i..n];
    if n < |s| {
      assert t[n - i + 1..] == s[n + 1..];
    }
  }

  lemma FirstPiece(piece: seq<byte>, rest: seq<seq<byte>>)
    ensures PairsOfAll([piece] + rest) == PairsOf(piece) + PairsOfAll(rest)
  {
    assert ([piece] + rest)[1..] == rest;
  }

  /** The loop sees the pairs of the text split at its ampersands. */
  lemma {:induction false} LoopSeesPairs(s: seq<byte>, i: nat)
    requires i <= |s|
    ensures PairsFrom(s, i) == Pairs(s[i..])
    decreases |s| - i
  {
    hide Find, Split, PairsOf, PairsOfAll, PairAt;
    SplitAt(s, i);
    PieceAt(s, i);
    var n := Find(s, i, AMP);
    if n < |s| {
      LoopSeesPairs(s, n + 1);
      FirstPiece(s[i..n], Split(s[n + 1..]));
    } else {
      FirstPiece(s[i..n], []);
      NoPieces();
      if i == |s| {
        EmptyPiece();
        assert s[i..n] == [];
      }
    }
  }

  lemma NoPieces()
    ensures PairsOfAll([]) == []
  {
  }

  lemma EmptyPiece()
    ensures PairsOf([]) == []
  {
  }

  /** tp_encode_str_map_item: both strings or, with room for the key alone, the key. */
  method EncodeItem(tp: TpStream, key: seq<byte>, value: seq<byte>) returns (ok: bool)
    requires tp.Valid() && tp.size.Some?
    modifies tp, tp.buf
    ensures tp.Valid() && tp.size == old(tp.size) && tp.sync == old(tp.sync)
    ensures ok <==> Fits(old(tp.State()), |EncStr(key) + EncStr(value)|)
    ensures ok ==> tp.State() == Append(old(tp.State()), EncStr(key) + EncStr(value))
  {
    hide Append, StrHead;
    ok := tp.Encode(EncStr(key));
    if ok {
      ok := tp.Encode(EncStr(value));
      if ok {
        AppendAppend(old(tp.State()), EncStr(key), EncStr(value));
      }
    }
  }

  /** ngx_http_tnt_encode_str_map_item. */
  method EncodeStrMapItem(tp: TpStream, key: seq<byte>, value: seq<byte>, unescape: bool) returns (ok: bool)
    requires tp.Valid() && tp.size.Some?
    modifies tp, tp.buf
    ensures tp.Valid() && tp.size == old(tp.size) && tp.sync == old(tp.sync)
    ensures ok <==> Fits(old(tp.State()), |PairBytes(Pair(key, value), unescape)|)
    ensures ok ==> tp.State() == Append(old(tp.State()), PairBytes(Pair(key, value), unescape))
  {
    hide Append, StrHead;
    var v := value;
    if unescape {
      v := Decode(value);
    }
    ok := EncodeItem(tp, key, v);
  }

  /** One argument, behind its prefix if there is one. */
  method EncodeArg(tp: TpStream, prefix: seq<byte>, p: Pair, unescape: bool) returns (ok: bool)
    requires tp.Valid() && tp.size.Some? && Fits(tp.State(), |prefix| + |PairBytes(p, unescape)|)
    modifies tp, tp.buf
    ensures tp.Valid() && tp.size == old(tp.size) && tp.sync == old(tp.sync) && ok
    ensures tp.State() ==
      Append(if prefix == [] then old(tp.State()) else Append(old(tp.State()), prefix), PairBytes(p, unescape))
  {
    hide Append, PairBytes;
    if prefix != [] {
      ok := tp.Encode(prefix);
    }
    ok := EncodeStrMapItem(tp, p.key, p.value, unescape);
  }

  /**
   The loop of ngx_http_tnt_encode_query_args and, with a one-entry map header
   as prefix, of ngx_http_tnt_encode_urlencoded_body: it writes and counts
   exactly the arguments with a non-empty value.
   */
  method EncodeArgs(tp: TpStream, s: seq<byte>, prefix: seq<byte>, unescape: bool) returns (ok: bool, items: nat)
    requires tp.Valid() && Counted(tp.State())
    requires Fits(tp.State(), |PairsBytes(Args(s), prefix, unescape)|)
    modifies tp, tp.buf
    ensures tp.Valid() && tp.size.Some?
    ensures ok && items == |Args(s)|
    ensures tp.State() == Append(old(tp.State()), PairsBytes(Args(s), prefix, unescape))
  {
    hide Append, Find, ArgsFrom, PairsBytes, PairBytes, SoFar, Args;
    ghost var t := tp.State();
    ghost var seen: seq<Pair> := [];
    LoopSeesArgs(s);
    NoneWritten(t, Args(s), prefix, unescape);
    ok, items := true, 0;
    var it := 0;
    while it < |s|
      invariant it <= |s| + 1 && ok && items == |seen|
      invariant tp.Valid() && tp.size == t.size
      invariant SoFar(t, Args(s), seen, ArgsFrom(s, it), prefix, unescape, tp.State())
    {
      var begin := it;
      var arg := GetNextArg(s, it);
      NextArgs(s, it);
      it := arg.it + 1;
      if arg.value.Some? && arg.it > arg.value.value {
        var pair := Pair(s[begin..arg.value.value - 1], s[arg.value.value..arg.it]);
        items := items + 1;
        MorePairs(t, Args(s), seen, pair, ArgsFrom(s, it), prefix, unescape, tp.State());
        ok := EncodeArg(tp, prefix, pair, unescape);
        seen := seen + [pair];
      }
    }
    NextArgs(s, it);
    Finished(t, Args(s), seen, prefix, unescape, tp.State());
  }

  /** The arguments found in s from position i on. */
  function ArgsFrom(s: seq<byte>, i: nat): seq<Pair> {
    WithValue(PairsFrom(s, i))
  }

  lemma LoopSeesArgs(s: seq<byte>)
    ensures ArgsFrom(s, 0) == Args(s)
  {
    LoopSeesPairs(s, 0);
    assert s[0..] == s;
  }

  lemma NextArgs(s: seq<byte>, i: nat)
    ensures i >= |s| ==> ArgsFrom(s, i) == []
    ensures i < |s| ==>
      var n, e := Find(s, i, AMP), Find(s, i, EQUALS);
      && i <= n <= |s| && i <= e <= |s|
      && ArgsFrom(s, i) == if e + 1 < n then [Pair(s[i..e], s[e + 1..n])] + ArgsFrom(s, n + 1) else ArgsFrom(s, n + 1)
  {
    hide Find;
    if i < |s| {
      NextPair(s, i);
      var n, e := Find(s, i, AMP), Find(s, i, EQUALS);
      if e < n {
        FirstWithValue(Pair(s[i..e], s[e + 1..n]), PairsFrom(s, n + 1));
      }
    } else {
      LoopEnds(s, i);
    }
  }

  lemma FirstWithValue(p: Pair, rest: seq<Pair>)
    ensures WithValue([p] + rest) == if p.value != [] then [p] + WithValue(rest) else WithValue(rest)
  {
    assert ([p] + rest)[1..] == rest;
  }

  /** Of all pairs, those seen are written behind t, and the rest has room. */
  ghost predicate SoFar(t: Tp, all: seq<Pair>, seen: seq<Pair>, rest: seq<Pair>, prefix: seq<byte>, unescape: bool,
                        now: Tp)
  {
    && all == seen + rest
    && Counted(t)
    && |PairsBytes(seen, prefix, unescape)| <= |PairsBytes(all, prefix, unescape)|
    && Fits(t, |PairsBytes(all, prefix, unescape)|)
    && now == Append(t, PairsBytes(seen, prefix, unescape))
  }

  lemma NoneWritten(t: Tp, all: seq<Pair>, prefix: seq<byte>, unescape: bool)
    requires Counted(t) && Fits(t, |PairsBytes(all, prefix, unescape)|)
    ensures SoFar(t, all, [], all, prefix, unescape, t)
  {
    hide Append, PairBytes;
    AppendEmpty(t);
    assert [] + all == all;
  }

  lemma Finished(t: Tp, all: seq<Pair>, seen: seq<Pair>, prefix: seq<byte>, unescape: bool, now: Tp)
    requires SoFar(t, all, seen, [], prefix, unescape, now)
    ensures seen == all && Counted(t) && Fits(t, |PairsBytes(all, prefix, unescape)|)
    ensures now == Append(t, PairsBytes(all, prefix, unescape))
  {
    assert seen + [] == seen;
  }

  /** One more pair, and room for it. */
  lemma MorePairs(t: Tp, all: seq<Pair>, seen: seq<Pair>, pair: Pair, rest: seq<Pair>, prefix: seq<byte>,
                  unescape: bool, now: Tp)
    requires SoFar(t, all, seen, [pair] + rest, prefix, unescape, now)
    ensures Started(now) && now.size.value + 5 <= now.p && Fits(now, |prefix| + |PairBytes(pair, unescape)|)
    ensures SoFar(t, all, seen + [pair], rest, prefix, unescape,
                  Append(if prefix == [] then now else Append(now, prefix), PairBytes(pair, unescape)))
  {
    hide PairBytes, Append;
    PairsBytesConcat(seen, [pair], prefix, unescape);
    PairsBytesConcat(seen + [pair], rest, prefix, unescape);
    assert seen + ([pair] + rest) == seen + [pair] + rest;
    assert [pair][1..] == [];
    assert PairsBytes([pair], prefix, unescape) == prefix + PairBytes(pair, unescape);
    AppendAppend(t, PairsBytes(seen, prefix, unescape), prefix + PairBytes(pair, unescape));
    if prefix == [] {
      assert prefix + PairBytes(pair, unescape) == PairBytes(pair, unescape);
    } else {
      AppendAppend(now, prefix, PairBytes(pair, unescape));
    }
  }

  lemma NextPair(s: seq<byte>, i: nat)
    requires i < |s|
    ensures var n, e := Find(s, i, AMP), Find(s, i, EQUALS);
            && i <= n <= |s| && i <= e <= |s|
            && PairsFrom(s, i)
               == if e < n then [Pair(s[i..e], s[e + 1..n])] + PairsFrom(s, n + 1) else PairsFrom(s, n + 1)
  {
    assert [] + PairsFrom(s, Find(s, i, AMP) + 1) == PairsFrom(s, Find(s, i, AMP) + 1);
  }

  lemma LoopEnds(s: seq<byte>, i: nat)
    requires i >= |s|
    ensures PairsFrom(s, i) == []
  {
  }
}

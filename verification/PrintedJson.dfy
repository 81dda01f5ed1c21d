/** Whether the printed text is JSON, what it denotes, and the round trip from events to text. */
module PrintedJson {
  import opened Bytes
  import opened MsgPack
  import opened JsonText
  import opened JsonReader
  import opened Unicode
  import opened Rendering
  import Json
  import TpBuffer
  import Machine
  import Simulation
  import Calls
  import Printing

  /** A key that is printed as a string: a string, or an integer still in quotes. */
  predicate AsString(k: Mp, quoted: bool) {
    k.Str? || k.Bin? || (quoted && (k.Uint? || k.Int?))
  }

  predicate KeyOk(k: Mp, quoted: bool) {
    AsString(k, quoted) && (k.Str? || k.Bin? ==> IsUtf8(k.s))
  }

  /** All strings in v are UTF-8, and all keys of maps are printed as strings. */
  predicate JsonOk(v: Mp)
    decreases v, 0
  {
    match v
    case Str(s) => IsUtf8(s)
    case Bin(s) => IsUtf8(s)
    case Array(items) => ItemsOk(items)
    case Map(es) => EntriesOk(es, true)
    case _ => true
  }

  predicate ItemsOk(items: seq<Mp>)
    decreases items, 1
  {
    items == [] || (JsonOk(items[0]) && ItemsOk(items[1..]))
  }

  predicate EntryOk(e: Entry, quoted: bool)
    decreases e, 1
  {
    KeyOk(e.key, quoted) && JsonOk(e.value)
  }

  predicate EntriesOk(es: seq<Entry>, quoted: bool)
    decreases es, 2
  {
    es == [] || (EntryOk(es[0], quoted) && EntriesOk(es[1..], quoted && !EntryHasMap(es[0])))
  }

  /** The same said of positions: a key is a string, or an integer behind no entry that holds a map. */
  lemma {:induction false} EntriesOkAt(es: seq<Entry>, quoted: bool)
    ensures EntriesOk(es, quoted) <==>
      forall i :: 0 <= i < |es| ==> EntryOk(es[i], quoted && NoMapBefore(es, i))
    decreases es
  {
    hide EntryOk, EntryHasMap;
    if es != [] {
      var q := quoted && !EntryHasMap(es[0]);
      EntriesOkAt(es[1..], q);
      forall i | 0 <= i < |es| - 1
        ensures es[1..][i] == es[i + 1]
        ensures (q && NoMapBefore(es[1..], i)) == (quoted && NoMapBefore(es, i + 1))
      {
        assert forall j :: 0 <= j < i ==> es[1..][j] == es[j + 1];
      }
      assert NoMapBefore(es, 0);
      if EntriesOk(es, quoted) {
        forall i | 0 <= i < |es|
          ensures EntryOk(es[i], quoted && NoMapBefore(es, i))
        {
          if i > 0 {
            assert es[1..][i - 1] == es[i];
          }
        }
      }
    }
  }

  /** The value a JSON reader finds in the text of v: keys are strings, bytes are strings. */
  function Denoted(v: Mp): Mp
    decreases v, 0
  {
    match v
    case Int(i) => Normal(i)
    case Bin(s) => Str(s)
    case Array(items) => Array(DenotedItems(items))
    case Map(es) => Map(DenotedEntries(es))
    case _ => v
  }

  function DenotedItems(items: seq<Mp>): seq<Mp>
    decreases items, 1
  {
    if items == [] then [] else [Denoted(items[0])] + DenotedItems(items[1..])
  }

  function KeyText(k: Mp): seq<byte> {
    match k
    case Str(s) => s
    case Bin(s) => s
    case Uint(n) => DecimalInt(n)
    case Int(i) => DecimalInt(i)
    case _ => []
  }

  function DenotedEntry(e: Entry): Entry
    decreases e, 1
  {
    Entry(Str(KeyText(e.key)), Denoted(e.value))
  }

  function DenotedEntries(es: seq<Entry>): seq<Entry>
    decreases es, 2
  {
    if es == [] then [] else [DenotedEntry(es[0])] + DenotedEntries(es[1..])
  }

  // ----------------------------------------------------------------- strings

  lemma {:induction false} EscapePlain(s: seq<byte>)
    requires forall k :: 0 <= k < |s| ==> s[k] >= 0x20 && s[k] != QUOTE && s[k] != BACKSLASH
    ensures Escape(s, false) == s
  {
    if s != [] {
      EscapePlain(s[1..]);
      assert [s[0]] + s[1..] == s;
    }
  }

  lemma QuotedInteger(i: int)
    ensures IntegerText(i, true) == Quoted(DecimalInt(i), false)
  {
    EscapePlain(DecimalInt(i));
  }

  /** What a text begins with. */
  lemma FirstByte(v: Mp, quoted: bool)
    ensures Render(v, quoted)[0] != RBRACKET && Render(v, quoted)[0] != RBRACE
    ensures Render(v, quoted)[0] == QUOTE <==> AsString(v, quoted)
    ensures (v.Uint? || v.Int?) && !quoted ==> Digit(Render(v, quoted)[0]) || Render(v, quoted)[0] == MINUS
  {
  }

  /** A key is read as a string, with its text, exactly when it is printed as one and is UTF-8. */
  lemma ReadKey(t: seq<byte>, i: nat, k: Mp, quoted: bool)
    requires At(t, i, Render(k, quoted))
    ensures ReadText(t, i) ==
      if KeyOk(k, quoted) then Some((KeyText(k), i + |Render(k, quoted)|)) else None
  {
    hide ReadChars, Utf8From;
    AtFirst(t, i, Render(k, quoted));
    FirstByte(k, quoted);
    if AsString(k, quoted) {
      if k.Uint? { QuotedInteger(k.n); } else if k.Int? { QuotedInteger(k.i); }
      assert Render(k, quoted) == Quoted(KeyText(k), false);
      ReadQuotedText(t, i, KeyText(k), false);
      if k.Uint? || k.Int? { AsciiIsUtf8(KeyText(k)); }
    }
  }

  // ------------------------------------------------------------------ values

  /**
   The text of v, followed by no digit, is read as what v denotes exactly when
   all its strings are UTF-8 and every key of every map in it was printed as a
   string; otherwise not at all.
   */
  lemma {:induction false} ReadRendered(t: seq<byte>, i: nat, v: Mp)
    requires At(t, i, Render(v, false)) && Ends(t, i + |Render(v, false)|)
    ensures ReadJson(t, i) == if JsonOk(v) then Some((Denoted(v), i + |Render(v, false)|)) else None
    decreases v, 0
  {
    if v.Array? {
      ReadRenderedArray(t, i, v.items);
    } else if v.Map? {
      ReadRenderedMap(t, i, v.entries);
    } else {
      ReadRenderedScalar(t, i, v);
    }
  }

  lemma ReadRenderedScalar(t: seq<byte>, i: nat, v: Mp)
    requires At(t, i, Render(v, false)) && Ends(t, i + |Render(v, false)|) && !v.Array? && !v.Map?
    ensures ReadJson(t, i) == if JsonOk(v) then Some((Denoted(v), i + |Render(v, false)|)) else None
  {
    hide ReadChars, ReadNumber, DecimalInt, ReadText, Utf8From;
    AtFirst(t, i, Render(v, false));
    FirstByte(v, false);
    match v
    case Str(s) => ReadQuotedText(t, i, s, false);
    case Bin(s) => ReadQuotedText(t, i, s, false);
    case Uint(n) => ReadDecimalInt(t, i, n);
    case Int(n) => ReadDecimalInt(t, i, n);
    case _ =>
  }

  lemma AtBracketed(t: seq<byte>, i: nat, l: byte, x: seq<byte>, r: byte)
    requires At(t, i, [l] + x + [r])
    ensures i + 1 + |x| < |t| && t[i] == l && t[i + 1 + |x|] == r && At(t, i + 1, x)
    ensures x != [] ==> t[i + 1] == x[0]
  {
    AtSplit3(t, i, [l], x, [r]);
    AtFirst(t, i, [l]);
    AtFirst(t, i + 1 + |x|, [r]);
    if x != [] {
      AtFirst(t, i + 1, x);
    }
  }

  lemma {:induction false} ReadRenderedArray(t: seq<byte>, i: nat, items: seq<Mp>)
    requires At(t, i, Render(Array(items), false))
    ensures ReadJson(t, i) ==
      if ItemsOk(items) then Some((Array(DenotedItems(items)), i + |Render(Array(items), false)|)) else None
    decreases items, 2
  {
    hide ReadJson, RenderItems, At, DenotedItems, ItemsOk, ReadElements;
    AtBracketed(t, i, LBRACKET, RenderItems(items, false, true), RBRACKET);
    OpenBracket(t, i);
    if items == [] {
      NoItems();
    } else {
      FirstItem(items, false);
      ReadRenderedItems(t, i + 1, items);
    }
  }

  lemma OpenBracket(t: seq<byte>, i: nat)
    requires i + 1 < |t| && t[i] == LBRACKET
    ensures t[i + 1] == RBRACKET ==> ReadJson(t, i) == Some((Array([]), i + 2))
    ensures t[i + 1] != RBRACKET ==>
      ReadJson(t, i) == if ReadElements(t, i + 1).None? then None
                        else Some((Array(ReadElements(t, i + 1).value.0), ReadElements(t, i + 1).value.1))
  {
    hide ReadElements;
  }

  lemma NoItems()
    ensures RenderItems([], false, true) == [] && ItemsOk([]) && DenotedItems([]) == []
  {
  }

  lemma FirstItem(items: seq<Mp>, quoted: bool)
    requires items != []
    ensures RenderItems(items, quoted, true) != [] && RenderItems(items, quoted, true)[0] != RBRACKET
    ensures RenderItems(items, quoted, false) == [COMMA] + RenderItems(items, quoted, true)
  {
    FirstByte(items[0], quoted);
  }

  lemma {:induction false} ReadRenderedItems(t: seq<byte>, i: nat, items: seq<Mp>)
    requires items != [] && At(t, i, RenderItems(items, false, true))
    requires i + |RenderItems(items, false, true)| < |t| && t[i + |RenderItems(items, false, true)|] == RBRACKET
    ensures ReadElements(t, i) ==
      if ItemsOk(items) then Some((DenotedItems(items), i + |RenderItems(items, false, true)| + 1)) else None
    decreases items, 1
  {
    hide Render, ReadJson, At, Denoted, JsonOk;
    assert [Denoted(items[0])] + [] == [Denoted(items[0])];
    var head, tail := Render(items[0], false), RenderItems(items[1..], false, false);
    assert [] + head + tail == head + tail;
    AtSplit(t, i, head, tail);
    var j := i + |head|;
    if items[1..] == [] {
      ReadRendered(t, i, items[0]);
    } else {
      FirstItem(items[1..], false);
      AtSplit(t, j, [COMMA], RenderItems(items[1..], false, true));
      AtFirst(t, j, [COMMA]);
      ReadRendered(t, i, items[0]);
      ReadRenderedItems(t, j + 1, items[1..]);
    }
  }

  lemma {:induction false} ReadRenderedMap(t: seq<byte>, i: nat, es: seq<Entry>)
    requires At(t, i, Render(Map(es), false))
    ensures ReadJson(t, i) ==
      if EntriesOk(es, true) then Some((Map(DenotedEntries(es)), i + |Render(Map(es), false)|)) else None
    decreases es, 3
  {
    hide ReadJson, RenderEntries, At, DenotedEntries, EntriesOk, ReadMembers;
    AtBracketed(t, i, LBRACE, RenderEntries(es, true, true), RBRACE);
    OpenBrace(t, i);
    if es == [] {
      NoEntries();
    } else {
      FirstEntry(es, true);
      ReadRenderedEntries(t, i + 1, es, true);
    }
  }

  lemma OpenBrace(t: seq<byte>, i: nat)
    requires i + 1 < |t| && t[i] == LBRACE
    ensures t[i + 1] == RBRACE ==> ReadJson(t, i) == Some((Map([]), i + 2))
    ensures t[i + 1] != RBRACE ==>
      ReadJson(t, i) == if ReadMembers(t, i + 1).None? then None
                        else Some((Map(ReadMembers(t, i + 1).value.0), ReadMembers(t, i + 1).value.1))
  {
    hide ReadMembers;
  }

  lemma NoEntries()
    ensures RenderEntries([], true, true) == [] && EntriesOk([], true) && DenotedEntries([]) == []
  {
  }

  lemma FirstEntry(es: seq<Entry>, quoted: bool)
    requires es != []
    ensures RenderEntries(es, quoted, true) != [] && RenderEntries(es, quoted, true)[0] != RBRACE
    ensures RenderEntries(es, quoted, false) == [COMMA] + RenderEntries(es, quoted, true)
  {
    hide Render, EntryHasMap;
    FirstByte(es[0].key, quoted);
    var key, rest := Render(es[0].key, quoted), [COLON] + Render(es[0].value, false);
    assert RenderEntry(es[0], quoted, true) == key + rest;
    assert RenderEntry(es[0], quoted, false) == [COMMA] + (key + rest);
    hide RenderEntry;
  }

  function PrependEntry(e: Entry, o: Option<(seq<Entry>, nat)>): Option<(seq<Entry>, nat)> {
    if o.Some? then Some(([e] + o.value.0, o.value.1)) else None
  }

  /** One entry without its separator, followed by a comma or by the closing brace. */
  lemma {:induction false} ReadRenderedEntry(t: seq<byte>, i: nat, e: Entry, quoted: bool, j: nat)
    requires At(t, i, Render(e.key, quoted))
    requires i + |Render(e.key, quoted)| < |t| && t[i + |Render(e.key, quoted)|] == COLON
    requires At(t, i + |Render(e.key, quoted)| + 1, Render(e.value, false))
    requires j == i + |Render(e.key, quoted)| + 1 + |Render(e.value, false)| < |t| && (t[j] == RBRACE || t[j] == COMMA)
    ensures ReadMembers(t, i) ==
      if !EntryOk(e, quoted) then None
      else if t[j] == RBRACE then Some(([DenotedEntry(e)], j + 1))
      else PrependEntry(DenotedEntry(e), ReadMembers(t, j + 1))
    decreases e, 1
  {
    hide Render, ReadJson, ReadText, At, Denoted, JsonOk, KeyOk;
    ReadKey(t, i, e.key, quoted);
    ReadRendered(t, i + |Render(e.key, quoted)| + 1, e.value);
  }

  lemma {:induction false} ReadRenderedEntries(t: seq<byte>, i: nat, es: seq<Entry>, quoted: bool)
    requires es != [] && At(t, i, RenderEntries(es, quoted, true))
    requires i + |RenderEntries(es, quoted, true)| < |t| && t[i + |RenderEntries(es, quoted, true)|] == RBRACE
    ensures ReadMembers(t, i) ==
      if EntriesOk(es, quoted) then Some((DenotedEntries(es), i + |RenderEntries(es, quoted, true)| + 1)) else None
    decreases es, 2
  {
    hide Render, ReadMembers, At, DenotedEntry, EntryOk, EntryHasMap;
    var key, value := Render(es[0].key, quoted), Render(es[0].value, false);
    var q := quoted && !EntryHasMap(es[0]);
    var tail := RenderEntries(es[1..], q, false);
    var j := i + |key| + 1 + |value|;
    EntryParts(t, i, key, value, tail);
    if es[1..] == [] {
      ReadRenderedEntry(t, i, es[0], quoted, j);
      assert [DenotedEntry(es[0])] + [] == [DenotedEntry(es[0])];
    } else {
      FirstEntry(es[1..], q);
      AtSplit(t, j, [COMMA], RenderEntries(es[1..], q, true));
      AtFirstByte(t, j, COMMA);
      ReadRenderedEntry(t, i, es[0], quoted, j);
      ReadRenderedEntries(t, j + 1, es[1..], q);
    }
  }

  lemma EntryParts(t: seq<byte>, i: nat, key: seq<byte>, value: seq<byte>, tail: seq<byte>)
    requires At(t, i, [] + key + [COLON] + value + tail)
    ensures At(t, i, key) && At(t, i + |key| + 1, value) && At(t, i + |key| + 1 + |value|, tail)
    ensures i + |key| < |t| && t[i + |key|] == COLON
  {
    assert [] + key + [COLON] + value + tail == key + [COLON] + value + tail;
    AtSplit(t, i, key + [COLON] + value, tail);
    AtSplit3(t, i, key, [COLON], value);
    AtFirst(t, i + |key|, [COLON]);
  }

  lemma AtFirstByte(t: seq<byte>, i: nat, b: byte)
    requires At(t, i, [b])
    ensures i < |t| && t[i] == b
  {
    AtFirst(t, i, [b]);
  }

  /** The printed text is JSON exactly when JsonOk, and then it means the value printed. */
  lemma PrintedMeaning(v: Mp)
    ensures Meaning(Render(v, false)) == if JsonOk(v) then Some(Denoted(v)) else None
  {
    var t := Render(v, false);
    assert t[0..|t|] == t;
    ReadRendered(t, 0, v);
  }

  /** {"a":{},34:null}: an integer key behind a map comes out bare, and the text is no JSON. */
  lemma UnquotedKey()
    ensures var v := Map([Entry(Str([0x61]), Map([])), Entry(Uint(34), Nil)]);
            !JsonOk(v) && Meaning(Render(v, false)) == None
  {
    hide Render, Meaning, EntriesOk;
    var es := [Entry(Str([0x61]), Map([])), Entry(Uint(34), Nil)];
    PrintedMeaning(Map(es));
    EntriesOkAt(es, true);
    assert EntryHasMap(es[0]) && !EntryOk(es[1], true && NoMapBefore(es, 1));
  }

  /** The byte 0xff is copied as it is: the text is no JSON. */
  lemma RawByte()
    ensures Meaning(Render(Bin([0xff]), false)) == None
  {
    hide Render, Meaning;
    PrintedMeaning(Bin([0xff]));
    assert NextDue(START, 0xff) == None;
  }

  // -------------------------------------------------------------- round trip

  /** Every string and every key in j is UTF-8. */
  predicate Utf8Json(j: Json.Json)
    decreases j, 0
  {
    match j
    case JStr(s) => IsUtf8(s)
    case JArr(items) => Utf8Items(items)
    case JObj(ms) => Utf8Members(ms)
    case _ => true
  }

  predicate Utf8Items(items: seq<Json.Json>)
    decreases items, 1
  {
    items == [] || (Utf8Json(items[0]) && Utf8Items(items[1..]))
  }

  predicate Utf8Members(ms: seq<Json.Member>)
    decreases ms, 1
  {
    ms == [] || (IsUtf8(ms[0].key) && Utf8Json(ms[0].value) && Utf8Members(ms[1..]))
  }

  /** A JSON value: its keys are strings, and the text of its MessagePack form denotes that form. */
  lemma {:induction false} JsonPrints(j: Json.Json)
    ensures JsonOk(Json.ToMp(j)) <==> Utf8Json(j)
    ensures Denoted(Json.ToMp(j)) == Json.ToMp(j)
    decreases j, 0
  {
    hide Utf8From;
    match j
    case JArr(items) => JsonItemsPrint(items);
    case JObj(ms) => JsonMembersPrint(ms, true);
    case _ =>
  }

  lemma {:induction false} JsonItemsPrint(items: seq<Json.Json>)
    ensures ItemsOk(Json.ToMps(items)) <==> Utf8Items(items)
    ensures DenotedItems(Json.ToMps(items)) == Json.ToMps(items)
    decreases items, 1
  {
    if items != [] {
      JsonPrints(items[0]);
      JsonItemsPrint(items[1..]);
    }
  }

  lemma {:induction false} JsonMembersPrint(ms: seq<Json.Member>, quoted: bool)
    ensures EntriesOk(Json.ToEntries(ms), quoted) <==> Utf8Members(ms)
    ensures DenotedEntries(Json.ToEntries(ms)) == Json.ToEntries(ms)
    decreases ms, 1
  {
    hide Utf8From;
    if ms != [] {
      JsonPrints(ms[0].value);
      JsonMembersPrint(ms[1..], quoted && !EntryHasMap(Json.ToEntries(ms)[0]));
    }
  }

  /** Different JSON values have different MessagePack forms. */
  lemma {:induction false} ToMpInjective(a: Json.Json, b: Json.Json)
    requires Json.ToMp(a) == Json.ToMp(b)
    ensures a == b
    decreases a, 0
  {
    match a
    case JArr(items) => ToMpsInjective(items, b.items);
    case JObj(ms) => ToEntriesInjective(ms, b.members);
    case _ =>
  }

  lemma {:induction false} ToMpsInjective(a: seq<Json.Json>, b: seq<Json.Json>)
    requires Json.ToMps(a) == Json.ToMps(b)
    ensures a == b
    decreases a, 1
  {
    if a != [] {
      assert Json.ToMps(a)[0] == Json.ToMp(b[0]) && Json.ToMps(a)[1..] == Json.ToMps(b)[1..];
      ToMpInjective(a[0], b[0]);
      ToMpsInjective(a[1..], b[1..]);
      assert a == [a[0]] + a[1..] && b == [b[0]] + b[1..];
    }
  }

  lemma {:induction false} ToEntriesInjective(a: seq<Json.Member>, b: seq<Json.Member>)
    requires Json.ToEntries(a) == Json.ToEntries(b)
    ensures a == b
    decreases a, 1
  {
    if a != [] {
      assert Json.ToEntries(a)[0] == Json.ToEntries(b)[0] && Json.ToEntries(a)[1..] == Json.ToEntries(b)[1..];
      ToMpInjective(a[0].value, b[0].value);
      ToEntriesInjective(a[1..], b[1..]);
      assert a == [a[0]] + a[1..] && b == [b[0]] + b[1..];
    }
  }

  /**
   The text the printer gives for a compiled JSON value: a reader of it finds
   that value exactly when its strings are UTF-8, and no other.
   */
  lemma TextRoundTrip(j: Json.Json, k: Json.Json)
    ensures Meaning(Render(Json.ToMp(j), false)) == if Utf8Json(j) then Some(Json.ToMp(j)) else None
    ensures Utf8Json(j) && Meaning(Render(Json.ToMp(j), false)) == Meaning(Render(Json.ToMp(k), false)) ==> j == k
  {
    PrintedMeaning(Json.ToMp(j));
    JsonPrints(j);
    PrintedMeaning(Json.ToMp(k));
    JsonPrints(k);
    if Json.ToMp(j) == Json.ToMp(k) {
      ToMpInjective(j, k);
    }
  }

  /**
   From parser events to JSON text: running the callbacks over params leaves
   bytes that read as that array and whose printed text denotes it.
   */
  lemma CompileThenPrint(c: Machine.Conf, s: Machine.State, items: seq<Json.Json>)
    requires c.data == [] && s.stage == Machine.PARAMS && |s.stack| == 1 && s.stack[0].kind == Machine.MapItem
    requires Simulation.Deep(s, Json.Depth(Json.JArr(items))) && |s.tp.mem| < TWO_32
    ensures var o := Machine.Run(c, s, Json.Events(Json.JArr(items)));
      && (o.Ok? <==> TpBuffer.Fits(s.tp, |Json.Enc(Json.JArr(items))|))
      && (o.Ok? ==>
           s.tp.p <= |o.state.tp.mem|
           && Read(o.state.tp.mem, s.tp.p) == Some((Json.ToMp(Json.JArr(items)), o.state.tp.p)))
      && Meaning(Render(Json.ToMp(Json.JArr(items)), false))
         == if Utf8Items(items) then Some(Json.ToMp(Json.JArr(items))) else None
  {
    hide Json.Enc, Json.ToMp, Json.Depth, Machine.Run, Render, Meaning, Read, TpBuffer.Append, Utf8Items;
    var j := Json.JArr(items);
    PlainTuple(c, items);
    Calls.RunParams(c, s, items);
    TextRoundTrip(j, j);
    if TpBuffer.Fits(s.tp, |Json.Enc(j)|) {
      AppendedAt(s.tp, Json.Enc(j));
      Json.ReadEnc(TpBuffer.Append(s.tp, Json.Enc(j)).mem, s.tp.p, j);
    }
  }

  lemma PlainTuple(c: Machine.Conf, items: seq<Json.Json>)
    requires c.data == []
    ensures Calls.Tuple(c, items) == Json.Enc(Json.JArr(items))
  {
    assert c.data + Json.EncItems(items) == Json.EncItems(items);
  }

  lemma AppendedAt(t: TpBuffer.Tp, bs: seq<byte>)
    requires Machine.Ready(t) && TpBuffer.Fits(t, |bs|)
    ensures At(TpBuffer.Append(t, bs).mem, t.p, bs)
  {
    var m := TpBuffer.Append(t, bs).mem;
    assert m[t.p..t.p + |bs|] == bs;
  }

  // ----------------------------------------------------------------- replies

  /** The reply text is an object of id and result exactly when the printed data is JSON. */
  lemma ReplyMeaning(sync: nat, u: Mp)
    ensures Meaning(Printing.Envelope(sync, Render(u, false), false)) ==
      if JsonOk(u)
      then Some(Map([Entry(Str(Printing.ID_KEY), Uint(sync)), Entry(Str(Printing.RESULT_KEY), Denoted(u))]))
      else None
  {
    hide Render, Meaning, Printing.Envelope, EntriesOk, DenotedEntries, IsUtf8;
    AsciiIsUtf8(Printing.ID_KEY);
    AsciiIsUtf8(Printing.RESULT_KEY);
    var id, result := Entry(Str(Printing.ID_KEY), Uint(sync)), Entry(Str(Printing.RESULT_KEY), u);
    PrintedMeaning(Map([id, result]));
    ReplyText(sync, u, id, result);
    TwoEntries(id, result);
  }

  /** {"id":N,"result":} is no JSON. */
  lemma EmptyResult(sync: nat)
    ensures Meaning(Printing.Envelope(sync, [], false)) == None
  {
    hide ReadJson, ReadMembers, ReadText, Render, At, EntryOk, KeyOk, Decimal;
    var t := Printing.Envelope(sync, [], false);
    var id, result, d := Printing.InQuotes(Printing.ID_KEY), Printing.InQuotes(Printing.RESULT_KEY), Decimal(sync);
    assert t == [LBRACE] + (id + [COLON] + d) + ([COMMA] + result + [COLON]) + [RBRACE];
    EmptyResultParts(t, id, d, result);
    var e := Entry(Str(Printing.ID_KEY), Uint(sync));
    KeyTexts(sync);
    OpenBrace(t, 0);
    var j := 2 + |id| + |d|;
    ReadRenderedEntry(t, 1, e, true, j);
    ReadKey(t, j + 1, Str(Printing.RESULT_KEY), true);
    NoValue(t, j + 1, j + 1 + |result|);
    assert ReadMembers(t, 1) == None;
    assert ReadJson(t, 0) == None;
  }

  lemma KeyTexts(sync: nat)
    ensures Render(Str(Printing.ID_KEY), true) == Printing.InQuotes(Printing.ID_KEY)
    ensures Render(Str(Printing.RESULT_KEY), true) == Printing.InQuotes(Printing.RESULT_KEY)
    ensures Render(Uint(sync), false) == Decimal(sync)
  {
    EscapePlain(Printing.ID_KEY);
    EscapePlain(Printing.RESULT_KEY);
  }

  lemma EmptyResultParts(t: seq<byte>, id: seq<byte>, d: seq<byte>, result: seq<byte>)
    requires t == [LBRACE] + (id + [COLON] + d) + ([COMMA] + result + [COLON]) + [RBRACE]
    requires id != [] && id[0] == QUOTE
    ensures var j := 2 + |id| + |d|;
      && |t| == j + |result| + 3 && At(t, 1, id) && At(t, 2 + |id|, d) && At(t, j + 1, result)
      && t[0] == LBRACE && t[1] == QUOTE && t[1 + |id|] == COLON && t[j] == COMMA
      && t[j + 1 + |result|] == COLON && t[j + 2 + |result|] == RBRACE
  {
    hide At;
    var j := 2 + |id| + |d|;
    WholeAt(t);
    AtSplit(t, 0, [LBRACE] + (id + [COLON] + d) + ([COMMA] + result + [COLON]), [RBRACE]);
    AtSplit3(t, 0, [LBRACE], id + [COLON] + d, [COMMA] + result + [COLON]);
    AtSplit3(t, 1, id, [COLON], d);
    AtSplit3(t, j, [COMMA], result, [COLON]);
    AtFirst(t, 1, id);
    AtFirstByte(t, 0, LBRACE);
    AtFirstByte(t, 1 + |id|, COLON);
    AtFirstByte(t, j, COMMA);
    AtFirstByte(t, j + 1 + |result|, COLON);
    AtFirstByte(t, j + 2 + |result|, RBRACE);
  }

  lemma WholeAt(t: seq<byte>)
    ensures At(t, 0, t)
  {
    assert t[0..|t|] == t;
  }

  lemma NoValue(t: seq<byte>, i: nat, k: nat)
    requires i <= |t| && k + 1 < |t| && t[k] == COLON && t[k + 1] == RBRACE
    requires ReadText(t, i).Some? ==> ReadText(t, i).value.1 == k
    ensures ReadMembers(t, i) == None
  {
    hide ReadText;
    assert ReadJson(t, k + 1) == None;
  }

  /**
   With any skip count, the reply text is JSON exactly when something is left
   behind the skipped arrays and that prints as JSON.
   */
  lemma SkippedMeaning(sync: nat, data: seq<byte>, skipCount: nat)
    requires Printing.Printable(data, 0, skipCount)
    ensures var j := Printing.Peel(data, 0, skipCount).0;
            Meaning(Printing.Envelope(sync, Printing.Result(data, skipCount), false)) ==
              if j < |data| && JsonOk(Read(data, j).value.0)
              then Some(Map([Entry(Str(Printing.ID_KEY), Uint(sync)),
                             Entry(Str(Printing.RESULT_KEY), Denoted(Read(data, j).value.0))]))
              else None
  {
    hide Read, Render, Meaning, Printing.Envelope, JsonOk, Denoted, Printing.Peel;
    var j := Printing.Peel(data, 0, skipCount).0;
    if j < |data| {
      ReplyMeaning(sync, Read(data, j).value.0);
    } else {
      EmptyResult(sync);
    }
  }

  lemma TwoEntries(a: Entry, b: Entry)
    ensures EntriesOk([a, b], true) <==> EntryOk(a, true) && EntryOk(b, !EntryHasMap(a))
    ensures DenotedEntries([a, b]) == [DenotedEntry(a), DenotedEntry(b)]
    ensures RenderEntries([a, b], true, true) == RenderEntry(a, true, true) + RenderEntry(b, !EntryHasMap(a), false)
  {
    hide EntryOk, DenotedEntry, RenderEntry, EntryHasMap;
    var es := [a, b];
    assert es[1..] == [b] && [b][1..] == [];
    assert EntriesOk([b], !EntryHasMap(a)) <==> EntryOk(b, !EntryHasMap(a));
    assert DenotedEntries([b]) == [DenotedEntry(b)];
    assert RenderEntries([b], !EntryHasMap(a), false) == RenderEntry(b, !EntryHasMap(a), false);
  }

  lemma ReplyText(sync: nat, u: Mp, id: Entry, result: Entry)
    requires id == Entry(Str(Printing.ID_KEY), Uint(sync)) && result == Entry(Str(Printing.RESULT_KEY), u)
    ensures Printing.Envelope(sync, Render(u, false), false) == Render(Map([id, result]), false)
  {
    hide Render, Decimal, Printing.InQuotes, RenderEntries, RenderEntry, DenotedEntries;
    KeyEntry(Printing.ID_KEY, Uint(sync), Decimal(sync), true);
    KeyEntry(Printing.RESULT_KEY, u, Render(u, false), false);
    TwoEntries(id, result);
    MapText([id, result]);
    var a := Printing.InQuotes(Printing.ID_KEY) + [COLON] + Decimal(sync);
    var c := [COMMA] + Printing.InQuotes(Printing.RESULT_KEY) + [COLON];
    assert [] + Printing.InQuotes(Printing.ID_KEY) + [COLON] + Decimal(sync) == a;
    Regroup([LBRACE], a, c, Render(u, false), [RBRACE]);
  }

  lemma KeyEntry(key: seq<byte>, v: Mp, text: seq<byte>, first: bool)
    requires forall k :: 0 <= k < |key| ==> key[k] >= 0x20 && key[k] != QUOTE && key[k] != BACKSLASH
    requires (v.Uint? && text == Decimal(v.n)) || text == Render(v, false)
    ensures RenderEntry(Entry(Str(key), v), true, first) == Separator(first) + Printing.InQuotes(key) + [COLON] + text
  {
    EscapePlain(key);
  }

  lemma Regroup(l: seq<byte>, a: seq<byte>, c: seq<byte>, t: seq<byte>, r: seq<byte>)
    ensures l + (a + (c + t)) + r == l + a + c + t + r
  {
  }

  lemma MapText(es: seq<Entry>)
    ensures Render(Map(es), false) == [LBRACE] + RenderEntries(es, true, true) + [RBRACE]
  {
  }
}

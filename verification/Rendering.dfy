/** The JSON text the printer should produce for a MessagePack value, and how long it can be. */
module Rendering {
  import opened Bytes
  import opened MsgPack
  import opened JsonText
  import opened JsonReader

  predicate HasMap(v: Mp)
    decreases v, 0
  {
    match v
    case Array(items) => SomeHasMap(items)
    case Map(_) => true
    case _ => false
  }

  predicate SomeHasMap(items: seq<Mp>)
    decreases items, 1
  {
    items != [] && (HasMap(items[0]) || SomeHasMap(items[1..]))
  }

  /** A map with at least one entry somewhere in v: printing it switches the key bit off. */
  predicate HasEntry(v: Mp)
    decreases v, 0
  {
    match v
    case Array(items) => SomeHasEntry(items)
    case Map(es) => es != []
    case _ => false
  }

  predicate SomeHasEntry(items: seq<Mp>)
    decreases items, 1
  {
    items != [] && (HasEntry(items[0]) || SomeHasEntry(items[1..]))
  }

  lemma {:induction false} EntryInMap(v: Mp)
    ensures HasEntry(v) ==> HasMap(v)
    decreases v, 0
  {
    if v.Array? {
      EntryInItems(v.items);
    }
  }

  lemma {:induction false} EntryInItems(items: seq<Mp>)
    ensures SomeHasEntry(items) ==> SomeHasMap(items)
    decreases items, 1
  {
    if items != [] {
      EntryInMap(items[0]);
      EntryInItems(items[1..]);
    }
  }

  /** An integer, in quotes if quoted. */
  function IntegerText(i: int, quoted: bool): (r: seq<byte>)
    ensures |r| > 0
  {
    if quoted then [QUOTE] + DecimalInt(i) + [QUOTE] else DecimalInt(i)
  }

  /** The text of v; quoted says whether integers met now, outside any further map, get quotes. */
  function Render(v: Mp, quoted: bool): (r: seq<byte>)
    ensures |r| > 0
    decreases v, 0
  {
    match v
    case Nil => NULL_TEXT
    case Bool(b) => if b then TRUE_TEXT else FALSE_TEXT
    case Uint(n) => IntegerText(n, quoted)
    case Int(i) => IntegerText(i, quoted)
    case Str(s) => Quoted(s, false)
    case Bin(s) => Quoted(s, false)
    case Array(items) => [LBRACKET] + RenderItems(items, quoted, true) + [RBRACKET]
    case Map(es) => [LBRACE] + RenderEntries(es, true, true) + [RBRACE]
  }

  function Separator(first: bool): seq<byte> {
    if first then [] else [COMMA]
  }

  function RenderItems(items: seq<Mp>, quoted: bool, first: bool): seq<byte>
    decreases items, 1
  {
    if items == [] then []
    else
      Separator(first) + Render(items[0], quoted)
      + RenderItems(items[1..], quoted && !HasMap(items[0]), false)
  }

  /** Key, colon and value; an integer key gets quotes if quoted, an integer value never. */
  function RenderEntry(e: Entry, quoted: bool, first: bool): seq<byte>
    decreases e, 1
  {
    Separator(first) + Render(e.key, quoted) + [COLON] + Render(e.value, false)
  }

  /** quoted: no map was met so far among the entries of this map. */
  function RenderEntries(es: seq<Entry>, quoted: bool, first: bool): seq<byte>
    decreases es, 2
  {
    if es == [] then []
    else RenderEntry(es[0], quoted, first) + RenderEntries(es[1..], quoted && !EntryHasMap(es[0]), false)
  }

  predicate EntryHasMap(e: Entry) {
    HasMap(e.key) || HasMap(e.value)
  }

  // ------------------------------------------------ which keys are quoted

  predicate NoMapBefore(es: seq<Entry>, i: nat)
    requires i <= |es|
  {
    forall j :: 0 <= j < i ==> !EntryHasMap(es[j])
  }

  /** The text of the entries before position i. */
  function TextBefore(es: seq<Entry>, i: nat): seq<byte>
    requires i <= |es|
  {
    if i == 0 then []
    else TextBefore(es, i - 1) + RenderEntry(es[i - 1], NoMapBefore(es, i - 1), i == 1)
  }

  /** The entry at i is printed with its integer key in quotes exactly when no entry before it holds a map. */
  lemma {:induction false} KeyQuoting(es: seq<Entry>, i: nat)
    requires i <= |es|
    ensures RenderEntries(es, true, true) == TextBefore(es, i) + RenderEntries(es[i..], NoMapBefore(es, i), i == 0)
  {
    hide RenderEntry, EntryHasMap;
    if i == 0 {
      assert es[0..] == es;
    } else {
      KeyQuoting(es, i - 1);
      assert NoMapBefore(es, i) <==> NoMapBefore(es, i - 1) && !EntryHasMap(es[i - 1]);
      hide NoMapBefore;
      var q := NoMapBefore(es, i - 1);
      var entry, rest := RenderEntry(es[i - 1], q, i == 1), RenderEntries(es[i..], NoMapBefore(es, i), false);
      assert RenderEntries(es[i - 1..], q, i == 1) == entry + rest by {
        assert es[i - 1..][1..] == es[i..] && es[i - 1..][0] == es[i - 1];
      }
      hide RenderEntries;
      assert TextBefore(es, i - 1) + (entry + rest) == TextBefore(es, i - 1) + entry + rest;
    }
  }

  // ------------------------------------------------------- length of texts

  /** How many digits a number read from w bytes (head included) can have. */
  lemma HeadDigits(bs: seq<byte>, i: nat)
    requires i <= |bs| && ReadHead(bs, i).Some?
    ensures var (h, j) := ReadHead(bs, i).value;
            && (h.HUint? ==> |IntegerText(h.n, true)| <= 6 * (j - i) - 1 && |IntegerText(h.n, true)| <= 22)
            && (h.HInt? ==> |IntegerText(h.i, true)| <= 6 * (j - i) - 1 && |IntegerText(h.i, true)| <= 22)
  {
    hide Decimal, Pow10;
    Powers();
    var (h, j) := ReadHead(bs, i).value;
    if h.HUint? {
      NumberLength(h.n, j - i);
    } else if h.HInt? {
      SignedBound(bs, i);
      NumberLength(if h.i < 0 then -h.i else h.i, j - i);
    }
  }

  lemma SignedBound(bs: seq<byte>, i: nat)
    requires i <= |bs| && ReadHead(bs, i).Some? && ReadHead(bs, i).value.0.HInt?
    ensures var (h, j) := ReadHead(bs, i).value;
            HeadRange(if h.i < 0 then -h.i else h.i, j - i) && (j - i == 1 ==> -32 <= h.i < 0)
  {
  }

  /** Magnitudes that w bytes can announce. */
  predicate HeadRange(n: nat, w: nat) {
    || (w == 1 && n <= 0x7f)
    || (w == 2 && n <= 0xff)
    || (w == 3 && n <= 0xffff)
    || (w == 5 && n <= 0xffff_ffff)
    || (w == 9 && n < TWO_64)
  }

  lemma NumberLength(n: nat, w: nat)
    requires HeadRange(n, w)
    ensures |Decimal(n)| <= 20 && |Decimal(n)| + 2 <= 6 * w - 1
    ensures w > 1 ==> |Decimal(n)| + 3 <= 6 * w - 1
    ensures n <= 32 ==> |Decimal(n)| <= 2
    ensures n <= TWO_63 ==> |Decimal(n)| <= 19
  {
    Powers();
    var k := if w <= 2 then 3 else if w == 3 then 5 else if w == 5 then 10 else 20;
    hide Pow10, Decimal;
    DecimalBound(n, k);
    if n <= 32 { DecimalBound(n, 2); }
    if n <= TWO_63 { DecimalBound(n, 19); }
  }

  /** n bytes of MessagePack render to at most 6n - 1 characters. */
  lemma {:induction false} TextBound(bs: seq<byte>, i: nat, quoted: bool)
    requires i <= |bs| && Read(bs, i).Some?
    ensures |Render(Read(bs, i).value.0, quoted)| <= 6 * (Read(bs, i).value.1 - i) - 1
    decreases |bs| - i, 0, 0
  {
    hide ReadHead, Decimal;
    var (h, j) := ReadHead(bs, i).value;
    HeadDigits(bs, i);
    match h
    case HArray(n) => ItemsBound(bs, j, n, quoted, true);
    case HMap(n) => EntriesBound(bs, j, n, true, true);
    case _ =>
  }

  lemma {:induction false} ItemsBound(bs: seq<byte>, i: nat, n: nat, quoted: bool, first: bool)
    requires i <= |bs| && ReadItems(bs, i, n).Some?
    ensures |RenderItems(ReadItems(bs, i, n).value.0, quoted, first)| <= 6 * (ReadItems(bs, i, n).value.1 - i)
    decreases |bs| - i, 1, n
  {
    hide Read, Render;
    if n > 0 {
      var (v, j) := Read(bs, i).value;
      TextBound(bs, i, quoted);
      ItemsBound(bs, j, n - 1, quoted && !HasMap(v), false);
    }
  }

  lemma {:induction false} EntriesBound(bs: seq<byte>, i: nat, n: nat, quoted: bool, first: bool)
    requires i <= |bs| && ReadEntries(bs, i, n).Some?
    ensures |RenderEntries(ReadEntries(bs, i, n).value.0, quoted, first)| <= 6 * (ReadEntries(bs, i, n).value.1 - i)
    decreases |bs| - i, 1, n
  {
    hide Read, Render;
    if n > 0 {
      var (k, j) := Read(bs, i).value;
      var (v, j') := Read(bs, j).value;
      TextBound(bs, i, quoted);
      TextBound(bs, j, false);
      EntriesBound(bs, j', n - 1, quoted && !EntryHasMap(Entry(k, v)), false);
    }
  }

  /** Every element takes at least a byte, every entry two. */
  lemma {:induction false} ItemsSize(bs: seq<byte>, i: nat, n: nat)
    requires i <= |bs| && ReadItems(bs, i, n).Some?
    ensures n <= ReadItems(bs, i, n).value.1 - i
    decreases n
  {
    hide Read;
    if n > 0 {
      ItemsSize(bs, Read(bs, i).value.1, n - 1);
    }
  }

  lemma {:induction false} EntriesSize(bs: seq<byte>, i: nat, n: nat)
    requires i <= |bs| && ReadEntries(bs, i, n).Some?
    ensures 2 * n <= ReadEntries(bs, i, n).value.1 - i
    decreases n
  {
    hide Read;
    if n > 0 {
      EntriesSize(bs, Read(bs, Read(bs, i).value.1).value.1, n - 1);
    }
  }

  // ------------------------------------------------------ one entry at a time

  /** A key and a value stand at bs[at]. */
  predicate EntryHere(bs: seq<byte>, at: nat) {
    at < |bs| && Read(bs, at).Some? && Read(bs, Read(bs, at).value.1).Some?
  }

  function EntryOf(bs: seq<byte>, at: nat): (Entry, nat)
    requires EntryHere(bs, at)
  {
    var (k, j) := Read(bs, at).value;
    var (v, next) := Read(bs, j).value;
    (Entry(k, v), next)
  }
}

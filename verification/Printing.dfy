/**
 What tp2json_transcode_internal does, as a function: it prints the bytes one
 head after the other into a buffer of a given size, with the state bits and the
 skip counter it shares down the recursion. And what that is for bytes that hold
 values: their rendering, in a buffer that is large enough.
 */
module Printing {
  import opened Bytes
  import opened MsgPack
  import opened JsonText
  import opened JsonReader
  import opened Rendering

  /** What was printed, the bits TYPE_MAP and TYPE_KEY of state, the arrays still to be skipped. */
  datatype Sheet = Sheet(text: seq<byte>, inMap: bool, inKey: bool, skip: nat) {
    /** Whether an integer printed now gets quotes. */
    predicate Quoting() {
      inMap && inKey
    }
  }

  /** Undefined: C code writes or stays past the end of the buffer, or reads what is no value. */
  datatype Outcome = Done(next: nat, sheet: Sheet) | Failed | Undefined {
    predicate IsFailure() { !Done? }
    function PropagateFailure(): (r: Outcome) requires IsFailure() ensures r == this { this }
    function Extract(): (r: Outcome) requires Done? ensures r == this { this }
  }

  /** append_str against the caller's copy of the remaining length; next is where reading goes on. */
  function Put(cap: nat, next: nat, p: Sheet, len: nat, str: seq<byte>): (r: Outcome)
    ensures r.Done? ==> r == Done(next, p.(text := p.text + str)) && |r.sheet.text| <= cap && |str| <= len
  {
    if |str| > len then Failed
    else if |p.text| + |str| > cap then Undefined
    else Done(next, p.(text := p.text + str))
  }

  /** snprintf: what does not fit is cut, and replaced by the zero byte, but pos moves over all of it. */
  function Snprintf(cap: nat, next: nat, p: Sheet, str: seq<byte>): (r: Outcome)
    requires |p.text| <= cap && |str| > 0
    ensures r.Done? ==> |r.sheet.text| == |p.text| + |str| <= cap && r.next == next
  {
    if |p.text| + |str| < cap then Done(next, p.(text := p.text + str))
    else if |p.text| + |str| == cap then Done(next, p.(text := p.text + str[..|str| - 1] + [0]))
    else Undefined
  }

  /** 20 characters must be free for any number. */
  function PutNumber(cap: nat, next: nat, p: Sheet, i: int): (r: Outcome)
    requires |p.text| <= cap
    ensures r.Done? ==> r.next == next && |r.sheet.text| <= cap
  {
    if cap - |p.text| < 20 then Failed else Snprintf(cap, next, p, IntegerText(i, p.Quoting()))
  }

  function PutString(cap: nat, bs: seq<byte>, i: nat, n: nat, p: Sheet): (r: Outcome)
    requires |p.text| <= cap && i <= |bs|
    ensures r.Done? ==> r.next == i + n <= |bs| && |r.sheet.text| <= cap
  {
    if i + n > |bs| then Undefined else Put(cap, i + n, p, cap - |p.text|, Quoted(bs[i..i + n], false))
  }

  function PrintAt(cap: nat, bs: seq<byte>, i: nat, p: Sheet): (r: Outcome)
    requires i <= |bs| && |p.text| <= cap
    ensures r.Done? ==> i <= r.next <= |bs| && |r.sheet.text| <= cap
    decreases |bs| - i, 0, 0
  {
    var len := cap - |p.text|;
    if i == |bs| then Done(i, p)
    else if len == 0 then Failed
    else
      match ReadHead(bs, i)
      case None => Undefined
      case Some((h, j)) =>
        match h
        case HNil => Put(cap, j, p, len, NULL_TEXT)
        case HBool(b) => Put(cap, j, p, len, if b then TRUE_TEXT else FALSE_TEXT)
        case HUint(n) => PutNumber(cap, j, p, n)
        case HInt(v) => PutNumber(cap, j, p, v)
        case HStr(n) => PutString(cap, bs, j, n, p)
        case HBin(n) => PutString(cap, bs, j, n, p)
        case HArray(n) =>
          if p.skip > 0 then PrintAt(cap, bs, j, p.(skip := p.skip - 1))
          else if len < (n + 2) % TWO_32 then Failed
          else PrintItemsAt(cap, bs, j, n, true, p.(text := p.text + [LBRACKET]), len - 1)
        case HMap(n) =>
          if len < (n + 2) % TWO_32 then Failed
          else PrintEntriesAt(cap, bs, j, n, true, p.(text := p.text + [LBRACE], inMap := true), len - 1)
  }

  /** The elements left and the closing bracket; len is the copy of the remaining length made for the array. */
  function PrintItemsAt(cap: nat, bs: seq<byte>, i: nat, n: nat, first: bool, p: Sheet, len: nat): (r: Outcome)
    requires i <= |bs| && |p.text| <= cap
    ensures r.Done? ==> i <= r.next <= |bs| && |r.sheet.text| <= cap
    decreases |bs| - i, 1, n
  {
    if n == 0 then Put(cap, i, p, len, [RBRACKET])
    else
      var comma :- Put(cap, i, p, len, Separator(first));
      var item :- PrintAt(cap, bs, i, comma.sheet);
      PrintItemsAt(cap, bs, item.next, n - 1, false, item.sheet, len - |Separator(first)|)
  }

  /** The key of an entry, after a comma unless it is the first, and the colon. */
  function PrintKeyAt(cap: nat, bs: seq<byte>, i: nat, first: bool, p: Sheet, len: nat): (r: Outcome)
    requires i <= |bs| && |p.text| <= cap
    ensures r.Done? ==> i <= r.next <= |bs| && |r.sheet.text| <= cap && |Separator(first)| + 1 <= len
    decreases |bs| - i, 1, 0
  {
    var comma :- Put(cap, i, p, len, Separator(first));
    var key :- PrintAt(cap, bs, i, comma.sheet.(inKey := true));
    Put(cap, key.next, key.sheet.(inKey := false), len - |Separator(first)|, [COLON])
  }

  /** The entries left and the closing brace, with which the map bit is cleared. */
  function PrintEntriesAt(cap: nat, bs: seq<byte>, i: nat, n: nat, first: bool, p: Sheet, len: nat): (r: Outcome)
    requires i <= |bs| && |p.text| <= cap
    ensures r.Done? ==> i <= r.next <= |bs| && |r.sheet.text| <= cap
    decreases |bs| - i, 2, n
  {
    if n == 0 then Put(cap, i, p.(inMap := false), len, [RBRACE])
    else
      var key :- PrintKeyAt(cap, bs, i, first, p, len);
      var value :- PrintAt(cap, bs, key.next, key.sheet);
      PrintEntriesAt(cap, bs, value.next, n - 1, false, value.sheet, len - |Separator(first)| - 1)
  }

  // ------------------------------------------------- skipping outer arrays

  /** Where printing starts, and the skip counter there: the heads of arrays are dropped one after the other. */
  function Peel(bs: seq<byte>, i: nat, skip: nat): (r: (nat, nat))
    requires i <= |bs|
    ensures i <= r.0 <= |bs| && r.1 <= skip
    decreases skip
  {
    if skip > 0 && ReadHead(bs, i).Some? && ReadHead(bs, i).value.0.HArray?
    then Peel(bs, ReadHead(bs, i).value.1, skip - 1)
    else (i, skip)
  }

  /** No array is in v, so a skip counter that is left over has nothing to skip in it. */
  predicate Flat(v: Mp)
    decreases v, 0
  {
    match v
    case Array(_) => false
    case Map(es) => FlatEntries(es)
    case _ => true
  }

  predicate FlatEntry(e: Entry)
    decreases e, 1
  {
    Flat(e.key) && Flat(e.value)
  }

  predicate FlatEntries(es: seq<Entry>)
    decreases es, 2
  {
    es == [] || (FlatEntry(es[0]) && FlatEntries(es[1..]))
  }

  /** What is printed from bs[i] on, if anything is, can be read, and no array in it would be skipped. */
  predicate Printable(bs: seq<byte>, i: nat, skip: nat)
    requires i <= |bs|
  {
    var (j, left) := Peel(bs, i, skip);
    j < |bs| ==> Read(bs, j).Some? && (left == 0 || Flat(Read(bs, j).value.0))
  }

  /** u stands behind k arrays, each the first element of the one around it. */
  predicate NestedIn(v: Mp, k: nat, u: Mp)
    decreases v
  {
    if k == 0 then v == u else v.Array? && v.items != [] && NestedIn(v.items[0], k - 1, u)
  }

  /** With skip count k, what is printed of u behind k arrays is u, and the counter ends at 0. */
  lemma {:induction false} SkipPeels(bs: seq<byte>, i: nat, k: nat, u: Mp)
    requires i <= |bs| && Read(bs, i).Some? && NestedIn(Read(bs, i).value.0, k, u)
    ensures var (j, left) := Peel(bs, i, k);
            left == 0 && j < |bs| && Read(bs, j).Some? && Read(bs, j).value.0 == u
    decreases k
  {
    hide ReadHead;
    if k > 0 {
      var (h, j) := ReadHead(bs, i).value;
      FirstIsThere(bs, j, h.count);
      SkipPeels(bs, j, k - 1, u);
    }
  }

  lemma FirstIsThere(bs: seq<byte>, i: nat, n: nat)
    requires i <= |bs| && n > 0 && ReadItems(bs, i, n).Some?
    ensures Read(bs, i).Some? && Read(bs, i).value.0 == ReadItems(bs, i, n).value.0[0]
  {
    hide Read;
  }

  lemma {:induction false} ItemsInTwo(bs: seq<byte>, i: nat, m: nat, n: nat)
    requires i <= |bs| && ReadItems(bs, i, m).Some?
    requires ReadItems(bs, ReadItems(bs, i, m).value.1, n).Some?
    ensures ReadItems(bs, i, m + n).Some?
    ensures ReadItems(bs, i, m + n).value.1 == ReadItems(bs, ReadItems(bs, i, m).value.1, n).value.1
    decreases m
  {
    hide Read;
    if m > 0 {
      ItemsInTwo(bs, Read(bs, i).value.1, m - 1, n);
    }
  }

  /** Behind the dropped heads there are whole values up to the end, or nothing. */
  lemma {:induction false} PeelReads(bs: seq<byte>, i: nat, n: nat, skip: nat)
    requires i <= |bs| && ReadItems(bs, i, n).Some? && ReadItems(bs, i, n).value.1 == |bs|
    ensures var j := Peel(bs, i, skip).0; j < |bs| ==> Read(bs, j).Some?
    decreases skip
  {
    hide ReadHead;
    if n > 0 && skip > 0 && ReadHead(bs, i).value.0.HArray? {
      var (h, j) := ReadHead(bs, i).value;
      ItemsInTwo(bs, j, h.count, n - 1);
      PeelReads(bs, j, h.count + (n - 1), skip - 1);
    }
  }

  /** Of a single value everything can be printed but a map that holds an array, met while arrays are to be skipped. */
  lemma WholeData(data: seq<byte>, skip: nat)
    requires Read(data, 0).Some? && Read(data, 0).value.1 == |data|
    ensures var (j, left) := Peel(data, 0, skip);
            && (j < |data| ==> Read(data, j).Some?)
            && (Printable(data, 0, skip) <==> (j < |data| && left > 0 ==> Flat(Read(data, j).value.0)))
  {
    hide Read, Peel;
    assert ReadItems(data, |data|, 0).Some?;
    PeelReads(data, 0, 1, skip);
  }

  const ID_KEY: seq<byte> := [0x69, 0x64]
  const RESULT_KEY: seq<byte> := [0x72, 0x65, 0x73, 0x75, 0x6c, 0x74]

  function InQuotes(s: seq<byte>): seq<byte> {
    [QUOTE] + s + [QUOTE]
  }

  /** {"id":N,"result": */
  function ReplyHead(sync: nat): (r: seq<byte>)
    ensures |r| > 0
  {
    [LBRACE] + (InQuotes(ID_KEY) + [COLON] + Decimal(sync)) + ([COMMA] + InQuotes(RESULT_KEY) + [COLON])
  }

  /** The reply around the text of its data; with pure_result the text alone. */
  function Envelope(sync: nat, text: seq<byte>, pureResult: bool): seq<byte> {
    if pureResult then text else ReplyHead(sync) + text + [RBRACE]
  }

  /** tp_reply2json_transcode for a reply without error, in a buffer of cap bytes. */
  function ReplyAt(cap: nat, sync: nat, data: seq<byte>, pureResult: bool, skipCount: nat): Outcome {
    var p := Sheet([], false, false, skipCount);
    if pureResult then PrintAt(cap, data, 0, p)
    else
      var head :- Snprintf(cap, 0, p, ReplyHead(sync));
      var body :- PrintAt(cap, data, 0, head.sheet);
      if |body.sheet.text| == cap then Undefined
      else Done(body.next, body.sheet.(text := body.sheet.text + [RBRACE]))
  }

  // --------------------------------------------- values in a buffer of any size

  /** Fits: the whole text. Cut: the text of a number, its last character replaced. Breaks: past the end. */
  datatype Room = Fits | Cut | Fails | Breaks

  /** What printing v in so much room does; quoted as in Render. */
  function Prints(v: Mp, quoted: bool, room: nat): (r: Room)
    ensures r == Fits ==> |Render(v, quoted)| <= room
    ensures r == Cut ==> |Render(v, quoted)| == room
    decreases v, 0
  {
    var text := |Render(v, quoted)|;
    if room == 0 then Fails
    else
      match v
      case Uint(_) => if room < 20 then Fails else if text < room then Fits else if text == room then Cut else Breaks
      case Int(_) => if room < 20 then Fails else if text < room then Fits else if text == room then Cut else Breaks
      case Array(items) =>
        if room < (|items| + 2) % TWO_32 then Fails else PrintsItems(items, quoted, room - 1, true)
      case Map(es) =>
        if room < (|es| + 2) % TWO_32 then Fails else PrintsEntries(es, true, room - 1, true)
      case _ => if text <= room then Fits else Fails
  }

  /** One value of a container, and what rest says of the room behind it. */
  function Then(first: Room, rest: Room): (r: Room) {
    match first
    case Fits => rest
    case Fails => Fails
    case _ => Breaks
  }

  function Less(room: nat, used: nat): nat {
    if used <= room then room - used else 0
  }

  /** The elements left and the closing bracket. Commas and brackets are written unchecked. */
  function PrintsItems(items: seq<Mp>, quoted: bool, room: nat, first: bool): (r: Room)
    ensures r == Fits ==> |RenderItems(items, quoted, first)| + 1 <= room
    ensures r != Cut
    decreases items, 1
  {
    var comma := |Separator(first)|;
    if items == [] then if room == 0 then Breaks else Fits
    else if room < comma then Breaks
    else
      Then(Prints(items[0], quoted, room - comma),
           PrintsItems(items[1..], quoted && !HasMap(items[0]),
             Less(room, comma + |Render(items[0], quoted)|), false))
  }

  function PrintsEntry(e: Entry, quoted: bool, room: nat, first: bool): (r: Room)
    ensures r == Fits ==> |RenderEntry(e, quoted, first)| <= room
    ensures r == Cut ==> |RenderEntry(e, quoted, first)| == room
    decreases e, 1
  {
    var comma, key := |Separator(first)|, |Render(e.key, quoted)|;
    if room < comma then Breaks
    else
      match Prints(e.key, quoted, room - comma)
      case Fits => if room == comma + key then Breaks else Prints(e.value, false, Less(room, comma + key + 1))
      case Fails => Fails
      case _ => Breaks
  }

  function PrintsEntries(es: seq<Entry>, quoted: bool, room: nat, first: bool): (r: Room)
    ensures r == Fits ==> |RenderEntries(es, quoted, first)| + 1 <= room
    ensures r != Cut
    decreases es, 2
  {
    if es == [] then if room == 0 then Breaks else Fits
    else
      Then(PrintsEntry(es[0], quoted, room, first),
           PrintsEntries(es[1..], quoted && !EntryHasMap(es[0]),
             Less(room, |RenderEntry(es[0], quoted, first)|), false))
  }

  // ------------------------------------------------ bytes that hold values

  /** The sheet after the text of v. */
  function After(p: Sheet, v: Mp): Sheet {
    p.(text := p.text + Render(v, p.Quoting()), inMap := p.inMap && !HasMap(v), inKey := p.inKey && !HasEntry(v))
  }

  /** The outcome of printing x, which ends at next, when it should leave goal. */
  ghost predicate Follows(o: Outcome, room: Room, next: nat, goal: Sheet) {
    match room
    case Fits => o == Done(next, goal)
    case Cut =>
      o == Done(next, goal.(text := if goal.text == [] then [] else goal.text[..|goal.text| - 1] + [0]))
    case Fails => o == Failed
    case Breaks => o == Undefined
  }

  lemma NumberFollows(cap: nat, next: nat, p: Sheet, v: Mp)
    requires |p.text| < cap && (v.Uint? || v.Int?)
    ensures Follows(PutNumber(cap, next, p, if v.Uint? then v.n else v.i),
                    Prints(v, p.Quoting(), cap - |p.text|), next, After(p, v))
  {
    hide IntegerText;
    var text := Render(v, p.Quoting());
    assert (p.text + text)[..|p.text + text| - 1] == p.text + text[..|text| - 1];
  }

  /**
   Bytes that hold a value, with no array to skip in it: printing them follows
   the value and the room that is left, whatever that is.
   */
  lemma {:induction false} PrintsValue(cap: nat, bs: seq<byte>, i: nat, p: Sheet)
    requires i < |bs| && Read(bs, i).Some? && |p.text| <= cap
    requires p.skip == 0 || Flat(Read(bs, i).value.0)
    ensures var (v, next) := Read(bs, i).value;
      Follows(PrintAt(cap, bs, i, p), Prints(v, p.Quoting(), cap - |p.text|), next, After(p, v))
    decreases |bs| - i, 0, 0
  {
    hide ReadHead, ReadItems, ReadEntries, PrintItemsAt, PrintEntriesAt, PrintsItems, PrintsEntries;
    hide IntegerText, Quoted;
    if |p.text| < cap {
      var (h, j) := ReadHead(bs, i).value;
      match h
      case HUint(n) => NumberFollows(cap, j, p, Uint(n));
      case HInt(n) => NumberFollows(cap, j, p, Int(n));
      case HArray(n) => PrintsArray(cap, bs, i, p);
      case HMap(n) => PrintsMap(cap, bs, i, p);
      case _ =>
    }
  }

  lemma PrintsArray(cap: nat, bs: seq<byte>, i: nat, p: Sheet)
    requires i < |bs| && Read(bs, i).Some? && |p.text| < cap && p.skip == 0
    requires Read(bs, i).value.0.Array?
    ensures var (v, next) := Read(bs, i).value;
      Follows(PrintAt(cap, bs, i, p), Prints(v, p.Quoting(), cap - |p.text|), next, After(p, v))
    decreases |bs| - i - 1, 4
  {
    hide ReadHead, ReadItems, PrintItemsAt, PrintsItems, RenderItems, SomeHasMap, SomeHasEntry;
    var (h, j) := ReadHead(bs, i).value;
    var items := ReadItems(bs, j, h.count).value.0;
    var open := p.(text := p.text + [LBRACKET]);
    if cap - |p.text| >= (|items| + 2) % TWO_32 {
      PrintsElements(cap, bs, j, h.count, true, open, cap - |p.text| - 1);
      assert open.text + (RenderItems(items, p.Quoting(), true) + [RBRACKET])
          == p.text + ([LBRACKET] + RenderItems(items, p.Quoting(), true) + [RBRACKET]);
    }
  }

  /** The sheet behind the elements and their bracket. */
  function AfterItems(p: Sheet, items: seq<Mp>, first: bool): Sheet {
    p.(text := p.text + (RenderItems(items, p.Quoting(), first) + [RBRACKET]),
       inMap := p.inMap && !SomeHasMap(items), inKey := p.inKey && !SomeHasEntry(items))
  }

  function AfterComma(p: Sheet, first: bool): Sheet {
    p.(text := p.text + Separator(first))
  }

  lemma FourParts(a: seq<byte>, b: seq<byte>, c: seq<byte>, d: seq<byte>)
    ensures a + b + c + (d + [RBRACKET]) == a + (b + c + d + [RBRACKET])
  {
  }

  lemma ItemThenItems(p: Sheet, v: Mp, rest: seq<Mp>, first: bool)
    ensures AfterItems(After(AfterComma(p, first), v), rest, false) == AfterItems(p, [v] + rest, first)
  {
    hide Render, HasMap, HasEntry, Separator;
    var q := p.Quoting();
    EntryInMap(v);
    assert ([v] + rest)[1..] == rest;
    FourParts(p.text, Separator(first), Render(v, q), RenderItems(rest, q && !HasMap(v), false));
  }

  /** One turn of the loop over elements. */
  lemma ItemsStep(cap: nat, bs: seq<byte>, i: nat, n: nat, first: bool, p: Sheet, len: nat)
    requires n > 0 && i <= |bs| && |p.text| <= cap
    requires cap - |p.text| <= len && (!first ==> cap - |p.text| < len)
    ensures PrintItemsAt(cap, bs, i, n, first, p, len) ==
      if |p.text| + |Separator(first)| > cap then Undefined
      else
        var o := PrintAt(cap, bs, i, AfterComma(p, first));
        if !o.Done? then o
        else PrintItemsAt(cap, bs, o.next, n - 1, false, o.sheet, len - |Separator(first)|)
  {
    hide PrintAt;
  }

  lemma LastItem(cap: nat, bs: seq<byte>, i: nat, first: bool, p: Sheet, len: nat)
    requires i <= |bs| && |p.text| <= cap
    requires cap - |p.text| <= len && (if first then |p.text| < cap else cap - |p.text| < len)
    ensures Follows(PrintItemsAt(cap, bs, i, 0, first, p, len), PrintsItems([], p.Quoting(), cap - |p.text|, first), i,
                    AfterItems(p, [], first))
  {
    assert [] + [RBRACKET] == [RBRACKET];
  }

  lemma ItemsRoom(v: Mp, rest: seq<Mp>, q: bool, room: nat, first: bool)
    ensures PrintsItems([v] + rest, q, room, first) ==
      if room < |Separator(first)| then Breaks
      else
        Then(Prints(v, q, room - |Separator(first)|),
             PrintsItems(rest, q && !HasMap(v), Less(room, |Separator(first)| + |Render(v, q)|), false))
  {
    hide Prints, Render, HasMap, RenderItems;
    assert ([v] + rest)[1..] == rest;
  }

  /** The elements and the bracket behind them. Once something was printed the copied length is above the real one. */
  lemma {:induction false} PrintsElements(cap: nat, bs: seq<byte>, i: nat, n: nat, first: bool, p: Sheet, len: nat)
    requires i <= |bs| && ReadItems(bs, i, n).Some? && |p.text| <= cap && p.skip == 0
    requires cap - |p.text| <= len && (!first ==> cap - |p.text| < len) && (first && n == 0 ==> |p.text| < cap)
    ensures var (items, next) := ReadItems(bs, i, n).value;
      Follows(PrintItemsAt(cap, bs, i, n, first, p, len), PrintsItems(items, p.Quoting(), cap - |p.text|, first), next,
        AfterItems(p, items, first))
    decreases |bs| - i, 1, n
  {
    hide Read, PrintAt, PrintItemsAt, Prints, PrintsItems, Render, HasMap, HasEntry, AfterItems;
    if n == 0 {
      LastItem(cap, bs, i, first, p, len);
    } else {
      var (v, j) := Read(bs, i).value;
      var rest := ReadItems(bs, j, n - 1).value.0;
      var comma := AfterComma(p, first);
      ItemsStep(cap, bs, i, n, first, p, len);
      ItemsRoom(v, rest, p.Quoting(), cap - |p.text|, first);
      ItemThenItems(p, v, rest, first);
      if |comma.text| <= cap {
        PrintsValue(cap, bs, i, comma);
        if Prints(v, p.Quoting(), cap - |comma.text|) == Fits {
          EntryInMap(v);
          PrintsElements(cap, bs, j, n - 1, false, After(comma, v), len - |Separator(first)|);
        } else if Prints(v, p.Quoting(), cap - |comma.text|) == Cut {
          FullStops(cap, bs, j, n - 1, PrintAt(cap, bs, i, comma).sheet, len - |Separator(first)|);
        }
      }
    }
  }

  /** Behind a number that was cut the buffer is full. */
  lemma FullStops(cap: nat, bs: seq<byte>, i: nat, n: nat, p: Sheet, len: nat)
    requires i <= |bs| && |p.text| == cap && len > 0
    ensures PrintItemsAt(cap, bs, i, n, false, p, len) == Undefined
  {
  }

  /** One entry: its key, the colon, its value. */
  function EntryAt(cap: nat, bs: seq<byte>, i: nat, first: bool, p: Sheet, len: nat): Outcome
    requires i <= |bs| && |p.text| <= cap
  {
    var key :- PrintKeyAt(cap, bs, i, first, p, len);
    PrintAt(cap, bs, key.next, key.sheet)
  }

  function AfterEntry(p: Sheet, e: Entry, first: bool): Sheet {
    p.(text := p.text + RenderEntry(e, p.inMap, first), inMap := p.inMap && !EntryHasMap(e), inKey := false)
  }

  /** A cut number as a key is followed by a colon past the end. */
  lemma {:induction false} PrintsKey(cap: nat, bs: seq<byte>, i: nat, first: bool, p: Sheet, len: nat)
    requires i < |bs| && Read(bs, i).Some? && |p.text| <= cap && (p.skip == 0 || Flat(Read(bs, i).value.0))
    requires cap - |p.text| <= len && (!first ==> cap - |p.text| < len)
    ensures var (k, next) := Read(bs, i).value;
      var room := cap - |p.text| - |Separator(first)|;
      var o := PrintKeyAt(cap, bs, i, first, p, len);
      if room < 0 then o == Undefined
      else
        match Prints(k, p.inMap, room)
        case Fits =>
          if room == |Render(k, p.inMap)| then o == Undefined
          else
            o == Done(next, Sheet(p.text + (Separator(first) + Render(k, p.inMap) + [COLON]),
                                  p.inMap && !HasMap(k), false, p.skip))
        case Fails => o == Failed
        case _ => o == Undefined
    decreases |bs| - i, 1
  {
    hide Read, PrintAt, Prints, Render, HasMap, HasEntry, Flat;
    var comma := p.(text := p.text + Separator(first));
    if |comma.text| <= cap {
      PrintsValue(cap, bs, i, comma.(inKey := true));
      var k := Read(bs, i).value.0;
      assert comma.text + Render(k, p.inMap) + [COLON] == p.text + (Separator(first) + Render(k, p.inMap) + [COLON]);
    }
  }

  lemma PrintsOne(cap: nat, bs: seq<byte>, i: nat, first: bool, p: Sheet, len: nat)
    requires EntryHere(bs, i) && |p.text| <= cap && (p.skip == 0 || FlatEntry(EntryOf(bs, i).0))
    requires cap - |p.text| <= len && (!first ==> cap - |p.text| < len)
    ensures var (e, next) := EntryOf(bs, i);
      Follows(EntryAt(cap, bs, i, first, p, len), PrintsEntry(e, p.inMap, cap - |p.text|, first), next,
        AfterEntry(p, e, first))
    decreases |bs| - i, 2
  {
    hide Read, PrintAt, PrintKeyAt, Prints, Render, HasMap, HasEntry, Flat;
    var (e, next) := EntryOf(bs, i);
    PrintsKey(cap, bs, i, first, p, len);
    var o := PrintKeyAt(cap, bs, i, first, p, len);
    if o.Done? {
      PrintsValue(cap, bs, o.next, o.sheet);
      var key := Separator(first) + Render(e.key, p.inMap) + [COLON];
      assert p.text + key + Render(e.value, false) == p.text + (key + Render(e.value, false));
    }
  }

  /** The sheet behind the entries and their brace. */
  function AfterEntries(p: Sheet, es: seq<Entry>, first: bool): Sheet {
    p.(text := p.text + (RenderEntries(es, p.inMap, first) + [RBRACE]), inMap := false, inKey := p.inKey && es == [])
  }

  lemma EntryThenEntries(p: Sheet, e: Entry, rest: seq<Entry>, first: bool)
    ensures AfterEntries(AfterEntry(p, e, first), rest, false) == AfterEntries(p, [e] + rest, first)
  {
    hide RenderEntry, EntryHasMap;
    assert ([e] + rest)[1..] == rest;
    var tail := RenderEntries(rest, p.inMap && !EntryHasMap(e), false);
    assert p.text + RenderEntry(e, p.inMap, first) + (tail + [RBRACE])
        == p.text + (RenderEntry(e, p.inMap, first) + tail + [RBRACE]);
  }

  /** One turn of the loop over entries. */
  lemma EntriesStep(cap: nat, bs: seq<byte>, i: nat, n: nat, first: bool, p: Sheet, len: nat)
    requires n > 0 && i <= |bs| && |p.text| <= cap
    ensures var o := EntryAt(cap, bs, i, first, p, len);
      && (o.Done? ==> |Separator(first)| + 1 <= len)
      && PrintEntriesAt(cap, bs, i, n, first, p, len) ==
           if !o.Done? then o
           else PrintEntriesAt(cap, bs, o.next, n - 1, false, o.sheet, len - |Separator(first)| - 1)
  {
    hide PrintAt, PrintKeyAt;
  }

  lemma LastEntry(cap: nat, bs: seq<byte>, i: nat, first: bool, p: Sheet, len: nat)
    requires i <= |bs| && |p.text| <= cap
    requires cap - |p.text| <= len && (if first then |p.text| < cap else cap - |p.text| < len)
    ensures Follows(PrintEntriesAt(cap, bs, i, 0, first, p, len), PrintsEntries([], p.inMap, cap - |p.text|, first), i,
                    AfterEntries(p, [], first))
  {
    assert [] + [RBRACE] == [RBRACE];
  }

  lemma EntriesRoom(e: Entry, rest: seq<Entry>, q: bool, room: nat, first: bool)
    ensures PrintsEntries([e] + rest, q, room, first) ==
      Then(PrintsEntry(e, q, room, first),
           PrintsEntries(rest, q && !EntryHasMap(e), Less(room, |RenderEntry(e, q, first)|), false))
  {
    hide RenderEntry, EntryHasMap, PrintsEntry;
    assert ([e] + rest)[1..] == rest;
  }

  lemma FullBreaks(cap: nat, bs: seq<byte>, i: nat, n: nat, p: Sheet, len: nat)
    requires i <= |bs| && |p.text| == cap && len > 0
    ensures PrintEntriesAt(cap, bs, i, n, false, p, len) == Undefined
  {
  }

  lemma {:induction false} PrintsTheEntries(cap: nat, bs: seq<byte>, i: nat, n: nat, first: bool, p: Sheet, len: nat)
    requires i <= |bs| && ReadEntries(bs, i, n).Some? && |p.text| <= cap
    requires p.skip == 0 || FlatEntries(ReadEntries(bs, i, n).value.0)
    requires cap - |p.text| <= len && (!first ==> cap - |p.text| < len) && (first && n == 0 ==> |p.text| < cap)
    ensures var (es, next) := ReadEntries(bs, i, n).value;
      Follows(PrintEntriesAt(cap, bs, i, n, first, p, len), PrintsEntries(es, p.inMap, cap - |p.text|, first), next,
        AfterEntries(p, es, first))
    decreases |bs| - i, 3, n
  {
    hide Read, EntryAt, PrintEntriesAt, PrintsEntry, PrintsEntries, RenderEntry, EntryHasMap, FlatEntry, AfterEntries;
    if n == 0 {
      LastEntry(cap, bs, i, first, p, len);
    } else {
      var (k, j) := Read(bs, i).value;
      var (v, j') := Read(bs, j).value;
      var e, rest := Entry(k, v), ReadEntries(bs, j', n - 1).value.0;
      assert EntryHere(bs, i) && EntryOf(bs, i) == (e, j');
      PrintsOne(cap, bs, i, first, p, len);
      EntriesStep(cap, bs, i, n, first, p, len);
      EntriesRoom(e, rest, p.inMap, cap - |p.text|, first);
      EntryThenEntries(p, e, rest, first);
      EntryLength(e, p.inMap, first);
      if PrintsEntry(e, p.inMap, cap - |p.text|, first) == Fits {
        PrintsTheEntries(cap, bs, j', n - 1, false, AfterEntry(p, e, first), len - |Separator(first)| - 1);
      } else if PrintsEntry(e, p.inMap, cap - |p.text|, first) == Cut {
        FullBreaks(cap, bs, j', n - 1, EntryAt(cap, bs, i, first, p, len).sheet, len - |Separator(first)| - 1);
      }
    }
  }

  lemma EntryLength(e: Entry, quoted: bool, first: bool)
    ensures |RenderEntry(e, quoted, first)| >= |Separator(first)| + 3
  {
    hide Render;
  }

  lemma PrintsMap(cap: nat, bs: seq<byte>, i: nat, p: Sheet)
    requires i < |bs| && Read(bs, i).Some? && |p.text| < cap && (p.skip == 0 || Flat(Read(bs, i).value.0))
    requires Read(bs, i).value.0.Map?
    ensures var (v, next) := Read(bs, i).value;
      Follows(PrintAt(cap, bs, i, p), Prints(v, p.Quoting(), cap - |p.text|), next, After(p, v))
    decreases |bs| - i - 1, 4
  {
    hide ReadHead, ReadEntries, PrintEntriesAt, PrintsEntries, RenderEntries, FlatEntries;
    var (h, j) := ReadHead(bs, i).value;
    var es := ReadEntries(bs, j, h.count).value.0;
    var open := p.(text := p.text + [LBRACE], inMap := true);
    if cap - |p.text| >= (|es| + 2) % TWO_32 {
      PrintsTheEntries(cap, bs, j, h.count, true, open, cap - |p.text| - 1);
      assert open.text + (RenderEntries(es, true, true) + [RBRACE])
          == p.text + ([LBRACE] + RenderEntries(es, true, true) + [RBRACE]);
    }
  }

  // ------------------------------------------------------ how much is enough

  /** The smallest room in which the whole text of v is printed. */
  function Needs(v: Mp, quoted: bool): nat
    decreases v, 0
  {
    match v
    case Uint(_) => Max(20, |Render(v, quoted)| + 1)
    case Int(_) => Max(20, |Render(v, quoted)| + 1)
    case Array(items) => Max((|items| + 2) % TWO_32, 1 + NeedsItems(items, quoted, true))
    case Map(es) => Max((|es| + 2) % TWO_32, 1 + NeedsEntries(es, true, true))
    case _ => |Render(v, quoted)|
  }

  function NeedsItems(items: seq<Mp>, quoted: bool, first: bool): nat
    decreases items, 1
  {
    if items == [] then 1
    else
      |Separator(first)| + Max(Needs(items[0], quoted),
        |Render(items[0], quoted)| + NeedsItems(items[1..], quoted && !HasMap(items[0]), false))
  }

  function NeedsEntry(e: Entry, quoted: bool, first: bool): nat
    decreases e, 1
  {
    |Separator(first)| + Max(Needs(e.key, quoted), |Render(e.key, quoted)| + 1 + Needs(e.value, false))
  }

  function NeedsEntries(es: seq<Entry>, quoted: bool, first: bool): nat
    decreases es, 2
  {
    if es == [] then 1
    else
      Max(NeedsEntry(es[0], quoted, first),
        |RenderEntry(es[0], quoted, first)| + NeedsEntries(es[1..], quoted && !EntryHasMap(es[0]), false))
  }

  /** With that room or more the whole text is printed, with less it is not. */
  lemma {:induction false} EnoughRoom(v: Mp, quoted: bool, room: nat)
    ensures Prints(v, quoted, room) == Fits <==> room >= Needs(v, quoted)
    decreases v, 0
  {
    hide Render, RenderItems, RenderEntries, PrintsItems, PrintsEntries, NeedsItems, NeedsEntries;
    match v
    case Array(items) => if room > 0 { EnoughForItems(items, quoted, room - 1, true); }
    case Map(es) => if room > 0 { EnoughForEntries(es, true, room - 1, true); }
    case _ =>
  }

  lemma {:induction false} EnoughForItems(items: seq<Mp>, quoted: bool, room: nat, first: bool)
    ensures PrintsItems(items, quoted, room, first) == Fits <==> room >= NeedsItems(items, quoted, first)
    decreases items, 1
  {
    hide Render, RenderItems, Prints, Needs, HasMap;
    if items != [] && room >= |Separator(first)| {
      EnoughRoom(items[0], quoted, room - |Separator(first)|);
      EnoughForItems(items[1..], quoted && !HasMap(items[0]),
        Less(room, |Separator(first)| + |Render(items[0], quoted)|), false);
      NeedsOne(items[1..], quoted && !HasMap(items[0]));
    }
  }

  lemma NeedsOne(items: seq<Mp>, quoted: bool)
    ensures NeedsItems(items, quoted, false) >= 1
  {
    hide Render, Needs;
  }

  lemma EnoughForEntry(e: Entry, quoted: bool, room: nat, first: bool)
    ensures PrintsEntry(e, quoted, room, first) == Fits <==> room >= NeedsEntry(e, quoted, first)
    decreases e, 1
  {
    hide Render, Prints, Needs;
    var comma, key := |Separator(first)|, |Render(e.key, quoted)|;
    if room >= comma {
      EnoughRoom(e.key, quoted, room - comma);
      EnoughRoom(e.value, false, Less(room, comma + key + 1));
      EnoughRoom(e.value, false, 0);
      EnoughRoom(e.value, false, Needs(e.value, false));
    }
  }

  lemma {:induction false} EnoughForEntries(es: seq<Entry>, quoted: bool, room: nat, first: bool)
    ensures PrintsEntries(es, quoted, room, first) == Fits <==> room >= NeedsEntries(es, quoted, first)
    decreases es, 2
  {
    hide RenderEntry, RenderEntries, PrintsEntry, NeedsEntry, EntryHasMap;
    if es != [] {
      EnoughForEntry(es[0], quoted, room, first);
      EnoughForEntries(es[1..], quoted && !EntryHasMap(es[0]), Less(room, |RenderEntry(es[0], quoted, first)|), false);
      NeedsOneEntry(es[1..], quoted && !EntryHasMap(es[0]));
    }
  }

  lemma NeedsOneEntry(es: seq<Entry>, quoted: bool)
    ensures NeedsEntries(es, quoted, false) >= 1
  {
    hide RenderEntry, NeedsEntry;
    if es != [] {
      EntryLength(es[0], quoted, false);
    }
  }

  /** n bytes of MessagePack need 6n + 20 at most. */
  function RoomFor(n: nat): nat { 6 * n + 20 }

  lemma {:induction false} NeedsBound(bs: seq<byte>, i: nat, quoted: bool)
    requires i <= |bs| && Read(bs, i).Some?
    ensures Needs(Read(bs, i).value.0, quoted) <= RoomFor(Read(bs, i).value.1 - i)
    decreases |bs| - i, 0, 0
  {
    hide ReadHead, Render, ReadItems, ReadEntries, NeedsItems, NeedsEntries;
    TextBound(bs, i, quoted);
    var (h, j) := ReadHead(bs, i).value;
    match h
    case HArray(n) =>
      ItemsSize(bs, j, n);
      NeedsItemsBound(bs, j, n, quoted, true);
    case HMap(n) =>
      EntriesSize(bs, j, n);
      NeedsEntriesBound(bs, j, n, true, true);
    case _ =>
  }

  lemma {:induction false} NeedsItemsBound(bs: seq<byte>, i: nat, n: nat, quoted: bool, first: bool)
    requires i <= |bs| && ReadItems(bs, i, n).Some?
    ensures NeedsItems(ReadItems(bs, i, n).value.0, quoted, first) <= RoomFor(ReadItems(bs, i, n).value.1 - i) + 1
    decreases |bs| - i, 1, n
  {
    hide Read, Render, Needs, HasMap;
    if n > 0 {
      var (v, j) := Read(bs, i).value;
      TextBound(bs, i, quoted);
      NeedsBound(bs, i, quoted);
      NeedsItemsBound(bs, j, n - 1, quoted && !HasMap(v), false);
    }
  }

  lemma {:induction false} NeedsEntriesBound(bs: seq<byte>, i: nat, n: nat, quoted: bool, first: bool)
    requires i <= |bs| && ReadEntries(bs, i, n).Some?
    ensures NeedsEntries(ReadEntries(bs, i, n).value.0, quoted, first) <= RoomFor(ReadEntries(bs, i, n).value.1 - i) + 1
    decreases |bs| - i, 1, n
  {
    hide Read, Render, Needs, HasMap;
    if n > 0 {
      var (k, j) := Read(bs, i).value;
      var (v, j') := Read(bs, j).value;
      TextBound(bs, i, quoted);
      NeedsBound(bs, i, quoted);
      TextBound(bs, j, false);
      NeedsBound(bs, j, false);
      NeedsEntriesBound(bs, j', n - 1, quoted && !EntryHasMap(Entry(k, v)), false);
    }
  }

  // ------------------------------------------------------------- the reply

  /** Skipping drops the heads of arrays, and fails at a full buffer. */
  lemma {:induction false} PeelPrints(cap: nat, bs: seq<byte>, i: nat, p: Sheet)
    requires i <= |bs| && |p.text| < cap
    ensures var (j, left) := Peel(bs, i, p.skip); PrintAt(cap, bs, i, p) == PrintAt(cap, bs, j, p.(skip := left))
    decreases p.skip
  {
    hide ReadHead, Render, PrintItemsAt, PrintEntriesAt, PutNumber, PutString;
    if i < |bs| && p.skip > 0 && ReadHead(bs, i).Some? && ReadHead(bs, i).value.0.HArray? {
      PeelPrints(cap, bs, ReadHead(bs, i).value.1, p.(skip := p.skip - 1));
    } else {
      assert p.(skip := p.skip) == p;
    }
  }

  /** The text of the reply data: that of the value behind the skipped arrays, or none. */
  function Result(data: seq<byte>, skipCount: nat): seq<byte>
    requires Printable(data, 0, skipCount)
  {
    var j := Peel(data, 0, skipCount).0;
    if j < |data| then Render(Read(data, j).value.0, false) else []
  }

  /** The smallest buffer in which the whole reply is printed. */
  function ReplyNeeds(sync: nat, data: seq<byte>, pureResult: bool, skipCount: nat): nat
    requires Printable(data, 0, skipCount)
  {
    var j := Peel(data, 0, skipCount).0;
    var value := if j < |data| then Needs(Read(data, j).value.0, false) else 0;
    if pureResult then if data == [] then 0 else Max(1, value)
    else |ReplyHead(sync)| + Max(|Result(data, skipCount)| + 1, value)
  }

  /** What the value behind the skipped arrays is printed as, if there is one. */
  lemma PrintsData(cap: nat, data: seq<byte>, p: Sheet)
    requires |p.text| < cap && !p.inMap && !p.inKey && Printable(data, 0, p.skip)
    ensures var (j, left) := Peel(data, 0, p.skip);
      if j == |data| then PrintAt(cap, data, 0, p) == Done(j, p.(skip := left))
      else
        var (v, next) := Read(data, j).value;
        && Follows(PrintAt(cap, data, 0, p), Prints(v, false, cap - |p.text|), next,
             p.(text := p.text + Render(v, false), skip := left))
        && (Prints(v, false, cap - |p.text|) == Fits <==> cap - |p.text| >= Needs(v, false))
  {
    hide Read, Render, Peel, Prints, Needs, PrintItemsAt, PrintEntriesAt, HasMap, HasEntry, Flat;
    PeelPrints(cap, data, 0, p);
    var (j, left) := Peel(data, 0, p.skip);
    if j < |data| {
      PrintsValue(cap, data, j, p.(skip := left));
      EnoughRoom(Read(data, j).value.0, false, cap - |p.text|);
    }
  }

  /** A number that was cut is not the number. */
  lemma CutDiffers(v: Mp, quoted: bool, room: nat)
    requires Prints(v, quoted, room) == Cut
    ensures Render(v, quoted)[..|Render(v, quoted)| - 1] + [0] != Render(v, quoted)
  {
    hide RenderItems, RenderEntries, PrintsItems, PrintsEntries;
    var text := Render(v, quoted);
    var d := DecimalInt(if v.Uint? then v.n else v.i);
    LastDigit(if v.Uint? then v.n else v.i);
    assert text[|text| - 1] == if quoted then QUOTE else d[|d| - 1];
    assert (text[..|text| - 1] + [0])[|text| - 1] == 0;
  }

  lemma LastDigit(i: int)
    ensures Digit(DecimalInt(i)[|DecimalInt(i)| - 1])
  {
    var d := Decimal(if i < 0 then -i else i);
    assert Digit(d[|d| - 1]);
  }

  /**
   A reply without error, in a buffer of any size: its whole text is printed
   exactly if there is the room it needs.
   */
  lemma ReplyPrints(cap: nat, sync: nat, data: seq<byte>, pureResult: bool, skipCount: nat)
    requires Printable(data, 0, skipCount)
    ensures var o := ReplyAt(cap, sync, data, pureResult, skipCount);
      o.Done? && o.sheet.text == Envelope(sync, Result(data, skipCount), pureResult)
      <==> cap >= ReplyNeeds(sync, data, pureResult, skipCount)
  {
    hide Read, Render, Peel, Prints, Needs, PrintAt, HasMap, HasEntry, Flat, ReplyHead;
    var p := Sheet([], false, false, skipCount);
    if pureResult && cap > 0 {
      PureReply(cap, data, skipCount);
    } else if pureResult {
      NoBuffer(data, skipCount);
    } else if |ReplyHead(sync)| < cap {
      FramedReply(cap, sync, data, skipCount);
    } else {
      FullBuffer(cap, sync, data, skipCount);
    }
  }

  lemma PureReply(cap: nat, data: seq<byte>, skipCount: nat)
    requires Printable(data, 0, skipCount) && cap > 0
    ensures var o := PrintAt(cap, data, 0, Sheet([], false, false, skipCount));
      o.Done? && o.sheet.text == Result(data, skipCount) <==> cap >= ReplyNeeds(0, data, true, skipCount)
  {
    hide Read, Render, Peel, Prints, Needs, PrintAt, HasMap, HasEntry, Flat, ReplyHead;
    var p := Sheet([], false, false, skipCount);
    PrintsData(cap, data, p);
    var j := Peel(data, 0, skipCount).0;
    if j < |data| {
      var v := Read(data, j).value.0;
      assert [] + Render(v, false) == Render(v, false);
      if Prints(v, false, cap) == Cut { CutDiffers(v, false, cap); }
    }
  }

  lemma NoBuffer(data: seq<byte>, skipCount: nat)
    requires Printable(data, 0, skipCount)
    ensures PrintAt(0, data, 0, Sheet([], false, false, skipCount)).Done? <==> data == []
    ensures data == [] ==> Result(data, skipCount) == []
    ensures data == [] ==> PrintAt(0, data, 0, Sheet([], false, false, skipCount)).sheet.text == []
  {
    hide Read, Render, ReadHead;
  }

  lemma FramedReply(cap: nat, sync: nat, data: seq<byte>, skipCount: nat)
    requires Printable(data, 0, skipCount) && |ReplyHead(sync)| < cap
    ensures var o := ReplyAt(cap, sync, data, false, skipCount);
      o.Done? && o.sheet.text == Envelope(sync, Result(data, skipCount), false)
      <==> cap >= ReplyNeeds(sync, data, false, skipCount)
  {
    hide Read, Render, Peel, Prints, Needs, PrintAt, HasMap, HasEntry, Flat, ReplyHead;
    var p := Sheet([], false, false, skipCount);
    var q := p.(text := ReplyHead(sync));
    assert [] + ReplyHead(sync) == ReplyHead(sync);
    assert Snprintf(cap, 0, p, ReplyHead(sync)) == Done(0, q);
    PrintsData(cap, data, q);
    var j := Peel(data, 0, skipCount).0;
    if j == |data| {
      assert ReplyHead(sync) + [] + [RBRACE] == ReplyHead(sync) + [RBRACE];
    }
  }

  lemma FullBuffer(cap: nat, sync: nat, data: seq<byte>, skipCount: nat)
    requires cap <= |ReplyHead(sync)|
    ensures !ReplyAt(cap, sync, data, false, skipCount).Done?
  {
    hide ReplyHead, ReadHead;
  }

  /** Six times the data and 48 bytes are always enough. */
  lemma ReplyBound(sync: nat, data: seq<byte>, pureResult: bool, skipCount: nat)
    requires sync < TWO_32 && Printable(data, 0, skipCount)
    ensures ReplyNeeds(sync, data, pureResult, skipCount) <= 28 + RoomFor(|data|)
  {
    hide Read, Render, Peel, Needs, Pow10, Decimal;
    Powers();
    DecimalBound(sync, 10);
    var j := Peel(data, 0, skipCount).0;
    if j < |data| {
      NeedsBound(data, j, false);
      TextBound(data, j, false);
    }
  }

  // ------------------------------------------------------------- witnesses

  /** An array whose string ends with the buffer: its bracket is written past the end. */
  lemma StringFillsBuffer(s: seq<byte>, quoted: bool)
    ensures Prints(Array([Str(s)]), quoted, 1 + |Quoted(s, false)|) == Breaks
  {
    hide Quoted;
    var room := |Quoted(s, false)|;
    assert [Str(s)][1..] == [];
    assert Prints(Str(s), quoted, room) == Fits;
    assert PrintsItems([], quoted && !HasMap(Str(s)), Less(room, 0 + |Render(Str(s), quoted)|), false) == Breaks;
    assert PrintsItems([Str(s)], quoted, room, true) == Breaks;
  }

  /** {1:[]} with an array left to skip: the empty array is dropped, and nothing is printed for it. */
  lemma SkippedInMap(cap: nat)
    requires cap >= 100
    ensures PrintAt(cap, [0x81, 0x01, 0x90], 0, Sheet([], false, false, 1)) ==
      Done(3, Sheet([LBRACE, QUOTE, 0x31, QUOTE, COLON, RBRACE], false, false, 0))
  {
  }

  /** Even one digit is not printed into 19 bytes; into 20 it is. */
  lemma NumberNeedsTwenty()
    ensures PrintAt(19, [0x07], 0, Sheet([], false, false, 0)) == Failed
    ensures PrintAt(20, [0x07], 0, Sheet([], false, false, 0)) == Done(1, Sheet([0x37], false, false, 0))
  {
  }
}

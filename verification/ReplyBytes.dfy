/**
 The reply texts in bytes: names and signs of JSON are written out here, and not
 taken from the model.
 */
module ReplyBytes {
  import opened Bytes
  import opened MsgPack
  import opened JsonText
  import opened JsonReader
  import opened Rendering
  import opened PrintedJson
  import opened Deframing
  import opened BatchText
  import Json
  import Printing

  /** A reply object: sync under "id", the result under "result", and nothing else. */
  predicate IsReply(v: Mp, sync: nat, result: Mp) {
    && v.Map? && |v.entries| == 2
    && Lookup(v.entries, Str([0x69, 0x64])) == Some(Uint(sync))
    && Lookup(v.entries, Str([0x72, 0x65, 0x73, 0x75, 0x6c, 0x74])) == Some(result)
  }

  lemma ObjectIsReply(sync: nat, result: Mp)
    ensures var v := Map([Entry(Str(Printing.ID_KEY), Uint(sync)), Entry(Str(Printing.RESULT_KEY), result)]);
      IsReply(v, sync, result)
  {
    var es := [Entry(Str(Printing.ID_KEY), Uint(sync)), Entry(Str(Printing.RESULT_KEY), result)];
    assert |Printing.ID_KEY| != |Printing.RESULT_KEY|;
    assert es[1..] == [es[1]];
  }

  /**
   What a client reads in a reply without error that is printed as a whole, for
   every skip count: the object of sync and the value behind the skipped arrays
   or, with pure_result, that value alone; if there is none, or it does not print
   as JSON, no JSON.
   */
  lemma ReplySays(cap: nat, sync: nat, data: seq<byte>, pureResult: bool, skipCount: nat)
    requires Printing.Printable(data, 0, skipCount)
    requires cap >= Printing.ReplyNeeds(sync, data, pureResult, skipCount)
    ensures var o := Printing.ReplyAt(cap, sync, data, pureResult, skipCount);
      && o.Done?
      && var j, read := Printing.Peel(data, 0, skipCount).0, Meaning(o.sheet.text);
      if j < |data| && JsonOk(Read(data, j).value.0) then
        var v := Denoted(Read(data, j).value.0);
        read.Some? && if pureResult then read.value == v else IsReply(read.value, sync, v)
      else read == None
  {
    hide Read, Render, Meaning, JsonOk, Denoted, Printing.Peel, Printing.ReplyAt, Printing.ReplyHead, IsReply;
    Printing.ReplyPrints(cap, sync, data, pureResult, skipCount);
    var j := Printing.Peel(data, 0, skipCount).0;
    if pureResult {
      if j < |data| {
        PrintedMeaning(Read(data, j).value.0);
      } else {
        NothingRead();
      }
    } else {
      SkippedMeaning(sync, data, skipCount);
      if j < |data| {
        ObjectIsReply(sync, Denoted(Read(data, j).value.0));
      }
    }
  }

  lemma NothingRead()
    ensures Meaning([]) == None
  {
  }

  lemma {:induction false} RepliesRead(rs: seq<Reply>)
    ensures |ReadReplies(rs)| == |rs|
    ensures forall i :: 0 <= i < |rs| ==> IsReply(ReadReplies(rs)[i], rs[i].id, Denoted(rs[i].result))
    decreases |rs|
  {
    hide IsReply, Denoted;
    if rs != [] {
      ObjectIsReply(rs[0].id, Denoted(rs[0].result));
      RepliesRead(rs[1..]);
    }
  }

  /** The response to a batch: between its brackets a client reads, in order, the object of each id and result. */
  lemma BatchSays(reply: Replier, frames: seq<seq<byte>>, rs: seq<Reply>)
    requires |rs| == |frames| && rs != []
    requires forall i :: 0 <= i < |rs| ==>
      reply(frames[i]) == Some(Printing.Envelope(rs[i].id, Render(rs[i].result, false), false))
    ensures AllReply(reply, frames)
    ensures var read := Meaning([0x5b] + Joined(reply, frames) + [0x5d]);
      if forall i :: 0 <= i < |rs| ==> JsonOk(rs[i].result) then
        && read.Some? && read.value.Array? && |read.value.items| == |rs|
        && forall i :: 0 <= i < |rs| ==> IsReply(read.value.items[i], rs[i].id, Denoted(rs[i].result))
      else read == None
  {
    hide Meaning, Render, Printing.Envelope, Joined, JsonOk, Denoted, IsReply;
    BatchOfReplies(reply, frames, rs);
    RepliesRead(rs);
  }

  // ---------------------------------------------------- JSON in, JSON out

  /** The compact JSON text of a value. */
  function Text(j: Json.Json): seq<byte>
    decreases j, 0
  {
    match j
    case JNull => [0x6e, 0x75, 0x6c, 0x6c]
    case JBool(b) => if b then [0x74, 0x72, 0x75, 0x65] else [0x66, 0x61, 0x6c, 0x73, 0x65]
    case JInt(i) => DecimalInt(i)
    case JStr(s) => [0x22] + Escape(s, false) + [0x22]
    case JArr(items) => [0x5b] + ItemsText(items, true) + [0x5d]
    case JObj(ms) => [0x7b] + MembersText(ms, true) + [0x7d]
  }

  function ItemsText(items: seq<Json.Json>, first: bool): seq<byte>
    decreases items, 1
  {
    if items == [] then []
    else (if first then [] else [0x2c]) + Text(items[0]) + ItemsText(items[1..], false)
  }

  function MembersText(ms: seq<Json.Member>, first: bool): seq<byte>
    decreases ms, 1
  {
    if ms == [] then []
    else
      (if first then [] else [0x2c]) + ([0x22] + Escape(ms[0].key, false) + [0x22]) + [0x3a] + Text(ms[0].value)
      + MembersText(ms[1..], false)
  }

  /** Compiled to MessagePack and printed, a JSON value is its compact text again. */
  lemma {:induction false} PrintsBack(j: Json.Json)
    ensures Render(Json.ToMp(j), false) == Text(j)
    decreases j, 0
  {
    hide Escape, DecimalInt;
    match j
    case JArr(items) => ItemsPrintBack(items, true);
    case JObj(ms) => MembersPrintBack(ms, true, true);
    case _ =>
  }

  lemma {:induction false} ItemsPrintBack(items: seq<Json.Json>, first: bool)
    ensures RenderItems(Json.ToMps(items), false, first) == ItemsText(items, first)
    decreases items, 1
  {
    hide Render;
    if items != [] {
      PrintsBack(items[0]);
      ItemsPrintBack(items[1..], false);
    }
  }

  lemma {:induction false} MembersPrintBack(ms: seq<Json.Member>, quoted: bool, first: bool)
    ensures RenderEntries(Json.ToEntries(ms), quoted, first) == MembersText(ms, first)
    decreases ms, 1
  {
    hide Escape, EntryHasMap;
    if ms != [] {
      var es, key := Json.ToEntries(ms), [0x22] + Escape(ms[0].key, false) + [0x22];
      PrintsBack(ms[0].value);
      MembersPrintBack(ms[1..], quoted && !EntryHasMap(es[0]), false);
      assert es[0] == Entry(Str(ms[0].key), Json.ToMp(ms[0].value)) && es[1..] == Json.ToEntries(ms[1..]);
      assert Render(es[0].key, quoted) == key;
      assert RenderEntry(es[0], quoted, first) == (if first then [] else [0x2c]) + key + [0x3a] + Text(ms[0].value);
    }
  }
}

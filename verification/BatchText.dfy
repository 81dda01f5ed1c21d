/** What a client can read in the response to a batch, the reply texts being those of the printer. */
module BatchText {
  import opened Bytes
  import opened MsgPack
  import opened JsonReader
  import opened Unicode
  import opened Rendering
  import opened PrintedJson
  import opened Deframing
  import Printing

  /** The reply texts are the renderings of these values. */
  predicate Printed(reply: Replier, frames: seq<seq<byte>>, vs: seq<Mp>) {
    |vs| == |frames| && forall i :: 0 <= i < |frames| ==> reply(frames[i]) == Some(Render(vs[i], false))
  }

  lemma {:induction false} JoinedIsItems(reply: Replier, frames: seq<seq<byte>>, vs: seq<Mp>)
    requires Printed(reply, frames, vs) && vs != []
    ensures AllReply(reply, frames) && Joined(reply, frames) == RenderItems(vs, false, true)
    decreases |vs|
  {
    hide Render;
    var text := Render(vs[0], false);
    assert reply(frames[0]) == Some(text);
    if |vs| == 1 {
      assert vs[1..] == [];
      assert RenderItems(vs, false, true) == [] + text + [];
    } else {
      JoinedIsItems(reply, frames[1..], vs[1..]);
      LaterItems(vs[1..]);
      assert RenderItems(vs, false, true) == [] + text + RenderItems(vs[1..], false, false);
      assert [] + text + (NEXT + Joined(reply, frames[1..])) == text + NEXT + Joined(reply, frames[1..]);
    }
  }

  lemma LaterItems(vs: seq<Mp>)
    requires vs != []
    ensures RenderItems(vs, false, false) == NEXT + RenderItems(vs, false, true)
  {
    FirstItem(vs, false);
  }

  /** The text of a batch denotes the array of what the replies denote, exactly when each of them is JSON. */
  lemma BatchMeaning(reply: Replier, frames: seq<seq<byte>>, vs: seq<Mp>)
    requires Printed(reply, frames, vs) && vs != []
    ensures AllReply(reply, frames)
    ensures Meaning(OPEN + Joined(reply, frames) + CLOSE) == if ItemsOk(vs) then Some(Array(DenotedItems(vs))) else None
  {
    hide Meaning;
    JoinedIsItems(reply, frames, vs);
    PrintedMeaning(Array(vs));
  }

  datatype Reply = Reply(id: nat, result: Mp)

  function ReplyObject(r: Reply): Mp {
    Map([Entry(Str(Printing.ID_KEY), Uint(r.id)), Entry(Str(Printing.RESULT_KEY), r.result)])
  }

  function ReplyObjects(rs: seq<Reply>): (vs: seq<Mp>)
    ensures |vs| == |rs| && forall i :: 0 <= i < |rs| ==> vs[i] == ReplyObject(rs[i])
  {
    if rs == [] then [] else [ReplyObject(rs[0])] + ReplyObjects(rs[1..])
  }

  /** What a client reads for one reply. */
  function ReadReply(r: Reply): Mp {
    ReplyObject(r.(result := Denoted(r.result)))
  }

  function ReadReplies(rs: seq<Reply>): seq<Mp> {
    if rs == [] then [] else [ReadReply(rs[0])] + ReadReplies(rs[1..])
  }

  predicate ResultsOk(rs: seq<Reply>) {
    forall i :: 0 <= i < |rs| ==> JsonOk(rs[i].result)
  }

  lemma OneObject(r: Reply)
    ensures JsonOk(ReplyObject(r)) <==> JsonOk(r.result)
    ensures Denoted(ReplyObject(r)) == ReadReply(r)
  {
    hide IsUtf8, EntriesOk, DenotedEntries;
    var id, result := Entry(Str(Printing.ID_KEY), Uint(r.id)), Entry(Str(Printing.RESULT_KEY), r.result);
    TwoEntries(id, result);
    AsciiIsUtf8(Printing.ID_KEY);
    AsciiIsUtf8(Printing.RESULT_KEY);
  }

  lemma {:induction false} ObjectsRead(rs: seq<Reply>)
    ensures ItemsOk(ReplyObjects(rs)) <==> ResultsOk(rs)
    ensures DenotedItems(ReplyObjects(rs)) == ReadReplies(rs)
    decreases |rs|
  {
    hide ReplyObject, ReadReply;
    if rs != [] {
      OneObject(rs[0]);
      ObjectsRead(rs[1..]);
      assert ReplyObjects(rs)[1..] == ReplyObjects(rs[1..]);
      assert forall i :: 0 < i < |rs| ==> rs[i] == rs[1..][i - 1];
    }
  }

  /** The response to a batch: an array of the reply objects, in order, exactly when every result is JSON. */
  lemma BatchOfReplies(reply: Replier, frames: seq<seq<byte>>, rs: seq<Reply>)
    requires |rs| == |frames| && rs != []
    requires forall i :: 0 <= i < |rs| ==>
      reply(frames[i]) == Some(Printing.Envelope(rs[i].id, Render(rs[i].result, false), false))
    ensures AllReply(reply, frames)
    ensures Meaning(OPEN + Joined(reply, frames) + CLOSE)
         == if ResultsOk(rs) then Some(Array(ReadReplies(rs))) else None
  {
    hide Meaning, Render, Printing.Envelope, Joined, ResultsOk;
    forall i | 0 <= i < |rs|
      ensures reply(frames[i]) == Some(Render(ReplyObjects(rs)[i], false))
    {
      var id, result := Entry(Str(Printing.ID_KEY), Uint(rs[i].id)), Entry(Str(Printing.RESULT_KEY), rs[i].result);
      ReplyText(rs[i].id, rs[i].result, id, result);
    }
    BatchMeaning(reply, frames, ReplyObjects(rs));
    ObjectsRead(rs);
  }
}

/** tp2json_t: the MessagePack to JSON printer, writing at pos and sharing its state bits down the recursion. */
module Printer {
  import opened Bytes
  import opened MsgPack
  import opened JsonText
  import opened Rendering
  import opened Printing

  /** The answer ok, the position beg' and the sheet are those of the outcome; a failure says nothing more. */
  predicate Agree(o: Outcome, ok: bool, beg': nat, now: Sheet) {
    match o
    case Done(next, sheet) => ok && beg' == next && now == sheet
    case Failed => !ok
    case Undefined => false
  }

  class Tp2Json {
    /** output .. end. */
    const output: array<byte>
    var pos: nat
    /** The bits TYPE_MAP and TYPE_KEY of state. */
    var inMap: bool
    var inKey: bool
    var skiped: nat

    ghost predicate Valid()
      reads `pos
    {
      pos <= output.Length
    }

    /** What has been printed, and the state. */
    ghost function Now(): (p: Sheet)
      requires Valid()
      reads `pos, `inMap, `inKey, `skiped, output
      ensures |p.text| == pos
    {
      Sheet(output[..pos], inMap, inKey, skiped)
    }

    constructor (out: array<byte>)
      ensures Valid() && output == out && pos == 0 && !inMap && !inKey && skiped == 0
    {
      output := out;
      pos, inMap, inKey, skiped := 0, false, false, 0;
    }

    /** append_str at pos against the caller's copy of the remaining length. */
    method Append(len: nat, str: seq<byte>) returns (ok: bool, len': nat)
      requires Valid() && (|str| <= len ==> pos + |str| <= output.Length)
      modifies `pos, output
      ensures Valid()
      ensures ok <==> |str| <= len
      ensures Now() == old(Now()).(text := old(Now()).text + if ok then str else [])
      ensures len' == if ok then len - |str| else len
    {
      if len < |str| {
        assert Now().text + [] == Now().text;
        return false, len;
      }
      ghost var before := output[..];
      for k := 0 to |str|
        invariant pos == old(pos) && pos + |str| <= output.Length == |before|
        invariant output[..pos + k] == before[..pos] + str[..k]
      {
        output[pos + k] := str[k];
      }
      assert str[..|str|] == str;
      pos := pos + |str|;
      ok, len' := true, len - |str|;
    }

    /** snprintf(pos, len, str), and pos moved over the whole text, even if its last character was cut. */
    method PrintText(len: nat, str: seq<byte>)
      requires Valid() && 0 < |str| <= len == output.Length - pos
      modifies `pos, output
      ensures Valid() && Agree(Printing.Snprintf(output.Length, 0, old(Now()), str), true, 0, Now())
    {
      var kept := if |str| < len then str else str[..|str| - 1];
      ghost var before := Now().text;
      for k := 0 to |kept|
        invariant pos == old(pos) && pos + |kept| < output.Length
        invariant output[..pos + k] == before + kept[..k]
      {
        output[pos + k] := kept[k];
      }
      assert kept[..|kept|] == kept;
      output[pos + |kept|] := 0;
      assert output[..pos + |kept|] == before + kept;
      assert output[..pos + |kept| + 1] == before + kept + [0];
      pos := pos + |str|;
    }

    /** json_encode_string at pos, which it moves itself. */
    method EncodeString(len: nat, str: seq<byte>) returns (ok: bool)
      requires Valid() && len == output.Length - pos
      modifies `pos, output
      ensures Valid()
      ensures ok <==> |Quoted(str, false)| <= len
      ensures ok ==> Now() == old(Now()).(text := old(Now()).text + Quoted(str, false))
    {
      ok, pos := JsonEncodeString(output, pos, len, str, false);
      assert ok ==> output[..pos] == old(output[..])[..old(pos)] + Quoted(str, false);
    }

    /**
     tp2json_transcode_internal: for every input, every buffer and every skip
     count that C defines, it answers and leaves what PrintAt says.
     */
    method TranscodeInternal(input: seq<byte>, beg: nat) returns (ok: bool, beg': nat)
      requires Valid() && beg <= |input| && PrintAt(output.Length, input, beg, Now()) != Undefined
      modifies this, output
      ensures Valid() && Agree(PrintAt(output.Length, input, beg, old(Now())), ok, beg', Now())
      decreases |input| - beg, 0
    {
      hide ReadHead, PrintItemsAt, PrintEntriesAt, Quoted;
      ok, beg' := true, beg;
      var len := output.Length - pos;
      if beg == |input| {
        return;
      }
      if pos == output.Length {
        ok := false;
        return;
      }
      var (h, j) := ReadHead(input, beg).value;
      beg' := j;
      match h
      case HNil =>
        ok, len := Append(len, NULL_TEXT);
      case HBool(b) =>
        ok, len := Append(len, if b then TRUE_TEXT else FALSE_TEXT);
      case HUint(n) =>
        ok := PrintNumber(len, n);
      case HInt(i) =>
        ok := PrintNumber(len, i);
      case HStr(n) =>
        ok := EncodeString(len, input[j..j + n]);
        beg' := j + n;
      case HBin(n) =>
        ok := EncodeString(len, input[j..j + n]);
        beg' := j + n;
      case HArray(size) =>
        if skiped > 0 {
          skiped := skiped - 1;
          ok, beg' := TranscodeInternal(input, j);
        } else if len < (size + 2) % TWO_32 {
          ok := false;
        } else {
          ok, beg' := PrintArray(input, j, size, len);
        }
      case HMap(size) =>
        if len < (size + 2) % TWO_32 {
          ok := false;
        } else {
          ok, beg' := PrintMap(input, j, size, len);
        }
    }

    /** The branches for numbers. */
    method PrintNumber(len: nat, i: int) returns (ok: bool)
      requires Valid() && len == output.Length - pos && PutNumber(output.Length, 0, Now(), i) != Undefined
      modifies `pos, output
      ensures Valid() && Agree(PutNumber(output.Length, 0, old(Now()), i), ok, 0, Now())
    {
      hide IntegerText;
      if len < 20 {
        return false;
      }
      PrintText(len, IntegerText(i, inMap && inKey));
      ok := true;
    }

    /** The array branch: size elements follow at j. */
    method PrintArray(input: seq<byte>, j: nat, size: nat, len0: nat) returns (ok: bool, beg': nat)
      requires Valid() && j <= |input| && 0 < len0 == output.Length - pos
      requires var p := Now();
        PrintItemsAt(output.Length, input, j, size, true, p.(text := p.text + [LBRACKET]), len0 - 1) != Undefined
      modifies this, output
      ensures Valid()
      ensures var p := old(Now());
        Agree(PrintItemsAt(output.Length, input, j, size, true, p.(text := p.text + [LBRACKET]), len0 - 1),
          ok, beg', Now())
      decreases |input| - j, 1
    {
      hide PrintAt;
      ghost var cap, p := output.Length, Now();
      ghost var goal := PrintItemsAt(cap, input, j, size, true, p.(text := p.text + [LBRACKET]), len0 - 1);
      var len;
      ok, len := Append(len0, [LBRACKET]);
      beg' := j;
      var i := 0;
      while i < size
        invariant i <= size && Valid() && j <= beg' <= |input|
        invariant PrintItemsAt(cap, input, beg', size - i, i == 0, Now(), len) == goal
      {
        ghost var q := Now();
        if i > 0 {
          ok, len := Append(len, [COMMA]);
          if !ok {
            return;
          }
        } else {
          assert q.(text := q.text + []) == q;
        }
        ok, beg' := TranscodeInternal(input, beg');
        if !ok {
          return;
        }
        i := i + 1;
      }
      ok, len := Append(len, [RBRACKET]);
    }

    /** The key of an entry with the key bit on, and the colon. */
    method PrintKey(input: seq<byte>, beg: nat, first: bool, len0: nat) returns (ok: bool, beg': nat, len: nat)
      requires Valid() && beg <= |input| && PrintKeyAt(output.Length, input, beg, first, Now(), len0) != Undefined
      modifies this, output
      ensures Valid() && Agree(PrintKeyAt(output.Length, input, beg, first, old(Now()), len0), ok, beg', Now())
      ensures ok ==> len == len0 - |Separator(first)| - 1
      decreases |input| - beg, 1
    {
      hide PrintAt;
      ghost var q := Now();
      len := len0;
      beg' := beg;
      if !first {
        ok, len := Append(len, [COMMA]);
        if !ok {
          return;
        }
      } else {
        assert q.(text := q.text + []) == q;
      }
      inKey := true;
      ok, beg' := TranscodeInternal(input, beg);
      if !ok {
        return;
      }
      inKey := false;
      ok, len := Append(len, [COLON]);
    }

    /** The loop over the entries of a map, and its brace. */
    method PrintEntries(input: seq<byte>, j: nat, size: nat, len0: nat) returns (ok: bool, beg': nat)
      requires Valid() && j <= |input|
      requires PrintEntriesAt(output.Length, input, j, size, true, Now(), len0) != Undefined
      modifies this, output
      ensures Valid() && Agree(PrintEntriesAt(output.Length, input, j, size, true, old(Now()), len0), ok, beg', Now())
      decreases |input| - j, 2
    {
      hide PrintAt, PrintKeyAt;
      ghost var cap, goal := output.Length, PrintEntriesAt(output.Length, input, j, size, true, Now(), len0);
      beg' := j;
      var len, i := len0, 0;
      while i < size
        invariant i <= size && Valid() && j <= beg' <= |input|
        invariant PrintEntriesAt(cap, input, beg', size - i, i == 0, Now(), len) == goal
      {
        ok, beg', len := PrintKey(input, beg', i == 0, len);
        if !ok {
          return;
        }
        ok, beg' := TranscodeInternal(input, beg');
        if !ok {
          return;
        }
        i := i + 1;
      }
      ok, len := Append(len, [RBRACE]);
      inMap := false;
    }

    /** The map branch: size entries follow at j. */
    method PrintMap(input: seq<byte>, j: nat, size: nat, len0: nat) returns (ok: bool, beg': nat)
      requires Valid() && j <= |input| && 0 < len0 == output.Length - pos
      requires var p := Now();
        PrintEntriesAt(output.Length, input, j, size, true, p.(text := p.text + [LBRACE], inMap := true), len0 - 1)
          != Undefined
      modifies this, output
      ensures Valid()
      ensures var p := old(Now());
        var open := p.(text := p.text + [LBRACE], inMap := true);
        Agree(PrintEntriesAt(output.Length, input, j, size, true, open, len0 - 1), ok, beg', Now())
      decreases |input| - j, 3
    {
      hide PrintEntriesAt;
      inMap := true;
      var len;
      ok, len := Append(len0, [LBRACE]);
      ok, beg' := PrintEntries(input, j, size, len);
    }

    /**
     tp_reply2json_transcode for a reply without error: id sync, data bytes.
     On an error nothing counts as printed.
     */
    method TranscodeReply(sync: nat, data: seq<byte>, pureResult: bool, skipCount: nat) returns (ok: bool)
      requires Valid() && pos == 0 && !inMap && !inKey
      requires ReplyAt(output.Length, sync, data, pureResult, skipCount) != Undefined
      modifies this, output
      ensures Valid()
      ensures match ReplyAt(output.Length, sync, data, pureResult, skipCount)
              case Done(_, sheet) => ok && Now() == sheet
              case _ => !ok && pos == 0
    {
      hide PrintAt, ReplyHead;
      skiped := skipCount;
      assert Now().text == [];
      if !pureResult {
        PrintText(output.Length, ReplyHead(sync));
      }
      var next;
      ok, next := TranscodeInternal(data, 0);
      if !ok {
        pos := 0;
        return;
      }
      if !pureResult {
        ghost var text := Now().text;
        output[pos] := RBRACE;
        pos := pos + 1;
        assert Now().text == text + [RBRACE];
      }
    }
  }
}

/**
 The one-pass compiler with holes and a stack does what the plain recursive
 encoder does, and skips whatever is not id, method or params.
 */
module Simulation {
  import opened Bytes
  import opened MsgPack
  import opened Json
  import opened TpBuffer
  import opened Machine

  /** s with the bytes of n more entries of the innermost container written. */
  function Wrote(s: State, kind: Kind, n: nat, bs: seq<byte>): State
    requires Ready(s.tp) && Fits(s.tp, |bs|)
  {
    if n == 0 then s else s.(tp := Append(s.tp, bs), stack := Grow(s.stack, kind, n))
  }

  /** That, or the report that the bytes do not fit. */
  function Writing(s: State, kind: Kind, n: nat, bs: seq<byte>): Outcome
    requires Ready(s.tp)
  {
    if Fits(s.tp, |bs|) then Ok(Wrote(s, kind, n, bs)) else Refused(OutputOverflow)
  }

  /** A frame is under way, and containers nested to the given depth stay below the stack limit. */
  predicate Deep(s: State, depth: nat) {
    Ready(s.tp) && |s.stack| + depth <= STACK_LIMIT
  }

  lemma WroteTwice(s: State, kind: Kind, n: nat, a: seq<byte>, b: seq<byte>)
    requires Ready(s.tp) && Fits(s.tp, |a| + |b|) && (n == 0 ==> b == [])
    ensures Wrote(Wrote(s, kind, 1, a), kind, n, b) == Wrote(s, kind, n + 1, a + b)
  {
    hide Append;
    if n == 0 {
      assert a + b == a;
    } else {
      AppendAppend(s.tp, a, b);
    }
  }

  /** Closing a container: its children are written, its header fills the hole. */
  lemma FillHole(t: Tp, head: seq<byte>, n: nat, children: seq<byte>)
    requires |head| == 5 && Ready(t) && Fits(t, 5 + |children|) && (n == 0 ==> children == [])
    ensures Patch(if n == 0 then Reserve(t) else Append(Reserve(t), children), t.p, head) == Append(t, head + children)
  {
    hide Append, Reserve, Patch;
    if n == 0 {
      PatchEmpty(t, head);
      assert head + children == head;
    } else {
      PatchReserved(t, head, children);
    }
  }

  function OpenEvent(kind: Kind): Event {
    if kind == ArrayItem then EStartArray else EStartMap
  }

  function CloseEvent(kind: Kind): Event {
    if kind == ArrayItem then EEndArray else EEndMap
  }

  function WideHead(kind: Kind, n: nat): (r: seq<byte>)
    ensures |r| == 5
  {
    if kind == ArrayItem then WideArrayHead(n) else WideMapHead(n)
  }

  /** A container begun inside params: a hole at p, an item on the stack. */
  function Opened(s: State, kind: Kind): (r: State)
    requires Ready(s.tp) && Fits(s.tp, 5)
    ensures Ready(r.tp) && r.tp.p == s.tp.p + 5 && |r.tp.mem| == |s.tp.mem|
  {
    s.(tp := Reserve(s.tp), stack := Grow(s.stack, ArrayItem) + [Item(s.tp.p, 0, kind)])
  }

  lemma StepOpen(c: Conf, s: State, kind: Kind)
    requires s.stage == PARAMS && 2 <= |s.stack| < STACK_LIMIT && Ready(s.tp)
    ensures Step(c, s, OpenEvent(kind)) == if Fits(s.tp, 5) then Ok(Opened(s, kind)) else Refused(OutputOverflow)
  {
    hide Reserve;
  }

  /** The container when all its children are written, and what popping it leaves. */
  lemma FullContainer(s: State, kind: Kind, n: nat, children: seq<byte>)
    requires Ready(s.tp) && Fits(s.tp, 5 + |children|) && (n == 0 ==> children == [])
    ensures var full := Wrote(Opened(s, kind), kind, n, children);
      var tp := if n == 0 then Reserve(s.tp) else Append(Reserve(s.tp), children);
      full.stage == s.stage && full.tp == tp
      && Pop(full) == (s.(tp := tp, stack := Grow(s.stack, ArrayItem)), Some(Item(s.tp.p, n, kind)))
  {
    hide Append, Reserve;
    var full := Wrote(Opened(s, kind), kind, n, children);
    assert full.stack == Grow(s.stack, ArrayItem) + [Item(s.tp.p, n, kind)];
    assert full.stack[..|full.stack| - 1] == Grow(s.stack, ArrayItem);
  }

  lemma StepClose(c: Conf, s: State, kind: Kind, n: nat, children: seq<byte>)
    requires s.stage == PARAMS && |s.stack| >= 2 && Ready(s.tp) && Fits(s.tp, 5 + |children|)
    requires n == 0 ==> children == []
    ensures Step(c, Wrote(Opened(s, kind), kind, n, children), CloseEvent(kind))
         == Ok(Wrote(s, ArrayItem, 1, WideHead(kind, n) + children))
  {
    hide Append, Reserve, Patch, WideArrayHead, WideMapHead, Pop, Grow, Opened;
    FullContainer(s, kind, n, children);
    FillHole(s.tp, WideHead(kind, n), n, children);
    assert Wrote(s, ArrayItem, 1, WideHead(kind, n) + children)
        == s.(tp := Append(s.tp, WideHead(kind, n) + children), stack := Grow(s.stack, ArrayItem));
    hide Wrote;
  }

  /** A container whose entries the run encodes is encoded by the run. */
  lemma RunContainer(c: Conf, s: State, kind: Kind, es: seq<Event>, n: nat, children: seq<byte>)
    requires s.stage == PARAMS && 2 <= |s.stack| < STACK_LIMIT && Ready(s.tp)
    requires n == 0 ==> children == []
    requires Fits(s.tp, 5) ==> Run(c, Opened(s, kind), es) == Writing(Opened(s, kind), kind, n, children)
    ensures Run(c, s, [OpenEvent(kind)] + es + [CloseEvent(kind)])
         == Writing(s, ArrayItem, 1, WideHead(kind, n) + children)
  {
    hide Step, Opened, Wrote, WideHead;
    RunBracketed(c, s, OpenEvent(kind), es, CloseEvent(kind));
    StepOpen(c, s, kind);
    if Fits(s.tp, 5 + |children|) {
      RunOne(c, Wrote(Opened(s, kind), kind, n, children), CloseEvent(kind));
      StepClose(c, s, kind, n, children);
    }
  }

  predicate IsScalar(j: Json) {
    !j.JArr? && !j.JObj?
  }

  /**
   A value inside the params array, in a buffer of any size: the run leaves
   exactly its encoding, and one more entry counted, or reports that the
   encoding does not fit.
   */
  lemma {:induction false} RunValue(c: Conf, s: State, j: Json)
    requires s.stage == PARAMS && (|s.stack| >= 2 || IsScalar(j)) && Deep(s, Depth(j))
    ensures Run(c, s, Events(j)) == Writing(s, ArrayItem, 1, Enc(j))
    decreases j, 0
  {
    hide Append;
    match j
    case JNull => RunOne(c, s, ENull);
    case JBool(b) => RunOne(c, s, EBool(b));
    case JInt(i) => RunOne(c, s, EInt(i));
    case JStr(str) => RunOne(c, s, EStr(str));
    case JArr(items) =>
      if Fits(s.tp, 5) {
        RunItems(c, Opened(s, ArrayItem), items);
      }
      RunContainer(c, s, ArrayItem, ItemEvents(items), |items|, EncItems(items));
    case JObj(ms) =>
      if Fits(s.tp, 5) {
        RunMembers(c, Opened(s, MapItem), ms);
      }
      RunContainer(c, s, MapItem, MemberEvents(ms), |ms|, EncMembers(ms));
  }

  /** The elements of the array on top of the stack. */
  lemma {:induction false} RunItems(c: Conf, s: State, items: seq<Json>)
    requires s.stage == PARAMS && |s.stack| >= 2 && Deep(s, ItemsDepth(items))
    ensures Run(c, s, ItemEvents(items)) == Writing(s, ArrayItem, |items|, EncItems(items))
    decreases items, 1
  {
    hide Append, Step, Grow, Enc;
    if items != [] {
      RunConcat(c, s, Events(items[0]), ItemEvents(items[1..]));
      RunValue(c, s, items[0]);
      if Fits(s.tp, |Enc(items[0])|) {
        RunItems(c, Wrote(s, ArrayItem, 1, Enc(items[0])), items[1..]);
      }
      if Fits(s.tp, |EncItems(items)|) {
        WroteTwice(s, ArrayItem, |items| - 1, Enc(items[0]), EncItems(items[1..]));
      }
    }
  }

  lemma RunKey(c: Conf, s: State, key: seq<byte>)
    requires s.stage == PARAMS && Ready(s.tp)
    ensures Run(c, s, [EKey(key)]) == Writing(s, MapItem, 1, EncStr(key))
  {
    hide Append;
    RunOne(c, s, EKey(key));
  }

  predicate TopIsMap(s: State) {
    s.stack != [] && s.stack[|s.stack| - 1].kind == MapItem
  }

  /** One member of a map: key and value are written, one entry is counted. */
  lemma RunMember(c: Conf, s: State, m: Member)
    requires s.stage == PARAMS && TopIsMap(s) && Deep(s, Depth(m.value))
    requires Fits(s.tp, |EncStr(m.key)|) ==>
      var s1 := Wrote(s, MapItem, 1, EncStr(m.key));
      Run(c, s1, Events(m.value)) == Writing(s1, ArrayItem, 1, Enc(m.value))
    ensures Run(c, s, [EKey(m.key)] + Events(m.value)) == Writing(s, MapItem, 1, EncStr(m.key) + Enc(m.value))
    ensures Fits(s.tp, |EncStr(m.key) + Enc(m.value)|) ==> TopIsMap(Wrote(s, MapItem, 1, EncStr(m.key) + Enc(m.value)))
  {
    hide Append, EncStr, Enc;
    RunConcat(c, s, [EKey(m.key)], Events(m.value));
    RunKey(c, s, m.key);
    if Fits(s.tp, |EncStr(m.key) + Enc(m.value)|) {
      AppendAppend(s.tp, EncStr(m.key), Enc(m.value));
    }
  }

  /** The members of the map on top of the stack: its keys are counted, its values are not. */
  lemma {:induction false} RunMembers(c: Conf, s: State, ms: seq<Member>)
    requires s.stage == PARAMS && TopIsMap(s) && Deep(s, MembersDepth(ms))
    requires |s.stack| >= 2 || forall m <- ms :: IsScalar(m.value)
    ensures Run(c, s, MemberEvents(ms)) == Writing(s, MapItem, |ms|, EncMembers(ms))
    decreases ms, 1
  {
    hide Append, EncStr, Enc, Step, Grow;
    if ms != [] {
      var key, head := EncStr(ms[0].key), EncStr(ms[0].key) + Enc(ms[0].value);
      RunConcat(c, s, [EKey(ms[0].key)] + Events(ms[0].value), MemberEvents(ms[1..]));
      if Fits(s.tp, |key|) {
        RunValue(c, Wrote(s, MapItem, 1, key), ms[0].value);
      }
      RunMember(c, s, ms[0]);
      if Fits(s.tp, |head|) {
        RunMembers(c, Wrote(s, MapItem, 1, head), ms[1..]);
      }
      if Fits(s.tp, |EncMembers(ms)|) {
        WroteTwice(s, MapItem, |ms| - 1, head, EncMembers(ms[1..]));
      }
    }
  }
}

/**
 Values outside params. The names of fields are looked for at any depth, so a
 value that should be passed over can act as fields of the call.
 */
module Nested {
  import opened Bytes
  import opened MsgPack
  import opened Json
  import opened TpBuffer
  import opened Machine
  import opened Simulation

  predicate IsParams(m: Member) { m.key == KEY_PARAMS }

  predicate IsId(m: Member) { m.key == KEY_ID }

  predicate IsMethod(c: Conf, m: Member) { c.preset == [] && m.key == KEY_METHOD }

  predicate Reserved(c: Conf, key: seq<byte>) {
    key == KEY_PARAMS || key == KEY_ID || (c.preset == [] && key == KEY_METHOD)
  }

  /** An id or a method of the right type. */
  predicate IsFound(c: Conf, m: Member) {
    (IsId(m) && m.value.JInt?) || (IsMethod(c, m) && m.value.JStr?)
  }

  /** The stage a value leaves, and the fields of the call found in it on the way. PARAMS: params was found. */
  datatype Scanned = Scanned(stage: Stage, found: seq<Member>)

  /** The stage behind a key outside params. */
  function KeyStage(c: Conf, stage: Stage, key: seq<byte>): Stage {
    if stage == PARAMS then PARAMS
    else if stage != WAIT_NEXT then WAIT_NEXT
    else if key == KEY_PARAMS then PARAMS
    else if key == KEY_ID then ID
    else if c.preset == [] && key == KEY_METHOD then METHOD
    else WAIT_NEXT
  }

  function Scan(c: Conf, stage: Stage, j: Json): (r: Scanned)
    ensures stage == PARAMS ==> r == Scanned(PARAMS, [])
    ensures forall m <- r.found :: IsFound(c, m)
    ensures stage != INIT ==> r.stage != INIT
    decreases j, 0
  {
    match j
    case JInt(_) => if stage == ID then Scanned(WAIT_NEXT, [Member(KEY_ID, j)]) else Scanned(stage, [])
    case JStr(_) =>
      if stage == PARAMS then Scanned(PARAMS, [])
      else Scanned(WAIT_NEXT, if stage == METHOD && c.preset == [] then [Member(KEY_METHOD, j)] else [])
    case JArr(items) => ScanItems(c, stage, items)
    case JObj(ms) => ScanMembers(c, stage, ms)
    case _ => Scanned(stage, [])
  }

  function ScanItems(c: Conf, stage: Stage, items: seq<Json>): (r: Scanned)
    ensures stage == PARAMS ==> r == Scanned(PARAMS, [])
    ensures forall m <- r.found :: IsFound(c, m)
    ensures stage != INIT ==> r.stage != INIT
    decreases items, 1
  {
    if items == [] then Scanned(stage, [])
    else
      var first := Scan(c, stage, items[0]);
      var rest := ScanItems(c, first.stage, items[1..]);
      Scanned(rest.stage, first.found + rest.found)
  }

  function ScanMembers(c: Conf, stage: Stage, ms: seq<Member>): (r: Scanned)
    ensures stage == PARAMS ==> r == Scanned(PARAMS, [])
    ensures forall m <- r.found :: IsFound(c, m)
    ensures stage != INIT ==> r.stage != INIT
    decreases ms, 1
  {
    if ms == [] then Scanned(stage, [])
    else
      var first := Scan(c, KeyStage(c, stage, ms[0].key), ms[0].value);
      var rest := ScanMembers(c, first.stage, ms[1..]);
      Scanned(rest.stage, first.found + rest.found)
  }

  /** Nothing in j is taken for a field of the call. */
  predicate Harmless(c: Conf, j: Json) {
    Scan(c, WAIT_NEXT, j) == Scanned(WAIT_NEXT, [])
  }

  // ------------------------------------------ a value acts as its fields

  /** s after n more containers were opened and closed inside its innermost one. */
  function Passed(s: State, n: nat): State {
    if n == 0 then s else s.(stack := Grow(s.stack, ArrayItem, n))
  }

  function Containers(items: seq<Json>): nat {
    if items == [] then 0 else (if items[0].JArr? || items[0].JObj? then 1 else 0) + Containers(items[1..])
  }

  lemma PassedTwice(s: State, m: nat, n: nat)
    ensures Passed(Passed(s, m), n) == Passed(s, m + n)
  {
  }

  /** The outcome of a value whose fields have outcome o. */
  function Leaves(o: Outcome, stage: Stage, n: nat): Outcome {
    if o.Ok? then Ok(Passed(o.state, n).(stage := stage)) else o
  }

  function Restack(o: Outcome, stack: seq<Item>): Outcome {
    if o.Ok? then Ok(o.state.(stack := stack)) else o
  }

  lemma FoundEvents(c: Conf, fs: seq<Member>)
    requires fs != [] && IsFound(c, fs[0])
    ensures MemberEvents(fs) == [EKey(fs[0].key), if IsId(fs[0]) then EInt(fs[0].value.i) else EStr(fs[0].value.s)]
                                + MemberEvents(fs[1..])
  {
  }

  /** The outcome of one field. */
  function Found(c: Conf, s: State, m: Member): Outcome
    requires IsFound(c, m)
  {
    if IsId(m) then Integer(s.(stage := ID), m.value.i) else String(c, s.(stage := METHOD), m.value.s)
  }

  lemma RunFound(c: Conf, s: State, fs: seq<Member>)
    requires s.stage == WAIT_NEXT && fs != [] && IsFound(c, fs[0])
    ensures Run(c, s, MemberEvents(fs)) == Then(c, Found(c, s, fs[0]), MemberEvents(fs[1..]))
  {
    hide Append, EncStr, Reqid, MemberEvents;
    FoundEvents(c, fs);
    var two := MemberEvents(fs)[..2];
    assert MemberEvents(fs) == two + MemberEvents(fs[1..]);
    RunConcat(c, s, two, MemberEvents(fs[1..]));
    assert two[1..] == [two[1]];
    var key := s.(stage := if IsId(fs[0]) then ID else METHOD);
    assert Step(c, s, two[0]) == Ok(key);
    RunStep(c, s, two, key);
    RunOne(c, key, two[1]);
  }

  /** Fields do not look at the stack. */
  lemma {:induction false} FieldsRestack(c: Conf, s: State, fs: seq<Member>, stack: seq<Item>)
    requires s.stage == WAIT_NEXT && (forall m <- fs :: IsFound(c, m))
    ensures Run(c, s.(stack := stack), MemberEvents(fs)) == Restack(Run(c, s, MemberEvents(fs)), stack)
    ensures var o := Run(c, s, MemberEvents(fs)); o.Ok? ==> o.state.stage == WAIT_NEXT && o.state.stack == s.stack
    decreases fs
  {
    hide Append, EncStr, Reqid, Run;
    if fs == [] {
      RunNone(c, s);
      RunNone(c, s.(stack := stack));
    } else {
      RunFound(c, s, fs);
      RunFound(c, s.(stack := stack), fs);
      var o := Found(c, s, fs[0]);
      if o.Ok? {
        FieldsRestack(c, o.state, fs[1..], stack);
      }
    }
  }

  /** Outside params and inside a frame. */
  predicate Outside(s: State) {
    s.stage != INIT && s.stage != PARAMS && |s.stack| >= 1
  }

  /** The outcome of the fields found, from the stage that waits for one. */
  function Acts(c: Conf, s: State, r: Scanned, n: nat): Outcome {
    Leaves(Run(c, s.(stage := WAIT_NEXT), MemberEvents(r.found)), r.stage, n)
  }

  lemma {:induction false} MemberEventsConcat(a: seq<Member>, b: seq<Member>)
    ensures MemberEvents(a + b) == MemberEvents(a) + MemberEvents(b)
  {
    if a == [] {
      assert a + b == b;
    } else {
      assert (a + b)[0] == a[0] && (a + b)[1..] == a[1..] + b;
      MemberEventsConcat(a[1..], b);
    }
  }

  lemma RunScalar(c: Conf, s: State, e: Event)
    requires Outside(s) && (e.ENull? || e.EBool? || e.EInt? || e.EStr?)
    ensures var j :=
              if e.ENull? then JNull else if e.EBool? then JBool(e.b) else if e.EInt? then JInt(e.i) else JStr(e.s);
            Run(c, s, [e]) == Acts(c, s, Scan(c, s.stage, j), 0)
  {
    hide Append, EncStr, Reqid;
    RunOne(c, s, e);
    RunNone(c, s.(stage := WAIT_NEXT));
    var t := s.(stage := WAIT_NEXT);
    if s.stage == ID && e.EInt? {
      RunFound(c, t, [Member(KEY_ID, JInt(e.i))]);
    } else if s.stage == METHOD && c.preset == [] && e.EStr? {
      RunFound(c, t, [Member(KEY_METHOD, JStr(e.s))]);
    }
  }

  /** First a's fields, then b's. */
  lemma ActsTwice(c: Conf, s: State, a: Scanned, m: nat, b: Scanned, n: nat)
    requires (forall f <- a.found :: IsFound(c, f)) && (forall f <- b.found :: IsFound(c, f))
    ensures var o := Acts(c, s, a, m);
            Acts(c, s, Scanned(b.stage, a.found + b.found), m + n) == if o.Ok? then Acts(c, o.state, b, n) else o
  {
    hide Run, Step, IsFound, MemberEvents, Grow;
    var t := s.(stage := WAIT_NEXT);
    MemberEventsConcat(a.found, b.found);
    RunConcat(c, t, MemberEvents(a.found), MemberEvents(b.found));
    FieldsRestack(c, t, a.found, []);
    var o := Run(c, t, MemberEvents(a.found));
    if o.Ok? {
      var t1 := o.state;
      FieldsRestack(c, t1, b.found, Passed(t1, m).stack);
      FieldsRestack(c, t1, b.found, []);
      assert Passed(t1, m) == t1.(stack := Passed(t1, m).stack);
      var o1 := Run(c, t1, MemberEvents(b.found));
      if o1.Ok? {
        PassedTwice(o1.state, m, n);
      }
    }
  }

  /** The state inside a container opened outside params. */
  function Inside(s: State, kind: Kind): State {
    s.(stack := Grow(s.stack, ArrayItem) + [Item(s.tp.p, 0, kind)])
  }

  /** t took the place of s inside a container of it, and n entries of that were counted: the container closes. */
  lemma CloseOutside(c: Conf, s: State, t: State, kind: Kind, stage: Stage, n: nat)
    requires |s.stack| >= 1 && stage != PARAMS && t.stack == Inside(s, kind).stack
    ensures Run(c, Passed(t, n).(stage := stage), [CloseEvent(kind)])
         == Ok(t.(stack := Passed(s, 1).stack, stage := stage))
  {
    var full := Passed(t, n).(stage := stage);
    assert full.stack[..|full.stack| - 1] == Grow(s.stack, ArrayItem);
    RunOne(c, full, CloseEvent(kind));
  }

  /** An array or map outside params is pushed and popped, nothing else. */
  lemma RunContainerOutside(c: Conf, s: State, kind: Kind, es: seq<Event>, r: Scanned, n: nat)
    requires Outside(s) && |s.stack| < STACK_LIMIT && r.stage != PARAMS && r.stage != INIT
    requires forall f <- r.found :: IsFound(c, f)
    requires Run(c, Inside(s, kind), es) == Acts(c, Inside(s, kind), r, n)
    ensures Run(c, s, [OpenEvent(kind)] + es + [CloseEvent(kind)]) == Acts(c, s, r, 1)
  {
    hide Run, IsFound, MemberEvents, Grow;
    RunBracketed(c, s, OpenEvent(kind), es, CloseEvent(kind));
    var open := Inside(s, kind);
    assert Step(c, s, OpenEvent(kind)) == Ok(open);
    hide Step;
    FieldsRestack(c, s.(stage := WAIT_NEXT), r.found, open.stack);
    FieldsRestack(c, s.(stage := WAIT_NEXT), r.found, s.stack);
    var o := Run(c, s.(stage := WAIT_NEXT), MemberEvents(r.found));
    if o.Ok? {
      CloseOutside(c, s, o.state.(stack := open.stack), kind, r.stage, n);
    }
  }

  /**
   Outside params a value of any nesting acts as the fields found in it, unless
   params is one of them: it writes, refuses and ends as they do, and otherwise
   only counts itself in the array it sits in.
   */
  lemma {:induction false} RunOutside(c: Conf, s: State, j: Json)
    requires Outside(s) && |s.stack| + Depth(j) <= STACK_LIMIT
    requires Scan(c, s.stage, j).stage != PARAMS
    ensures Run(c, s, Events(j)) == Acts(c, s, Scan(c, s.stage, j), Containers([j]))
    decreases j, 0
  {
    hide Run, Acts;
    assert [j][1..] == [];
    match j
    case JNull => RunScalar(c, s, ENull);
    case JBool(b) => RunScalar(c, s, EBool(b));
    case JInt(i) => RunScalar(c, s, EInt(i));
    case JStr(str) => RunScalar(c, s, EStr(str));
    case JArr(items) =>
      RunItemsOutside(c, Inside(s, ArrayItem), items);
      RunContainerOutside(c, s, ArrayItem, ItemEvents(items), ScanItems(c, s.stage, items), Containers(items));
    case JObj(ms) =>
      RunMembersOutside(c, Inside(s, MapItem), ms);
      RunContainerOutside(c, s, MapItem, MemberEvents(ms), ScanMembers(c, s.stage, ms), 0);
  }

  /** What Acts leaves, as far as the next value needs it. */
  lemma AfterActs(c: Conf, s: State, r: Scanned, n: nat)
    requires forall f <- r.found :: IsFound(c, f)
    ensures var o := Acts(c, s, r, n);
      o.Ok? ==> o.state.stage == r.stage && o.state.stack == Passed(s, n).stack
  {
    hide Run, IsFound, MemberEvents;
    FieldsRestack(c, s.(stage := WAIT_NEXT), r.found, s.stack);
  }

  lemma {:induction false} RunItemsOutside(c: Conf, s: State, items: seq<Json>)
    requires Outside(s) && |s.stack| + ItemsDepth(items) <= STACK_LIMIT
    requires ScanItems(c, s.stage, items).stage != PARAMS
    ensures Run(c, s, ItemEvents(items)) == Acts(c, s, ScanItems(c, s.stage, items), Containers(items))
    decreases items, 1
  {
    hide Acts, Step, IsFound;
    if items == [] {
      RunNone(c, s);
      NothingFound(c, s);
    } else {
      var first, n := Scan(c, s.stage, items[0]), Containers([items[0]]);
      var rest := ScanItems(c, first.stage, items[1..]);
      RunConcat(c, s, Events(items[0]), ItemEvents(items[1..]));
      RunOutside(c, s, items[0]);
      AfterActs(c, s, first, n);
      ActsTwice(c, s, first, n, rest, Containers(items[1..]));
      assert [items[0]][1..] == [];
      var o := Acts(c, s, first, n);
      if o.Ok? {
        RunItemsOutside(c, o.state, items[1..]);
      }
    }
  }

  lemma NothingFound(c: Conf, s: State)
    ensures Acts(c, s, Scanned(s.stage, []), 0) == Ok(s)
  {
    RunNone(c, s.(stage := WAIT_NEXT));
  }

  /** A key only moves the stage. */
  lemma KeyOutside(c: Conf, s: State, key: seq<byte>, es: seq<Event>)
    requires Outside(s) && KeyStage(c, s.stage, key) != PARAMS
    ensures Run(c, s, [EKey(key)] + es) == Run(c, s.(stage := KeyStage(c, s.stage, key)), es)
  {
    hide Run;
    RunConcat(c, s, [EKey(key)], es);
    RunOne(c, s, EKey(key));
  }

  /** Maps do not count the containers in them. */
  lemma ActsInMap(c: Conf, s: State, r: Scanned, n: nat)
    requires |s.stack| >= 1 && s.stack[|s.stack| - 1].kind == MapItem && (forall f <- r.found :: IsFound(c, f))
    ensures Acts(c, s, r, n) == Acts(c, s, r, 0)
  {
    hide Run, IsFound, MemberEvents;
    FieldsRestack(c, s.(stage := WAIT_NEXT), r.found, s.stack);
  }

  lemma {:induction false} RunMembersOutside(c: Conf, s: State, ms: seq<Member>)
    requires Outside(s) && |s.stack| + MembersDepth(ms) <= STACK_LIMIT
    requires s.stack[|s.stack| - 1].kind == MapItem && ScanMembers(c, s.stage, ms).stage != PARAMS
    ensures Run(c, s, MemberEvents(ms)) == Acts(c, s, ScanMembers(c, s.stage, ms), 0)
    decreases ms, 1
  {
    hide Acts, Step, IsFound, KeyStage;
    if ms == [] {
      RunNone(c, s);
      NothingFound(c, s);
    } else {
      var stage := KeyStage(c, s.stage, ms[0].key);
      var first, n := Scan(c, stage, ms[0].value), Containers([ms[0].value]);
      var rest := ScanMembers(c, first.stage, ms[1..]);
      RunConcat(c, s, [EKey(ms[0].key)] + Events(ms[0].value), MemberEvents(ms[1..]));
      KeyNotInit(c, s, ms[0].key);
      KeyOutside(c, s, ms[0].key, Events(ms[0].value));
      var t := s.(stage := stage);
      RunOutside(c, t, ms[0].value);
      ActsInMap(c, t, first, n);
      AfterActs(c, t, first, 0);
      SameActs(c, s, stage, first);
      SameActs(c, s, stage, Scanned(rest.stage, first.found + rest.found));
      ActsTwice(c, s, first, 0, rest, 0);
      var o := Acts(c, s, first, 0);
      if o.Ok? {
        RunMembersOutside(c, o.state, ms[1..]);
      }
    }
  }

  lemma KeyNotInit(c: Conf, s: State, key: seq<byte>)
    requires Outside(s)
    ensures KeyStage(c, s.stage, key) != INIT
  {
  }

  lemma SameActs(c: Conf, s: State, stage: Stage, r: Scanned)
    ensures Acts(c, s.(stage := stage), r, 0) == Acts(c, s, r, 0)
  {
  }

  // ---------------------------------------------- params inside a value

  /** p never moves back, whatever events arrive. */
  ghost predicate MovesOn(s: State, o: Outcome) {
    o.Ok? ==> o.state.tp.p >= s.tp.p
  }

  lemma EncodeMovesOn(s: State, bs: seq<byte>)
    ensures MovesOn(s, Encode(s, bs)) && MovesOn(s, EncodeUnchecked(s, bs))
  {
    hide Append;
  }

  lemma MapKeyMovesOn(c: Conf, s: State, key: seq<byte>)
    ensures MovesOn(s, MapKey(c, s, key))
  {
    hide Encode, EncStr, FrameAt, Grow;
    var begun := if Fits(s.tp, 15) then s.(tp := CallWof(s.tp)) else s;
    EncodeMovesOn(begun, [FUNCTION] + EncStr(c.preset));
    var o := if s.stage == INIT then StartMessage(c, s) else Ok(s);
    if o.Ok? {
      EncodeMovesOn(o.state.(stack := Grow(o.state.stack, MapItem)), EncStr(key));
      EncodeMovesOn(o.state, [TUPLE]);
    }
  }

  lemma EndMapMovesOn(c: Conf, s: State)
    ensures MovesOn(s, EndMap(c, s))
  {
    hide Encode, EncodeUnchecked, WideMapHead, ArrayHead;
    var t := Pop(s).0;
    EncodeMovesOn(t, [TUPLE]);
    var o := Encode(t, [TUPLE]);
    if o.Ok? {
      EncodeMovesOn(o.state, ArrayHead(0));
      EncodeMovesOn(o.state, ArrayHead(1));
      var o1 := EncodeUnchecked(o.state, ArrayHead(1));
      if o1.Ok? { EncodeMovesOn(o1.state, c.data); }
    }
  }

  lemma StepMovesOn(c: Conf, s: State, e: Event)
    ensures MovesOn(s, Step(c, s, e))
  {
    hide Append, EncStr, EncInt64, EncBool, WideArrayHead, MapKey, EndMap, Grow;
    match e
    case EKey(key) => MapKeyMovesOn(c, s, key);
    case EEndMap => EndMapMovesOn(c, s);
    case _ =>
  }

  lemma {:induction false} RunMovesOn(c: Conf, s: State, es: seq<Event>)
    ensures MovesOn(s, Run(c, s, es))
    decreases es
  {
    hide Step;
    if es != [] {
      StepMovesOn(c, s, es[0]);
      if Step(c, s, es[0]).Ok? {
        RunMovesOn(c, Step(c, s, es[0]).state, es[1..]);
      }
    }
  }

  /** Two or more containers deep, a value in params leaves the machine in params, with the same containers open. */
  ghost predicate StaysIn(s: State, o: Outcome) {
    o.Ok? ==> o.state.stage == PARAMS && |o.state.stack| == |s.stack|
  }

  lemma OpenInParams(c: Conf, s: State, kind: Kind)
    requires s.stage == PARAMS
    ensures var o := Step(c, s, OpenEvent(kind));
      o.Ok? ==> o.state.stage == PARAMS && |o.state.stack| == |s.stack| + 1
  {
    hide Append, Reserve, Grow;
  }

  lemma CloseInParams(c: Conf, s: State, kind: Kind)
    requires s.stage == PARAMS && |s.stack| >= 2
    ensures var o := Step(c, s, CloseEvent(kind));
      && (o.Ok? ==> o.state.tp.p == s.tp.p)
      && (o.Ok? && |s.stack| >= 3 ==> o.state.stage == PARAMS && |o.state.stack| == |s.stack| - 1)
      && (kind == MapItem && |s.stack| == 2 ==> !o.Ok?)
  {
    hide Patch, WideArrayHead, WideMapHead;
  }

  lemma RunContainerInParams(c: Conf, s: State, kind: Kind, es: seq<Event>)
    requires s.stage == PARAMS && |s.stack| >= 2
    requires var o := Step(c, s, OpenEvent(kind)); o.Ok? ==> StaysIn(o.state, Run(c, o.state, es))
    ensures StaysIn(s, Run(c, s, [OpenEvent(kind)] + es + [CloseEvent(kind)]))
  {
    hide Run, Step;
    RunBracketed(c, s, OpenEvent(kind), es, CloseEvent(kind));
    OpenInParams(c, s, kind);
    var o := Then(c, Step(c, s, OpenEvent(kind)), es);
    if o.Ok? {
      CloseInParams(c, o.state, kind);
      RunOne(c, o.state, CloseEvent(kind));
    }
  }

  lemma {:induction false} RunInParams(c: Conf, s: State, j: Json)
    requires s.stage == PARAMS && |s.stack| >= 2
    ensures StaysIn(s, Run(c, s, Events(j)))
    decreases j, 0
  {
    hide Run, Append, EncStr, EncInt64, EncBool, Reserve, Patch;
    match j
    case JNull => RunOne(c, s, ENull);
    case JBool(b) => RunOne(c, s, EBool(b));
    case JInt(i) => RunOne(c, s, EInt(i));
    case JStr(str) => RunOne(c, s, EStr(str));
    case JArr(items) =>
      OpenInParams(c, s, ArrayItem);
      if Step(c, s, EStartArray).Ok? { RunItemsInParams(c, Step(c, s, EStartArray).state, items); }
      RunContainerInParams(c, s, ArrayItem, ItemEvents(items));
    case JObj(ms) =>
      OpenInParams(c, s, MapItem);
      if Step(c, s, EStartMap).Ok? { RunMembersInParams(c, Step(c, s, EStartMap).state, ms); }
      RunContainerInParams(c, s, MapItem, MemberEvents(ms));
  }

  lemma {:induction false} RunItemsInParams(c: Conf, s: State, items: seq<Json>)
    requires s.stage == PARAMS && |s.stack| >= 2
    ensures StaysIn(s, Run(c, s, ItemEvents(items)))
    decreases items, 1
  {
    hide Step;
    if items != [] {
      RunConcat(c, s, Events(items[0]), ItemEvents(items[1..]));
      RunInParams(c, s, items[0]);
      var o := Run(c, s, Events(items[0]));
      if o.Ok? {
        RunItemsInParams(c, o.state, items[1..]);
      }
    }
  }

  lemma {:induction false} RunMembersInParams(c: Conf, s: State, ms: seq<Member>)
    requires s.stage == PARAMS && |s.stack| >= 2
    ensures StaysIn(s, Run(c, s, MemberEvents(ms)))
    decreases ms, 1
  {
    hide Append, EncStr;
    if ms != [] {
      RunConcat(c, s, [EKey(ms[0].key)] + Events(ms[0].value), MemberEvents(ms[1..]));
      RunConcat(c, s, [EKey(ms[0].key)], Events(ms[0].value));
      RunOne(c, s, EKey(ms[0].key));
      var o := Step(c, s, EKey(ms[0].key));
      if o.Ok? {
        RunInParams(c, o.state, ms[0].value);
        var o1 := Run(c, o.state, Events(ms[0].value));
        if o1.Ok? {
          RunMembersInParams(c, o1.state, ms[1..]);
        }
      }
    }
  }

  /** Where params is found, something is written; two or more containers deep the machine stays in params. */
  ghost predicate Entered(s: State, o: Outcome) {
    && (o.Ok? ==> o.state.tp.p > s.tp.p)
    && (|s.stack| >= 2 ==> StaysIn(s, o))
  }

  lemma ContainerFindsParams(c: Conf, s: State, kind: Kind, es: seq<Event>)
    requires Outside(s) && |s.stack| < STACK_LIMIT && Entered(Inside(s, kind), Run(c, Inside(s, kind), es))
    ensures var o := Run(c, s, [OpenEvent(kind)] + es + [CloseEvent(kind)]);
      Entered(s, o) && (kind == MapItem && |s.stack| == 1 ==> !o.Ok?)
  {
    hide Run, Grow;
    RunBracketed(c, s, OpenEvent(kind), es, CloseEvent(kind));
    assert Step(c, s, OpenEvent(kind)) == Ok(Inside(s, kind));
    hide Step;
    var o := Run(c, Inside(s, kind), es);
    if o.Ok? {
      CloseInParams(c, o.state, kind);
      RunOne(c, o.state, CloseEvent(kind));
    }
  }

  /** A value in which params is found. A map as the value of a field is then never passed. */
  lemma {:induction false} FindsParams(c: Conf, s: State, j: Json)
    requires Outside(s) && |s.stack| + Depth(j) <= STACK_LIMIT
    requires Scan(c, s.stage, j).stage == PARAMS
    ensures Entered(s, Run(c, s, Events(j)))
    ensures j.JObj? && |s.stack| == 1 ==> !Run(c, s, Events(j)).Ok?
    decreases j, 0
  {
    hide Run;
    match j
    case JArr(items) =>
      FindsParamsInItems(c, Inside(s, ArrayItem), items);
      ContainerFindsParams(c, s, ArrayItem, ItemEvents(items));
    case JObj(ms) =>
      FindsParamsInMembers(c, Inside(s, MapItem), ms);
      ContainerFindsParams(c, s, MapItem, MemberEvents(ms));
    case _ =>
  }

  lemma {:induction false} FindsParamsInItems(c: Conf, s: State, items: seq<Json>)
    requires Outside(s) && |s.stack| >= 2 && |s.stack| + ItemsDepth(items) <= STACK_LIMIT
    requires ScanItems(c, s.stage, items).stage == PARAMS
    ensures Entered(s, Run(c, s, ItemEvents(items)))
    decreases items, 1
  {
    hide Step, Acts;
    if items != [] {
      var first := Scan(c, s.stage, items[0]);
      RunConcat(c, s, Events(items[0]), ItemEvents(items[1..]));
      RunMovesOn(c, s, Events(items[0]));
      var o := Run(c, s, Events(items[0]));
      if first.stage == PARAMS {
        FindsParams(c, s, items[0]);
        if o.Ok? {
          RunItemsInParams(c, o.state, items[1..]);
          RunMovesOn(c, o.state, ItemEvents(items[1..]));
        }
      } else {
        RunOutside(c, s, items[0]);
        AfterActs(c, s, first, Containers([items[0]]));
        if o.Ok? {
          FindsParamsInItems(c, o.state, items[1..]);
        }
      }
    }
  }

  lemma ParamsKey(c: Conf, s: State, key: seq<byte>)
    requires Outside(s) && KeyStage(c, s.stage, key) == PARAMS
    ensures var o := Step(c, s, EKey(key));
      o.Ok? ==> o.state.stage == PARAMS && o.state.stack == s.stack && o.state.tp.p > s.tp.p
  {
  }

  lemma {:induction false} FindsParamsInMembers(c: Conf, s: State, ms: seq<Member>)
    requires Outside(s) && |s.stack| >= 2 && |s.stack| + MembersDepth(ms) <= STACK_LIMIT
    requires s.stack[|s.stack| - 1].kind == MapItem && ScanMembers(c, s.stage, ms).stage == PARAMS
    ensures Entered(s, Run(c, s, MemberEvents(ms)))
    decreases ms, 1
  {
    hide Step, Acts, KeyStage;
    if ms != [] {
      var es, stage := Events(ms[0].value), KeyStage(c, s.stage, ms[0].key);
      var first := Scan(c, stage, ms[0].value);
      RunConcat(c, s, [EKey(ms[0].key)] + es, MemberEvents(ms[1..]));
      var o := Run(c, s, [EKey(ms[0].key)] + es);
      KeyNotInit(c, s, ms[0].key);
      if stage == PARAMS {
        RunConcat(c, s, [EKey(ms[0].key)], es);
        RunOne(c, s, EKey(ms[0].key));
        ParamsKey(c, s, ms[0].key);
        var o1 := Step(c, s, EKey(ms[0].key));
        if o1.Ok? {
          RunInParams(c, o1.state, ms[0].value);
          RunMovesOn(c, o1.state, es);
        }
      } else {
        KeyOutside(c, s, ms[0].key, es);
        var t := s.(stage := stage);
        if first.stage == PARAMS {
          FindsParams(c, t, ms[0].value);
        } else {
          RunOutside(c, t, ms[0].value);
          AfterActs(c, t, first, Containers([ms[0].value]));
          RunMovesOn(c, t, es);
        }
      }
      if o.Ok? {
        RunMovesOn(c, o.state, MemberEvents(ms[1..]));
        if first.stage == PARAMS {
          RunMembersInParams(c, o.state, ms[1..]);
        } else {
          FindsParamsInMembers(c, o.state, ms[1..]);
        }
      }
    }
  }

  // -------------------------------------------------- exactly when it is passed over

  /** Fields leave a trace: an id is noted, a method is written. */
  lemma {:induction false} FieldsShow(c: Conf, s: State, fs: seq<Member>)
    requires s.stage == WAIT_NEXT && (forall m <- fs :: IsFound(c, m))
    ensures var o := Run(c, s, MemberEvents(fs));
      o.Ok? ==> s.been <= o.state.been && o.state.tp.p >= s.tp.p
                && (fs != [] ==> ID in o.state.been || o.state.tp.p > s.tp.p)
    decreases fs
  {
    hide Run, EncStr;
    RunMovesOn(c, s, MemberEvents(fs));
    if fs == [] {
      RunNone(c, s);
    } else {
      RunFound(c, s, fs);
      var o := Found(c, s, fs[0]);
      if o.Ok? {
        FieldsShow(c, o.state, fs[1..]);
      }
    }
  }

  /** Harmless values change nothing. */
  lemma RunHarmless(c: Conf, s: State, j: Json)
    requires s.stage == WAIT_NEXT && |s.stack| >= 1 && |s.stack| + Depth(j) <= STACK_LIMIT
    requires Harmless(c, j)
    ensures Run(c, s, Events(j)) == Ok(Passed(s, Containers([j])))
  {
    hide Run;
    RunOutside(c, s, j);
    RunNone(c, s);
  }

  /** Before any id, a value is passed over exactly if it is harmless. */
  lemma RunIgnored(c: Conf, s: State, j: Json)
    requires s.stage == WAIT_NEXT && |s.stack| >= 1 && |s.stack| + Depth(j) <= STACK_LIMIT
    requires ID !in s.been
    ensures Run(c, s, Events(j)) == Ok(Passed(s, Containers([j]))) <==> Harmless(c, j)
  {
    hide Run;
    var r, n := Scan(c, WAIT_NEXT, j), Containers([j]);
    if r.stage == PARAMS {
      FindsParams(c, s, j);
    } else {
      RunOutside(c, s, j);
      AfterActs(c, s, r, n);
      FieldsShow(c, s, r.found);
      if Harmless(c, j) {
        RunHarmless(c, s, j);
      }
    }
  }

  /** No key of a map anywhere in j would be taken for a field of the call. */
  predicate NoReservedKeys(c: Conf, j: Json)
    decreases j, 0
  {
    match j
    case JArr(items) => NoReservedInItems(c, items)
    case JObj(ms) => NoReservedInMembers(c, ms)
    case _ => true
  }

  predicate NoReservedInItems(c: Conf, items: seq<Json>)
    decreases items, 1
  {
    items == [] || (NoReservedKeys(c, items[0]) && NoReservedInItems(c, items[1..]))
  }

  predicate NoReservedInMembers(c: Conf, ms: seq<Member>)
    decreases ms, 1
  {
    ms == [] || (!Reserved(c, ms[0].key) && NoReservedKeys(c, ms[0].value) && NoReservedInMembers(c, ms[1..]))
  }

  lemma {:induction false} Unreserved(c: Conf, j: Json)
    requires NoReservedKeys(c, j)
    ensures Harmless(c, j)
    decreases j, 0
  {
    match j
    case JArr(items) => UnreservedItems(c, items);
    case JObj(ms) => UnreservedMembers(c, ms);
    case _ =>
  }

  lemma {:induction false} UnreservedItems(c: Conf, items: seq<Json>)
    requires NoReservedInItems(c, items)
    ensures ScanItems(c, WAIT_NEXT, items) == Scanned(WAIT_NEXT, [])
    decreases items, 1
  {
    if items != [] {
      Unreserved(c, items[0]);
      UnreservedItems(c, items[1..]);
    }
  }

  lemma {:induction false} UnreservedMembers(c: Conf, ms: seq<Member>)
    requires NoReservedInMembers(c, ms)
    ensures ScanMembers(c, WAIT_NEXT, ms) == Scanned(WAIT_NEXT, [])
    decreases ms, 1
  {
    if ms != [] {
      Unreserved(c, ms[0].value);
      UnreservedMembers(c, ms[1..]);
    }
  }
}

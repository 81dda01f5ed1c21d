/**
 The format of an insert, replace, delete, select, update or upsert location:
 its named values, and how the pairs of a query fill them.
 */
module Dml {
  import opened Bytes
  import opened QueryArgs

  datatype ValueType = BoolValue | IntValue | StrValue

  /** A tuple value, a key of an update (%k...), or an operation of an upsert (%o...). */
  datatype Role = TuplePart | UpdateKey | UpsertOp

  /** value is None as long as no pair was bound; a bound value may be empty. */
  datatype FormatValue = FormatValue(name: seq<byte>, kind: ValueType, role: Role, value: Option<seq<byte>>)

  /** tuples_count, update_keys_count, upsert_tuples_count. */
  datatype Counts = Counts(tuples: nat, keys: nat, ops: nat) {
    function Of(role: Role): nat {
      match role
      case TuplePart => tuples
      case UpdateKey => keys
      case UpsertOp => ops
    }
  }

  function CountOne(n: Counts, role: Role): Counts {
    match role
    case TuplePart => n.(tuples := n.tuples + 1)
    case UpdateKey => n.(keys := n.keys + 1)
    case UpsertOp => n.(ops := n.ops + 1)
  }

  // --------------------------------------------------------- binding a value

  /** An entry whose value has no bytes is still open, even if it was bound to an empty value. */
  predicate Open(v: FormatValue) {
    v.value == None || v.value == Some([])
  }

  predicate BoundEmpty(v: FormatValue) {
    v.value == Some([])
  }

  /** The first open entry of that name from i on, or the number of entries. */
  function Target(vs: seq<FormatValue>, key: seq<byte>, i: nat): (t: nat)
    requires i <= |vs|
    ensures i <= t <= |vs|
    ensures t < |vs| ==> vs[t].name == key && Open(vs[t])
    ensures forall j :: i <= j < t ==> vs[j].name != key || !Open(vs[j])
    decreases |vs| - i
  {
    if i == |vs| || (vs[i].name == key && Open(vs[i])) then i else Target(vs, key, i + 1)
  }

  datatype Filling = Filling(values: seq<FormatValue>, counts: Counts)

  function BindOne(f: Filling, p: Pair): (r: Filling)
    ensures |r.values| == |f.values|
  {
    var t := Target(f.values, p.key, 0);
    if t == |f.values| then f
    else Filling(f.values[t := f.values[t].(value := Some(p.value))], CountOne(f.counts, f.values[t].role))
  }

  function BindAll(f: Filling, ps: seq<Pair>): (r: Filling)
    ensures |r.values| == |f.values|
    decreases |ps|
  {
    if ps == [] then f else BindAll(BindOne(f, ps[0]), ps[1..])
  }

  lemma {:induction false} BindAllConcat(f: Filling, a: seq<Pair>, b: seq<Pair>)
    ensures BindAll(f, a + b) == BindAll(BindAll(f, a), b)
    decreases |a|
  {
    hide BindOne;
    if a == [] {
      assert a + b == b;
    } else {
      assert (a + b)[0] == a[0] && (a + b)[1..] == a[1..] + b;
      BindAllConcat(BindOne(f, a[0]), a[1..], b);
    }
  }

  // ------------------------------------------------------ what a count means

  /** How many entries of a role are bound. */
  function Bound(vs: seq<FormatValue>, role: Role): nat {
    if vs == [] then 0
    else (if vs[0].role == role && vs[0].value.Some? then 1 else 0) + Bound(vs[1..], role)
  }

  /** How many pairs fall on an entry that was bound already, to an empty value. */
  function Refills(f: Filling, ps: seq<Pair>, role: Role): nat
    decreases |ps|
  {
    if ps == [] then 0
    else
      var t := Target(f.values, ps[0].key, 0);
      (if t < |f.values| && f.values[t].role == role && BoundEmpty(f.values[t]) then 1 else 0)
      + Refills(BindOne(f, ps[0]), ps[1..], role)
  }

  lemma {:induction false} BoundAfter(vs: seq<FormatValue>, t: nat, v: seq<byte>, role: Role)
    requires t < |vs|
    ensures Bound(vs[t := vs[t].(value := Some(v))], role)
         == Bound(vs, role) + if vs[t].role == role && vs[t].value.None? then 1 else 0
    decreases t
  {
    var ws := vs[t := vs[t].(value := Some(v))];
    if t == 0 {
      assert ws[1..] == vs[1..];
    } else {
      assert ws[1..] == vs[1..][t - 1 := vs[t].(value := Some(v))];
      BoundAfter(vs[1..], t - 1, v, role);
    }
  }

  /** The counters count the bound entries, plus one for every empty value that was replaced. */
  lemma {:induction false} CountsAreBound(f: Filling, ps: seq<Pair>, role: Role)
    ensures BindAll(f, ps).counts.Of(role) + Bound(f.values, role)
         == f.counts.Of(role) + Bound(BindAll(f, ps).values, role) + Refills(f, ps, role)
    decreases |ps|
  {
    hide Bound;
    if ps != [] {
      var t := Target(f.values, ps[0].key, 0);
      if t < |f.values| {
        BoundAfter(f.values, t, ps[0].value, role);
      }
      CountsAreBound(BindOne(f, ps[0]), ps[1..], role);
    }
  }

  predicate KeyIn(ps: seq<Pair>, key: seq<byte>) {
    exists i :: 0 <= i < |ps| && ps[i].key == key
  }

  /** Some pair gives a name an empty value, and a later pair names it again. */
  predicate EmptyBeforeAnother(f: Filling, ps: seq<Pair>)
    decreases |ps|
  {
    ps != []
    && ((Target(f.values, ps[0].key, 0) < |f.values| && ps[0].value == [] && KeyIn(ps[1..], ps[0].key))
        || EmptyBeforeAnother(BindOne(f, ps[0]), ps[1..]))
  }

  // ------------------------------------------------- the same, by positions

  predicate DistinctNames(vs: seq<FormatValue>) {
    forall i, j :: 0 <= i < j < |vs| ==> vs[i].name != vs[j].name
  }

  /** The first pair that names an open entry gives it an empty value, and another pair names it later. */
  predicate EmptyAt(vs: seq<FormatValue>, ps: seq<Pair>, i: nat, j: nat) {
    && i < j < |ps|
    && ps[i].key == ps[j].key
    && ps[i].value == []
    && Target(vs, ps[i].key, 0) < |vs|
    && forall k :: 0 <= k < i ==> ps[k].key != ps[i].key
  }

  ghost predicate FirstIsEmpty(vs: seq<FormatValue>, ps: seq<Pair>) {
    exists i: nat, j: nat :: EmptyAt(vs, ps, i, j)
  }

  lemma OpenTarget(vs: seq<FormatValue>, e: nat, from: nat)
    requires from <= e < |vs| && Open(vs[e])
    ensures Target(vs, vs[e].name, from) <= e
    decreases e - from
  {
    if from < e && !(vs[from].name == vs[e].name && Open(vs[from])) {
      OpenTarget(vs, e, from + 1);
    }
  }

  /** Binding a pair leaves the entries of other names as open as they were. */
  lemma OtherTargets(f: Filling, p: Pair, key: seq<byte>)
    requires key != p.key
    ensures Target(f.values, key, 0) < |f.values| <==> Target(BindOne(f, p).values, key, 0) < |f.values|
  {
    var vs, ws := f.values, BindOne(f, p).values;
    var a, b := Target(vs, key, 0), Target(ws, key, 0);
    if a < |vs| {
      assert ws[a] == vs[a];
      OpenTarget(ws, a, 0);
    }
    if b < |vs| {
      assert ws[b] == vs[b];
      OpenTarget(vs, b, 0);
    }
  }

  /** With distinct names, an entry is open behind a pair that names it only if that pair gave it an empty value. */
  lemma OwnTarget(f: Filling, p: Pair)
    requires DistinctNames(f.values)
    ensures DistinctNames(BindOne(f, p).values)
    ensures Target(BindOne(f, p).values, p.key, 0) < |f.values|
        <==> Target(f.values, p.key, 0) < |f.values| && p.value == []
  {
    var vs, ws := f.values, BindOne(f, p).values;
    var a, b := Target(vs, p.key, 0), Target(ws, p.key, 0);
    if a < |vs| && p.value == [] {
      OpenTarget(ws, a, 0);
    }
    if a < |vs| && b < |vs| {
      assert ws[a].name == ws[b].name == p.key;
    }
  }

  lemma EmptyStep(f: Filling, ps: seq<Pair>)
    requires ps != [] && DistinctNames(f.values)
    ensures FirstIsEmpty(f.values, ps) <==>
      (Target(f.values, ps[0].key, 0) < |f.values| && ps[0].value == [] && KeyIn(ps[1..], ps[0].key))
      || FirstIsEmpty(BindOne(f, ps[0]).values, ps[1..])
  {
    hide Target, BindOne, DistinctNames;
    var vs, ws, rest := f.values, BindOne(f, ps[0]).values, ps[1..];
    OwnTarget(f, ps[0]);
    if FirstIsEmpty(vs, ps) {
      var i: nat, j: nat :| EmptyAt(vs, ps, i, j);
      assert rest[j - 1] == ps[j];
      if i > 0 {
        OtherTargets(f, ps[0], ps[i].key);
        assert EmptyAt(ws, rest, i - 1, j - 1);
      }
    }
    if Target(vs, ps[0].key, 0) < |vs| && ps[0].value == [] && KeyIn(rest, ps[0].key) {
      var j :| 0 <= j < |rest| && rest[j].key == ps[0].key;
      assert EmptyAt(vs, ps, 0, j + 1);
    }
    if FirstIsEmpty(ws, rest) {
      var i: nat, j: nat :| EmptyAt(ws, rest, i, j);
      if rest[i].key == ps[0].key {
        assert KeyIn(rest, ps[0].key);
      } else {
        OtherTargets(f, ps[0], rest[i].key);
        assert forall k :: 0 < k < i + 1 ==> ps[k] == rest[k - 1];
        assert EmptyAt(vs, ps, i + 1, j + 1);
      }
    }
  }

  /** With distinct names: a name's first pair is empty, and the name comes again. */
  lemma {:induction false} EmptyByPosition(f: Filling, ps: seq<Pair>)
    requires DistinctNames(f.values)
    ensures EmptyBeforeAnother(f, ps) <==> FirstIsEmpty(f.values, ps)
    decreases |ps|
  {
    hide Target, KeyIn, BindOne, DistinctNames, FirstIsEmpty;
    if ps == [] {
      assert !FirstIsEmpty(f.values, ps) by { NothingEmpty(f.values); }
    } else {
      OwnTarget(f, ps[0]);
      EmptyStep(f, ps);
      EmptyByPosition(BindOne(f, ps[0]), ps[1..]);
    }
  }

  lemma NothingEmpty(vs: seq<FormatValue>)
    ensures !FirstIsEmpty(vs, [])
  {
  }

  /** The values a query gives for a name, in order. */
  function ValuesOf(ps: seq<Pair>, name: seq<byte>): seq<seq<byte>> {
    if ps == [] then [] else (if ps[0].key == name then [ps[0].value] else []) + ValuesOf(ps[1..], name)
  }

  /** The first one that is not empty; an empty one if all are; none if there is none. */
  function FirstFull(values: seq<seq<byte>>): Option<seq<byte>> {
    if values == [] then None
    else if values[0] != [] || |values| == 1 then Some(values[0])
    else FirstFull(values[1..])
  }

  /** The value at the end, from what an entry holds now and the values still to come. */
  function EndsWith(now: Option<seq<byte>>, values: seq<seq<byte>>): Option<seq<byte>> {
    match now
    case None => FirstFull(values)
    case Some(x) => if x == [] then FirstFull([[]] + values) else now
  }

  lemma EndsNext(now: Option<seq<byte>>, v: seq<byte>, values: seq<seq<byte>>)
    ensures EndsWith(now, [v] + values)
         == EndsWith(if now == None || now == Some([]) then Some(v) else now, values)
  {
    var more := [v] + values;
    assert more[0] == v && more[1..] == values;
    assert ([[]] + more)[0] == [] && ([[]] + more)[1..] == more;
    if now == Some([]) {
      assert FirstFull([[]] + more) == FirstFull(more);
    }
  }

  lemma BoundNext(f: Filling, p: Pair, e: nat)
    requires DistinctNames(f.values) && e < |f.values|
    ensures BindOne(f, p).values[e] == f.values[e].(value :=
      if p.key == f.values[e].name && Open(f.values[e]) then Some(p.value) else f.values[e].value)
  {
    if p.key == f.values[e].name && Open(f.values[e]) {
      OpenTarget(f.values, e, 0);
    }
  }

  /** With distinct names, what every entry of a format ends up with. */
  lemma {:induction false} ValueBound(f: Filling, ps: seq<Pair>, e: nat)
    requires DistinctNames(f.values) && e < |f.values|
    ensures BindAll(f, ps).values[e]
         == f.values[e].(value := EndsWith(f.values[e].value, ValuesOf(ps, f.values[e].name)))
    decreases |ps|
  {
    hide Target, DistinctNames, EndsWith;
    var name, now := f.values[e].name, f.values[e].value;
    if ps == [] {
      NothingComes(now);
    } else {
      BoundNext(f, ps[0], e);
      OwnTarget(f, ps[0]);
      ValueBound(BindOne(f, ps[0]), ps[1..], e);
      EndsNext(now, ps[0].value, ValuesOf(ps[1..], name));
      assert ps[0].key != name ==> ValuesOf(ps, name) == ValuesOf(ps[1..], name);
    }
  }

  lemma NothingComes(now: Option<seq<byte>>)
    ensures EndsWith(now, []) == now
  {
  }

  // ------------------------------------------------- replaced empty values

  /** An entry bound to an empty value is the first open one of its name. */
  predicate EmptyFirst(vs: seq<FormatValue>) {
    forall i :: 0 <= i < |vs| && BoundEmpty(vs[i]) ==> Target(vs, vs[i].name, 0) == i
  }

  predicate Pending(vs: seq<FormatValue>, ps: seq<Pair>) {
    exists i :: 0 <= i < |vs| && BoundEmpty(vs[i]) && KeyIn(ps, vs[i].name)
  }

  lemma TargetIs(vs: seq<FormatValue>, t: nat)
    requires t < |vs| && Open(vs[t])
    requires forall j :: 0 <= j < t ==> vs[j].name != vs[t].name || !Open(vs[j])
    ensures Target(vs, vs[t].name, 0) == t
  {
  }

  lemma EmptyStaysFirst(f: Filling, p: Pair)
    requires EmptyFirst(f.values)
    ensures EmptyFirst(BindOne(f, p).values)
  {
    var vs, t := f.values, Target(f.values, p.key, 0);
    if t < |vs| {
      var ws := BindOne(f, p).values;
      forall i | 0 <= i < |ws| && BoundEmpty(ws[i])
        ensures Target(ws, ws[i].name, 0) == i
      {
        if i != t {
          assert Target(vs, vs[i].name, 0) == i;
        }
        TargetIs(ws, i);
      }
    }
  }

  lemma KeyInTail(ps: seq<Pair>, key: seq<byte>)
    requires ps != []
    ensures KeyIn(ps, key) <==> ps[0].key == key || KeyIn(ps[1..], key)
  {
    if KeyIn(ps, key) && ps[0].key != key {
      var i :| 0 <= i < |ps| && ps[i].key == key;
      assert ps[1..][i - 1].key == key;
    }
    if KeyIn(ps[1..], key) {
      var i :| 0 <= i < |ps[1..]| && ps[1..][i].key == key;
      assert ps[i + 1].key == key;
    }
  }

  function AllRefills(f: Filling, ps: seq<Pair>): nat {
    Refills(f, ps, TuplePart) + Refills(f, ps, UpdateKey) + Refills(f, ps, UpsertOp)
  }

  /** Binding one pair: what is pending afterwards was pending before, or is the empty value just bound. */
  lemma PendingStep(f: Filling, ps: seq<Pair>)
    requires ps != [] && EmptyFirst(f.values)
    ensures var t := Target(f.values, ps[0].key, 0);
            var refill := t < |f.values| && BoundEmpty(f.values[t]);
            && (refill ==> Pending(f.values, ps))
            && (!refill ==>
                 (Pending(f.values, ps) || (t < |f.values| && ps[0].value == [] && KeyIn(ps[1..], ps[0].key))
                  <==> Pending(BindOne(f, ps[0]).values, ps[1..])))
  {
    hide Target, KeyIn;
    var vs, t := f.values, Target(f.values, ps[0].key, 0);
    var ws := BindOne(f, ps[0]).values;
    forall key
      ensures KeyIn(ps, key) <==> ps[0].key == key || KeyIn(ps[1..], key)
    {
      KeyInTail(ps, key);
    }
    if t < |vs| && !BoundEmpty(vs[t]) {
      if Pending(vs, ps) {
        var i :| 0 <= i < |vs| && BoundEmpty(vs[i]) && KeyIn(ps, vs[i].name);
        assert i != t && ws[i] == vs[i] && vs[i].name != ps[0].key;
      }
      if Pending(ws, ps[1..]) {
        var i :| 0 <= i < |ws| && BoundEmpty(ws[i]) && KeyIn(ps[1..], ws[i].name);
        assert i != t ==> ws[i] == vs[i];
      }
      if ps[0].value == [] && KeyIn(ps[1..], ps[0].key) {
        assert BoundEmpty(ws[t]) && ws[t].name == ps[0].key;
      }
    }
    if t == |vs| && Pending(vs, ps) {
      var i :| 0 <= i < |vs| && BoundEmpty(vs[i]) && KeyIn(ps, vs[i].name);
      assert Target(vs, vs[i].name, 0) == i;
    }
  }

  lemma {:induction false} RefillsWhen(f: Filling, ps: seq<Pair>)
    requires EmptyFirst(f.values)
    ensures AllRefills(f, ps) > 0 <==> EmptyBeforeAnother(f, ps) || Pending(f.values, ps)
    decreases |ps|
  {
    hide Target, KeyIn, BindOne, EmptyFirst;
    if ps == [] {
      NothingPending(f.values);
    } else {
      EmptyStaysFirst(f, ps[0]);
      PendingStep(f, ps);
      RefillsWhen(BindOne(f, ps[0]), ps[1..]);
    }
  }

  lemma NothingPending(vs: seq<FormatValue>)
    ensures !Pending(vs, [])
  {
  }

  /** Nothing bound yet, nothing counted: the state format_init leaves. */
  predicate Fresh(f: Filling) {
    f.counts == Counts(0, 0, 0) && forall i :: 0 <= i < |f.values| ==> f.values[i].value.None?
  }

  /**
   The counters are the numbers of bound entries exactly when no name receives
   an empty value before another pair that names it.
   */
  lemma CountsAgree(f: Filling, ps: seq<Pair>)
    requires Fresh(f)
    ensures (forall role :: BindAll(f, ps).counts.Of(role) == Bound(BindAll(f, ps).values, role))
        <==> !EmptyBeforeAnother(f, ps)
  {
    hide BindAll, Target, KeyIn, EmptyBeforeAnother;
    FreshBound(f.values);
    forall role
      ensures BindAll(f, ps).counts.Of(role) == Bound(BindAll(f, ps).values, role) + Refills(f, ps, role)
    {
      CountsAreBound(f, ps, role);
      assert Bound(f.values, role) == 0;
    }
    RefillsWhen(f, ps);
    if AllRefills(f, ps) == 0 {
      assert forall role :: Refills(f, ps, role) == 0;
    } else {
      var role := if Refills(f, ps, TuplePart) > 0 then TuplePart
                  else if Refills(f, ps, UpdateKey) > 0 then UpdateKey else UpsertOp;
      assert BindAll(f, ps).counts.Of(role) != Bound(BindAll(f, ps).values, role);
    }
  }

  /** ?a=&a=x for a tuple of the one value a: two are announced, one is bound. */
  lemma CountedTwice()
    ensures var f := Filling([FormatValue([0x61], StrValue, TuplePart, None)], Counts(0, 0, 0));
            var r := BindAll(f, [Pair([0x61], []), Pair([0x61], [0x78])]);
            r.counts.tuples == 2 && Bound(r.values, TuplePart) == 1
  {
    var f := Filling([FormatValue([0x61], StrValue, TuplePart, None)], Counts(0, 0, 0));
    var ps := [Pair([0x61], []), Pair([0x61], [0x78])];
    var g := BindOne(f, ps[0]);
    assert g == Filling([FormatValue([0x61], StrValue, TuplePart, Some([]))], Counts(1, 0, 0));
    var r := BindOne(g, ps[1]);
    assert r == Filling([FormatValue([0x61], StrValue, TuplePart, Some([0x78]))], Counts(2, 0, 0));
    assert ps[1..] == [ps[1]] && ps[1..][1..] == [];
    assert BindAll(f, ps) == BindAll(g, ps[1..]) == BindAll(r, []) == r;
    assert r.values[1..] == [];
  }

  lemma {:induction false} FreshBound(vs: seq<FormatValue>)
    requires forall i :: 0 <= i < |vs| ==> vs[i].value.None?
    ensures forall role :: Bound(vs, role) == 0
    ensures EmptyFirst(vs) && forall ps :: !Pending(vs, ps)
    decreases |vs|
  {
    if vs != [] {
      FreshBound(vs[1..]);
    }
  }
}

/**
 ngx_http_tnt_format_prepare: the pairs of a query are bound to the special
 names of a location (limit, offset, iterator, space, index) and, if none of
 these takes them, to its format values.
 */
module FormatPrepare {
  import opened Bytes
  import opened QueryArgs
  import opened Dml

  // -------------------------------------------------------------- the slots

  const LIMIT := 0
  const OFFSET := 1
  const ITERATOR := 2
  const SPACE := 3
  const INDEX := 4
  const SLOTS := 5

  /** The configured names (without the equals sign both sides end with), defaults and restrictions. */
  datatype Conf = Conf(
    limitName: Option<seq<byte>>,
    offsetName: Option<seq<byte>>,
    iterName: Option<seq<byte>>,
    spaceName: Option<seq<byte>>,
    indexName: Option<seq<byte>>,
    limit: nat,
    limitMax: nat,
    offset: nat,
    iterType: nat,
    spaceId: nat,
    indexId: nat,
    allowedSpaces: Option<seq<nat>>,
    allowedIndexes: Option<seq<nat>>,
    readIterator: seq<byte> -> Option<nat>)

  /** In the order in which they are tried. */
  function Name(c: Conf, k: nat): Option<seq<byte>> {
    if k == LIMIT then c.limitName
    else if k == OFFSET then c.offsetName
    else if k == ITERATOR then c.iterName
    else if k == SPACE then c.spaceName
    else if k == INDEX then c.indexName
    else None
  }

  function Default(c: Conf, k: nat): nat {
    if k == LIMIT then c.limit
    else if k == OFFSET then c.offset
    else if k == ITERATOR then c.iterType
    else if k == SPACE then c.spaceId
    else c.indexId
  }

  /** ngx_atoi: decimal digits only, within a signed 64-bit integer. */
  function Atoi(s: seq<byte>): Option<nat> {
    if s == [] || (exists i :: 0 <= i < |s| && !(0x30 <= s[i] <= 0x39)) then None
    else
      var n := Digits(s);
      if n < TWO_63 then Some(n) else None
  }

  function Digits(s: seq<byte>): nat {
    if s == [] then 0 else 10 * Digits(s[..|s| - 1]) + if s[|s| - 1] < 0x30 then 0 else s[|s| - 1] - 0x30
  }

  /** What the text is worth for a slot; None if it is not well-formed. */
  function Worth(c: Conf, k: nat, text: seq<byte>): Option<nat> {
    if k == ITERATOR then c.readIterator(text) else Atoi(text)
  }

  // ------------------------------------------------------ who takes what pair

  /** A well-formed occurrence of the name of slot k. */
  predicate Suits(c: Conf, k: nat, p: Pair) {
    Name(c, k) == Some(p.key) && Worth(c, k, p.value).Some?
  }

  /** The first pair from i on that suits slot k, or the number of pairs. */
  function FirstFrom(c: Conf, ps: seq<Pair>, k: nat, i: nat): (j: nat)
    ensures i <= |ps| ==> i <= j <= |ps|
    ensures j < |ps| ==> i <= j && Suits(c, k, ps[j])
    ensures j <= |ps|
    ensures forall m :: i <= m < j ==> !Suits(c, k, ps[m])
    decreases |ps| - i
  {
    if i >= |ps| then |ps| else if Suits(c, k, ps[i]) then i else FirstFrom(c, ps, k, i + 1)
  }

  /** The pair slot k is bound to: the first that suits it once all slots of the same name before it are bound. */
  function BoundAt(c: Conf, ps: seq<Pair>, k: nat): (j: nat)
    ensures j <= |ps|
    decreases k, k
  {
    FirstFrom(c, ps, k, From(c, ps, k, k))
  }

  /** Behind every pair that a slot before slot j with the name of slot k is bound to. */
  function From(c: Conf, ps: seq<Pair>, k: nat, j: nat): nat
    requires j <= k
    decreases k, j - 1
  {
    if j == 0 then 0
    else
      var before := From(c, ps, k, j - 1);
      if Name(c, j - 1) == Name(c, k) && before <= BoundAt(c, ps, j - 1) then BoundAt(c, ps, j - 1) + 1 else before
  }

  lemma {:induction false} FromWhen(c: Conf, ps: seq<Pair>, k: nat, j: nat, n: nat)
    requires j <= k
    ensures From(c, ps, k, j) <= n <==> forall i :: 0 <= i < j && Name(c, i) == Name(c, k) ==> BoundAt(c, ps, i) < n
    decreases j
  {
    hide BoundAt;
    if j > 0 {
      FromWhen(c, ps, k, j - 1, n);
    }
  }

  /** With distinct names, each slot is bound to the first pair that suits it. */
  lemma DistinctNames(c: Conf, ps: seq<Pair>, k: nat)
    requires forall i :: 0 <= i < k ==> Name(c, i) != Name(c, k)
    ensures BoundAt(c, ps, k) == FirstFrom(c, ps, k, 0)
  {
    hide FirstFrom;
    FromWhen(c, ps, k, k, 0);
  }

  /** Slot k still waits for its name when the n-th pair comes. */
  predicate Waits(c: Conf, ps: seq<Pair>, k: nat, n: nat) {
    Name(c, k).Some? && n <= BoundAt(c, ps, k)
  }

  /** The n-th pair is taken by a slot, whether it suits it or not. */
  predicate ToSlot(c: Conf, ps: seq<Pair>, n: nat)
    requires n < |ps|
  {
    exists k :: 0 <= k < SLOTS && Name(c, k) == Some(ps[n].key) && Waits(c, ps, k, n)
  }

  /** The pairs among the first n that are left to the format values. */
  function Left(c: Conf, ps: seq<Pair>, n: nat): seq<Pair>
    requires n <= |ps|
  {
    if n == 0 then [] else Left(c, ps, n - 1) + if ToSlot(c, ps, n - 1) then [] else [ps[n - 1]]
  }

  // ------------------------------------------------------------ pair by pair

  /** The first slot from k on that still waits for this name, or SLOTS. */
  function Taker(c: Conf, expects: seq<bool>, key: seq<byte>, k: nat): (t: nat)
    requires |expects| == SLOTS && k <= SLOTS
    ensures k <= t <= SLOTS
    ensures t < SLOTS ==> expects[t] && Name(c, t) == Some(key)
    ensures forall j :: k <= j < t ==> !(expects[j] && Name(c, j) == Some(key))
    decreases SLOTS - k
  {
    if k == SLOTS || (expects[k] && Name(c, k) == Some(key)) then k else Taker(c, expects, key, k + 1)
  }

  predicate Expecting(c: Conf, ps: seq<Pair>, n: nat, expects: seq<bool>) {
    |expects| == SLOTS && forall k :: 0 <= k < SLOTS ==> (expects[k] <==> Waits(c, ps, k, n))
  }

  /** The slot that takes the n-th pair is bound by it if it suits; no other slot is. */
  lemma BoundByNext(c: Conf, ps: seq<Pair>, n: nat, expects: seq<bool>, j: nat)
    requires n < |ps| && Expecting(c, ps, n, expects) && j < SLOTS && Name(c, j).Some?
    ensures BoundAt(c, ps, j) == n <==> j == Taker(c, expects, ps[n].key, 0) && Suits(c, j, ps[n])
  {
    hide Name, FirstFrom, Taker;
    var k := Taker(c, expects, ps[n].key, 0);
    FromWhen(c, ps, j, j, n);
    if k < j && Name(c, k) == Name(c, j) {
      assert Waits(c, ps, k, n);
    }
    if Name(c, j) == Some(ps[n].key) && j <= k {
      assert forall i :: 0 <= i < j && Name(c, i) == Name(c, j) ==> !expects[i];
    }
  }

  /** What a slot holds once n pairs have been seen. */
  function SlotAfter(c: Conf, ps: seq<Pair>, k: nat, n: nat): nat {
    var j := BoundAt(c, ps, k);
    if Name(c, k).Some? && j < n && j < |ps| then Worth(c, k, ps[j].value).value else Default(c, k)
  }

  /** The state of the loop after n pairs. A limit that is waited for may have been set to the maximum. */
  ghost predicate After(c: Conf, ps: seq<Pair>, n: nat, f: Filling, expects: seq<bool>, slots: seq<nat>, now: Filling) {
    && n <= |ps| && Expecting(c, ps, n, expects) && |slots| == SLOTS
    && (forall k :: 0 <= k < SLOTS && (k == LIMIT ==> !expects[k]) ==> slots[k] == SlotAfter(c, ps, k, n))
    && (c.limitName.Some? && !expects[LIMIT] ==> slots[LIMIT] <= c.limitMax)
    && now == BindAll(f, Left(c, ps, n))
  }

  /** The limit asked for first exceeds the maximum. */
  predicate LimitExceeded(c: Conf, ps: seq<Pair>) {
    var j := BoundAt(c, ps, LIMIT);
    c.limitName.Some? && j < |ps| && Worth(c, LIMIT, ps[j].value).value > c.limitMax
  }

  lemma Start(c: Conf, ps: seq<Pair>, f: Filling, expects: seq<bool>, slots: seq<nat>)
    requires |expects| == SLOTS && forall k :: 0 <= k < SLOTS ==> expects[k] == Name(c, k).Some?
    requires |slots| == SLOTS && forall k :: 0 <= k < SLOTS ==> slots[k] == Default(c, k)
    ensures After(c, ps, 0, f, expects, slots, f)
  {
    hide Default, BoundAt;
    assert Name(c, LIMIT) == c.limitName;
  }

  /** One pair that fell to no slot. */
  lemma StepLeft(c: Conf, ps: seq<Pair>, n: nat, f: Filling, expects: seq<bool>, slots: seq<nat>, now: Filling)
    requires n < |ps| && After(c, ps, n, f, expects, slots, now)
    requires Taker(c, expects, ps[n].key, 0) == SLOTS
    ensures After(c, ps, n + 1, f, expects, slots, BindOne(now, ps[n]))
  {
    hide Name, Default, BoundAt, Taker, BindOne, Worth;
    StepSlots(c, ps, n, expects);
    BindAllConcat(f, Left(c, ps, n), [ps[n]]);
    assert [ps[n]][1..] == [];
    assert BindAll(now, [ps[n]]) == BindOne(now, ps[n]);
  }

  /** How the waiting changes with the n-th pair. */
  lemma StepSlots(c: Conf, ps: seq<Pair>, n: nat, expects: seq<bool>)
    requires n < |ps| && Expecting(c, ps, n, expects)
    ensures var t := Taker(c, expects, ps[n].key, 0);
            && (ToSlot(c, ps, n) <==> t < SLOTS)
            && (t < SLOTS && Suits(c, t, ps[n]) ==>
                 BoundAt(c, ps, t) == n && Expecting(c, ps, n + 1, expects[t := false]))
            && (t == SLOTS || !Suits(c, t, ps[n]) ==> Expecting(c, ps, n + 1, expects))
            && forall k :: 0 <= k < SLOTS && !(t == k && Suits(c, k, ps[n])) ==>
                 SlotAfter(c, ps, k, n + 1) == SlotAfter(c, ps, k, n)
  {
    hide Name, Default, BoundAt, Taker, Worth, Suits;
    forall k | 0 <= k < SLOTS && Name(c, k).Some?
      ensures BoundAt(c, ps, k) == n <==> k == Taker(c, expects, ps[n].key, 0) && Suits(c, k, ps[n])
    {
      BoundByNext(c, ps, n, expects, k);
    }
  }

  /** One pair that fell to a slot. */
  lemma StepTaken(c: Conf, ps: seq<Pair>, n: nat, f: Filling, expects: seq<bool>, slots: seq<nat>, now: Filling)
    requires n < |ps| && After(c, ps, n, f, expects, slots, now)
    requires Taker(c, expects, ps[n].key, 0) < SLOTS
    ensures var t := Taker(c, expects, ps[n].key, 0);
            match Worth(c, t, ps[n].value)
            case None =>
              After(c, ps, n + 1, f, expects, if t == LIMIT then slots[t := c.limitMax] else slots, now)
            case Some(v) =>
              if t == LIMIT && v > c.limitMax then LimitExceeded(c, ps)
              else After(c, ps, n + 1, f, expects[t := false], slots[t := v], now)
  {
    hide Default, BoundAt, Taker, BindOne, Worth;
    StepSlots(c, ps, n, expects);
    var t := Taker(c, expects, ps[n].key, 0);
    assert Suits(c, t, ps[n]) <==> Worth(c, t, ps[n].value).Some?;
    assert Left(c, ps, n) + [] == Left(c, ps, n);
  }

  // ----------------------------------------------------------------- the end

  /** ngx_http_tnt_test_allowed. */
  method TestAllowed(allowed: Option<seq<nat>>, id: nat) returns (ok: bool)
    ensures ok <==> allowed.None? || id in allowed.value
  {
    if allowed.None? {
      return true;
    }
    for i := 0 to |allowed.value|
      invariant id !in allowed.value[..i]
    {
      if allowed.value[i] == id {
        return true;
      }
    }
    assert allowed.value == allowed.value[..|allowed.value|];
    ok := false;
  }

  predicate Allowed(allowed: Option<seq<nat>>, id: nat) {
    allowed.None? || id in allowed.value
  }

  /** What a slot holds after the whole query. */
  function Final(c: Conf, ps: seq<Pair>, k: nat): nat {
    SlotAfter(c, ps, k, |ps|)
  }

  /** Every configured name occurs in a well-formed way. */
  predicate AllBound(c: Conf, ps: seq<Pair>) {
    forall k :: 0 <= k < SLOTS && Name(c, k).Some? ==> BoundAt(c, ps, k) < |ps|
  }

  datatype Status = Ok | NotAllowed | BadRequest

  /** The answer, from the query alone. */
  function Answer(c: Conf, ps: seq<Pair>): Status {
    if LimitExceeded(c, ps) then NotAllowed
    else if !Allowed(c.allowedSpaces, Final(c, ps, SPACE)) then NotAllowed
    else if !Allowed(c.allowedIndexes, Final(c, ps, INDEX)) then NotAllowed
    else if AllBound(c, ps) then Ok
    else BadRequest
  }

  /** An accepted query: every special name was bound, in range, by the first pair fit for it. */
  lemma Accepted(c: Conf, ps: seq<Pair>)
    ensures Answer(c, ps) == Ok <==>
      && AllBound(c, ps)
      && (c.limitName.Some? ==> Final(c, ps, LIMIT) <= c.limitMax)
      && Allowed(c.allowedSpaces, Final(c, ps, SPACE))
      && Allowed(c.allowedIndexes, Final(c, ps, INDEX))
  {
    hide BoundAt, Default;
    assert Name(c, LIMIT) == c.limitName;
  }

  /** With distinct names, the pair that counts is the first well-formed one of that name. */
  lemma BoundOnce(c: Conf, ps: seq<Pair>, k: nat)
    requires k < SLOTS && Answer(c, ps) == Ok && Name(c, k).Some?
    requires forall i :: 0 <= i < k ==> Name(c, i) != Name(c, k)
    ensures var j := BoundAt(c, ps, k);
            && j < |ps| && ps[j].key == Name(c, k).value
            && Worth(c, k, ps[j].value) == Some(Final(c, ps, k))
            && forall m :: 0 <= m < j && ps[m].key == Name(c, k).value ==> Worth(c, k, ps[m].value) == None
  {
    hide Default, Worth, Answer;
    Accepted(c, ps);
    DistinctNames(c, ps, k);
    assert forall m :: 0 <= m < BoundAt(c, ps, k) ==> !Suits(c, k, ps[m]);
  }

  // -------------------------------------------------------------- the method

  /** A named value of the configuration. */
  datatype Format = Format(name: seq<byte>, kind: ValueType, role: Role)

  function Initial(formats: seq<Format>): (vs: seq<FormatValue>)
    ensures |vs| == |formats|
    ensures forall i :: 0 <= i < |vs| ==> vs[i] == FormatValue(formats[i].name, formats[i].kind, formats[i].role, None)
  {
    seq(|formats|, i requires 0 <= i < |formats| =>
      FormatValue(formats[i].name, formats[i].kind, formats[i].role, None))
  }

  class FormatContext {
    var limit: nat
    var offset: nat
    var iterType: nat
    var spaceId: nat
    var indexId: nat
    var tuples: nat
    var updateKeys: nat
    var upsertOps: nat
    const values: array<FormatValue>

    ghost function Slots(): seq<nat>
      reads this
    {
      [limit, offset, iterType, spaceId, indexId]
    }

    ghost function Now(): Filling
      reads this, values
    {
      Filling(values[..], Counts(tuples, updateKeys, upsertOps))
    }

    /** ngx_http_tnt_format_init. */
    constructor (c: Conf, formats: seq<Format>)
      ensures limit == c.limit && offset == c.offset && iterType == c.iterType
      ensures spaceId == c.spaceId && indexId == c.indexId
      ensures forall k :: 0 <= k < SLOTS ==> Slots()[k] == Default(c, k)
      ensures fresh(values) && Now() == Filling(Initial(formats), Counts(0, 0, 0))
    {
      limit, offset, iterType, spaceId, indexId := c.limit, c.offset, c.iterType, c.spaceId, c.indexId;
      tuples, updateKeys, upsertOps := 0, 0, 0;
      values := new FormatValue[|formats|](i requires 0 <= i < |formats| => Initial(formats)[i]);
      new;
      assert values[..] == Initial(formats);
    }

    /** ngx_http_tnt_format_prepare_kv. */
    method PrepareKv(p: Pair)
      modifies `tuples, `updateKeys, `upsertOps, values
      ensures Now() == BindOne(old(Now()), p)
    {
      for i := 0 to values.Length
        invariant values[..] == old(values[..]) && Now() == old(Now())
        invariant Target(values[..], p.key, 0) == Target(values[..], p.key, i)
      {
        var v := values[i];
        if Open(v) && v.name == p.key {
          values[i] := v.(value := Some(p.value));
          match v.role {
            case UpdateKey => updateKeys := updateKeys + 1;
            case UpsertOp => upsertOps := upsertOps + 1;
            case TuplePart => tuples := tuples + 1;
          }
          assert values[..] == old(values[..])[i := v.(value := Some(p.value))];
          return;
        }
      }
    }

    /** The body of the loop for a pair. */
    method PrepareOne(c: Conf, expects: seq<bool>, p: Pair) returns (ok: bool, expects': seq<bool>)
      requires |expects| == SLOTS
      modifies this, values
      ensures
        var t := Taker(c, expects, p.key, 0);
        if t == SLOTS then ok && expects' == expects && Slots() == old(Slots()) && Now() == BindOne(old(Now()), p)
        else
          && Now() == old(Now())
          && match Worth(c, t, p.value)
             case None =>
               && ok && expects' == expects
               && Slots() == if t == LIMIT then old(Slots())[t := c.limitMax] else old(Slots())
             case Some(v) =>
               if t == LIMIT && v > c.limitMax then !ok
               else ok && expects' == expects[t := false] && Slots() == old(Slots())[t := v]
    {
      hide Atoi, BindOne;
      ok, expects' := true, expects;
      if expects[LIMIT] && c.limitName == Some(p.key) {
        limit := c.limitMax;
        var v := Atoi(p.value);
        if v.Some? {
          if v.value > c.limitMax {
            return false, expects;
          }
          limit := v.value;
          expects' := expects[LIMIT := false];
        }
      } else if expects[OFFSET] && c.offsetName == Some(p.key) {
        var v := Atoi(p.value);
        if v.Some? {
          offset := v.value;
          expects' := expects[OFFSET := false];
        }
      } else if expects[ITERATOR] && c.iterName == Some(p.key) {
        var v := c.readIterator(p.value);
        if v.Some? {
          iterType := v.value;
          expects' := expects[ITERATOR := false];
        }
      } else if expects[SPACE] && c.spaceName == Some(p.key) {
        var v := Atoi(p.value);
        if v.Some? {
          spaceId := v.value;
          expects' := expects[SPACE := false];
        }
      } else if expects[INDEX] && c.indexName == Some(p.key) {
        var v := Atoi(p.value);
        if v.Some? {
          indexId := v.value;
          expects' := expects[INDEX := false];
        }
      } else {
        PrepareKv(p);
      }
    }

    /** ngx_http_tnt_format_prepare. */
    method Prepare(c: Conf, input: seq<byte>) returns (status: Status)
      requires forall k :: 0 <= k < SLOTS ==> Slots()[k] == Default(c, k)
      modifies this, values
      ensures status == Answer(c, Pairs(input))
      ensures status == Ok ==> forall k :: 0 <= k < SLOTS ==> Slots()[k] == Final(c, Pairs(input), k)
      ensures status == Ok ==> Now() == BindAll(old(Now()), Left(c, Pairs(input), |Pairs(input)|))
    {
      hide Pairs, PairsFrom, Find, After, Taker, Default;
      hide BindOne, BindAll, Left, Worth, LimitExceeded, BoundAt, SlotAfter;
      ghost var ps, f, n := Pairs(input), Now(), 0;
      var expects := [c.limitName.Some?, c.offsetName.Some?, c.iterName.Some?, c.spaceName.Some?, c.indexName.Some?];
      Start(c, ps, f, expects, Slots());
      LoopSeesPairs(input, 0);
      assert input[0..] == input && ps[0..] == ps;
      var it := 0;
      while it < |input|
        invariant it <= |input| + 1 && n <= |ps| && |expects| == SLOTS
        invariant ps[n..] == PairsFrom(input, it)
        invariant After(c, ps, n, f, expects, Slots(), Now())
      {
        var begin := it;
        var arg := GetNextArg(input, it);
        NextPair(input, it);
        it := arg.it + 1;
        if arg.value.Some? {
          var p := Pair(input[begin..arg.value.value - 1], input[arg.value.value..arg.it]);
          assert ps[n] == ps[n..][0] == p && ps[n + 1..] == ps[n..][1..];
          if Taker(c, expects, p.key, 0) == SLOTS {
            StepLeft(c, ps, n, f, expects, Slots(), Now());
          } else {
            StepTaken(c, ps, n, f, expects, Slots(), Now());
          }
          var ok: bool;
          ok, expects := PrepareOne(c, expects, p);
          if !ok {
            return NotAllowed;
          }
          n := n + 1;
        }
      }
      LoopEnds(input, it);
      assert n == |ps|;
      AtTheEnd(c, ps, f, expects, Slots(), Now());
      var spaceOk := TestAllowed(c.allowedSpaces, spaceId);
      var indexOk := TestAllowed(c.allowedIndexes, indexId);
      if !spaceOk || !indexOk {
        return NotAllowed;
      }
      status := if expects == [false, false, false, false, false] then Ok else BadRequest;
    }
  }

  lemma AtTheEnd(c: Conf, ps: seq<Pair>, f: Filling, expects: seq<bool>, slots: seq<nat>, now: Filling)
    requires After(c, ps, |ps|, f, expects, slots, now)
    ensures |expects| == |slots| == SLOTS
    ensures !LimitExceeded(c, ps)
    ensures AllBound(c, ps) <==> expects == [false, false, false, false, false]
    ensures forall k :: 0 < k < SLOTS ==> slots[k] == Final(c, ps, k)
    ensures !expects[LIMIT] ==> slots[LIMIT] == Final(c, ps, LIMIT)
    ensures now == BindAll(f, Left(c, ps, |ps|))
  {
    hide BoundAt, Default, Worth, BindAll, Left;
    assert Name(c, LIMIT) == c.limitName;
    assert expects[LIMIT] <==> Waits(c, ps, LIMIT, |ps|);
    forall k | 0 <= k < SLOTS
      ensures expects[k] <==> Name(c, k).Some? && BoundAt(c, ps, k) == |ps|
    {
      assert BoundAt(c, ps, k) <= |ps|;
    }
    if expects == [false, false, false, false, false] {
      assert forall k :: 0 <= k < SLOTS ==> !expects[k];
    }
  }
}

/** From the settings of a location and the query to the numbers in the request, under keys written out here. */
module DmlSettings {
  import opened Bytes
  import opened MsgPack
  import opened QueryArgs
  import opened FormatPrepare
  import opened FormatBind
  import opened DmlRequests

  /** Pair j binds the name n: it is well-formed. */
  predicate Binds(ps: seq<Pair>, j: nat, n: seq<byte>, read: seq<byte> -> Option<nat>) {
    j < |ps| && ps[j].key == n && read(ps[j].value).Some?
  }

  predicate FirstToBind(ps: seq<Pair>, j: nat, n: seq<byte>, read: seq<byte> -> Option<nat>) {
    Binds(ps, j, n, read) && forall m :: 0 <= m < j ==> !Binds(ps, m, n, read)
  }

  /**
   Under the key stands the fixed number if no name is configured for it, and
   otherwise the number of a well-formed pair of that name; of the first one, if
   no other name is the same.
   */
  ghost predicate Sends(es: seq<Entry>, key: byte, name: Option<seq<byte>>, fixed: nat, ps: seq<Pair>,
                  read: seq<byte> -> Option<nat>, alone: bool)
  {
    match name
    case None => Lookup(es, Uint(key)) == Some(Uint(fixed % 0x1_0000_0000))
    case Some(n) =>
      exists j: nat :: Binds(ps, j, n, read) && (alone ==> FirstToBind(ps, j, n, read))
                  && Lookup(es, Uint(key)) == Some(Uint(read(ps[j].value).value % 0x1_0000_0000))
  }

  /** The number under the key is one of the list, if there is a list. */
  ghost predicate Permits(es: seq<Entry>, key: byte, allowed: Option<seq<nat>>) {
    exists id: nat :: Lookup(es, Uint(key)) == Some(Uint(id % 0x1_0000_0000))
                      && (allowed.Some? ==> id in allowed.value)
  }

  predicate Apart(a: Option<seq<byte>>, b: Option<seq<byte>>) {
    a.Some? ==> a != b
  }

  /** No two of the five names are the same. */
  predicate NamesApart(c: Conf) {
    && Apart(c.limitName, c.offsetName) && Apart(c.limitName, c.iterName) && Apart(c.limitName, c.spaceName)
    && Apart(c.limitName, c.indexName) && Apart(c.offsetName, c.iterName) && Apart(c.offsetName, c.spaceName)
    && Apart(c.offsetName, c.indexName) && Apart(c.iterName, c.spaceName) && Apart(c.iterName, c.indexName)
    && Apart(c.spaceName, c.indexName)
  }

  lemma NamesDiffer(c: Conf, k: nat)
    requires NamesApart(c) && k < SLOTS && Name(c, k).Some?
    ensures forall i :: 0 <= i < k ==> Name(c, i) != Name(c, k)
  {
  }

  /** What a slot ends up with. */
  lemma SlotSent(c: Conf, ps: seq<Pair>, k: nat, es: seq<Entry>, key: byte, read: seq<byte> -> Option<nat>)
    requires k < SLOTS && Answer(c, ps) == Ok
    requires Lookup(es, Uint(key)) == Some(Uint(Final(c, ps, k) % TWO_32))
    requires forall text :: read(text) == Worth(c, k, text)
    ensures Sends(es, key, Name(c, k), Default(c, k), ps, read, NamesApart(c))
  {
    hide Default, Worth, Answer, Atoi, Name, NamesApart, FirstFrom;
    Accepted(c, ps);
    var j := BoundAt(c, ps, k);
    if Name(c, k).Some? {
      BoundSuits(c, ps, k);
      assert Binds(ps, j, Name(c, k).value, read);
      if NamesApart(c) {
        NamesDiffer(c, k);
        BoundOnce(c, ps, k);
        assert FirstToBind(ps, j, Name(c, k).value, read);
      }
    }
  }

  lemma BoundSuits(c: Conf, ps: seq<Pair>, k: nat)
    requires BoundAt(c, ps, k) < |ps|
    ensures Suits(c, k, ps[BoundAt(c, ps, k)])
  {
    hide Name, Worth;
  }

  lemma IsPermitted(es: seq<Entry>, key: byte, allowed: Option<seq<nat>>, id: nat)
    requires Lookup(es, Uint(key)) == Some(Uint(id % TWO_32)) && Allowed(allowed, id)
    ensures Permits(es, key, allowed)
  {
    hide Lookup;
  }

  /** Space 0x10, index 0x11, limit 0x12, offset 0x13 and iterator 0x14, as they are set or asked for. */
  ghost predicate SettingsSay(c: Conf, req: ReqType, es: seq<Entry>, ps: seq<Pair>) {
    && Sends(es, 0x10, c.spaceName, c.spaceId, ps, Atoi, NamesApart(c))
    && Permits(es, 0x10, c.allowedSpaces)
    && (req == Delete || req == Update || req == Select ==>
          && Sends(es, 0x11, c.indexName, c.indexId, ps, Atoi, NamesApart(c))
          && Permits(es, 0x11, c.allowedIndexes))
    && (req == Select ==>
          && Sends(es, 0x12, c.limitName, c.limit, ps, Atoi, NamesApart(c))
          && Sends(es, 0x13, c.offsetName, c.offset, ps, Atoi, NamesApart(c))
          && Sends(es, 0x14, c.iterName, c.iterType, ps, c.readIterator, NamesApart(c)))
  }

  /** For an accepted query: every number in the request is the one that is set or asked for under its name. */
  lemma SettingsSent(c: Conf, req: ReqType, formats: seq<Format>, ps: seq<Pair>)
    requires Answer(c, ps) == Ok
    ensures SettingsSay(c, req, Expected(req, FinalSlots(c, ps), Bindings(c, formats, ps).values), ps)
  {
    hide Sends, Permits, Expected, Bindings, Final, Answer, NamesApart, Lookup, Atoi;
    var es := Expected(req, FinalSlots(c, ps), Bindings(c, formats, ps).values);
    NumbersSent(req, FinalSlots(c, ps), Bindings(c, formats, ps).values);
    Accepted(c, ps);
    assert Lookup(es, Uint(0x10)) == Some(Uint(Final(c, ps, SPACE) % 0x1_0000_0000));
    SlotSent(c, ps, SPACE, es, 0x10, Atoi);
    IsPermitted(es, 0x10, c.allowedSpaces, Final(c, ps, SPACE));
    if req == Delete || req == Update || req == Select {
      assert Lookup(es, Uint(0x11)) == Some(Uint(Final(c, ps, INDEX) % 0x1_0000_0000));
      SlotSent(c, ps, INDEX, es, 0x11, Atoi);
      IsPermitted(es, 0x11, c.allowedIndexes, Final(c, ps, INDEX));
    }
    if req == Select {
      SlotSent(c, ps, LIMIT, es, 0x12, Atoi);
      SlotSent(c, ps, OFFSET, es, 0x13, Atoi);
      SlotSent(c, ps, ITERATOR, es, 0x14, c.readIterator);
    }
  }

  // -------------------------------------------------- pairs left to the values

  /** The n-th pair is of this name, and no pair before it bound the name. */
  predicate StillFor(ps: seq<Pair>, n: nat, name: Option<seq<byte>>, read: seq<byte> -> Option<nat>)
    requires n < |ps|
  {
    name == Some(ps[n].key) && forall m :: 0 <= m < n ==> !Binds(ps, m, ps[n].key, read)
  }

  lemma SlotWaits(c: Conf, ps: seq<Pair>, n: nat, k: nat, read: seq<byte> -> Option<nat>)
    requires NamesApart(c) && n < |ps| && k < SLOTS
    requires forall text :: read(text) == Worth(c, k, text)
    ensures Name(c, k) == Some(ps[n].key) && Waits(c, ps, k, n) <==> StillFor(ps, n, Name(c, k), read)
  {
    hide Name, Worth, NamesApart, FirstFrom;
    if Name(c, k) == Some(ps[n].key) {
      NamesDiffer(c, k);
      DistinctNames(c, ps, k);
      forall m | 0 <= m < |ps|
        ensures Suits(c, k, ps[m]) <==> Binds(ps, m, ps[n].key, read)
      {
      }
    }
  }

  /** With names apart: which pairs are not left to the values, well-formed or not. */
  lemma PairTaken(c: Conf, ps: seq<Pair>, n: nat)
    requires NamesApart(c) && n < |ps|
    ensures ToSlot(c, ps, n) <==>
      || StillFor(ps, n, c.limitName, Atoi) || StillFor(ps, n, c.offsetName, Atoi)
      || StillFor(ps, n, c.iterName, c.readIterator) || StillFor(ps, n, c.spaceName, Atoi)
      || StillFor(ps, n, c.indexName, Atoi)
  {
    hide Atoi, NamesApart, Waits, StillFor;
    SlotWaits(c, ps, n, LIMIT, Atoi);
    SlotWaits(c, ps, n, OFFSET, Atoi);
    SlotWaits(c, ps, n, ITERATOR, c.readIterator);
    SlotWaits(c, ps, n, SPACE, Atoi);
    SlotWaits(c, ps, n, INDEX, Atoi);
    assert Name(c, LIMIT) == c.limitName && Name(c, OFFSET) == c.offsetName && Name(c, ITERATOR) == c.iterName;
    assert Name(c, SPACE) == c.spaceName && Name(c, INDEX) == c.indexName;
  }
}

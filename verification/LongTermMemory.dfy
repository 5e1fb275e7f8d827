/** The long-term memory store: an inverted entity index that must answer like a linear scan. */
module LongTermMemory {
  import opened Capabilities

  datatype MemoryRecord = MemoryRecord(tenant: string, kind: string, content: string, refs: seq<EntityRef>)

  type IndexKey = (string, string)

  /** The reference names the entity and does not carry a foreign tenant. */
  predicate Names(ref: EntityRef, tenant: string, entityId: string) {
    ref.entityId == entityId && (ref.tenant.None? || ref.tenant.value == tenant)
  }

  /** How many of the references name the entity. */
  function Mentions(refs: seq<EntityRef>, tenant: string, entityId: string): nat {
    if refs == [] then 0
    else
      Mentions(refs[..|refs| - 1], tenant, entityId)
      + if Names(refs[|refs| - 1], tenant, entityId) then 1 else 0
  }

  function Repeat<T>(x: T, n: nat): (r: seq<T>)
    ensures |r| == n && forall i :: 0 <= i < n ==> r[i] == x
  {
    seq(n, i => x)
  }

  /** The linear scan: the tenant's records in insertion order, each once per matching reference. */
  function Scan(records: seq<MemoryRecord>, tenant: string, entityId: string): seq<MemoryRecord> {
    if records == [] then []
    else
      var r := records[|records| - 1];
      Scan(records[..|records| - 1], tenant, entityId)
      + if r.tenant == tenant then Repeat(r, Mentions(r.refs, tenant, entityId)) else []
  }

  /** Positions of the scan's records. */
  ghost function Positions(records: seq<MemoryRecord>, tenant: string, entityId: string): seq<nat> {
    if records == [] then []
    else
      var n := |records| - 1;
      Positions(records[..n], tenant, entityId)
      + if records[n].tenant == tenant then Repeat(n, Mentions(records[n].refs, tenant, entityId)) else []
  }

  ghost function At(index: map<IndexKey, seq<nat>>, key: IndexKey): seq<nat> {
    if key in index then index[key] else []
  }

  /** Under a key, the index lists exactly the positions the scan visits. */
  ghost predicate Exact(index: map<IndexKey, seq<nat>>, records: seq<MemoryRecord>, t: string, e: string) {
    At(index, (t, e)) == Positions(records, t, e)
  }

  /** The records at some positions. */
  function Fetch(records: seq<MemoryRecord>, positions: seq<nat>): seq<MemoryRecord>
    requires forall p :: p in positions ==> p < |records|
  {
    seq(|positions|, i requires 0 <= i < |positions| => assert positions[i] in positions; records[positions[i]])
  }

  lemma {:induction false} PositionsInRange(records: seq<MemoryRecord>, tenant: string, entityId: string)
    ensures forall p :: p in Positions(records, tenant, entityId) ==> p < |records| && records[p].tenant == tenant
    decreases |records|
  {
    if records != [] {
      PositionsInRange(records[..|records| - 1], tenant, entityId);
    }
  }

  /** Fetching the indexed positions is the linear scan. */
  lemma {:induction false} FetchIsScan(records: seq<MemoryRecord>, tenant: string, entityId: string)
    ensures forall p :: p in Positions(records, tenant, entityId) ==> p < |records|
    ensures Fetch(records, Positions(records, tenant, entityId)) == Scan(records, tenant, entityId)
    decreases |records|
  {
    PositionsInRange(records, tenant, entityId);
    if records != [] {
      var init := records[..|records| - 1];
      PositionsInRange(init, tenant, entityId);
      FetchIsScan(init, tenant, entityId);
      assert Fetch(records, Positions(init, tenant, entityId)) == Fetch(init, Positions(init, tenant, entityId));
    }
  }

  /** No other tenant's record is ever in a scan. */
  lemma {:induction false} ScanKeepsTenant(records: seq<MemoryRecord>, tenant: string, entityId: string, r: MemoryRecord)
    requires r in Scan(records, tenant, entityId)
    ensures r.tenant == tenant && r in records && Mentions(r.refs, tenant, entityId) > 0
    decreases |records|
  {
    if r in Scan(records[..|records| - 1], tenant, entityId) {
      ScanKeepsTenant(records[..|records| - 1], tenant, entityId, r);
    }
  }

  /** A record matches exactly when one of its references names the entity without a foreign tenant. */
  lemma {:induction false} MentionsSome(refs: seq<EntityRef>, tenant: string, entityId: string)
    ensures Mentions(refs, tenant, entityId) > 0 <==>
            exists i :: 0 <= i < |refs| && refs[i].entityId == entityId
                        && (refs[i].tenant.None? || refs[i].tenant.value == tenant)
    decreases |refs|
  {
    if refs != [] {
      MentionsSome(refs[..|refs| - 1], tenant, entityId);
    }
  }

  /** How often the records of the tenant that equal `r` mention the entity, all together. */
  ghost function Expected(records: seq<MemoryRecord>, tenant: string, entityId: string, r: MemoryRecord): nat {
    if records == [] then 0
    else
      var x := records[|records| - 1];
      Expected(records[..|records| - 1], tenant, entityId, r)
      + if x == r && x.tenant == tenant then Mentions(x.refs, tenant, entityId) else 0
  }

  /** Every record of the tenant is returned as often as its references name the entity. */
  lemma {:induction false} ScanCounts(records: seq<MemoryRecord>, tenant: string, entityId: string, r: MemoryRecord)
    ensures multiset(Scan(records, tenant, entityId))[r] == Expected(records, tenant, entityId, r)
    decreases |records|
  {
    if records != [] {
      var n := |records| - 1;
      ScanCounts(records[..n], tenant, entityId, r);
      RepeatCounts(records[n], Mentions(records[n].refs, tenant, entityId), r);
      var before := Scan(records[..n], tenant, entityId);
      assert before + [] == before;
    }
  }

  lemma {:induction false} RepeatCounts<T>(x: T, n: nat, y: T)
    ensures multiset(Repeat(x, n))[y] == if x == y then n else 0
    decreases n
  {
    if n > 0 {
      RepeatCounts(x, n - 1, y);
      assert Repeat(x, n) == Repeat(x, n - 1) + [x];
    }
  }

  /** Every matching record of the tenant is found. */
  lemma {:induction false} ScanComplete(records: seq<MemoryRecord>, tenant: string, entityId: string, i: nat)
    requires i < |records| && records[i].tenant == tenant && Mentions(records[i].refs, tenant, entityId) > 0
    ensures records[i] in Scan(records, tenant, entityId)
    decreases |records|
  {
    var n := |records| - 1;
    if i < n {
      ScanComplete(records[..n], tenant, entityId, i);
    } else {
      assert Repeat(records[n], Mentions(records[n].refs, tenant, entityId))[0] == records[n];
    }
  }

  /** What the first k references of a new record add under a key. */
  ghost function Added(records: seq<MemoryRecord>, record: MemoryRecord, k: nat, t: string, e: string): seq<nat>
    requires k <= |record.refs|
  {
    if record.tenant == t then Repeat(|records|, Mentions(record.refs[..k], t, e)) else []
  }

  ghost predicate IndexedUpTo(index: map<IndexKey, seq<nat>>, records: seq<MemoryRecord>, record: MemoryRecord, k: nat)
    requires k <= |record.refs|
  {
    forall t, e :: IndexedAt(index, records, record, k, t, e)
  }

  ghost predicate IndexedAt(
    index: map<IndexKey, seq<nat>>, records: seq<MemoryRecord>, record: MemoryRecord, k: nat, t: string, e: string)
    requires k <= |record.refs|
  {
    At(index, (t, e)) == Positions(records, t, e) + Added(records, record, k, t, e)
  }

  /** One more reference adds the position under the key it names, and under no other. */
  lemma AddedOne(records: seq<MemoryRecord>, record: MemoryRecord, k: nat, t: string, e: string)
    requires k < |record.refs|
    ensures Added(records, record, k + 1, t, e) ==
            Added(records, record, k, t, e)
            + if record.tenant == t && Names(record.refs[k], t, e) then [|records|] else []
  {
    assert record.refs[..k + 1][..k] == record.refs[..k] && record.refs[..k + 1][k] == record.refs[k];
  }

  lemma IndexOne(index: map<IndexKey, seq<nat>>, records: seq<MemoryRecord>, record: MemoryRecord, k: nat)
    requires k < |record.refs| && IndexedUpTo(index, records, record, k)
    ensures var ent := record.refs[k];
            var key := (record.tenant, ent.entityId);
            IndexedUpTo(if ent.tenant.Some? && ent.tenant.value != record.tenant then index
                        else index[key := At(index, key) + [|records|]], records, record, k + 1)
  {
    var ent := record.refs[k];
    var key := (record.tenant, ent.entityId);
    var next := if ent.tenant.Some? && ent.tenant.value != record.tenant then index
                else index[key := At(index, key) + [|records|]];
    var more := k + 1;
    forall t, e
      ensures IndexedAt(next, records, record, more, t, e)
    {
      AddedOne(records, record, k, t, e);
      assert IndexedAt(index, records, record, k, t, e);
    }
  }

  lemma NothingAdded(index: map<IndexKey, seq<nat>>, records: seq<MemoryRecord>, record: MemoryRecord)
    requires forall t, e :: Exact(index, records, t, e)
    ensures IndexedUpTo(index, records, record, 0)
  {
    forall t, e
      ensures IndexedAt(index, records, record, 0, t, e)
    {
      assert Exact(index, records, t, e);
      assert record.refs[..0] == [];
      assert Positions(records, t, e) + [] == Positions(records, t, e);
    }
  }

  lemma AllAdded(index: map<IndexKey, seq<nat>>, records: seq<MemoryRecord>, record: MemoryRecord)
    requires IndexedUpTo(index, records, record, |record.refs|)
    ensures var more := records + [record]; forall t, e :: Exact(index, more, t, e)
  {
    var more := records + [record];
    forall t, e
      ensures Exact(index, more, t, e)
    {
      assert IndexedAt(index, records, record, |record.refs|, t, e);
      assert record.refs[..|record.refs|] == record.refs;
      assert (records + [record])[..|records|] == records;
    }
  }

  class InMemoryLongTermStore {
    var records: seq<MemoryRecord>
    var entityIndex: map<IndexKey, seq<nat>>

    /** The index lists, under every key, exactly the positions the scan would visit. */
    ghost predicate Valid()
      reads this
    {
      forall t, e :: Exact(entityIndex, records, t, e)
    }

    constructor ()
      ensures Valid() && records == []
    {
      records, entityIndex := [], map[];
    }

    /** Add the position about to be used under every key the record's references name. */
    method IndexRefs(record: MemoryRecord)
      requires Valid()
      modifies this`entityIndex
      ensures IndexedUpTo(entityIndex, records, record, |record.refs|)
    {
      var idx := |records|;
      NothingAdded(entityIndex, records, record);
      for k := 0 to |record.refs|
        invariant IndexedUpTo(entityIndex, records, record, k)
      {
        var ent := record.refs[k];
        IndexOne(entityIndex, records, record, k);
        if ent.tenant.Some? && ent.tenant.value != record.tenant {
          continue;
        }
        var key := (record.tenant, ent.entityId);
        assert At(entityIndex, key) == if key in entityIndex then entityIndex[key] else [];
        entityIndex := entityIndex[key := (if key in entityIndex then entityIndex[key] else []) + [idx]];
      }
    }

    method Insert(record: MemoryRecord)
      requires Valid()
      modifies this
      ensures Valid() && records == old(records) + [record]
    {
      IndexRefs(record);
      AllAdded(entityIndex, records, record);
      records := records + [record];
    }

    method SearchByEntity(tenant: string, entityId: string, limit: nat) returns (hits: seq<MemoryRecord>)
      requires Valid()
      ensures hits == Scan(records, tenant, entityId)[..if limit <= |Scan(records, tenant, entityId)| then limit
                                                       else |Scan(records, tenant, entityId)|]
    {
      FetchIsScan(records, tenant, entityId);
      PositionsInRange(records, tenant, entityId);
      ghost var expected := Positions(records, tenant, entityId);
      assert Exact(entityIndex, records, tenant, entityId);
      var key := (tenant, entityId);
      if key !in entityIndex {
        return [];
      }
      var indices := entityIndex[key];
      hits := [];
      for i := 0 to |indices|
        invariant |hits| == i && forall j :: 0 <= j < i ==> hits[j] == Fetch(records, expected)[j]
      {
        assert indices[i] in expected;
        if indices[i] < |records| && records[indices[i]].tenant == tenant {
          hits := hits + [records[indices[i]]];
        }
      }
      assert hits == Fetch(records, expected);
      if |hits| > limit { hits := hits[..limit]; }
    }
  }

  /** For every history of insertions, the search answers with the start of the linear scan over that history. */
  method SearchAfter(history: seq<MemoryRecord>, tenant: string, entityId: string, limit: nat)
    returns (hits: seq<MemoryRecord>)
    ensures var scan := Scan(history, tenant, entityId);
            hits == if limit <= |scan| then scan[..limit] else scan
  {
    var store := new InMemoryLongTermStore();
    for i := 0 to |history|
      invariant fresh(store) && store.Valid() && store.records == history[..i]
    {
      store.Insert(history[i]);
    }
    assert history[..|history|] == history;
    hits := store.SearchByEntity(tenant, entityId, limit);
    ghost var scan := Scan(history, tenant, entityId);
    assert scan[..|scan|] == scan;
  }
}

/** Safety of a set of capabilities planned together. */
module Composition {
  import opened Capabilities
  import opened Contracts
  import opened Ordering
  import opened SortedMap

  datatype ClassificationHint = HintPublic | HintInternal | HintPii | HintRegulated(regime: string) {
    function Level(): nat {
      match this
      case HintPublic => 0
      case HintInternal => 1
      case HintPii => 2
      case HintRegulated(_) => 3
    }
  }

  function LevelOf(c: DataClassification): nat {
    match c
    case Public => 0
    case Internal => 1
    case Confidential => 2
    case Restricted => 3
  }

  datatype Violation =
    | DoubleWrite(entityId: string, capabilities: seq<string>)
    | ClassificationLeak(capability: string, entity: string, level: DataClassification, hint: ClassificationHint)
    | CrossTenantFanOut(tenants: set<string>)

  type Lookup = string -> Option<ClassificationHint>

  // ---- what the detectors look at

  function WriteClassCount(caps: seq<Capability>): nat {
    if caps == [] then 0
    else WriteClassCount(caps[..|caps| - 1]) + if caps[|caps| - 1].sideEffect.WriteClass() then 1 else 0
  }

  predicate IsSafe(maxWrites: nat, caps: seq<Capability>) {
    WriteClassCount(caps) <= maxWrites
  }

  /** The capability id once for each of its write entries on the entity. */
  function EntryWriters(id: string, writes: seq<EntityRef>, entity: string): seq<string> {
    if writes == [] then []
    else
      EntryWriters(id, writes[..|writes| - 1], entity)
      + if writes[|writes| - 1].entityId == entity then [id] else []
  }

  /** Ids of the capabilities behind the write entries on an entity, in order, with repeats. */
  function Writers(caps: seq<Capability>, entity: string): seq<string> {
    if caps == [] then []
    else
      var c := caps[|caps| - 1];
      Writers(caps[..|caps| - 1], entity) + EntryWriters(c.id, c.writes, entity)
  }

  /** Some write entry puts the entity under the tenant. */
  ghost predicate WritesUnder(caps: seq<Capability>, entity: string, tenant: string) {
    exists c, w :: c in caps && w in c.writes && w.entityId == entity && w.tenant == Some(tenant)
  }

  ghost predicate FansOut(caps: seq<Capability>, entity: string) {
    exists s, t :: s != t && WritesUnder(caps, entity, s) && WritesUnder(caps, entity, t)
  }

  /** Which data a class may not be given, by name. */
  ghost predicate Outranks(hint: ClassificationHint, cls: DataClassification) {
    match cls
    case Public => !hint.HintPublic?
    case Internal => hint.HintPii? || hint.HintRegulated?
    case Confidential => hint.HintRegulated?
    case Restricted => false
  }

  /** The ranks compare as the names say. */
  lemma RanksExactly(hint: ClassificationHint, cls: DataClassification)
    ensures hint.Level() > LevelOf(cls) <==> Outranks(hint, cls)
  {
  }

  ghost predicate Leaks(cap: Capability, read: EntityRef, lookup: Lookup) {
    lookup(read.entityId).Some? && Outranks(lookup(read.entityId).value, cap.classification)
  }

  /** No entity is named by two write entries. */
  ghost predicate SingleWriters(caps: seq<Capability>) {
    forall e :: |Writers(caps, e)| < 2
  }

  /** No read outranks the class of its capability. */
  ghost predicate NoLeaks(caps: seq<Capability>, lookup: Lookup) {
    forall c, r :: c in caps && r in c.reads_ ==> !Leaks(c, r, lookup)
  }

  /** The verdict in one formula: few enough writes, no entity named by two write entries, no read above its
      capability's class. */
  ghost predicate Accepts(maxWrites: nat, lookup: Option<Lookup>, caps: seq<Capability>) {
    && WriteClassCount(caps) <= maxWrites
    && SingleWriters(caps)
    && (lookup.Some? ==> NoLeaks(caps, lookup.value))
  }

  // ---- the detectors

  lemma {:induction false} EntryWritersSome(id: string, writes: seq<EntityRef>, entity: string)
    ensures |EntryWriters(id, writes, entity)| > 0 <==> exists w :: w in writes && w.entityId == entity
    decreases |writes|
  {
    if writes != [] {
      var init, last := writes[..|writes| - 1], writes[|writes| - 1];
      EntryWritersSome(id, init, entity);
      assert writes == init + [last];
    }
  }

  lemma {:induction false} WritersSome(caps: seq<Capability>, entity: string)
    ensures |Writers(caps, entity)| > 0 <==> exists c, w :: c in caps && w in c.writes && w.entityId == entity
    decreases |caps|
  {
    if caps != [] {
      var init, c := caps[..|caps| - 1], caps[|caps| - 1];
      WritersSome(init, entity);
      EntryWritersSome(c.id, c.writes, entity);
      assert caps == init + [c];
    }
  }

  type WriterMap = SortedMap<seq<string>>

  function Listed(s: WriterMap, entity: string): seq<string> {
    if entity in s.entries then s.entries[entity] else []
  }

  function Push(s: WriterMap, entity: string, id: string): WriterMap {
    s.Put(entity, Listed(s, entity) + [id])
  }

  /** The map holds the writers of `done`, then those of some entries of one more capability. */
  ghost predicate Grouped(s: WriterMap, done: seq<Capability>, id: string, writes: seq<EntityRef>, e: string) {
    Listed(s, e) == Writers(done, e) + EntryWriters(id, writes, e)
  }

  lemma EntryWritersAppend(id: string, writes: seq<EntityRef>, w: EntityRef, e: string)
    ensures EntryWriters(id, writes + [w], e) == EntryWriters(id, writes, e) + if w.entityId == e then [id] else []
  {
    assert (writes + [w])[..|writes|] == writes;
  }

  lemma JoinLast(a: seq<string>, b: seq<string>, id: string)
    ensures a + (b + [id]) == (a + b) + [id] && a + (b + []) == a + b
  {
  }

  lemma GroupEntry(s: WriterMap, t: WriterMap, done: seq<Capability>, id: string, writes: seq<EntityRef>,
                   w: EntityRef, e: string)
    requires Grouped(s, done, id, writes, e)
    requires Listed(t, e) == if e == w.entityId then Listed(s, e) + [id] else Listed(s, e)
    ensures Grouped(t, done, id, writes + [w], e)
  {
    EntryWritersAppend(id, writes, w, e);
    JoinLast(Writers(done, e), EntryWriters(id, writes, e), id);
  }

  lemma GroupEntries(s: WriterMap, done: seq<Capability>, id: string, writes: seq<EntityRef>, w: EntityRef)
    requires s.Valid() && forall e :: Grouped(s, done, id, writes, e)
    ensures var t := Push(s, w.entityId, id); t.Valid() && forall e :: Grouped(t, done, id, writes + [w], e)
  {
    var t := Push(s, w.entityId, id);
    PushLists(s, w.entityId, id);
    forall e
      ensures Grouped(t, done, id, writes + [w], e)
    {
      assert Grouped(s, done, id, writes, e);
      GroupEntry(s, t, done, id, writes, w, e);
    }
  }

  lemma PushLists(s: WriterMap, entity: string, id: string)
    requires s.Valid()
    ensures Push(s, entity, id).Valid()
    ensures forall e :: Listed(Push(s, entity, id), e) == if e == entity then Listed(s, e) + [id] else Listed(s, e)
  {
    s.PutValid(entity, Listed(s, entity) + [id]);
  }

  /** Add the write entries of one capability. */
  method GroupOne(s0: WriterMap, ghost done: seq<Capability>, cap: Capability) returns (s: WriterMap)
    requires s0.Valid() && forall e :: Grouped(s0, done, cap.id, [], e)
    ensures s.Valid() && forall e :: Grouped(s, done, cap.id, cap.writes, e)
  {
    s := s0;
    assert cap.writes[..0] == [];
    for k := 0 to |cap.writes|
      invariant s.Valid() && forall e :: Grouped(s, done, cap.id, cap.writes[..k], e)
    {
      var w := cap.writes[k];
      ghost var next := cap.writes[..k + 1];
      assert next == cap.writes[..k] + [w];
      GroupEntries(s, done, cap.id, cap.writes[..k], w);
      s := Push(s, w.entityId, cap.id);
    }
    assert cap.writes[..|cap.writes|] == cap.writes;
  }

  ghost predicate GroupedAll(s: WriterMap, caps: seq<Capability>, e: string) {
    Listed(s, e) == Writers(caps, e)
  }

  /** Group the write entries by entity. */
  method GroupWrites(caps: seq<Capability>) returns (s: WriterMap)
    ensures s.Valid() && forall e :: GroupedAll(s, caps, e)
  {
    s := SortedMap(map[], []);
    assert Elems<string>([]) == {};
    for i := 0 to |caps|
      invariant s.Valid() && forall e :: GroupedAll(s, caps[..i], e)
    {
      ghost var done, next := caps[..i], caps[..i + 1];
      forall e
        ensures Grouped(s, done, caps[i].id, [], e)
      {
        assert GroupedAll(s, done, e) && Writers(done, e) + [] == Writers(done, e);
      }
      s := GroupOne(s, done, caps[i]);
      forall e
        ensures GroupedAll(s, next, e)
      {
        assert Grouped(s, done, caps[i].id, caps[i].writes, e);
        assert next[..i] == done && next[i] == caps[i];
      }
    }
    assert caps[..|caps|] == caps;
  }

  /** The report names the least entity with two write entries, and all its writers in order. */
  ghost predicate DoubleWriteReport(caps: seq<Capability>, v: Violation) {
    && v.DoubleWrite? && v.capabilities == Writers(caps, v.entityId) && |v.capabilities| >= 2
    && forall e :: |Writers(caps, e)| >= 2 ==> AtMost(v.entityId, e)
  }

  method DetectDoubleWrite(caps: seq<Capability>) returns (v: Option<Violation>)
    ensures v.None? <==> SingleWriters(caps)
    ensures v.Some? ==> DoubleWriteReport(caps, v.value)
  {
    var writers := GroupWrites(caps);
    for i := 0 to |writers.keys|
      invariant forall j :: 0 <= j < i ==> |Listed(writers, writers.keys[j])| < 2
    {
      var e := writers.keys[i];
      assert e in Elems(writers.keys);
      if |writers.entries[e]| >= 2 {
        forall x | |Writers(caps, x)| >= 2
          ensures AtMost(e, x)
        {
          assert GroupedAll(writers, caps, x) && x in Elems(writers.keys);
          var j :| 0 <= j < |writers.keys| && writers.keys[j] == x;
        }
        assert GroupedAll(writers, caps, e) && |Writers(caps, e)| >= 2;
        return Some(DoubleWrite(e, writers.entries[e]));
      }
    }
    forall e
      ensures |Writers(caps, e)| < 2
    {
      assert GroupedAll(writers, caps, e);
      if e in Elems(writers.keys) {
        var j :| 0 <= j < |writers.keys| && writers.keys[j] == e;
      }
    }
    return None;
  }

  /** Reports the first capability, and its first read, that outranks the capability's class. */
  method DetectClassificationLeak(caps: seq<Capability>, lookup: Lookup) returns (v: Option<Violation>)
    ensures v.None? <==> NoLeaks(caps, lookup)
    ensures v.Some? ==>
              exists i: nat, k: nat :: LeakReport(caps, i, k, lookup, v.value)
  {
    for i := 0 to |caps|
      invariant forall j, m :: 0 <= j < i && 0 <= m < |caps[j].reads_| ==> !Leaks(caps[j], caps[j].reads_[m], lookup)
    {
      var cap := caps[i];
      var capLevel := LevelOf(cap.classification);
      for k := 0 to |cap.reads_|
        invariant forall m :: 0 <= m < k ==> !Leaks(cap, cap.reads_[m], lookup)
      {
        var read := cap.reads_[k];
        var hint := lookup(read.entityId);
        if hint.Some? { RanksExactly(hint.value, cap.classification); }
        if hint.Some? && hint.value.Level() > capLevel {
          v := Some(ClassificationLeak(cap.id, read.entityId, cap.classification, hint.value));
          assert cap in caps && read in cap.reads_ && Leaks(cap, read, lookup);
          assert LeakReport(caps, i, k, lookup, v.value);
          return;
        }
      }
    }
    return None;
  }

  /** The reported leak is the first one in capability and read order. */
  ghost predicate LeakReport(caps: seq<Capability>, i: nat, k: nat, lookup: Lookup, v: Violation)
  {
    && i < |caps| && k < |caps[i].reads_|
    && Leaks(caps[i], caps[i].reads_[k], lookup)
    && v == ClassificationLeak(caps[i].id, caps[i].reads_[k].entityId, caps[i].classification,
                               lookup(caps[i].reads_[k].entityId).value)
    && (forall j, m :: 0 <= j < i && 0 <= m < |caps[j].reads_| ==> !Leaks(caps[j], caps[j].reads_[m], lookup))
    && (forall m :: 0 <= m < k ==> !Leaks(caps[i], caps[i].reads_[m], lookup))
  }

  // ---- cross-tenant fan-out

  ghost predicate EntryUnder(writes: seq<EntityRef>, entity: string, tenant: string) {
    exists w :: w in writes && w.entityId == entity && w.tenant == Some(tenant)
  }

  lemma WritesUnderAppend(caps: seq<Capability>, cap: Capability, entity: string, tenant: string)
    ensures WritesUnder(caps + [cap], entity, tenant) <==>
            WritesUnder(caps, entity, tenant) || EntryUnder(cap.writes, entity, tenant)
  {
    assert forall c :: c in caps + [cap] <==> c in caps || c == cap;
  }

  function TenantsAt(perEntity: map<string, set<string>>, entity: string): set<string> {
    if entity in perEntity then perEntity[entity] else {}
  }

  /** The tenants under which an entity was written so far. */
  ghost predicate TenantsKnown(perEntity: map<string, set<string>>, done: seq<Capability>, writes: seq<EntityRef>, e: string) {
    forall t :: t in TenantsAt(perEntity, e) <==> WritesUnder(done, e, t) || EntryUnder(writes, e, t)
  }

  ghost predicate Tenanted(tenants: set<string>, perEntity: map<string, set<string>>, t: string) {
    t in tenants <==> exists e :: e in perEntity && t in perEntity[e]
  }

  function AddTenant(perEntity: map<string, set<string>>, entity: string, t: string): map<string, set<string>> {
    perEntity[entity := TenantsAt(perEntity, entity) + {t}]
  }

  lemma AddTenantKeeps(tenants: set<string>, perEntity: map<string, set<string>>, entity: string, t: string)
    requires forall x :: Tenanted(tenants, perEntity, x)
    ensures forall x :: Tenanted(tenants + {t}, AddTenant(perEntity, entity, t), x)
  {
    var next := AddTenant(perEntity, entity, t);
    assert t in next[entity];
    forall x
      ensures Tenanted(tenants + {t}, next, x)
    {
      assert Tenanted(tenants, perEntity, x);
      if x in tenants {
        var e :| e in perEntity && x in perEntity[e];
        assert x in next[e];
      }
      if e :| e in next && x in next[e] {
        assert x == t || (e in perEntity && x in perEntity[e]);
      }
    }
  }

  method GroupTenants(caps: seq<Capability>) returns (tenants: set<string>, perEntity: map<string, set<string>>)
    ensures forall e :: TenantsKnown(perEntity, caps, [], e)
    ensures forall t :: Tenanted(tenants, perEntity, t)
  {
    tenants, perEntity := {}, map[];
    for i := 0 to |caps|
      invariant forall e :: TenantsKnown(perEntity, caps[..i], [], e)
      invariant forall t :: Tenanted(tenants, perEntity, t)
    {
      ghost var done, next := caps[..i], caps[..i + 1];
      tenants, perEntity := GroupTenantsOf(done, caps[i], tenants, perEntity);
      forall e
        ensures TenantsKnown(perEntity, next, [], e)
      {
        assert TenantsKnown(perEntity, done, caps[i].writes, e);
        assert next == done + [caps[i]];
        forall t
          ensures WritesUnder(next, e, t) <==> WritesUnder(done, e, t) || EntryUnder(caps[i].writes, e, t)
        {
          WritesUnderAppend(done, caps[i], e, t);
        }
      }
    }
    assert caps[..|caps|] == caps;
  }

  method GroupTenantsOf(ghost done: seq<Capability>, cap: Capability, tenants0: set<string>, perEntity0: map<string, set<string>>)
    returns (tenants: set<string>, perEntity: map<string, set<string>>)
    requires forall e :: TenantsKnown(perEntity0, done, [], e)
    requires forall t :: Tenanted(tenants0, perEntity0, t)
    ensures forall e :: TenantsKnown(perEntity, done, cap.writes, e)
    ensures forall t :: Tenanted(tenants, perEntity, t)
  {
    tenants, perEntity := tenants0, perEntity0;
    assert cap.writes[..0] == [];
    for k := 0 to |cap.writes|
      invariant forall e :: TenantsKnown(perEntity, done, cap.writes[..k], e)
      invariant forall t :: Tenanted(tenants, perEntity, t)
    {
      var w := cap.writes[k];
      ghost var before, next := cap.writes[..k], cap.writes[..k + 1];
      assert next == before + [w];
      assert forall x :: x in next <==> x in before || x == w;
      ghost var earlier := perEntity;
      if w.tenant.Some? {
        var t := w.tenant.value;
        AddTenantKeeps(tenants, perEntity, w.entityId, t);
        tenants := tenants + {t};
        perEntity := AddTenant(perEntity, w.entityId, t);
      }
      forall e
        ensures TenantsKnown(perEntity, done, next, e)
      {
        assert TenantsKnown(earlier, done, before, e);
      }
    }
    assert cap.writes[..|cap.writes|] == cap.writes;
  }

  lemma TwoMembers<T>(s: set<T>)
    ensures |s| >= 2 <==> exists x, y :: x in s && y in s && x != y
  {
    if |s| >= 2 {
      var x :| x in s;
      assert |s - {x}| >= 1;
      var y :| y in s - {x};
    } else if exists x, y :: x in s && y in s && x != y {
      var x, y :| x in s && y in s && x != y;
      assert {x, y} <= s;
      SubsetCardinality({x, y}, s);
    }
  }

  /** The report lists every tenant written under. */
  ghost predicate FanOutReport(caps: seq<Capability>, v: Violation) {
    v.CrossTenantFanOut? && forall t :: t in v.tenants <==> exists e :: WritesUnder(caps, e, t)
  }

  /** Fires exactly when some entity is written under two tenants. */
  method DetectCrossTenantFanOut(caps: seq<Capability>) returns (v: Option<Violation>)
    ensures v.None? <==> forall e :: !FansOut(caps, e)
    ensures v.Some? ==> FanOutReport(caps, v.value)
  {
    var tenants, perEntity := GroupTenants(caps);
    forall t
      ensures t in tenants <==> exists e :: WritesUnder(caps, e, t)
    {
      assert Tenanted(tenants, perEntity, t);
      if t in tenants {
        var e :| e in perEntity && t in perEntity[e];
        assert TenantsKnown(perEntity, caps, [], e) && t in TenantsAt(perEntity, e);
      }
      if e :| WritesUnder(caps, e, t) {
        assert TenantsKnown(perEntity, caps, [], e) && t in TenantsAt(perEntity, e);
      }
    }
    forall e
      ensures FansOut(caps, e) <==> |TenantsAt(perEntity, e)| >= 2
    {
      assert TenantsKnown(perEntity, caps, [], e);
      TwoMembers(TenantsAt(perEntity, e));
    }
    if |tenants| >= 2 && exists e :: e in perEntity && |perEntity[e]| >= 2 {
      ghost var e :| e in perEntity && |perEntity[e]| >= 2;
      assert TenantsAt(perEntity, e) == perEntity[e] && FansOut(caps, e);
      return Some(CrossTenantFanOut(tenants));
    }
    forall e
      ensures !FansOut(caps, e)
    {
      if FansOut(caps, e) {
        assert e in perEntity && |perEntity[e]| >= 2;
        forall t | t in perEntity[e]
          ensures t in tenants
        {
          assert Tenanted(tenants, perEntity, t);
        }
        SubsetCardinality(perEntity[e], tenants);
      }
    }
    return None;
  }

  // ---- the check

  method Check(maxWrites: nat, lookup: Option<Lookup>, caps: seq<Capability>) returns (v: Option<Violation>)
    ensures v.None? <==> Accepts(maxWrites, lookup, caps)
    ensures !IsSafe(maxWrites, caps) ==> v == Some(DoubleWrite("", Ids(caps)))
    ensures IsSafe(maxWrites, caps) && (exists e :: FansOut(caps, e)) ==> v.Some? && FanOutReport(caps, v.value)
    ensures IsSafe(maxWrites, caps) && (forall e :: !FansOut(caps, e)) && !SingleWriters(caps) ==>
              v.Some? && DoubleWriteReport(caps, v.value)
    ensures IsSafe(maxWrites, caps) && SingleWriters(caps) && v.Some? ==>
              lookup.Some? && exists i: nat, k: nat :: LeakReport(caps, i, k, lookup.value, v.value)
  {
    if !IsSafe(maxWrites, caps) {
      return Some(DoubleWrite("", Ids(caps)));
    }
    v := DetectCrossTenantFanOut(caps);
    if v.Some? {
      ghost var e :| FansOut(caps, e);
      FanOutIsDoubleWrite(caps, e);
      return;
    }
    var d := DetectDoubleWrite(caps);
    if d.Some? {
      assert |Writers(caps, d.value.entityId)| >= 2;
      return d;
    }
    if lookup.Some? {
      v := DetectClassificationLeak(caps, lookup.value);
      return;
    }
    return None;
  }

  // ---- counting write entries

  function EntryCount(writes: seq<EntityRef>, entity: string): nat {
    if writes == [] then 0
    else EntryCount(writes[..|writes| - 1], entity) + if writes[|writes| - 1].entityId == entity then 1 else 0
  }

  lemma {:induction false} EntryCountIsLength(id: string, writes: seq<EntityRef>, entity: string)
    ensures |EntryWriters(id, writes, entity)| == EntryCount(writes, entity)
    decreases |writes|
  {
    if writes != [] { EntryCountIsLength(id, writes[..|writes| - 1], entity); }
  }

  function Sum(f: Capability -> nat, caps: seq<Capability>): nat {
    if caps == [] then 0 else Sum(f, caps[..|caps| - 1]) + f(caps[|caps| - 1])
  }

  lemma {:induction false} WritersSum(caps: seq<Capability>, entity: string)
    ensures |Writers(caps, entity)| == Sum((c: Capability) => EntryCount(c.writes, entity), caps)
    decreases |caps|
  {
    if caps != [] {
      var c := caps[|caps| - 1];
      WritersSum(caps[..|caps| - 1], entity);
      EntryCountIsLength(c.id, c.writes, entity);
    }
  }

  lemma {:induction false} WriteClassSum(caps: seq<Capability>)
    ensures WriteClassCount(caps) == Sum((c: Capability) => if c.sideEffect.WriteClass() then 1 else 0, caps)
    decreases |caps|
  {
    if caps != [] { WriteClassSum(caps[..|caps| - 1]); }
  }

  lemma {:induction false} SumRemove(f: Capability -> nat, caps: seq<Capability>, i: nat)
    requires i < |caps|
    ensures Sum(f, caps) == Sum(f, caps[..i] + caps[i + 1..]) + f(caps[i])
    decreases |caps|
  {
    var n := |caps| - 1;
    var init := caps[..n];
    if i < n {
      SumRemove(f, init, i);
      var rest := caps[..i] + caps[i + 1..];
      assert rest[..|rest| - 1] == init[..i] + init[i + 1..];
      assert rest[|rest| - 1] == caps[n];
    } else {
      assert caps[..i] + caps[i + 1..] == init;
    }
  }

  lemma MultisetWithout(s: seq<Capability>, i: nat)
    requires i < |s|
    ensures multiset(s) == multiset(s[..i] + s[i + 1..]) + multiset{s[i]}
  {
    assert s == s[..i] + [s[i]] + s[i + 1..];
  }

  lemma SubMultiset(small: seq<Capability>, large: seq<Capability>) returns (i: nat)
    requires small != [] && multiset(small) <= multiset(large)
    ensures i < |large| && large[i] == small[|small| - 1]
    ensures multiset(small[..|small| - 1]) <= multiset(large[..i] + large[i + 1..])
  {
    var n := |small| - 1;
    assert small == small[..n] + [small[n]];
    assert small[n] in multiset(small) && small[n] in multiset(large);
    i :| 0 <= i < |large| && large[i] == small[n];
    MultisetWithout(large, i);
    var a, b, x := multiset(small[..n]), multiset(large[..i] + large[i + 1..]), multiset{small[n]};
    assert multiset(small) == a + x && multiset(large) == b + x;
    forall c
      ensures a[c] <= b[c]
    {
      assert multiset(small)[c] == a[c] + x[c] && multiset(large)[c] == b[c] + x[c];
    }
  }

  /** A sum over a sub-collection is no larger. */
  lemma {:induction false} SumMonotone(f: Capability -> nat, small: seq<Capability>, large: seq<Capability>)
    requires multiset(small) <= multiset(large)
    ensures Sum(f, small) <= Sum(f, large)
    decreases |small|
  {
    if small != [] {
      var i := SubMultiset(small, large);
      SumRemove(f, large, i);
      SumMonotone(f, small[..|small| - 1], large[..i] + large[i + 1..]);
    }
  }

  // ---- what acceptance means for sets of capabilities

  /** An entity written under two tenants is written twice, so the fan-out detector never changes the verdict. */
  lemma FanOutIsDoubleWrite(caps: seq<Capability>, entity: string)
    requires FansOut(caps, entity)
    ensures |Writers(caps, entity)| >= 2
  {
    var s, t :| s != t && WritesUnder(caps, entity, s) && WritesUnder(caps, entity, t);
    TwoTenants(caps, entity, s, t);
  }

  lemma {:induction false} TwoTenants(caps: seq<Capability>, entity: string, s: string, t: string)
    requires s != t && WritesUnder(caps, entity, s) && WritesUnder(caps, entity, t)
    ensures |Writers(caps, entity)| >= 2
    decreases |caps|
  {
    var init, last := caps[..|caps| - 1], caps[|caps| - 1];
    assert caps == init + [last];
    WritesUnderAppend(init, last, entity, s);
    WritesUnderAppend(init, last, entity, t);
    if WritesUnder(init, entity, s) && WritesUnder(init, entity, t) {
      TwoTenants(init, entity, s, t);
    } else {
      WritersSome(init, entity);
      EntryWritersSome(last.id, last.writes, entity);
      if EntryUnder(last.writes, entity, s) && EntryUnder(last.writes, entity, t) {
        TwoEntries(last.id, last.writes, entity, s, t);
      }
    }
  }

  lemma {:induction false} TwoEntries(id: string, writes: seq<EntityRef>, entity: string, s: string, t: string)
    requires s != t && EntryUnder(writes, entity, s) && EntryUnder(writes, entity, t)
    ensures |EntryWriters(id, writes, entity)| >= 2
    decreases |writes|
  {
    var init, last := writes[..|writes| - 1], writes[|writes| - 1];
    assert writes == init + [last];
    EntryWritersSome(id, init, entity);
    if EntryUnder(init, entity, s) && EntryUnder(init, entity, t) {
      TwoEntries(id, init, entity, s, t);
    }
  }

  /** Removing capabilities from an accepted plan, or reordering it, keeps it accepted. */
  lemma AcceptedDownward(maxWrites: nat, lookup: Option<Lookup>, small: seq<Capability>, large: seq<Capability>)
    requires multiset(small) <= multiset(large) && Accepts(maxWrites, lookup, large)
    ensures Accepts(maxWrites, lookup, small)
  {
    WriteClassSum(small);
    WriteClassSum(large);
    SumMonotone((c: Capability) => if c.sideEffect.WriteClass() then 1 else 0, small, large);
    forall e
      ensures |Writers(small, e)| < 2
    {
      WritersSum(small, e);
      WritersSum(large, e);
      SumMonotone((c: Capability) => EntryCount(c.writes, e), small, large);
      assert |Writers(large, e)| < 2;
    }
    forall c | c in small
      ensures c in large
    {
      assert c in multiset(small) && c in multiset(large);
    }
  }

  /** The verdict does not depend on the order of the capabilities. */
  lemma VerdictOrderFree(maxWrites: nat, lookup: Option<Lookup>, caps: seq<Capability>, other: seq<Capability>)
    requires multiset(caps) == multiset(other)
    ensures Accepts(maxWrites, lookup, caps) <==> Accepts(maxWrites, lookup, other)
  {
    if Accepts(maxWrites, lookup, caps) { AcceptedDownward(maxWrites, lookup, other, caps); }
    if Accepts(maxWrites, lookup, other) { AcceptedDownward(maxWrites, lookup, caps, other); }
  }

  /** One capability that lists an entity twice is rejected as well: entries are counted, not capabilities. */
  lemma OneCapabilityDoubleWrite(c: Capability, w: EntityRef, maxWrites: nat, lookup: Option<Lookup>)
    requires c.writes == [w, w]
    ensures !Accepts(maxWrites, lookup, [c])
  {
    assert [c][..0] == [] && [w, w][..1] == [w] && [w][..0] == [];
    assert EntryWriters(c.id, [w], w.entityId) == [c.id];
    assert |EntryWriters(c.id, [w, w], w.entityId)| == 2;
    assert |Writers([c], w.entityId)| == 2;
  }

  // ---- entries and capabilities

  /** How many of the capabilities write the entity, each counted once. */
  function WriterCount(caps: seq<Capability>, entity: string): nat {
    if caps == [] then 0
    else WriterCount(caps[..|caps| - 1], entity) + if EntryCount(caps[|caps| - 1].writes, entity) > 0 then 1 else 0
  }

  ghost predicate ListsOnce(c: Capability, entity: string) {
    EntryCount(c.writes, entity) < 2
  }

  lemma {:induction false} CountsBounded(caps: seq<Capability>, entity: string, i: nat)
    ensures WriterCount(caps, entity) <= |Writers(caps, entity)|
    ensures i < |caps| ==> EntryCount(caps[i].writes, entity) <= |Writers(caps, entity)|
    decreases |caps|
  {
    if caps != [] {
      var init, c := caps[..|caps| - 1], caps[|caps| - 1];
      CountsBounded(init, entity, i);
      EntryCountIsLength(c.id, c.writes, entity);
      assert i < |init| ==> init[i] == caps[i];
    }
  }

  lemma {:induction false} CountsEqual(caps: seq<Capability>, entity: string)
    requires AllListOnce(caps, entity)
    ensures WriterCount(caps, entity) == |Writers(caps, entity)|
    decreases |caps|
  {
    if caps != [] {
      var init, c := caps[..|caps| - 1], caps[|caps| - 1];
      assert forall i :: 0 <= i < |init| ==> init[i] == caps[i];
      CountsEqual(init, entity);
      EntryCountIsLength(c.id, c.writes, entity);
      assert ListsOnce(caps[|caps| - 1], entity);
    }
  }

  ghost predicate AllListOnce(caps: seq<Capability>, entity: string) {
    forall i :: 0 <= i < |caps| ==> ListsOnce(caps[i], entity)
  }

  /** At most one capability writes the entity, and none lists it twice. */
  ghost predicate WrittenOnce(caps: seq<Capability>, entity: string) {
    WriterCount(caps, entity) < 2 && AllListOnce(caps, entity)
  }

  lemma SingleWriterExactly(caps: seq<Capability>, entity: string)
    ensures |Writers(caps, entity)| < 2 <==> WrittenOnce(caps, entity)
  {
    if |Writers(caps, entity)| < 2 {
      forall i | 0 <= i < |caps|
        ensures ListsOnce(caps[i], entity)
      {
        CountsBounded(caps, entity, i);
      }
      CountsBounded(caps, entity, 0);
    }
    if AllListOnce(caps, entity) { CountsEqual(caps, entity); }
  }

  /** The rule on entries is the documented rule, no entity written by two capabilities, together with: no capability
      lists an entity twice. */
  lemma SingleWritersExactly(caps: seq<Capability>)
    ensures SingleWriters(caps) <==> forall e :: WrittenOnce(caps, e)
  {
    forall e
      ensures |Writers(caps, e)| < 2 <==> WrittenOnce(caps, e)
    {
      SingleWriterExactly(caps, e);
    }
    if forall e :: WrittenOnce(caps, e) {
      forall e
        ensures |Writers(caps, e)| < 2
      {
        assert WrittenOnce(caps, e);
      }
    }
  }
}

/** The bounded plan cache: a hash map with a first-in first-out order queue. */
module PlanCache {
  import opened Contracts
  import opened Ordering

  datatype Pair<P> = Pair(key: string, plan: P)

  /** The simple structure the cache stands for: pairs in insertion order. */
  type FifoList<P> = seq<Pair<P>>

  function Keys<P>(l: FifoList<P>): (ks: seq<string>)
    ensures |ks| == |l| && forall i :: 0 <= i < |l| ==> ks[i] == l[i].key
  {
    seq(|l|, i requires 0 <= i < |l| => l[i].key)
  }

  function Lookup<P>(l: FifoList<P>, key: string): Option<P> {
    if l == [] then None
    else if l[0].key == key then Some(l[0].plan)
    else Lookup(l[1..], key)
  }

  /** Replace the plan of a present key where it stands. */
  function Replace<P>(l: FifoList<P>, key: string, plan: P): (r: FifoList<P>)
    ensures |r| == |l| && forall i :: 0 <= i < |l| ==> r[i] == if l[i].key == key then Pair(key, plan) else l[i]
  {
    seq(|l|, i requires 0 <= i < |l| => if l[i].key == key then Pair(key, plan) else l[i])
  }

  /** The newest entries that leave room for one more. */
  function MakeRoom<P>(l: FifoList<P>, capacity: nat): FifoList<P> {
    if |l| < capacity then l
    else if capacity == 0 then []
    else l[|l| - (capacity - 1)..]
  }

  function Put<P>(l: FifoList<P>, capacity: nat, key: string, plan: P): FifoList<P> {
    if key in Keys(l) then Replace(l, key, plan) else MakeRoom(l, capacity) + [Pair(key, plan)]
  }

  function ViewOf<P>(order: seq<string>, entries: map<string, P>): (l: FifoList<P>)
    requires forall k :: k in order ==> k in entries
    ensures |l| == |order| && forall i :: 0 <= i < |l| ==> l[i] == Pair(order[i], entries[order[i]])
  {
    seq(|order|, i requires 0 <= i < |order| => Pair(order[i], entries[order[i]]))
  }

  class PlanCache<P> {
    var entries: map<string, P>
    var order: seq<string>
    const capacity: nat

    /** The queue lists every key of the map once. */
    ghost predicate Valid()
      reads this
    {
      Distinct(order) && Elems(order) == entries.Keys
    }

    ghost function View(): FifoList<P>
      reads this
      requires Valid()
    {
      assert forall k :: k in order ==> k in Elems(order);
      ViewOf(order, entries)
    }

    constructor (capacity: nat)
      ensures Valid() && View() == [] && this.capacity == capacity
    {
      this.capacity := capacity;
      entries, order := map[], [];
    }

    method Get(key: string) returns (r: Option<P>)
      requires Valid()
      ensures r == Lookup(View(), key)
    {
      LookupAgrees(key);
      r := if key in entries then Some(entries[key]) else None;
    }

    lemma LookupAgrees(key: string)
      requires Valid()
      ensures Lookup(View(), key) == if key in entries then Some(entries[key]) else None
    {
      if key in entries {
        assert key in Elems(order);
        var i :| 0 <= i < |order| && order[i] == key;
        assert Keys(View()) == order;
        LookupAt(View(), i);
      } else {
        assert forall i :: 0 <= i < |order| ==> order[i] in Elems(order);
        LookupMissing(View(), key);
      }
    }

    /** Pop the front of the queue and forget its plan. */
    method DropOldest()
      requires Valid() && order != []
      modifies this
      ensures Valid() && View() == old(View())[1..]
      ensures entries.Keys <= old(entries.Keys) && |order| == |old(order)| - 1
    {
      var oldest := order[0];
      RemoveOldest(order, entries);
      order := order[1..];
      entries := entries - {oldest};
    }

    /** Drop the oldest entries until there is room. */
    method Evict()
      requires Valid()
      modifies this
      ensures Valid() && View() == MakeRoom(old(View()), capacity)
      ensures entries.Keys <= old(entries.Keys)
    {
      ghost var before := View();
      ghost var dropped := 0;
      while |entries| >= capacity
        invariant 0 <= dropped <= |before| && Valid() && View() == before[dropped..]
        invariant dropped > 0 ==> |before| - dropped + 1 >= capacity
        invariant entries.Keys <= old(entries.Keys)
        decreases |order|
      {
        SizeIsLength();
        if |order| == 0 { break; }
        DropOldest();
        assert before[dropped..][1..] == before[dropped + 1..];
        dropped := dropped + 1;
      }
      SizeIsLength();
      RoomMade(before, dropped, capacity);
    }

    lemma SizeIsLength()
      requires Valid()
      ensures |entries| == |order|
    {
      DistinctCardinality(order);
      assert |entries.Keys| == |entries|;
    }

    method PutPlan(key: string, plan: P)
      requires Valid()
      modifies this
      ensures Valid() && View() == Put(old(View()), capacity, key, plan)
    {
      assert key in Keys(View()) <==> key in entries by {
        assert Keys(View()) == order;
        assert key in order <==> key in Elems(order);
      }
      if key in entries {
        entries := entries[key := plan];
        assert View() == Replace(old(View()), key, plan);
        return;
      }
      Evict();
      ghost var roomy := View();
      assert key !in Elems(order);
      order := order + [key];
      entries := entries[key := plan];
      assert Elems(order) == Elems(order[..|order| - 1]) + {key};
      assert View() == roomy + [Pair(key, plan)];
    }
  }

  /** Dropping one by one while there is no room stops where `MakeRoom` cuts. */
  lemma RoomMade<P>(before: FifoList<P>, dropped: nat, capacity: nat)
    requires dropped <= |before| && (dropped > 0 ==> |before| - dropped + 1 >= capacity)
    requires |before| - dropped < capacity || dropped == |before|
    ensures before[dropped..] == MakeRoom(before, capacity)
  {
  }

  lemma RemoveOldest<P>(order: seq<string>, entries: map<string, P>)
    requires Distinct(order) && Elems(order) == entries.Keys && order != []
    ensures Distinct(order[1..]) && Elems(order[1..]) == (entries - {order[0]}).Keys
  {
    var rest := order[1..];
    assert order == [order[0]] + rest;
    forall x
      ensures x in rest <==> x in Elems(order) && x != order[0]
    {
      if x in rest {
        var i :| 0 <= i < |rest| && rest[i] == x;
        assert order[i + 1] == x;
      }
    }
  }

  lemma {:induction false} LookupAt<P>(l: FifoList<P>, i: nat)
    requires i < |l| && Distinct(Keys(l))
    ensures Lookup(l, l[i].key) == Some(l[i].plan)
    decreases |l|
  {
    if i > 0 {
      assert Keys(l)[0] != Keys(l)[i];
      assert Keys(l[1..]) == Keys(l)[1..];
      LookupAt(l[1..], i - 1);
    }
  }

  lemma {:induction false} LookupMissing<P>(l: FifoList<P>, key: string)
    requires forall i :: 0 <= i < |l| ==> l[i].key != key
    ensures Lookup(l, key) == None
    decreases |l|
  {
    if l != [] {
      LookupMissing(l[1..], key);
    }
  }

  // ---- whole histories of puts

  function RunPuts<P>(puts: seq<Pair<P>>, capacity: nat): FifoList<P> {
    if puts == [] then []
    else
      var p := puts[|puts| - 1];
      Put(RunPuts(puts[..|puts| - 1], capacity), capacity, p.key, p.plan)
  }

  /** The keys in the order they were inserted, updates left out. */
  function Insertions<P>(puts: seq<Pair<P>>, capacity: nat): seq<string> {
    if puts == [] then []
    else
      var init, p := puts[..|puts| - 1], puts[|puts| - 1];
      Insertions(init, capacity) + if p.key in Keys(RunPuts(init, capacity)) then [] else [p.key]
  }

  /** The plan of the last put for a key. */
  function LastPut<P>(puts: seq<Pair<P>>, key: string): Option<P> {
    if puts == [] then None
    else
      var p := puts[|puts| - 1];
      if p.key == key then Some(p.plan) else LastPut(puts[..|puts| - 1], key)
  }

  function Bound(capacity: nat): nat {
    if capacity == 0 then 1 else capacity
  }

  /** The newest `n` entries of a sequence, or all of it. */
  function Newest<T>(s: seq<T>, n: nat): seq<T> {
    if |s| <= n then s else s[|s| - n..]
  }

  /** The cache holds exactly the last `max(capacity, 1)` inserted keys, in insertion order and without
      duplicates: only the oldest insertion is ever evicted, and updating a key evicts nothing. */
  lemma {:induction false} HoldsNewestInsertions<P>(puts: seq<Pair<P>>, capacity: nat)
    ensures Keys(RunPuts(puts, capacity)) == Newest(Insertions(puts, capacity), Bound(capacity))
    ensures Distinct(Keys(RunPuts(puts, capacity)))
    ensures |RunPuts(puts, capacity)| <= Bound(capacity)
    decreases |puts|
  {
    if puts != [] {
      var init, p := puts[..|puts| - 1], puts[|puts| - 1];
      HoldsNewestInsertions(init, capacity);
      PutKeys(RunPuts(init, capacity), Insertions(init, capacity), capacity, p);
    }
  }

  lemma PutKeys<P>(before: FifoList<P>, log: seq<string>, capacity: nat, p: Pair<P>)
    requires Keys(before) == Newest(log, Bound(capacity)) && Distinct(Keys(before))
    ensures var l := Put(before, capacity, p.key, p.plan);
            var next := log + if p.key in Keys(before) then [] else [p.key];
            Keys(l) == Newest(next, Bound(capacity)) && Distinct(Keys(l)) && |l| <= Bound(capacity)
  {
    if p.key in Keys(before) {
      assert Keys(Replace(before, p.key, p.plan)) == Keys(before);
      assert log + [] == log;
    } else {
      InsertKeys(before, log, capacity, p);
    }
  }

  lemma InsertKeys<P>(before: FifoList<P>, log: seq<string>, capacity: nat, p: Pair<P>)
    requires Keys(before) == Newest(log, Bound(capacity)) && Distinct(Keys(before)) && p.key !in Keys(before)
    ensures var l := MakeRoom(before, capacity) + [p];
            Keys(l) == Newest(log + [p.key], Bound(capacity)) && Distinct(Keys(l))
  {
    var room := MakeRoom(before, capacity);
    var d := |before| - |room|;
    assert Keys(room) == Keys(before)[d..];
    DistinctSuffix(Keys(before), d, p.key);
    NewestAppend(log, Bound(capacity), p.key);
    assert Keys(room + [p]) == Keys(room) + [p.key];
    assert Keys(room) == Newest(Keys(before), Bound(capacity) - 1);
  }

  lemma DistinctSuffix(s: seq<string>, d: nat, x: string)
    requires Distinct(s) && d <= |s| && x !in s
    ensures Distinct(s[d..] + [x])
  {
    forall i, j | 0 <= i < j < |s[d..] + [x]|
      ensures (s[d..] + [x])[i] != (s[d..] + [x])[j]
    {
      assert (s[d..] + [x])[i] == s[d + i];
    }
  }

  /** The newest entries after one more are the newest but one before, and the new one. */
  lemma NewestAppend<T>(s: seq<T>, n: nat, x: T)
    requires n >= 1
    ensures Newest(s + [x], n) == Newest(Newest(s, n), n - 1) + [x]
  {
  }

  /** A surviving key answers with the latest plan put under it. */
  lemma {:induction false} GetsLatestPut<P>(puts: seq<Pair<P>>, capacity: nat, i: nat)
    requires i < |RunPuts(puts, capacity)|
    ensures var e := RunPuts(puts, capacity)[i];
            && LastPut(puts, e.key) == Some(e.plan)
            && Lookup(RunPuts(puts, capacity), e.key) == LastPut(puts, e.key)
    decreases |puts|
  {
    var init, p := puts[..|puts| - 1], puts[|puts| - 1];
    var before, after := RunPuts(init, capacity), RunPuts(puts, capacity);
    HoldsNewestInsertions(puts, capacity);
    LookupAt(after, i);
    if p.key in Keys(before) {
      if after[i].key != p.key { GetsLatestPut(init, capacity, i); }
    } else if i < |after| - 1 {
      var room := MakeRoom(before, capacity);
      var k := |before| - |room| + i;
      assert after[i] == room[i] == before[k] && Keys(before)[k] in Keys(before);
      GetsLatestPut(init, capacity, k);
    }
  }

  /** A key that was evicted answers nothing until it is put again. */
  lemma EvictedAnswersNothing<P>(puts: seq<Pair<P>>, capacity: nat, key: string)
    requires key !in Newest(Insertions(puts, capacity), Bound(capacity))
    ensures Lookup(RunPuts(puts, capacity), key) == None
  {
    HoldsNewestInsertions(puts, capacity);
    var l := RunPuts(puts, capacity);
    assert forall i :: 0 <= i < |l| ==> Keys(l)[i] == l[i].key;
    LookupMissing(l, key);
  }
}

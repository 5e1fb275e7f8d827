/** Splitting the cost of one trace across departments. */
module CostAttribution {
  import opened Ordering
  import opened SortedMap
  import opened Trace

  datatype AttributionRule = AttributionRule(modelGlob: string, department: string, reason: string)

  datatype CostBucket = CostBucket(department: string, costUsd: real, reason: string)

  datatype Attribution = Attribution(totalCostUsd: real, buckets: seq<CostBucket>)

  function ModelOf(s: TraceStep): string {
    if s.model.Some? then s.model.value else ""
  }

  predicate Matches(r: AttributionRule, model: string) {
    r.modelGlob == "*" || r.modelGlob == model
  }

  /** Index of the first rule for the model, or the number of rules. */
  function FirstMatch(rules: seq<AttributionRule>, model: string): (i: nat)
    ensures i <= |rules| && (i < |rules| ==> Matches(rules[i], model))
    ensures forall j :: 0 <= j < i ==> !Matches(rules[j], model)
  {
    if rules == [] || Matches(rules[0], model) then 0 else 1 + FirstMatch(rules[1..], model)
  }

  /** Department and reason for one step. */
  function Charged(rules: seq<AttributionRule>, fallback: string, s: TraceStep): (string, string) {
    var i := FirstMatch(rules, ModelOf(s));
    if i < |rules| then (rules[i].department, rules[i].reason)
    else (fallback, "default for model `" + ModelOf(s) + "`")
  }

  /** A step goes to the first rule whose glob is a star or its model, no model counting as the empty one, and to the
      default department when there is none. */
  lemma ChargedExactly(rules: seq<AttributionRule>, fallback: string, s: TraceStep)
    ensures var model := match s.model case Some(m) => m case None => "";
            || (exists i :: 0 <= i < |rules| && (rules[i].modelGlob == "*" || rules[i].modelGlob == model)
                            && (forall j :: 0 <= j < i ==> rules[j].modelGlob != "*" && rules[j].modelGlob != model)
                            && Charged(rules, fallback, s) == (rules[i].department, rules[i].reason))
            || ((forall j :: 0 <= j < |rules| ==> rules[j].modelGlob != "*" && rules[j].modelGlob != model)
                && Charged(rules, fallback, s) == (fallback, "default for model `" + model + "`"))
  {
    var i := FirstMatch(rules, ModelOf(s));
    assert forall j :: 0 <= j < i ==> !Matches(rules[j], ModelOf(s));
  }

  function DepartmentOf(rules: seq<AttributionRule>, fallback: string, s: TraceStep): string {
    Charged(rules, fallback, s).0
  }

  // ---- what a bucket should hold

  /** Cost of the steps charged to one department. */
  ghost function DepartmentCost(rules: seq<AttributionRule>, fallback: string, steps: seq<TraceStep>, dept: string): real {
    if steps == [] then 0.0
    else
      var s := steps[|steps| - 1];
      DepartmentCost(rules, fallback, steps[..|steps| - 1], dept)
      + if DepartmentOf(rules, fallback, s) == dept then s.costUsd else 0.0
  }

  /** Some step is charged to the department, and the reason is that of the first such step. */
  ghost predicate FirstReason(rules: seq<AttributionRule>, fallback: string, steps: seq<TraceStep>, dept: string, reason: string) {
    exists i :: 0 <= i < |steps| && Charged(rules, fallback, steps[i]) == (dept, reason)
                && forall j :: 0 <= j < i ==> DepartmentOf(rules, fallback, steps[j]) != dept
  }

  ghost predicate BucketFits(rules: seq<AttributionRule>, fallback: string, steps: seq<TraceStep>, b: CostBucket) {
    b.costUsd == DepartmentCost(rules, fallback, steps, b.department)
    && FirstReason(rules, fallback, steps, b.department, b.reason)
  }

  /** One bucket per department that a step is charged to, in department order. */
  ghost predicate Splits(rules: seq<AttributionRule>, fallback: string, steps: seq<TraceStep>, buckets: seq<CostBucket>) {
    && Ascending(Departments(buckets)) && Distinct(Departments(buckets))
    && (forall s :: s in steps ==> DepartmentOf(rules, fallback, s) in Departments(buckets))
    && (forall b :: b in buckets ==> BucketFits(rules, fallback, steps, b))
  }

  function Departments(buckets: seq<CostBucket>): (r: seq<string>)
    ensures |r| == |buckets| && forall i :: 0 <= i < |r| ==> r[i] == buckets[i].department
  {
    seq(|buckets|, i requires 0 <= i < |buckets| => buckets[i].department)
  }

  ghost function BucketTotal(buckets: seq<CostBucket>): real {
    if buckets == [] then 0.0 else BucketTotal(buckets[..|buckets| - 1]) + buckets[|buckets| - 1].costUsd
  }

  // ---- the attributor

  type Account = SortedMap<(real, string)>

  ghost predicate AccountFits(rules: seq<AttributionRule>, fallback: string, steps: seq<TraceStep>, acc: Account, dept: string) {
    if dept in acc.entries then BucketFits(rules, fallback, steps, CostBucket(dept, acc.entries[dept].0, acc.entries[dept].1))
    else forall s :: s in steps ==> DepartmentOf(rules, fallback, s) != dept
  }

  ghost predicate Accounted(rules: seq<AttributionRule>, fallback: string, steps: seq<TraceStep>, acc: Account) {
    acc.Valid() && forall d :: AccountFits(rules, fallback, steps, acc, d)
  }

  /** Add one step to the account. */
  function Enter(rules: seq<AttributionRule>, fallback: string, acc: Account, s: TraceStep): Account {
    var (dept, reason) := Charged(rules, fallback, s);
    var entry := if dept in acc.entries then acc.entries[dept] else (0.0, reason);
    acc.Put(dept, (entry.0 + s.costUsd, entry.1))
  }

  lemma NoStepsNoCost(rules: seq<AttributionRule>, fallback: string, steps: seq<TraceStep>, dept: string)
    requires forall s :: s in steps ==> DepartmentOf(rules, fallback, s) != dept
    ensures DepartmentCost(rules, fallback, steps, dept) == 0.0
    decreases |steps|
  {
    if steps != [] {
      var init := steps[..|steps| - 1];
      assert forall s :: s in init ==> s in steps;
      assert steps[|steps| - 1] in steps;
      NoStepsNoCost(rules, fallback, init, dept);
    }
  }

  lemma FirstReasonExtends(rules: seq<AttributionRule>, fallback: string, steps: seq<TraceStep>, s: TraceStep,
                           dept: string, reason: string)
    requires FirstReason(rules, fallback, steps, dept, reason)
    ensures FirstReason(rules, fallback, steps + [s], dept, reason)
  {
    var i :| 0 <= i < |steps| && Charged(rules, fallback, steps[i]) == (dept, reason)
             && forall j :: 0 <= j < i ==> DepartmentOf(rules, fallback, steps[j]) != dept;
    var next := steps + [s];
    assert next[i] == steps[i] && forall j :: 0 <= j < i ==> next[j] == steps[j];
  }

  lemma FirstReasonStarts(rules: seq<AttributionRule>, fallback: string, steps: seq<TraceStep>, s: TraceStep)
    requires forall x :: x in steps ==> DepartmentOf(rules, fallback, x) != DepartmentOf(rules, fallback, s)
    ensures FirstReason(rules, fallback, steps + [s], DepartmentOf(rules, fallback, s), Charged(rules, fallback, s).1)
  {
    var next := steps + [s];
    assert next[|steps|] == s && forall j :: 0 <= j < |steps| ==> next[j] in steps;
  }

  lemma DepartmentCostStep(rules: seq<AttributionRule>, fallback: string, steps: seq<TraceStep>, s: TraceStep, dept: string)
    ensures DepartmentCost(rules, fallback, steps + [s], dept) ==
            DepartmentCost(rules, fallback, steps, dept) + if DepartmentOf(rules, fallback, s) == dept then s.costUsd else 0.0
  {
    assert (steps + [s])[..|steps|] == steps;
  }

  lemma EnterFits(rules: seq<AttributionRule>, fallback: string, steps: seq<TraceStep>, acc: Account, s: TraceStep, dept: string)
    requires AccountFits(rules, fallback, steps, acc, dept)
    ensures AccountFits(rules, fallback, steps + [s], Enter(rules, fallback, acc, s), dept)
  {
    DepartmentCostStep(rules, fallback, steps, s, dept);
    if dept in acc.entries {
      FirstReasonExtends(rules, fallback, steps, s, dept, acc.entries[dept].1);
    } else if DepartmentOf(rules, fallback, s) == dept {
      NoStepsNoCost(rules, fallback, steps, dept);
      FirstReasonStarts(rules, fallback, steps, s);
    }
  }

  lemma EnterAll(rules: seq<AttributionRule>, fallback: string, steps: seq<TraceStep>, acc: Account, s: TraceStep)
    requires Accounted(rules, fallback, steps, acc)
    ensures var next := Enter(rules, fallback, acc, s);
            Accounted(rules, fallback, steps + [s], next)
  {
    var (dept, reason) := Charged(rules, fallback, s);
    var entry := if dept in acc.entries then acc.entries[dept] else (0.0, reason);
    acc.PutValid(dept, (entry.0 + s.costUsd, entry.1));
    forall d
      ensures AccountFits(rules, fallback, steps + [s], Enter(rules, fallback, acc, s), d)
    {
      EnterFits(rules, fallback, steps, acc, s, d);
    }
  }

  function BucketsOf(acc: Account): seq<CostBucket>
    requires forall k :: k in acc.keys ==> k in acc.entries
  {
    seq(|acc.keys|, i requires 0 <= i < |acc.keys| =>
      CostBucket(acc.keys[i], acc.entries[acc.keys[i]].0, acc.entries[acc.keys[i]].1))
  }

  lemma BucketsSplit(rules: seq<AttributionRule>, fallback: string, steps: seq<TraceStep>, acc: Account)
    requires Accounted(rules, fallback, steps, acc)
    ensures Elems(acc.keys) == acc.entries.Keys && (forall k :: k in acc.keys ==> k in acc.entries)
    ensures Splits(rules, fallback, steps, BucketsOf(acc))
  {
    assert forall k :: k in acc.keys ==> k in Elems(acc.keys);
    var buckets := BucketsOf(acc);
    assert Departments(buckets) == acc.keys;
    forall s | s in steps
      ensures DepartmentOf(rules, fallback, s) in acc.keys
    {
      assert AccountFits(rules, fallback, steps, acc, DepartmentOf(rules, fallback, s));
    }
    forall b | b in buckets
      ensures BucketFits(rules, fallback, steps, b)
    {
      assert AccountFits(rules, fallback, steps, acc, b.department);
    }
  }

  class CostAttributor {
    var rules: seq<AttributionRule>
    var defaultDepartment: string

    constructor (defaultDepartment: string)
      ensures rules == [] && this.defaultDepartment == defaultDepartment
    {
      rules, this.defaultDepartment := [], defaultDepartment;
    }

    method AddRule(rule: AttributionRule)
      modifies this`rules
      ensures rules == old(rules) + [rule]
    {
      rules := rules + [rule];
    }

    /** For a trace built by recording, the buckets add up to the trace's total. */
    method Attribute(trace: ExecutionTrace) returns (r: Attribution)
      ensures r.totalCostUsd == trace.totalCostUsd
      ensures Splits(rules, defaultDepartment, trace.steps, r.buckets)
      ensures BucketTotal(r.buckets) == StepCost(trace.steps)
      ensures trace.Balanced() ==> BucketTotal(r.buckets) == r.totalCostUsd
    {
      var acc: Account := SortedMap(map[], []);
      assert Elems<string>([]) == {};
      for i := 0 to |trace.steps|
        invariant Accounted(rules, defaultDepartment, trace.steps[..i], acc)
      {
        var s := trace.steps[i];
        EnterAll(rules, defaultDepartment, trace.steps[..i], acc, s);
        assert trace.steps[..i + 1] == trace.steps[..i] + [s];
        acc := Enter(rules, defaultDepartment, acc, s);
      }
      assert trace.steps[..|trace.steps|] == trace.steps;
      BucketsSplit(rules, defaultDepartment, trace.steps, acc);
      r := Attribution(trace.totalCostUsd, BucketsOf(acc));
      BucketsSplitTotal(rules, defaultDepartment, trace.steps, r.buckets);
    }
  }

  // ---- conservation

  ghost function CostOver(rules: seq<AttributionRule>, fallback: string, steps: seq<TraceStep>, depts: seq<string>): real {
    if depts == [] then 0.0
    else CostOver(rules, fallback, steps, depts[..|depts| - 1])
         + DepartmentCost(rules, fallback, steps, depts[|depts| - 1])
  }

  /** One more step raises the sum over distinct departments by its cost, when its department is among them. */
  lemma {:induction false} CostOverStep(rules: seq<AttributionRule>, fallback: string, steps: seq<TraceStep>, s: TraceStep,
                                        depts: seq<string>)
    requires Distinct(depts)
    ensures CostOver(rules, fallback, steps + [s], depts) ==
            CostOver(rules, fallback, steps, depts) + if DepartmentOf(rules, fallback, s) in depts then s.costUsd else 0.0
    decreases |depts|
  {
    if depts != [] {
      var n := |depts| - 1;
      assert depts == depts[..n] + [depts[n]];
      assert (steps + [s])[..|steps|] == steps;
      assert depts[n] !in depts[..n];
      CostOverStep(rules, fallback, steps, s, depts[..n]);
    }
  }

  lemma {:induction false} CostOverAll(rules: seq<AttributionRule>, fallback: string, steps: seq<TraceStep>, depts: seq<string>)
    requires Distinct(depts) && forall s :: s in steps ==> DepartmentOf(rules, fallback, s) in depts
    ensures CostOver(rules, fallback, steps, depts) == StepCost(steps)
    decreases |steps|, |depts|
  {
    if steps != [] {
      var init, s := steps[..|steps| - 1], steps[|steps| - 1];
      assert steps == init + [s];
      CostOverAll(rules, fallback, init, depts);
      CostOverStep(rules, fallback, init, s, depts);
    } else if depts != [] {
      CostOverAll(rules, fallback, steps, depts[..|depts| - 1]);
    }
  }

  lemma CostOverNext(rules: seq<AttributionRule>, fallback: string, steps: seq<TraceStep>, depts: seq<string>, d: string)
    ensures CostOver(rules, fallback, steps, depts + [d]) ==
            CostOver(rules, fallback, steps, depts) + DepartmentCost(rules, fallback, steps, d)
  {
    assert (depts + [d])[..|depts|] == depts;
  }

  lemma {:induction false} BucketTotalIsCostOver(rules: seq<AttributionRule>, fallback: string, steps: seq<TraceStep>,
                                                 buckets: seq<CostBucket>)
    requires forall i :: 0 <= i < |buckets| ==>
                           buckets[i].costUsd == DepartmentCost(rules, fallback, steps, buckets[i].department)
    ensures BucketTotal(buckets) == CostOver(rules, fallback, steps, Departments(buckets))
    decreases |buckets|
  {
    if buckets != [] {
      var init, b := buckets[..|buckets| - 1], buckets[|buckets| - 1];
      BucketTotalIsCostOver(rules, fallback, steps, init);
      CostOverNext(rules, fallback, steps, Departments(init), b.department);
      assert Departments(buckets) == Departments(init) + [b.department];
    }
  }

  /** The buckets split the cost of the steps: nothing is lost or charged twice. */
  lemma BucketsSplitTotal(rules: seq<AttributionRule>, fallback: string, steps: seq<TraceStep>, buckets: seq<CostBucket>)
    requires Splits(rules, fallback, steps, buckets)
    ensures BucketTotal(buckets) == StepCost(steps)
  {
    assert forall i :: 0 <= i < |buckets| ==> buckets[i] in buckets;
    BucketTotalIsCostOver(rules, fallback, steps, buckets);
    CostOverAll(rules, fallback, steps, Departments(buckets));
  }

  // ---- appending a rule

  lemma {:induction false} FirstMatchAppend(rules: seq<AttributionRule>, r: AttributionRule, model: string)
    ensures FirstMatch(rules + [r], model) ==
            var i := FirstMatch(rules, model); if i < |rules| then i else if Matches(r, model) then |rules| else |rules| + 1
    decreases |rules|
  {
    if rules != [] && !Matches(rules[0], model) {
      FirstMatchAppend(rules[1..], r, model);
      assert (rules + [r])[1..] == rules[1..] + [r];
    }
  }

  /** A star rule ends the search: no rule after it and no default is ever reached. */
  lemma {:induction false} StarRuleEndsSearch(rules: seq<AttributionRule>, more: seq<AttributionRule>, k: nat, model: string)
    requires k < |rules| && rules[k].modelGlob == "*"
    ensures FirstMatch(rules + more, model) == FirstMatch(rules, model) <= k
    decreases |rules|
  {
    if !Matches(rules[0], model) {
      assert (rules + more)[1..] == rules[1..] + more;
      StarRuleEndsSearch(rules[1..], more, k - 1, model);
    }
  }

  /** Cost of the steps no rule matched so far that the new rule takes over. */
  ghost function TakenOver(rules: seq<AttributionRule>, r: AttributionRule, steps: seq<TraceStep>): real {
    if steps == [] then 0.0
    else
      var m := ModelOf(steps[|steps| - 1]);
      TakenOver(rules, r, steps[..|steps| - 1])
      + if FirstMatch(rules, m) == |rules| && Matches(r, m) then steps[|steps| - 1].costUsd else 0.0
  }

  /** An appended rule only moves cost from the default department to its own, and moves exactly what no earlier
      rule had claimed. */
  lemma {:induction false} AppendedRuleMovesDefaults(rules: seq<AttributionRule>, r: AttributionRule, fallback: string,
                                                     steps: seq<TraceStep>, dept: string)
    ensures DepartmentCost(rules + [r], fallback, steps, dept) ==
            DepartmentCost(rules, fallback, steps, dept)
            + (if dept == r.department then TakenOver(rules, r, steps) else 0.0)
            - (if dept == fallback then TakenOver(rules, r, steps) else 0.0)
    decreases |steps|
  {
    if steps != [] {
      AppendedRuleMovesDefaults(rules, r, fallback, steps[..|steps| - 1], dept);
      FirstMatchAppend(rules, r, ModelOf(steps[|steps| - 1]));
    }
  }

  lemma SameReason(rules: seq<AttributionRule>, fallback: string, steps: seq<TraceStep>, dept: string, p: string, q: string)
    requires FirstReason(rules, fallback, steps, dept, p) && FirstReason(rules, fallback, steps, dept, q)
    ensures p == q
  {
    var k :| 0 <= k < |steps| && Charged(rules, fallback, steps[k]) == (dept, p)
             && forall j :: 0 <= j < k ==> DepartmentOf(rules, fallback, steps[j]) != dept;
    var l :| 0 <= l < |steps| && Charged(rules, fallback, steps[l]) == (dept, q)
             && forall j :: 0 <= j < l ==> DepartmentOf(rules, fallback, steps[j]) != dept;
    assert DepartmentOf(rules, fallback, steps[k]) == dept && DepartmentOf(rules, fallback, steps[l]) == dept;
    assert k == l;
  }

  lemma DepartmentKept(rules: seq<AttributionRule>, fallback: string, steps: seq<TraceStep>,
                       a: seq<CostBucket>, b: seq<CostBucket>, d: string)
    requires Splits(rules, fallback, steps, a) && Splits(rules, fallback, steps, b)
    requires d in Departments(a)
    ensures d in Departments(b)
  {
    var i :| 0 <= i < |a| && a[i].department == d;
    assert a[i] in a;
    var k :| 0 <= k < |steps| && Charged(rules, fallback, steps[k]) == (d, a[i].reason);
    assert steps[k] in steps && DepartmentOf(rules, fallback, steps[k]) == d;
  }

  /** The split determines the bucket list: it depends on rules, default and steps alone. */
  lemma SplitUnique(rules: seq<AttributionRule>, fallback: string, steps: seq<TraceStep>,
                    a: seq<CostBucket>, b: seq<CostBucket>)
    requires Splits(rules, fallback, steps, a) && Splits(rules, fallback, steps, b)
    ensures a == b
  {
    var da, db := Departments(a), Departments(b);
    forall d
      ensures d in da <==> d in db
    {
      if d in da { DepartmentKept(rules, fallback, steps, a, b, d); }
      if d in db { DepartmentKept(rules, fallback, steps, b, a, d); }
    }
    AscendingUnique(da, db);
    forall i | 0 <= i < |a|
      ensures a[i] == b[i]
    {
      assert a[i] in a && b[i] in b && da[i] == db[i];
      SameReason(rules, fallback, steps, a[i].department, a[i].reason, b[i].reason);
    }
  }
}

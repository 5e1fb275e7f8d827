/** Scope patterns and the intersection of user scopes, intent scopes and the autonomy ceiling. */
module Scope {
  import opened Ordering

  datatype AutonomyLevel = Level1 | Level2 | Level3 | Level4 | Level5 {
    function Rank(): nat {
      match this
      case Level1 => 1
      case Level2 => 2
      case Level3 => 3
      case Level4 => 4
      case Level5 => 5
    }
  }

  predicate EndsWith(s: string, suffix: string) {
    |suffix| <= |s| && s[|s| - |suffix|..] == suffix
  }

  lemma EndsWithExactly(s: string, suffix: string)
    ensures EndsWith(s, suffix) <==> exists p: string :: s == p + suffix
  {
    if EndsWith(s, suffix) { assert s == s[..|s| - |suffix|] + suffix; }
    if p: string :| s == p + suffix { assert s[|p|..] == suffix; }
  }

  lemma NotSuffix(s: string, suffix: string, k: nat)
    requires 1 <= k <= |suffix| && k <= |s| && s[|s| - k] != suffix[|suffix| - k]
    ensures !EndsWith(s, suffix)
  {
    if |suffix| <= |s| {
      assert s[|s| - |suffix|..][|suffix| - k] == s[|s| - k];
    }
  }

  /** Does the granted scope cover the required one: equal, the global wildcard, or a wildcard on its prefix. */
  predicate ScopeMatches(granted: string, required: string) {
    if granted == required || granted == "*" then true
    else if EndsWith(granted, ":*") then
      var prefix := granted[..|granted| - 2];
      prefix <= required && |prefix| < |required| && required[|prefix|] == ':'
    else false
  }

  /** Ceiling entries put their wildcard in front. */
  predicate CeilingMatches(ceiling: string, scope: string) {
    if ceiling == "*" then true
    else if ceiling != [] && ceiling[0] == '*' then EndsWith(scope, ceiling[1..])
    else ceiling == scope
  }

  function AutonomyCeiling(level: AutonomyLevel): seq<string> {
    match level
    case Level1 => []
    case Level2 => ["*:read"]
    case Level3 => ["*:read", "*:write"]
    case Level4 => ["*:read", "*:write", "*:delete", "*:send", "*:execute"]
    case Level5 => ["*"]
  }

  predicate AnyMatches(granted: seq<string>, scope: string) {
    exists g :: g in granted && ScopeMatches(g, scope)
  }

  predicate AnyMatchesOrCaps(ceiling: seq<string>, scope: string) {
    exists c :: c in ceiling && (ScopeMatches(c, scope) || CeilingMatches(c, scope))
  }

  // ---- coverage is a preorder

  /** A wildcard `p:*` covers exactly the scopes that extend `p:`, and itself. */
  lemma WildcardCovers(p: string, scope: string)
    ensures ScopeMatches(p + ":*", scope) <==> p + ":" <= scope
  {
    var g := p + ":*";
    assert |g| >= 2 && g != "*";
    assert g[|g| - 2..] == ":*" && g[..|g| - 2] == p;
    if g == scope {
      assert scope[..|p| + 1] == p + ":";
    } else if p + ":" <= scope {
      assert scope[..|p|] == p && scope[|p|] == ':';
    }
  }

  /** Coverage by its three forms: equality, the global wildcard, a wildcard on a prefix. */
  lemma ScopeMatchesExactly(granted: string, required: string)
    ensures ScopeMatches(granted, required) <==>
            || granted == required || granted == "*"
            || exists p: string :: granted == p + ":*" && p + ":" <= required
  {
    if ScopeMatches(granted, required) && granted != required && granted != "*" {
      var p := granted[..|granted| - 2];
      assert granted == p + ":*";
      WildcardCovers(p, required);
    }
    if p: string :| granted == p + ":*" && p + ":" <= required {
      WildcardCovers(p, required);
    }
  }

  lemma ScopeReflexive(s: string)
    ensures ScopeMatches(s, s)
  {
  }

  /** Every grant of a user is covered by the grants themselves. */
  lemma GrantsCoverThemselves(user: seq<string>, s: string)
    requires s in user
    ensures AnyMatches(user, s)
  {
    ScopeReflexive(s);
  }

  /** Coverage composes, over all strings. */
  lemma ScopeTransitive(a: string, b: string, c: string)
    requires ScopeMatches(a, b) && ScopeMatches(b, c)
    ensures ScopeMatches(a, c)
  {
    if a != "*" && a != b && b != c {
      var p := a[..|a| - 2];
      assert a == p + ":*";
      WildcardCovers(p, b);
      assert b[|p|] == ':' && b != "*";
      var q := b[..|b| - 2];
      assert b == q + ":*";
      WildcardCovers(q, c);
      PrefixChain(p, q, c);
      WildcardCovers(p, c);
    }
  }

  lemma PrefixChain(p: string, q: string, c: string)
    requires p + ":" <= q + ":*" && q + ":" <= c
    ensures p + ":" <= c
  {
    var b := q + ":*";
    assert b[|p|] == (p + ":")[|p|];
    assert b[|b| - 1] == '*';
    assert |p| + 1 <= |q| + 1;
    assert (q + ":")[..|p| + 1] == b[..|p| + 1];
  }

  // ---- effective scopes

  function Filter(s: seq<string>, keep: string -> bool): (r: seq<string>)
    ensures forall x :: x in r <==> x in s && keep(x)
  {
    if s == [] then []
    else
      var init, last := s[..|s| - 1], s[|s| - 1];
      assert s == init + [last];
      Filter(init, keep) + if keep(last) then [last] else []
  }

  /** Collecting into an ordered set and listing it again. */
  function Collect(s: seq<string>): (r: seq<string>)
    ensures Elems(r) == Elems(s) && Distinct(r) && Ascending(r)
  {
    if s == [] then []
    else
      var init, last := s[..|s| - 1], s[|s| - 1];
      assert Elems(s) == Elems(init) + {last} by { assert s == init + [last]; }
      Include(Collect(init), last)
  }

  /** Inserting into an ordered set. */
  function Include(s: seq<string>, x: string): (r: seq<string>)
    requires Distinct(s) && Ascending(s)
    ensures Elems(r) == Elems(s) + {x} && Distinct(r) && Ascending(r)
  {
    if x in s then
      assert x in Elems(s);
      s
    else
      SortElems(s + [x]);
      assert Elems(s + [x]) == Elems(s) + {x};
      Sort(s + [x])
  }

  lemma {:induction false} FilterSorted(s: seq<string>, keep: string -> bool)
    requires Distinct(s) && Ascending(s)
    ensures Distinct(Filter(s, keep)) && Ascending(Filter(s, keep))
    decreases |s|
  {
    if s != [] {
      var init, last := s[..|s| - 1], s[|s| - 1];
      FilterSorted(init, keep);
      var kept := Filter(init, keep);
      forall x | x in kept
        ensures x != last && AtMost(x, last)
      {
        var i :| 0 <= i < |init| && init[i] == x;
        assert s[i] == x;
      }
    }
  }

  /** The production version, with prefix wildcards in the ceiling. */
  function EffectiveScopes(user: seq<string>, intent: seq<string>, level: AutonomyLevel): seq<string> {
    var afterIntent := Collect(Filter(intent, s => AnyMatches(user, s)));
    Filter(afterIntent, s => AnyMatchesOrCaps(AutonomyCeiling(level), s))
  }

  /** The first version, which matches the ceiling like an ordinary scope. */
  function ComputeEffectiveScopes(user: seq<string>, intent: seq<string>, level: AutonomyLevel): seq<string> {
    var afterIntent := Collect(Filter(intent, s => AnyMatches(user, s)));
    Filter(afterIntent, s => AnyMatches(AutonomyCeiling(level), s))
  }

  /** What the autonomy level lets through. */
  predicate Permits(level: AutonomyLevel, scope: string) {
    match level
    case Level1 => false
    case Level2 => EndsWith(scope, ":read")
    case Level3 => EndsWith(scope, ":read") || EndsWith(scope, ":write")
    case Level4 =>
      || EndsWith(scope, ":read") || EndsWith(scope, ":write") || EndsWith(scope, ":delete")
      || EndsWith(scope, ":send") || EndsWith(scope, ":execute")
    case Level5 => true
  }

  lemma CapEntry(suffix: string, scope: string)
    requires |suffix| >= 2 && suffix[0] == ':' && suffix[|suffix| - 1] != '*'
    ensures ScopeMatches("*" + suffix, scope) <==> scope == "*" + suffix
    ensures (ScopeMatches("*" + suffix, scope) || CeilingMatches("*" + suffix, scope)) <==> EndsWith(scope, suffix)
  {
    var c := "*" + suffix;
    assert c[|c| - 1] == suffix[|suffix| - 1];
    assert c[1..] == suffix;
    NotSuffix(c, ":*", 1);
    if scope == c { assert c[|c| - |suffix|..] == suffix; }
  }

  predicate IsAction(suffix: string) {
    |suffix| >= 2 && suffix[0] == ':' && suffix[|suffix| - 1] != '*'
  }

  function Starred(suffixes: seq<string>): (r: seq<string>)
    ensures |r| == |suffixes| && forall i :: 0 <= i < |r| ==> r[i] == "*" + suffixes[i]
  {
    seq(|suffixes|, i requires 0 <= i < |suffixes| => "*" + suffixes[i])
  }

  predicate EndsWithAny(scope: string, suffixes: seq<string>) {
    exists i :: 0 <= i < |suffixes| && EndsWith(scope, suffixes[i])
  }

  /** A ceiling of starred actions caps by suffix; matched like an ordinary scope it covers only itself. */
  lemma StarredPermits(suffixes: seq<string>, scope: string)
    requires forall i :: 0 <= i < |suffixes| ==> IsAction(suffixes[i])
    ensures AnyMatchesOrCaps(Starred(suffixes), scope) <==> EndsWithAny(scope, suffixes)
    ensures AnyMatches(Starred(suffixes), scope) <==> scope in Starred(suffixes)
  {
    var r := Starred(suffixes);
    forall i | 0 <= i < |r|
      ensures ScopeMatches(r[i], scope) <==> scope == r[i]
      ensures (ScopeMatches(r[i], scope) || CeilingMatches(r[i], scope)) <==> EndsWith(scope, suffixes[i])
    {
      CapEntry(suffixes[i], scope);
    }
    if EndsWithAny(scope, suffixes) {
      var i :| 0 <= i < |suffixes| && EndsWith(scope, suffixes[i]);
      assert r[i] in r;
    }
  }

  function Actions(level: AutonomyLevel): (ss: seq<string>)
    ensures forall i :: 0 <= i < |ss| ==> IsAction(ss[i])
  {
    match level
    case Level1 => []
    case Level2 => [":read"]
    case Level3 => [":read", ":write"]
    case Level4 => [":read", ":write", ":delete", ":send", ":execute"]
    case Level5 => []
  }

  lemma CeilingIsStarred(level: AutonomyLevel)
    requires level != Level5
    ensures AutonomyCeiling(level) == Starred(Actions(level))
  {
    var r := Starred(Actions(level));
    assert |r| > 0 ==> r[0] == "*:read";
    assert |r| > 1 ==> r[1] == "*:write";
    assert |r| > 2 ==> r[2] == "*:delete" && r[3] == "*:send" && r[4] == "*:execute";
  }

  lemma PermitsByAction(level: AutonomyLevel, scope: string)
    requires level != Level5
    ensures Permits(level, scope) <==> EndsWithAny(scope, Actions(level))
  {
    var ss := Actions(level);
    assert |ss| > 0 ==> ss[0] == ":read";
    assert |ss| > 1 ==> ss[1] == ":write";
    assert |ss| > 2 ==> ss[2] == ":delete" && ss[3] == ":send" && ss[4] == ":execute";
  }

  lemma CeilingPermits(level: AutonomyLevel, scope: string)
    ensures AnyMatchesOrCaps(AutonomyCeiling(level), scope) <==> Permits(level, scope)
    ensures AnyMatches(AutonomyCeiling(level), scope) <==> level == Level5 || scope in AutonomyCeiling(level)
  {
    if level == Level5 {
      assert "*" in ["*"];
    } else {
      CeilingIsStarred(level);
      PermitsByAction(level, scope);
      StarredPermits(Actions(level), scope);
    }
  }

  /** Exactly the intent scopes that some user scope covers and the level permits, in ascending order and each
      once, however the inputs are ordered or repeated. */
  lemma EffectiveExactly(user: seq<string>, intent: seq<string>, level: AutonomyLevel)
    ensures var r := EffectiveScopes(user, intent, level);
            && Distinct(r) && Ascending(r)
            && forall s :: s in r <==> s in intent && AnyMatches(user, s) && Permits(level, s)
  {
    var granted := Filter(intent, s => AnyMatches(user, s));
    var afterIntent := Collect(granted);
    FilterSorted(afterIntent, s => AnyMatchesOrCaps(AutonomyCeiling(level), s));
    forall s
      ensures s in EffectiveScopes(user, intent, level) <==> s in intent && AnyMatches(user, s) && Permits(level, s)
    {
      CeilingPermits(level, s);
      assert s in afterIntent <==> s in Elems(afterIntent);
      assert s in granted <==> s in Elems(granted);
    }
  }

  /** An intent that asks for exactly what the user may do gets what the level permits of it. */
  lemma OwnScopesKept(user: seq<string>, level: AutonomyLevel, s: string)
    ensures s in EffectiveScopes(user, user, level) <==> s in user && Permits(level, s)
  {
    EffectiveExactly(user, user, level);
    if s in user { GrantsCoverThemselves(user, s); }
  }

  lemma ComputeExactly(user: seq<string>, intent: seq<string>, level: AutonomyLevel, s: string)
    ensures s in ComputeEffectiveScopes(user, intent, level) <==>
            s in intent && AnyMatches(user, s) && (level == Level5 || s in AutonomyCeiling(level))
  {
    CeilingPermits(level, s);
    var granted := Filter(intent, s => AnyMatches(user, s));
    assert s in Collect(granted) <==> s in Elems(Collect(granted));
    assert s in granted <==> s in Elems(granted);
  }

  lemma PermitsMonotone(low: AutonomyLevel, high: AutonomyLevel, s: string)
    requires low.Rank() <= high.Rank() && Permits(low, s)
    ensures Permits(high, s)
  {
  }

  /** More autonomy, more intent scopes and wider user scopes never lose an effective scope. */
  lemma EffectiveMonotone(user: seq<string>, wider: seq<string>, intent: seq<string>, more: seq<string>,
                          low: AutonomyLevel, high: AutonomyLevel, s: string)
    requires low.Rank() <= high.Rank()
    requires forall x :: x in intent ==> x in more
    requires forall u :: u in user ==> AnyMatches(wider, u)
    requires s in EffectiveScopes(user, intent, low)
    ensures s in EffectiveScopes(wider, more, high) && s in intent
  {
    EffectiveExactly(user, intent, low);
    EffectiveExactly(wider, more, high);
    var u :| u in user && ScopeMatches(u, s);
    var g :| g in wider && ScopeMatches(g, u);
    ScopeTransitive(g, u, s);
    PermitsMonotone(low, high, s);
  }

  lemma LiteralCapsPermitted(level: AutonomyLevel, s: string)
    requires s in AutonomyCeiling(level)
    ensures Permits(level, s)
  {
    CeilingPermits(level, s);
    assert ScopeMatches(s, s);
  }

  /** The first version returns nothing the production version does not, and below level five it keeps only
      scopes spelled like the ceiling entries themselves. */
  lemma ComputeWithinEffective(user: seq<string>, intent: seq<string>, level: AutonomyLevel, s: string)
    requires s in ComputeEffectiveScopes(user, intent, level)
    ensures s in EffectiveScopes(user, intent, level)
    ensures level != Level5 ==> s in AutonomyCeiling(level)
  {
    ComputeExactly(user, intent, level, s);
    EffectiveExactly(user, intent, level);
    if level != Level5 { LiteralCapsPermitted(level, s); }
  }

  /** The two versions agree on all inputs exactly at the lowest and the highest level. */
  lemma VersionsAgreeExactly(level: AutonomyLevel)
    ensures (forall user, intent, s :: s in EffectiveScopes(user, intent, level) ==>
                                       s in ComputeEffectiveScopes(user, intent, level))
            <==> level == Level1 || level == Level5
  {
    if level == Level1 || level == Level5 {
      forall user, intent, s | s in EffectiveScopes(user, intent, level)
        ensures s in ComputeEffectiveScopes(user, intent, level)
      {
        EffectiveExactly(user, intent, level);
        ComputeExactly(user, intent, level, s);
      }
    } else {
      var s := "order:read";
      assert EndsWith(s, ":read") && s[0] == 'o';
      VersionsDiffer(level, [s], s);
    }
  }

  /** Any plain read scope shows the difference. */
  lemma VersionsDiffer(level: AutonomyLevel, scopes: seq<string>, s: string)
    requires level != Level1 && level != Level5
    requires s in scopes && EndsWith(s, ":read") && s[0] != '*'
    ensures s in EffectiveScopes(scopes, scopes, level)
    ensures s !in ComputeEffectiveScopes(scopes, scopes, level)
  {
    EffectiveExactly(scopes, scopes, level);
    ComputeExactly(scopes, scopes, level, s);
    assert ScopeMatches(s, s);
    if s in AutonomyCeiling(level) { CapsStartWithStar(level, s); }
  }

  lemma CapsStartWithStar(level: AutonomyLevel, s: string)
    requires level != Level5 && s in AutonomyCeiling(level)
    ensures s[0] == '*'
  {
  }

  /** Level four decides a scope as documented, "everything except payment", exactly when the scope ends in one of the
      five listed actions or in payment: it is an allow-list. */
  lemma LevelFourExactly(s: string)
    ensures (AnyMatchesOrCaps(AutonomyCeiling(Level4), s) <==> !EndsWith(s, ":payment")) <==>
            EndsWithAny(s, Actions(Level4)) || EndsWith(s, ":payment")
  {
    CeilingPermits(Level4, s);
    PermitsByAction(Level4, s);
    if EndsWith(s, ":payment") {
      forall i | 0 <= i < |Actions(Level4)|
        ensures !EndsWith(s, Actions(Level4)[i])
      {
        NotSuffix(s, Actions(Level4)[i], 1);
      }
    }
  }

  lemma SameEnding(s: string, suffix: string)
    requires EndsWith(s, suffix) && |suffix| >= 2
    ensures s[|s| - 2..] == suffix[|suffix| - 2..]
  {
  }

  lemma OtherEnding(s: string, suffix: string)
    requires |s| >= 2 && s[|s| - 2..] == "ve" && |suffix| >= 2 && suffix[|suffix| - 2..] != "ve"
    ensures !EndsWith(s, suffix)
  {
    if EndsWith(s, suffix) { SameEnding(s, suffix); }
  }

  /** A scope of neither kind is refused although it is no payment. */
  lemma LevelFourRefusesApproval(resource: string)
    ensures !AnyMatchesOrCaps(AutonomyCeiling(Level4), resource + ":approve")
    ensures !EndsWith(resource + ":approve", ":payment")
  {
    var s := resource + ":approve";
    assert s[|s| - 2..] == "ve";
    OtherEnding(s, ":payment");
    forall i | 0 <= i < |Actions(Level4)|
      ensures !EndsWith(s, Actions(Level4)[i])
    {
      OtherEnding(s, Actions(Level4)[i]);
    }
    CeilingPermits(Level4, s);
    PermitsByAction(Level4, s);
  }
}

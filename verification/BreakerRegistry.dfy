/** The registry of circuit breakers: one breaker per key, each unaware of the others. */
module BreakerRegistry {
  import opened CircuitBreaker
  import opened Contracts

  /** A registration, or one breaker operation under a key. */
  datatype RegistryOp = Register(key: string, config: BreakerConfig) | Act(key: string, op: Op)

  type Breakers = map<string, Breaker>

  /** Registering an existing key and acting on an unknown one do nothing. */
  function RegistryStep(m: Breakers, r: RegistryOp): Breakers {
    match r
    case Register(key, config) => if key in m then m else m[key := NewBreaker(config)]
    case Act(key, op) => if key in m then m[key := Step(m[key], op)] else m
  }

  class CircuitBreakerRegistry {
    var breakers: map<string, BreakerInner>

    /** No breaker is filed under two keys. */
    ghost predicate Valid()
      reads this
    {
      forall j, k :: j in breakers && k in breakers && j != k ==> breakers[j] != breakers[k]
    }

    ghost function Values(): Breakers
      reads this, breakers.Values
    {
      map k | k in breakers :: breakers[k].Value()
    }

    constructor ()
      ensures Valid() && Values() == map[] && breakers == map[]
    {
      breakers := map[];
    }

    method RegisterBreaker(key: string, config: BreakerConfig)
      requires Valid()
      modifies this
      ensures Valid() && Values() == RegistryStep(old(Values()), Register(key, config))
      ensures forall b :: b in breakers.Values ==> b in old(breakers.Values) || fresh(b)
    {
      if key in breakers { return; }
      var b := new BreakerInner(config);
      breakers := breakers[key := b];
      assert forall k :: k in old(breakers) ==> breakers[k] == old(breakers[k]);
    }

    method RecordFailure(key: string, now: int, why: Option<string>) returns (tripped: bool)
      requires Valid()
      modifies breakers.Values
      ensures Values() == RegistryStep(old(Values()), Act(key, Failure(now, why)))
      ensures tripped <==> key in breakers && old(Values())[key].state != Open && Values()[key].state == Open
    {
      if key !in breakers { return false; }
      tripped := breakers[key].RecordFailure(now, why);
    }

    method RecordSuccess(key: string, now: int)
      requires Valid()
      modifies breakers.Values
      ensures Values() == RegistryStep(old(Values()), Act(key, Success(now)))
    {
      if key !in breakers { return; }
      breakers[key].RecordSuccess(now);
    }

    /** A key without a breaker is always let through. */
    method Allows(key: string, now: int) returns (ok: bool)
      requires Valid()
      modifies breakers.Values
      ensures Values() == RegistryStep(old(Values()), Act(key, Probe(now)))
      ensures ok <==> key !in breakers || Allowed(old(Values())[key], now)
    {
      if key !in breakers { return true; }
      ok := breakers[key].Allows(now);
    }

    method ForceOpen(key: string, now: int, because: string)
      requires Valid()
      modifies breakers.Values
      ensures Values() == RegistryStep(old(Values()), Act(key, Op.ForceOpen(now, because)))
    {
      if key !in breakers { return; }
      breakers[key].Force(true, now, because);
    }

    method ForceClose(key: string, now: int)
      requires Valid()
      modifies breakers.Values
      ensures Values() == RegistryStep(old(Values()), Act(key, Op.ForceClose(now)))
    {
      if key !in breakers { return; }
      breakers[key].Force(false, now, "");
    }
  }

  function RunRegistry(rs: seq<RegistryOp>): Breakers {
    if rs == [] then map[] else RegistryStep(RunRegistry(rs[..|rs| - 1]), rs[|rs| - 1])
  }

  /** What one key sees of a history: the configuration of its first registration, and its operations since. */
  datatype Seen = Unregistered | Since(config: BreakerConfig, ops: seq<Op>)

  function SeenBy(rs: seq<RegistryOp>, key: string): Seen {
    if rs == [] then Unregistered
    else
      var before, r := SeenBy(rs[..|rs| - 1], key), rs[|rs| - 1];
      if r.key != key then before
      else
        match r
        case Register(_, config) => if before.Since? then before else Since(config, [])
        case Act(_, op) => if before.Since? then before.(ops := before.ops + [op]) else before
  }

  /** Every breaker of the registry is the single breaker run on its own operations, so whatever holds of every
      run of one breaker holds of every key of every registry history. */
  lemma {:induction false} RegistryProjects(rs: seq<RegistryOp>, key: string)
    ensures match SeenBy(rs, key)
            case Unregistered => key !in RunRegistry(rs)
            case Since(config, ops) => key in RunRegistry(rs) && RunRegistry(rs)[key] == RunOps(config, ops)
    decreases |rs|
  {
    if rs != [] {
      var r, before := rs[|rs| - 1], SeenBy(rs[..|rs| - 1], key);
      RegistryProjects(rs[..|rs| - 1], key);
      if r.Act? && r.key == key && before.Since? {
        OneMore(before.config, before.ops, r.op);
      }
    }
  }
}

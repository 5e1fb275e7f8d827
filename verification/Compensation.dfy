/** The compensation chain: a stack of compensators unwound last-in first-out. */
module Compensation {
  import opened Contracts
  import opened Digraph
  import opened GraphValidation
  import opened Ordering
  import opened RuntimeTypes

  datatype Entry = Entry(step: NodeId, compensator: Node)

  /** What the compensator at a stack position answers, given the outputs of those that ran before it. */
  type Undo = (nat, Entry, Outputs) -> Result<NodeOutput, RuntimeError>

  /** `ran` lists the attempted compensators in order, `given` what each of them was shown; `left` is what stays
      on the stack. */
  datatype Unwound = Unwound(
    ran: seq<NodeId>, given: seq<Outputs>, outs: seq<NodeOutput>, left: seq<Entry>, failure: Option<RuntimeError>)

  function Unwind(stack: seq<Entry>, prior: Outputs, undo: Undo): Unwound
    decreases |stack|
  {
    if stack == [] then Unwound([], [], [], [], None)
    else
      var k := |stack| - 1;
      var top := stack[k];
      match undo(k, top, prior)
      case Err(e) => Unwound([top.step], [prior], [], stack[..k], Some(e))
      case Ok(o) =>
        var u := Unwind(stack[..k], prior[top.step := o], undo);
        u.(ran := [top.step] + u.ran, given := [prior] + u.given, outs := [o] + u.outs)
  }

  function StepIds(stack: seq<Entry>): (ids: seq<NodeId>)
    ensures |ids| == |stack| && forall i :: 0 <= i < |stack| ==> ids[i] == stack[i].step
  {
    seq(|stack|, i requires 0 <= i < |stack| => stack[i].step)
  }

  /** Compensators run in strict reverse push order, each once; a failure stops the unwinding there, so only
      entries pushed after the failing one ran before it and the earlier ones stay on the stack. */
  lemma {:induction false} UnwindReverses(stack: seq<Entry>, prior: Outputs, undo: Undo)
    ensures var u := Unwind(stack, prior, undo);
            && |u.ran| <= |stack|
            && u.ran == Reverse(StepIds(stack))[..|u.ran|]
            && u.left == stack[..|stack| - |u.ran|]
            && (u.failure.None? ==> |u.ran| == |stack| == |u.outs|)
            && (u.failure.Some? ==> |u.outs| + 1 == |u.ran|)
    decreases |stack|
  {
    if stack != [] {
      var k := |stack| - 1;
      var top := stack[k];
      var back := Reverse(StepIds(stack));
      assert back[0] == top.step;
      if undo(k, top, prior).Ok? {
        var rest := stack[..k];
        var next := prior[top.step := undo(k, top, prior).value];
        UnwindReverses(rest, next, undo);
        var u := Unwind(rest, next, undo);
        assert back == [top.step] + Reverse(StepIds(rest));
        assert stack[..|stack| - (|u.ran| + 1)] == rest[..|rest| - |u.ran|];
      }
    }
  }

  /** What the caller sees: all outputs, or the failing step and the reason. */
  function Report(u: Unwound, describe: RuntimeError -> string): Result<seq<NodeOutput>, RuntimeError> {
    match u.failure
    case None => Ok(u.outs)
    case Some(e) => Err(CompensationFailed(if u.ran == [] then "" else u.ran[|u.ran| - 1], describe(e)))
  }

  /** What compensators with these outputs, run in this order, leave to the next one. */
  function Layered(prior: Outputs, ids: seq<NodeId>, outs: seq<NodeOutput>): Outputs
    requires |ids| == |outs|
    decreases |ids|
  {
    if ids == [] then prior else Layered(prior[ids[0] := outs[0]], ids[1..], outs[1..])
  }

  lemma {:induction false} LayeredHolds(prior: Outputs, ids: seq<NodeId>, outs: seq<NodeOutput>)
    requires |ids| == |outs| && Distinct(ids)
    ensures Layered(prior, ids, outs).Keys == prior.Keys + Elems(ids)
    ensures forall i :: 0 <= i < |ids| ==> Layered(prior, ids, outs)[ids[i]] == outs[i]
    ensures forall k :: k in prior && k !in ids ==> Layered(prior, ids, outs)[k] == prior[k]
    decreases |ids|
  {
    if ids != [] {
      var rest := ids[1..];
      LayeredHolds(prior[ids[0] := outs[0]], rest, outs[1..]);
      assert Elems(ids) == {ids[0]} + Elems(rest);
      assert forall i :: 0 <= i < |rest| ==> rest[i] == ids[i + 1];
      assert ids[0] !in rest;
    }
  }

  /** A compensator is shown the outputs of the compensators that ran before it, and nothing else was added. */
  lemma {:induction false} UnwindGiven(stack: seq<Entry>, prior: Outputs, undo: Undo, j: nat)
    requires j < |Unwind(stack, prior, undo).ran|
    ensures var u := Unwind(stack, prior, undo);
            && |u.given| == |u.ran| && j <= |u.outs| <= |u.ran| <= |stack|
            && u.given[j] == Layered(prior, u.ran[..j], u.outs[..j])
    decreases |stack|
  {
    var k := |stack| - 1;
    var top := stack[k];
    if undo(k, top, prior).Ok? {
      var o := undo(k, top, prior).value;
      var rest, next := stack[..k], prior[top.step := o];
      var u, v := Unwind(stack, prior, undo), Unwind(rest, next, undo);
      UnwindSizes(stack, prior, undo);
      if j > 0 {
        var i := j - 1;
        UnwindGiven(rest, next, undo, i);
        LayeredMore(prior, top.step, o, v.ran[..i], v.outs[..i]);
        assert u.ran[..j] == [top.step] + v.ran[..i] && u.outs[..j] == [o] + v.outs[..i];
        assert u.given[j] == v.given[i];
      }
    }
  }

  /** Its output, or the failure that ends the unwinding, is its own answer to what it is shown. */
  lemma {:induction false} UnwindAnswers(stack: seq<Entry>, prior: Outputs, undo: Undo, j: nat)
    requires j < |Unwind(stack, prior, undo).ran|
    ensures var u := Unwind(stack, prior, undo);
            var k := |stack| - 1 - j;
            && |u.given| == |u.ran| <= |stack| && j <= |u.outs|
            && (if j < |u.outs| then undo(k, stack[k], u.given[j]) == Ok(u.outs[j])
                else u.failure.Some? && undo(k, stack[k], u.given[j]) == Err(u.failure.value))
    decreases |stack|
  {
    var k := |stack| - 1;
    var top := stack[k];
    UnwindSizes(stack, prior, undo);
    if undo(k, top, prior).Ok? && j > 0 {
      var i := j - 1;
      var rest, next := stack[..k], prior[top.step := undo(k, top, prior).value];
      UnwindAnswers(rest, next, undo, i);
      var u, v := Unwind(stack, prior, undo), Unwind(rest, next, undo);
      assert u.given[j] == v.given[i] && |u.outs| == |v.outs| + 1 && (j < |u.outs| ==> u.outs[j] == v.outs[i]);
      assert |rest| - 1 - i == k - j && rest[k - j] == stack[k - j];
    }
  }

  lemma {:induction false} UnwindSizes(stack: seq<Entry>, prior: Outputs, undo: Undo)
    ensures var u := Unwind(stack, prior, undo);
            |u.given| == |u.ran| <= |u.outs| + 1 && |u.outs| <= |u.ran| <= |stack|
    decreases |stack|
  {
    if stack != [] {
      var k := |stack| - 1;
      if undo(k, stack[k], prior).Ok? {
        UnwindSizes(stack[..k], prior[stack[k].step := undo(k, stack[k], prior).value], undo);
      }
    }
  }

  lemma LayeredMore(prior: Outputs, id: NodeId, o: NodeOutput, ids: seq<NodeId>, outs: seq<NodeOutput>)
    requires |ids| == |outs|
    ensures Layered(prior, [id] + ids, [o] + outs) == Layered(prior[id := o], ids, outs)
  {
    assert ([id] + ids)[1..] == ids && ([o] + outs)[1..] == outs;
  }

  lemma ReverseDistinct<T>(s: seq<T>)
    requires Distinct(s)
    ensures Distinct(Reverse(s))
  {
    var r := Reverse(s);
    forall i, j | 0 <= i < j < |r|
      ensures r[i] != r[j]
    {
      assert r[i] == s[|s| - 1 - i] && r[j] == s[|s| - 1 - j];
    }
  }

  lemma UnwindDistinct(stack: seq<Entry>, prior: Outputs, undo: Undo)
    requires Distinct(StepIds(stack))
    ensures Distinct(Unwind(stack, prior, undo).ran)
  {
    UnwindReverses(stack, prior, undo);
    ReverseDistinct(StepIds(stack));
  }

  /** With distinct steps, a compensator is shown exactly the outputs of the compensators before it, and so nothing
      under the step it undoes itself. */
  lemma ShownByUnwinding(stack: seq<Entry>, undo: Undo, j: nat)
    requires Distinct(StepIds(stack)) && j < |Unwind(stack, map[], undo).ran|
    ensures var u := Unwind(stack, map[], undo);
            && |u.given| == |u.ran| && j <= |u.outs|
            && u.given[j].Keys == Elems(u.ran[..j])
            && (forall i :: 0 <= i < j ==> u.ran[i] in u.given[j] && u.given[j][u.ran[i]] == u.outs[i])
            && u.ran[j] !in u.given[j]
  {
    var u := Unwind(stack, map[], undo);
    UnwindGiven(stack, map[], undo, j);
    UnwindDistinct(stack, map[], undo);
    PrefixLayered(u.ran, u.outs, j);
  }

  lemma PrefixLayered(ids: seq<NodeId>, outs: seq<NodeOutput>, j: nat)
    requires Distinct(ids) && j < |ids| && j <= |outs|
    ensures var m := Layered(map[], ids[..j], outs[..j]);
            && m.Keys == Elems(ids[..j]) && ids[j] !in m
            && forall i :: 0 <= i < j ==> ids[i] in m && m[ids[i]] == outs[i]
  {
    var before := ids[..j];
    assert forall i :: 0 <= i < j ==> before[i] == ids[i] && ids[i] != ids[j];
    LayeredHolds(map[], before, outs[..j]);
  }

  /** An unwinding preceded by the compensators that already ran. */
  function Preceded(ran: seq<NodeId>, given: seq<Outputs>, outs: seq<NodeOutput>, u: Unwound): Unwound {
    u.(ran := ran + u.ran, given := given + u.given, outs := outs + u.outs)
  }

  lemma UnwindTop(stack: seq<Entry>, prior: Outputs, undo: Undo, ran: seq<NodeId>, given: seq<Outputs>,
                  outs: seq<NodeOutput>)
    requires stack != []
    ensures var k := |stack| - 1;
            var top := stack[k];
            Preceded(ran, given, outs, Unwind(stack, prior, undo)) ==
            match undo(k, top, prior)
            case Err(e) => Unwound(ran + [top.step], given + [prior], outs, stack[..k], Some(e))
            case Ok(o) =>
              Preceded(ran + [top.step], given + [prior], outs + [o], Unwind(stack[..k], prior[top.step := o], undo))
  {
    var k := |stack| - 1;
    var top := stack[k];
    match undo(k, top, prior) {
      case Err(e) => assert outs + [] == outs;
      case Ok(o) =>
        var u := Unwind(stack[..k], prior[top.step := o], undo);
        assert ran + ([top.step] + u.ran) == (ran + [top.step]) + u.ran;
        assert given + ([prior] + u.given) == (given + [prior]) + u.given;
        assert outs + ([o] + u.outs) == (outs + [o]) + u.outs;
    }
  }

  class CompensationChain {
    var stack: seq<Entry>

    constructor ()
      ensures stack == []
    {
      stack := [];
    }

    method Push(forStep: NodeId, compensator: Node)
      modifies this
      ensures stack == old(stack) + [Entry(forStep, compensator)]
    {
      stack := stack + [Entry(forStep, compensator)];
    }

    method IsEmpty() returns (b: bool)
      ensures b <==> stack == []
    {
      b := |stack| == 0;
    }

    /** Pop and run every compensator, each seeing the outputs of those run before it. */
    method Rollback(undo: Undo, describe: RuntimeError -> string)
      returns (r: Result<seq<NodeOutput>, RuntimeError>, ghost ran: seq<NodeId>, ghost given: seq<Outputs>)
      modifies this
      ensures ran == Unwind(old(stack), map[], undo).ran && stack == Unwind(old(stack), map[], undo).left
      ensures given == Unwind(old(stack), map[], undo).given
      ensures r == Report(Unwind(old(stack), map[], undo), describe)
    {
      var prior: Outputs := map[];
      var out: seq<NodeOutput> := [];
      ran, given := [], [];
      ghost var whole := Unwind(stack, map[], undo);
      while stack != []
        invariant whole == Preceded(ran, given, out, Unwind(stack, prior, undo))
        decreases |stack|
      {
        UnwindTop(stack, prior, undo, ran, given, out);
        var k := |stack| - 1;
        var top := stack[k];
        stack := stack[..k];
        ran, given := ran + [top.step], given + [prior];
        match undo(k, top, prior) {
          case Err(e) =>
            return Err(CompensationFailed(top.step, describe(e))), ran, given;
          case Ok(o) =>
            prior := prior[top.step := o];
            out := out + [o];
        }
      }
      assert ran + [] == ran && given + [] == given && out + [] == out;
      return Ok(out), ran, given;
    }
  }
}

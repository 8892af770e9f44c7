/**
 * The bounded search of the learner (LTLLearner.kt).
 */
module Learner {
  import opened Common

  /** The extra constraint text appended to the encoding. By default it asks
      that every term of an atom be a variable. */
  datatype CustomConstraint = OnlyVarTerms | Verbatim(text: string)

  /** A learning task: vocabulary, labelled examples and search limits
      (`maxNumOfNode` defaults to 10 where a task is built directly). */
  datatype FOLTask = FOLTask(
    sorts: seq<FOLSort>,
    relations: seq<FOLRelation>,
    functions: seq<FOLFunction>,
    positiveExamples: seq<FOLExample>,
    negativeExamples: seq<FOLExample>,
    maxNumOfNode: int,
    maxQuantifiers: int,
    excludedOperators: seq<string>,
    customConstraints: CustomConstraint)

  /** A task built with the defaults of the source for the quantifier limit,
      the excluded operators and the custom constraint. */
  function NewTask(sorts: seq<FOLSort>, relations: seq<FOLRelation>, functions: seq<FOLFunction>,
                  positiveExamples: seq<FOLExample>, negativeExamples: seq<FOLExample>, maxNumOfNode: int): (t: FOLTask)
    ensures t.maxQuantifiers == 3 && t.excludedOperators == [] && t.customConstraints == OnlyVarTerms
    ensures t.sorts == sorts && t.relations == relations && t.functions == functions
    ensures t.positiveExamples == positiveExamples && t.negativeExamples == negativeExamples
    ensures t.maxNumOfNode == maxNumOfNode
  {
    FOLTask(sorts, relations, functions, positiveExamples, negativeExamples, maxNumOfNode, 3, [], OnlyVarTerms)
  }

  const DefaultMaxNumOfNode := 10

  // ---------------------------------------------------------------------
  // The bound schedule
  // ---------------------------------------------------------------------

  /** Kotlin's `/` on `Int` for a positive divisor: the quotient is truncated
      toward zero, so the remainder `a - q * b` has the sign of `a` and is
      smaller than `b` in magnitude. */
  function KotlinDiv(a: int, b: int): (q: int)
    requires b > 0
    ensures a >= 0 ==> 0 <= a - q * b < b
    ensures a < 0 ==> -b < a - q * b <= 0
  {
    if a >= 0 then a / b else -((-a) / b)
  }

  function Min(a: int, b: int): int { if a <= b then a else b }
  function Max(a: int, b: int): int { if a >= b then a else b }

  /** The first node bound tried when none is given: half of what the node
      limit leaves after the sorts, clamped to the range 3..6. */
  function DefaultStart(task: FOLTask): (n: int)
    ensures 3 <= n <= 6
  {
    Min(Max(KotlinDiv(task.maxNumOfNode - |task.sorts|, 2), 3), 6)
  }

  /** Truncating and flooring division can differ only for a negative
      numerator, and then both results are clamped up to 3: the start bound
      is the same with Dafny's own division. */
  lemma DefaultStartWithFlooredDivision(task: FOLTask)
    ensures DefaultStart(task) == Min(Max((task.maxNumOfNode - |task.sorts|) / 2, 3), 6)
  {
    var a := task.maxNumOfNode - |task.sorts|;
    if a < 0 {
      assert KotlinDiv(a, 2) <= 0;
      assert a / 2 < 0;
    }
  }

  /** `start..end step step`: the numbers `start + k * step` up to `end`. */
  function Progression(start: int, end: int, step: int): (r: seq<int>)
    requires step > 0
    ensures forall k :: 0 <= k < |r| ==> start <= r[k] <= end
    ensures forall i, j :: 0 <= i < j < |r| ==> r[i] < r[j]
    ensures start <= end ==> |r| > 0 && r[0] == start
    ensures |r| > 0 ==> end < r[|r| - 1] + step
    decreases end - start
  {
    if start > end then [] else [start] + Progression(start + step, end, step)
  }

  /** The node bounds `learn` walks: the progression, with the node limit
      appended when the progression is empty or stops short of it. */
  function NodeBounds(start: int, end: int, step: int): seq<int>
    requires step > 0
  {
    var p := Progression(start, end, step);
    if p == [] || p[|p| - 1] < end then p + [end] else p
  }

  /** For a positive step the bounds rise strictly, never pass the node
      limit and end with it. */
  lemma NodeBoundsRise(start: int, end: int, step: int)
    requires step > 0
    ensures var b := NodeBounds(start, end, step);
      && |b| > 0
      && b[|b| - 1] == end
      && (forall i, j :: 0 <= i < j < |b| ==> b[i] < b[j])
      && (forall k :: 0 <= k < |b| ==> b[k] <= end)
  {
  }

  /** The bounds start at `start` when it is within the limit, and all but
      the last are `start + k * step`. */
  lemma NodeBoundsOnProgression(start: int, end: int, step: int)
    requires step > 0
    ensures var b := NodeBounds(start, end, step);
      && (start <= end ==> b[0] == start)
      && (forall k :: 0 <= k < |b| - 1 ==> b[k] == start + k * step)
  {
    ProgressionSteps(start, end, step);
  }

  lemma {:induction false} ProgressionSteps(start: int, end: int, step: int)
    requires step > 0
    ensures forall k :: 0 <= k < |Progression(start, end, step)| ==> Progression(start, end, step)[k] == start + k * step
    decreases end - start
  {
    if start <= end {
      var rest := Progression(start + step, end, step);
      ProgressionSteps(start + step, end, step);
      var p := Progression(start, end, step);
      assert p == [start] + rest;
      forall k | 1 <= k < |p| ensures p[k] == start + k * step {
        assert p[k] == rest[k - 1];
        assert start + step + (k - 1) * step == start + k * step;
      }
    }
  }

  /** The first bound the oracle reports satisfiable. */
  function FirstSatisfiable(bounds: seq<int>, sat: int -> bool): (r: Option<int>)
    ensures r.None? <==> forall k :: 0 <= k < |bounds| ==> !sat(bounds[k])
    ensures r.Some? ==> exists k :: 0 <= k < |bounds| && bounds[k] == r.value && sat(bounds[k]) &&
                                    (forall j :: 0 <= j < k ==> !sat(bounds[j]))
  {
    if bounds == [] then None
    else if sat(bounds[0]) then Some(bounds[0])
    else
      var r := FirstSatisfiable(bounds[1..], sat);
      assert forall k :: 1 <= k < |bounds| ==> bounds[k] == bounds[1..][k - 1];
      r
  }

  /** What `learn` hands to the solution: the bound that was satisfiable and
      the step to continue with. The solver's instance is not part of this
      model. */
  datatype LearnedBound = LearnedBound(numOfNode: int, stepSize: int)

  /** A non-positive step makes the Kotlin progression throw. */
  datatype LearnError = NonPositiveStep

  function StartBound(task: FOLTask, start: Option<int>): int {
    if start.Some? then start.value else DefaultStart(task)
  }

  function LearnOutcome(task: FOLTask, start: Option<int>, stepSize: int, sat: int -> bool): Result<Option<LearnedBound>, LearnError> {
    if stepSize <= 0 then Err(NonPositiveStep)
    else
      match FirstSatisfiable(NodeBounds(StartBound(task, start), task.maxNumOfNode, stepSize), sat)
      case None => Ok(None)
      case Some(n) => Ok(Some(LearnedBound(n, stepSize)))
  }

  /** The loop of `learn` over the bounds: the first one for which the
      solver (`sat`) finds an instance. */
  method SolveFirst(bounds: seq<int>, sat: int -> bool) returns (r: Option<int>)
    ensures r == FirstSatisfiable(bounds, sat)
  {
    for i := 0 to |bounds|
      invariant FirstSatisfiable(bounds[i..], sat) == FirstSatisfiable(bounds, sat)
    {
      if sat(bounds[i]) {
        return Some(bounds[i]);
      }
      assert bounds[i..][1..] == bounds[i + 1..];
    }
    return None;
  }

  /** `learn`: builds the node bounds from the start (or the default start)
      and the step, and returns the first satisfiable one with the step. */
  method Learn(task: FOLTask, start: Option<int>, stepSize: int, sat: int -> bool)
    returns (r: Result<Option<LearnedBound>, LearnError>)
    ensures r == LearnOutcome(task, start, stepSize, sat)
  {
    if stepSize <= 0 {
      return Err(NonPositiveStep);
    }
    var startNum := if start.Some? then start.value else DefaultStart(task);
    var nodesSeq := Progression(startNum, task.maxNumOfNode, stepSize);
    if nodesSeq == [] || nodesSeq[|nodesSeq| - 1] < task.maxNumOfNode {
      nodesSeq := nodesSeq + [task.maxNumOfNode];
    }
    assert nodesSeq == NodeBounds(StartBound(task, start), task.maxNumOfNode, stepSize);
    var n := SolveFirst(nodesSeq, sat);
    if n.Some? {
      return Ok(Some(LearnedBound(n.value, stepSize)));
    }
    return Ok(None);
  }

  /** On strictly rising bounds, every bound below the first satisfiable one
      is unsatisfiable, and that one is among the bounds. */
  lemma FirstSatisfiableOnRising(bounds: seq<int>, end: int, sat: int -> bool)
    requires forall i, j :: 0 <= i < j < |bounds| ==> bounds[i] < bounds[j]
    requires forall k :: 0 <= k < |bounds| ==> bounds[k] <= end
    ensures var f := FirstSatisfiable(bounds, sat);
      f.Some? ==> f.value in bounds && f.value <= end && sat(f.value) &&
                  forall k :: 0 <= k < |bounds| && bounds[k] < f.value ==> !sat(bounds[k])
  {
    var f := FirstSatisfiable(bounds, sat);
    if f.Some? {
      var k :| 0 <= k < |bounds| && bounds[k] == f.value && sat(bounds[k]) && forall j :: 0 <= j < k ==> !sat(bounds[j]);
      forall j | 0 <= j < |bounds| && bounds[j] < f.value ensures !sat(bounds[j]) {
        assert j < k;
      }
    }
  }

  /** `learn` finds a bound exactly when the solver accepts one of the
      scheduled bounds; that bound is then the smallest satisfiable one among
      them and never above the node limit. */
  lemma LearnFindsFirst(task: FOLTask, start: Option<int>, stepSize: int, sat: int -> bool)
    requires stepSize > 0
    ensures var b := NodeBounds(StartBound(task, start), task.maxNumOfNode, stepSize);
      var r := LearnOutcome(task, start, stepSize, sat);
      && r.Ok?
      && (r.value.None? <==> forall k :: 0 <= k < |b| ==> !sat(b[k]))
      && (r.value.Some? ==> r.value.value.numOfNode in b && r.value.value.numOfNode <= task.maxNumOfNode)
      && (r.value.Some? ==> sat(r.value.value.numOfNode) && r.value.value.stepSize == stepSize)
      && (r.value.Some? ==> forall k :: 0 <= k < |b| && b[k] < r.value.value.numOfNode ==> !sat(b[k]))
  {
    var b := NodeBounds(StartBound(task, start), task.maxNumOfNode, stepSize);
    NodeBoundsRise(StartBound(task, start), task.maxNumOfNode, stepSize);
    FirstSatisfiableOnRising(b, task.maxNumOfNode, sat);
  }
}

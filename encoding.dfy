/**
 * The pieces of the Alloy encoding that the learner computes from the learning task
 * for every node bound (LTLLearner.kt): the number of elements, the width
 * of the index signature, the sort of the elements, the operator switch,
 * the enumerated variable environments and the ground facts that pin down
 * each example structure. The static template text around them is not
 * modelled; its meaning is given by the Semantics module.
 */
module Encoding {
  import opened Common
  import opened Strings
  import opened Learner

  predicate Distinct<T(==)>(s: seq<T>) {
    forall i, j :: 0 <= i < j < |s| ==> s[i] != s[j]
  }

  lemma DistinctConcat<T>(p: seq<T>, q: seq<T>)
    requires Distinct(p) && Distinct(q)
    requires forall x :: x in p ==> x !in q
    ensures Distinct(p + q)
  {
    forall i, j | 0 <= i < j < |p + q| ensures (p + q)[i] != (p + q)[j] {
      if j < |p| {
      } else if i >= |p| {
        assert (p + q)[i] == q[i - |p|] && (p + q)[j] == q[j - |p|];
      } else {
        assert (p + q)[i] in p && (p + q)[j] in q;
      }
    }
  }

  // ---------------------------------------------------------------------
  // Sizes of the encoding
  // ---------------------------------------------------------------------

  /** The largest constant count among the examples, 0 when there are none. */
  function MaxConstants(exs: seq<FOLExample>): (m: nat)
    ensures forall k :: 0 <= k < |exs| ==> |exs[k].structure.constants| <= m
    ensures m == 0 || exists k :: 0 <= k < |exs| && |exs[k].structure.constants| == m
  {
    if exs == [] then 0
    else
      var rest := MaxConstants(exs[1..]);
      assert forall k :: 1 <= k < |exs| ==> exs[k] == exs[1..][k - 1];
      if |exs[0].structure.constants| >= rest then |exs[0].structure.constants| else rest
  }

  /** The number of elements `E0 .. E(m-1)` declared: enough for the
      largest example, positive or negative. */
  function MaxElements(task: FOLTask): (m: nat)
    ensures forall k :: 0 <= k < |task.positiveExamples| ==> |task.positiveExamples[k].structure.constants| <= m
    ensures forall k :: 0 <= k < |task.negativeExamples| ==> |task.negativeExamples[k].structure.constants| <= m
    ensures m == 0
         || (exists k :: 0 <= k < |task.positiveExamples| && |task.positiveExamples[k].structure.constants| == m)
         || (exists k :: 0 <= k < |task.negativeExamples| && |task.negativeExamples[k].structure.constants| == m)
  {
    var p := MaxConstants(task.positiveExamples);
    var n := MaxConstants(task.negativeExamples);
    if p >= n then p else n
  }

  /** `maxOfOrNull { ... } ?: d`. */
  function MaxOrDefault(xs: seq<nat>, d: nat): (r: nat)
    ensures xs == [] ==> r == d
    ensures xs != [] ==> r in xs && forall k :: 0 <= k < |xs| ==> xs[k] <= r
  {
    if xs == [] then d
    else if |xs| == 1 then xs[0]
    else
      var rest := MaxOrDefault(xs[1..], d);
      assert forall k :: 1 <= k < |xs| ==> xs[k] == xs[1..][k - 1];
      if xs[0] >= rest then xs[0] else rest
  }

  /** The arities of a list of symbols, in order. */
  function Arities<T>(symbols: seq<T>, arity: T -> nat): (r: seq<nat>)
    ensures |r| == |symbols| && forall k :: 0 <= k < |symbols| ==> r[k] == arity(symbols[k])
  {
    if symbols == [] then [] else Arities(symbols[..|symbols| - 1], arity) + [arity(symbols[|symbols| - 1])]
  }

  function RelationArity(rel: FOLRelation): nat { rel.Arity() }
  function FunctionArity(fun: FOLFunction): nat { fun.Arity() }

  /** The number of index atoms `I0 .. I(a-1)`: the largest relation arity
      (2 without relations) or the largest function arity (2 without
      functions), whichever is larger. */
  function MaxArity(task: FOLTask): nat {
    Max(MaxOrDefault(Arities(task.relations, RelationArity), 2), MaxOrDefault(Arities(task.functions, FunctionArity), 2)) as nat
  }

  /** Every symbol fits the index width, and the width is one of the
      arities or the default 2; without function symbols it is at least 2. */
  lemma MaxArityBounds(task: FOLTask)
    ensures forall k :: 0 <= k < |task.relations| ==> task.relations[k].Arity() <= MaxArity(task)
    ensures forall k :: 0 <= k < |task.functions| ==> task.functions[k].Arity() <= MaxArity(task)
    ensures task.functions == [] ==> MaxArity(task) >= 2
    ensures MaxArity(task) == 2
         || (exists k :: 0 <= k < |task.relations| && task.relations[k].Arity() == MaxArity(task))
         || (exists k :: 0 <= k < |task.functions| && task.functions[k].Arity() == MaxArity(task))
  {
    var ra := Arities(task.relations, RelationArity);
    var fa := Arities(task.functions, FunctionArity);
    var r := MaxOrDefault(ra, 2);
    var f := MaxOrDefault(fa, 2);
    if r >= f && ra != [] {
      var k :| 0 <= k < |ra| && ra[k] == r;
      assert task.relations[k].Arity() == MaxArity(task);
    } else if f > r && fa != [] {
      var k :| 0 <= k < |fa| && fa[k] == f;
      assert task.functions[k].Arity() == MaxArity(task);
    }
  }

  /** Every element is declared with the first sort of the learning task, or with
      `DefaultSort` when the learning task has no sorts. No signature
      `DefaultSortSort` is declared, so in that case the script does not
      resolve. */
  function ElementSort(task: FOLTask): (s: string)
    ensures task.sorts != [] ==> s == task.sorts[0].name
  {
    if task.sorts == [] then "DefaultSort" else task.sorts[0].name
  }

  // ---------------------------------------------------------------------
  // The operator switch
  // ---------------------------------------------------------------------

  /** The formula kinds the encoding can declare, besides atoms. */
  const Operators: seq<string> := ["Forall", "Exists", "Not", "And", "Or", "Implies"]

  function Keep(ops: seq<string>, excluded: seq<string>): (r: seq<string>)
    ensures forall op :: op in r <==> op in ops && op !in excluded
  {
    if ops == [] then []
    else (if ops[0] in excluded then [] else [ops[0]]) + Keep(ops[1..], excluded)
  }

  /** The operators whose signature and whose clause of the semantics are
      emitted: exactly those not listed as excluded. */
  function EnabledOperators(excluded: seq<string>): (r: seq<string>)
    ensures forall op :: op in r <==> op in Operators && op !in excluded
  {
    Keep(Operators, excluded)
  }

  /** With nothing excluded every operator is available. */
  lemma ExcludingNothing()
    ensures EnabledOperators([]) == Operators
  {
    KeepAll(Operators);
  }

  /** The connectives that the fixed facts of the script name whatever is
      excluded: `SyntacticRestrictions` names And, Or, Implies and Not, and
      `AvoidDegenerateFormulas` names Not. */
  const FixedFactConnectives: seq<string> := ["And", "Or", "Implies", "Not"]

  /** Every connective that the fixed facts name has its signature, so the
      operator names those facts use resolve. Sort, element and tuple names
      are a separate matter. */
  predicate ScriptResolves(excluded: seq<string>) {
    forall op :: op in FixedFactConnectives ==> op in EnabledOperators(excluded)
  }

  /** The operator names that the fixed facts use resolve exactly when none
      of And, Or, Implies and Not is excluded: only Forall and Exists can be
      switched off. */
  lemma ScriptResolvesIff(excluded: seq<string>)
    ensures ScriptResolves(excluded) <==>
      "And" !in excluded && "Or" !in excluded && "Implies" !in excluded && "Not" !in excluded
  {
    assert FixedFactConnectives == ["And", "Or", "Implies", "Not"];
    assert forall op :: op in FixedFactConnectives ==> op in Operators;
    if ScriptResolves(excluded) {
      assert "And" in FixedFactConnectives && "Or" in FixedFactConnectives;
      assert "Implies" in FixedFactConnectives && "Not" in FixedFactConnectives;
    } else {
      var op :| op in FixedFactConnectives && op !in EnabledOperators(excluded);
      assert op == "And" || op == "Or" || op == "Implies" || op == "Not";
    }
  }

  lemma {:induction false} KeepAll(ops: seq<string>)
    ensures Keep(ops, []) == ops
  {
    if ops != [] {
      KeepAll(ops[1..]);
    }
  }

  // ---------------------------------------------------------------------
  // Variable environments
  // ---------------------------------------------------------------------

  /** A mapping of the variables `V0 .. V(n-1)`: entry `v` is the index of
      the element `V{v}` is bound to, or `None` when it is unbound. */
  type Assignment = seq<Option<nat>>

  function Pow(b: nat, e: nat): nat {
    if e == 0 then 1 else Pow(b, e - 1) * b
  }

  /** The element choices `E0 .. E(m-1)`. */
  function ElementValues(m: nat): (r: seq<Option<nat>>)
    ensures |r| == m && forall e :: 0 <= e < m ==> r[e] == Some(e)
  {
    if m == 0 then [] else ElementValues(m - 1) + [Some(m - 1)]
  }

  /** The choices for one variable: every element, then unbound. */
  function ElementChoices(m: nat): (r: seq<Option<nat>>)
    ensures |r| == m + 1 && r[m] == None
    ensures forall e :: 0 <= e < m ==> r[e] == Some(e)
  {
    ElementValues(m) + [None]
  }

  lemma ElementChoicesAreValid(m: nat, c: Option<nat>)
    ensures c in ElementChoices(m) <==> (c.Some? ==> c.value < m)
    ensures Distinct(ElementChoices(m))
  {
    var cs := ElementChoices(m);
    if c.Some? && c.value < m {
      assert cs[c.value] == c;
    }
    if c.None? {
      assert cs[m] == c;
    }
  }

  /** One mapping extended by each choice for the next variable, in order. */
  function Row(a: Assignment, cs: seq<Option<nat>>): (r: seq<Assignment>)
    ensures |r| == |cs|
    ensures forall k :: 0 <= k < |cs| ==> r[k] == a + [cs[k]]
  {
    if cs == [] then [] else Row(a, cs[..|cs| - 1]) + [a + [cs[|cs| - 1]]]
  }

  /** Every mapping extended by every choice: mapping-major order. */
  function Product(all: seq<Assignment>, cs: seq<Option<nat>>): seq<Assignment> {
    if all == [] then [] else Product(all[..|all| - 1], cs) + Row(all[|all| - 1], cs)
  }

  /** The Cartesian product after `n` variables, before filtering. */
  function Assignments(n: nat, m: nat): seq<Assignment> {
    if n == 0 then [[]] else Product(Assignments(n - 1, m), ElementChoices(m))
  }

  predicate HasBinding(a: Assignment) {
    exists k :: 0 <= k < |a| && a[k].Some?
  }

  /** The filter that drops the mapping binding nothing. */
  function Bound(xs: seq<Assignment>): (r: seq<Assignment>)
    ensures forall a :: a in r <==> a in xs && HasBinding(a)
    ensures |r| <= |xs|
  {
    if xs == [] then []
    else (if HasBinding(xs[0]) then [xs[0]] else []) + Bound(xs[1..])
  }

  /** The environments `Env1 ..` that `generateAllEnvironments` declares
      for `numVars` variables and `m` elements; a non-positive variable
      count yields none. */
  function Environments(numVars: int, m: nat): seq<Assignment> {
    Bound(Assignments(if numVars < 0 then 0 else numVars, m))
  }

  /** Without variables the only mapping binds nothing, so no environment
      is left. */
  lemma NoVariablesNoEnvironments(m: nat)
    ensures Environments(0, m) == []
  {
    assert Assignments(0, m) == [[]];
    assert !HasBinding([]);
    assert Bound([[]]) == [] + Bound([]);
  }

  /** `generateAllEnvironments`: the Cartesian product built variable by
      variable, filtered to the mappings that bind something, with its
      count. The Alloy text of each environment is not modelled. */
  method GenerateAllEnvironments(numVars: int, maxElements: nat) returns (envs: seq<Assignment>, count: int)
    ensures envs == Environments(numVars, maxElements)
    ensures count == |envs|
  {
    if numVars == 0 {
      NoVariablesNoEnvironments(maxElements);
      return [], 0;
    }
    var elementChoices := ElementChoices(maxElements);
    var allMappings := AllMappings(numVars, elementChoices, maxElements);
    envs := Bound(allMappings);
    count := |envs|;
  }

  /** The Cartesian product, one variable at a time (`repeat(numVars)`). */
  method AllMappings(numVars: int, elementChoices: seq<Option<nat>>, m: nat) returns (allMappings: seq<Assignment>)
    requires elementChoices == ElementChoices(m)
    ensures allMappings == Assignments(if numVars < 0 then 0 else numVars, m)
  {
    var n: nat := if numVars < 0 then 0 else numVars;
    allMappings := [[]];
    var v := 0;
    while v < n
      invariant v <= n
      invariant allMappings == Assignments(v, m)
    {
      allMappings := NextMappings(allMappings, elementChoices);
      v := v + 1;
    }
  }

  /** One round of the Cartesian product: every mapping so far, extended
      by every choice for the next variable. */
  method NextMappings(allMappings: seq<Assignment>, elementChoices: seq<Option<nat>>) returns (nextMappings: seq<Assignment>)
    ensures nextMappings == Product(allMappings, elementChoices)
  {
    nextMappings := [];
    for j := 0 to |allMappings|
      invariant nextMappings == Product(allMappings[..j], elementChoices)
    {
      var mapping := allMappings[j];
      ghost var before := nextMappings;
      for k := 0 to |elementChoices|
        invariant nextMappings == before + Row(mapping, elementChoices[..k])
      {
        assert elementChoices[..k + 1][..k] == elementChoices[..k];
        nextMappings := nextMappings + [mapping + [elementChoices[k]]];
      }
      assert elementChoices[..|elementChoices|] == elementChoices;
      assert allMappings[..j + 1][..j] == allMappings[..j];
    }
    assert allMappings[..|allMappings|] == allMappings;
  }

  /** A mapping of `n` variables to elements below `m`, or to nothing. */
  predicate ValidAssignment(a: Assignment, n: nat, m: nat) {
    |a| == n && forall k :: 0 <= k < |a| && a[k].Some? ==> a[k].value < m
  }

  /** The mapping that binds no variable (the empty environment). */
  function Unbound(n: nat): (a: Assignment)
    ensures |a| == n && forall k :: 0 <= k < n ==> a[k].None?
  {
    if n == 0 then [] else Unbound(n - 1) + [None]
  }

  lemma {:induction false} ProductMembership(all: seq<Assignment>, cs: seq<Option<nat>>, x: Assignment)
    ensures x in Product(all, cs) <==> |x| > 0 && x[..|x| - 1] in all && x[|x| - 1] in cs
  {
    if all != [] {
      var pre := all[..|all| - 1];
      var a := all[|all| - 1];
      ProductMembership(pre, cs, x);
      assert all == pre + [a];
      if x in Row(a, cs) {
        var k :| 0 <= k < |cs| && Row(a, cs)[k] == x;
        assert x[..|x| - 1] == a;
      }
      if |x| > 0 && x[..|x| - 1] in all && x[|x| - 1] in cs && x[..|x| - 1] == a {
        var k :| 0 <= k < |cs| && cs[k] == x[|x| - 1];
        assert x == a + [cs[k]];
        assert Row(a, cs)[k] == x;
      }
    }
  }

  lemma {:induction false} ProductLength(all: seq<Assignment>, cs: seq<Option<nat>>)
    ensures |Product(all, cs)| == |all| * |cs|
  {
    if all != [] {
      ProductLength(all[..|all| - 1], cs);
      assert |all| * |cs| == (|all| - 1) * |cs| + |cs|;
    }
  }

  lemma {:induction false} ProductDistinct(all: seq<Assignment>, cs: seq<Option<nat>>)
    requires Distinct(all) && Distinct(cs)
    ensures Distinct(Product(all, cs))
  {
    if all != [] {
      var pre := all[..|all| - 1];
      var a := all[|all| - 1];
      ProductDistinct(pre, cs);
      var row := Row(a, cs);
      forall i, j | 0 <= i < j < |row| ensures row[i] != row[j] {
        assert row[i][|a|] == cs[i] && row[j][|a|] == cs[j];
      }
      assert a !in pre by {
        forall i | 0 <= i < |pre| ensures pre[i] != a {
          assert all[i] == pre[i];
        }
      }
      forall x | x in Product(pre, cs) ensures x !in row {
        ProductMembership(pre, cs, x);
        forall k | 0 <= k < |row| ensures row[k] != x {
          assert row[k][..|row[k]| - 1] == a;
        }
      }
      DistinctConcat(Product(pre, cs), row);
    }
  }

  /** The product enumerates exactly the valid mappings of `n` variables. */
  lemma {:induction false} AssignmentsExactly(n: nat, m: nat, a: Assignment)
    ensures a in Assignments(n, m) <==> ValidAssignment(a, n, m)
  {
    if n == 0 {
      if ValidAssignment(a, 0, m) {
        assert a == [];
      }
    } else {
      ProductMembership(Assignments(n - 1, m), ElementChoices(m), a);
      if |a| > 0 {
        var pre := a[..|a| - 1];
        AssignmentsExactly(n - 1, m, pre);
        ElementChoicesAreValid(m, a[|a| - 1]);
        ValidSnoc(a, n, m);
      }
    }
  }

  lemma ValidSnoc(a: Assignment, n: nat, m: nat)
    requires |a| > 0 && n > 0
    ensures ValidAssignment(a, n, m) <==>
      ValidAssignment(a[..|a| - 1], n - 1, m) && (a[|a| - 1].Some? ==> a[|a| - 1].value < m)
  {
    var pre := a[..|a| - 1];
    assert forall k :: 0 <= k < |pre| ==> pre[k] == a[k];
  }

  lemma {:induction false} AssignmentsDistinct(n: nat, m: nat)
    ensures Distinct(Assignments(n, m))
  {
    if n > 0 {
      AssignmentsDistinct(n - 1, m);
      ElementChoicesAreValid(m, None);
      ProductDistinct(Assignments(n - 1, m), ElementChoices(m));
    }
  }

  lemma {:induction false} AssignmentsCount(n: nat, m: nat)
    ensures |Assignments(n, m)| == Pow(m + 1, n)
  {
    if n > 0 {
      var prev := Assignments(n - 1, m);
      var cs := ElementChoices(m);
      AssignmentsCount(n - 1, m);
      ProductLength(prev, cs);
      assert Assignments(n, m) == Product(prev, cs);
      var p := Pow(m + 1, n - 1);
      assert |prev| == p && |cs| == m + 1;
      assert Pow(m + 1, n) == p * (m + 1);
    }
  }

  lemma {:induction false} BoundOfBound(xs: seq<Assignment>)
    requires forall k :: 0 <= k < |xs| ==> HasBinding(xs[k])
    ensures Bound(xs) == xs
  {
    if xs != [] {
      BoundOfBound(xs[1..]);
    }
  }

  lemma {:induction false} BoundDistinct(xs: seq<Assignment>)
    requires Distinct(xs)
    ensures Distinct(Bound(xs))
  {
    if xs != [] {
      BoundDistinct(xs[1..]);
      assert xs[0] !in xs[1..];
      DistinctConcat(if HasBinding(xs[0]) then [xs[0]] else [], Bound(xs[1..]));
    }
  }

  /** Filtering a duplicate-free list in which exactly `z` binds nothing
      removes one entry. */
  lemma {:induction false} BoundRemovesOne(xs: seq<Assignment>, z: Assignment)
    requires Distinct(xs) && z in xs
    requires forall k :: 0 <= k < |xs| ==> (HasBinding(xs[k]) <==> xs[k] != z)
    ensures |Bound(xs)| == |xs| - 1
  {
    if xs[0] == z {
      forall k | 0 <= k < |xs[1..]| ensures HasBinding(xs[1..][k]) {
        assert xs[1..][k] == xs[k + 1] && xs[k + 1] != xs[0];
      }
      BoundOfBound(xs[1..]);
    } else {
      BoundRemovesOne(xs[1..], z);
    }
  }

  /** The declared environments are exactly the valid mappings that bind
      at least one variable. */
  lemma EnvironmentsExactly(numVars: int, m: nat, a: Assignment)
    ensures a in Environments(numVars, m) <==>
      ValidAssignment(a, if numVars < 0 then 0 else numVars, m) && HasBinding(a)
  {
    AssignmentsExactly(if numVars < 0 then 0 else numVars, m, a);
  }

  lemma EnvironmentsDistinct(numVars: int, m: nat)
    ensures Distinct(Environments(numVars, m))
  {
    var n := if numVars < 0 then 0 else numVars;
    AssignmentsDistinct(n, m);
    BoundDistinct(Assignments(n, m));
  }

  /** `(m + 1)^n - 1` environments: every partial mapping but the empty one;
      none at all for zero (or fewer) variables. */
  lemma EnvironmentsCount(numVars: int, m: nat)
    ensures |Environments(numVars, m)| == Pow(m + 1, if numVars < 0 then 0 else numVars) - 1
    ensures numVars <= 0 ==> Environments(numVars, m) == []
  {
    var n := if numVars < 0 then 0 else numVars;
    var xs := Assignments(n, m);
    AssignmentsDistinct(n, m);
    AssignmentsCount(n, m);
    var z := Unbound(n);
    AssignmentsExactly(n, m, z);
    forall k | 0 <= k < |xs| ensures HasBinding(xs[k]) <==> xs[k] != z {
      AssignmentsExactly(n, m, xs[k]);
      if !HasBinding(xs[k]) {
        assert forall i :: 0 <= i < n ==> xs[k][i] == z[i];
      }
    }
    BoundRemovesOne(xs, z);
  }

  /** Binding variable `v` of an environment. */
  function ExtendEnv(env: Assignment, v: nat, e: nat): (r: Assignment)
    ensures |r| == |env|
  {
    if v < |env| then env[v := Some(e)] else env
  }

  /** Whatever environment a quantifier starts from (the empty one or a
      declared one), binding its variable to an element gives a declared
      environment, so the extension the semantics asks for always exists. */
  lemma ExtensionIsDeclared(numVars: nat, m: nat, env: Assignment, v: nat, e: nat)
    requires ValidAssignment(env, numVars, m)
    requires v < numVars && e < m
    ensures ExtendEnv(env, v, e) in Environments(numVars, m)
  {
    var x := ExtendEnv(env, v, e);
    assert x[v].Some?;
    EnvironmentsExactly(numVars, m, x);
  }

  // ---------------------------------------------------------------------
  // Ground facts of a structure
  // ---------------------------------------------------------------------

  /** `constants.mapIndexed { i, c -> c.name to "E$i" }.toMap()`: a later
      constant with the same name overwrites an earlier one. */
  function ElementMapping(cs: seq<FOLConstant>): map<string, nat> {
    if cs == [] then map[] else ElementMapping(cs[..|cs| - 1])[cs[|cs| - 1].name := |cs| - 1]
  }

  /** The element a name in a fact stands for: its last constant, or `E0`
      when no constant has that name. */
  function ElementIndex(cs: seq<FOLConstant>, name: string): nat {
    var m := ElementMapping(cs);
    if name in m then m[name] else 0
  }

  /** The mapping holds exactly the constant names, each at the index of
      its last constant. */
  lemma {:induction false} ElementMappingIsLast(cs: seq<FOLConstant>, name: string)
    ensures name in ElementMapping(cs) <==> exists j :: 0 <= j < |cs| && cs[j].name == name
    ensures name in ElementMapping(cs) ==>
      var i := ElementMapping(cs)[name];
      i < |cs| && cs[i].name == name && forall j :: i < j < |cs| ==> cs[j].name != name
  {
    if cs != [] {
      var pre := cs[..|cs| - 1];
      ElementMappingIsLast(pre, name);
      assert forall j :: 0 <= j < |pre| ==> cs[j] == pre[j];
    }
  }

  /** A name maps to the last constant carrying it, and a name no constant
      carries maps to `E0`. */
  lemma ElementIndexIsLast(cs: seq<FOLConstant>, name: string)
    ensures (forall j :: 0 <= j < |cs| ==> cs[j].name != name) ==> ElementIndex(cs, name) == 0
    ensures (exists j :: 0 <= j < |cs| && cs[j].name == name) ==>
      var i := ElementIndex(cs, name);
      i < |cs| && cs[i].name == name && forall j :: i < j < |cs| ==> cs[j].name != name
  {
    ElementMappingIsLast(cs, name);
  }

  /** `tuple.map { elementMapping[it] ?: "E0" }`. */
  function MapTuple(cs: seq<FOLConstant>, fact: Fact): (t: seq<nat>)
    ensures |t| == |fact| && forall i :: 0 <= i < |fact| ==> t[i] == ElementIndex(cs, fact[i])
  {
    if fact == [] then [] else MapTuple(cs, fact[..|fact| - 1]) + [ElementIndex(cs, fact[|fact| - 1])]
  }

  /** One line of a structure's fact block. */
  datatype Constraint =
    | TupleIn(relation: string, elements: seq<nat>)   // some t: S.interpretation[rRel] | t.tup[I0] = E.. and ..
    | Cardinality(relation: string, count: nat)       // #S.interpretation[rRel] = count
    | NoTuples(relation: string)                      // no S.interpretation[rRel]
    | NoFunctionInterpretation                        // no S.func_interpretation

  /** `relationFacts[name] ?: emptyList()`. */
  function FactsOf(ex: FOLExample, relation: string): seq<Fact> {
    if relation in ex.structure.relationFacts then ex.structure.relationFacts[relation] else []
  }

  function TupleConstraints(cs: seq<FOLConstant>, relation: string, facts: seq<Fact>): seq<Constraint> {
    if facts == [] then []
    else TupleConstraints(cs, relation, facts[..|facts| - 1]) + [TupleIn(relation, MapTuple(cs, facts[|facts| - 1]))]
  }

  /** The lines for one relation: a tuple line per fact and the count, or
      a single `no` line when the relation has no facts. */
  lemma {:induction false} TupleConstraintsAt(cs: seq<FOLConstant>, relation: string, facts: seq<Fact>)
    ensures |TupleConstraints(cs, relation, facts)| == |facts|
    ensures forall k :: 0 <= k < |facts| ==> TupleConstraints(cs, relation, facts)[k] == TupleIn(relation, MapTuple(cs, facts[k]))
  {
    if facts != [] {
      TupleConstraintsAt(cs, relation, facts[..|facts| - 1]);
    }
  }

  function RelationConstraints(cs: seq<FOLConstant>, relation: string, facts: seq<Fact>): seq<Constraint> {
    if facts == [] then [NoTuples(relation)]
    else TupleConstraints(cs, relation, facts) + [Cardinality(relation, |facts|)]
  }

  function RelationsConstraints(relations: seq<FOLRelation>, ex: FOLExample): seq<Constraint> {
    if relations == [] then []
    else
      var rel := relations[|relations| - 1];
      RelationsConstraints(relations[..|relations| - 1], ex)
        + RelationConstraints(ex.structure.constants, rel.name, FactsOf(ex, rel.name))
  }

  /** The fact block of one structure, relation by relation, closed by the
      line that leaves its function interpretation empty. */
  function StructureFact(relations: seq<FOLRelation>, ex: FOLExample): seq<Constraint> {
    RelationsConstraints(relations, ex) + [NoFunctionInterpretation]
  }

  /** `generateStructureFact`, returning the lines of the block. */
  method GenerateStructureFact(task: FOLTask, example: FOLExample) returns (constraints: seq<Constraint>)
    ensures constraints == StructureFact(task.relations, example)
  {
    constraints := [];
    for r := 0 to |task.relations|
      invariant constraints == RelationsConstraints(task.relations[..r], example)
    {
      var name := task.relations[r].name;
      var lines := RelationLines(example.structure.constants, name, FactsOf(example, name));
      constraints := constraints + lines;
      RelationsConstraintsStep(task.relations, example, r);
    }
    assert task.relations[..|task.relations|] == task.relations;
    constraints := constraints + [NoFunctionInterpretation];
  }

  /** The lines `generateStructureFact` writes for one relation. */
  method RelationLines(cs: seq<FOLConstant>, name: string, facts: seq<Fact>) returns (lines: seq<Constraint>)
    ensures lines == RelationConstraints(cs, name, facts)
  {
    if |facts| > 0 {
      lines := [];
      for k := 0 to |facts|
        invariant lines == TupleConstraints(cs, name, facts[..k])
      {
        assert facts[..k + 1][..k] == facts[..k];
        var mappedElements := MapTuple(cs, facts[k]);
        lines := lines + [TupleIn(name, mappedElements)];
      }
      assert facts[..|facts|] == facts;
      lines := lines + [Cardinality(name, |facts|)];
    } else {
      lines := [NoTuples(name)];
    }
  }

  lemma RelationsConstraintsStep(relations: seq<FOLRelation>, ex: FOLExample, r: nat)
    requires r < |relations|
    ensures RelationsConstraints(relations[..r + 1], ex) ==
      RelationsConstraints(relations[..r], ex) +
      RelationConstraints(ex.structure.constants, relations[r].name, FactsOf(ex, relations[r].name))
  {
    assert relations[..r + 1][..r] == relations[..r];
  }

  predicate IsRelationName(relations: seq<FOLRelation>, name: string) {
    exists i :: 0 <= i < |relations| && relations[i].name == name
  }

  lemma {:induction false} RelationsConstraintsMembership(relations: seq<FOLRelation>, ex: FOLExample, c: Constraint)
    ensures c in RelationsConstraints(relations, ex) <==>
      exists i :: 0 <= i < |relations| &&
        c in RelationConstraints(ex.structure.constants, relations[i].name, FactsOf(ex, relations[i].name))
  {
    if relations != [] {
      var pre := relations[..|relations| - 1];
      RelationsConstraintsMembership(pre, ex, c);
      assert forall i :: 0 <= i < |pre| ==> pre[i] == relations[i];
    }
  }

  /** The tuples a structure's relation holds in the encoding: the mapped
      facts of that relation, for every relation of the learning task. */
  function Interpretation(relations: seq<FOLRelation>, ex: FOLExample): (r: map<string, seq<seq<nat>>>)
    ensures forall name :: name in r <==> IsRelationName(relations, name)
  {
    map name | name in RelationNamesOf(relations) :: MappedFacts(ex.structure.constants, FactsOf(ex, name))
  }

  function RelationNamesOf(relations: seq<FOLRelation>): (r: set<string>)
    ensures forall name :: name in r <==> IsRelationName(relations, name)
  {
    set i | 0 <= i < |relations| :: relations[i].name
  }

  function MappedFacts(cs: seq<FOLConstant>, facts: seq<Fact>): (r: seq<seq<nat>>)
    ensures |r| == |facts| && forall k :: 0 <= k < |facts| ==> r[k] == MapTuple(cs, facts[k])
  {
    if facts == [] then [] else MappedFacts(cs, facts[..|facts| - 1]) + [MapTuple(cs, facts[|facts| - 1])]
  }

  /** What one relation contributes: its tuple lines are its mapped
      facts, and it gets the count line or the `no` line. */
  lemma RelationConstraintsMembership(cs: seq<FOLConstant>, relation: string, facts: seq<Fact>, c: Constraint)
    ensures c.TupleIn? ==> (c in RelationConstraints(cs, relation, facts) <==>
      c.relation == relation && c.elements in MappedFacts(cs, facts))
    ensures c.Cardinality? ==> (c in RelationConstraints(cs, relation, facts) <==>
      c.relation == relation && facts != [] && c.count == |facts|)
    ensures c.NoTuples? ==> (c in RelationConstraints(cs, relation, facts) <==>
      c.relation == relation && facts == [])
    ensures c !in RelationConstraints(cs, relation, facts) || !c.NoFunctionInterpretation?
  {
    var tc := TupleConstraints(cs, relation, facts);
    var mf := MappedFacts(cs, facts);
    TupleConstraintsAt(cs, relation, facts);
    assert forall x :: x in tc ==> x.TupleIn? && x.relation == relation;
    if c.TupleIn? && c.relation == relation && c.elements in mf {
      var k :| 0 <= k < |mf| && mf[k] == c.elements;
      assert tc[k] == c;
    }
    if c.TupleIn? && c in tc {
      var k :| 0 <= k < |tc| && tc[k] == c;
      assert mf[k] == c.elements;
    }
  }

  /** A tuple line is emitted exactly for the mapped facts of a relation
      of the learning task. */
  lemma TupleLinesAreTheInterpretation(relations: seq<FOLRelation>, ex: FOLExample, name: string, t: seq<nat>)
    ensures TupleIn(name, t) in StructureFact(relations, ex) <==>
      name in Interpretation(relations, ex) && t in Interpretation(relations, ex)[name]
  {
    var cs := ex.structure.constants;
    var c := TupleIn(name, t);
    RelationsConstraintsMembership(relations, ex, c);
    assert c in StructureFact(relations, ex) <==> c in RelationsConstraints(relations, ex);
    forall i | 0 <= i < |relations|
      ensures c in RelationConstraints(cs, relations[i].name, FactsOf(ex, relations[i].name)) <==>
        relations[i].name == name && t in MappedFacts(cs, FactsOf(ex, name))
    {
      RelationConstraintsMembership(cs, relations[i].name, FactsOf(ex, relations[i].name), c);
    }
  }

  /** The tuples a list holds, each once. */
  function Elements<T>(s: seq<T>): set<T> {
    set x | x in s
  }

  /** A list holds at most as many tuples as it is long, and exactly as many
      when no tuple is repeated. */
  lemma {:induction false} ElementsCount<T>(s: seq<T>)
    ensures |Elements(s)| <= |s|
    ensures |Elements(s)| == |s| <==> Distinct(s)
  {
    if s != [] {
      var init, last := s[..|s| - 1], s[|s| - 1];
      ElementsCount(init);
      assert s == init + [last];
      assert Elements(s) == Elements(init) + {last};
      if last in init {
        assert Elements(s) == Elements(init);
        var k :| 0 <= k < |init| && init[k] == last;
        assert s[k] == s[|s| - 1];
      } else {
        assert Distinct(s) <==> Distinct(init);
      }
    }
  }

  lemma SubsetOfSameSize<T>(a: set<T>, b: set<T>)
    requires a <= b && |a| == |b|
    ensures a == b
  {
    if x :| x in b && x !in a {
      assert a <= b - {x};
      assert |b - {x}| == |b| - 1;
      SubsetSize(a, b - {x});
    }
  }

  lemma SubsetSize<T>(a: set<T>, b: set<T>)
    requires a <= b
    ensures |a| <= |b|
  {
    assert b == a + (b - a);
  }

  /** In an Alloy instance of the script, the interpretation of a relation
      holds every tuple of its tuple lines and has as many tuples as the
      count line says. When the relation's mapped facts are distinct, that
      is exactly the interpretation of the model. */
  lemma InterpretationPinned(relations: seq<FOLRelation>, ex: FOLExample, name: string, tuples: set<seq<nat>>)
    requires IsRelationName(relations, name)
    requires Distinct(MappedFacts(ex.structure.constants, FactsOf(ex, name)))
    requires forall t :: TupleIn(name, t) in StructureFact(relations, ex) ==> t in tuples
    requires |tuples| == |FactsOf(ex, name)|
    ensures tuples == Elements(Interpretation(relations, ex)[name])
  {
    var mf := MappedFacts(ex.structure.constants, FactsOf(ex, name));
    assert Interpretation(relations, ex)[name] == mf;
    forall t | t in mf ensures t in tuples {
      TupleLinesAreTheInterpretation(relations, ex, name, t);
    }
    ElementsCount(mf);
    SubsetOfSameSize(Elements(mf), tuples);
  }

  /** When two facts of a relation map to the same element tuple (a repeated
      fact, or two unknown names that both become `E0`), the tuple lines
      force fewer distinct tuples than the count line asks for. */
  lemma RepeatedTupleLeavesRoom(relations: seq<FOLRelation>, ex: FOLExample, name: string)
    requires IsRelationName(relations, name)
    requires !Distinct(MappedFacts(ex.structure.constants, FactsOf(ex, name)))
    ensures |Elements(Interpretation(relations, ex)[name])| < |FactsOf(ex, name)|
  {
    var mf := MappedFacts(ex.structure.constants, FactsOf(ex, name));
    assert Interpretation(relations, ex)[name] == mf;
    ElementsCount(mf);
  }

  /** A relation of the learning task gets the count line when it has facts, with
      the number of its facts, and the `no` line when it has none. */
  lemma CountLines(relations: seq<FOLRelation>, ex: FOLExample, name: string, count: nat)
    ensures Cardinality(name, count) in StructureFact(relations, ex) <==>
      IsRelationName(relations, name) && FactsOf(ex, name) != [] && count == |FactsOf(ex, name)|
  {
    var cs := ex.structure.constants;
    var c := Cardinality(name, count);
    RelationsConstraintsMembership(relations, ex, c);
    assert c in StructureFact(relations, ex) <==> c in RelationsConstraints(relations, ex);
    forall i | 0 <= i < |relations|
      ensures c in RelationConstraints(cs, relations[i].name, FactsOf(ex, relations[i].name)) <==>
        relations[i].name == name && FactsOf(ex, name) != [] && count == |FactsOf(ex, name)|
    {
      RelationConstraintsMembership(cs, relations[i].name, FactsOf(ex, relations[i].name), c);
    }
  }

  lemma NoTuplesLines(relations: seq<FOLRelation>, ex: FOLExample, name: string)
    ensures NoTuples(name) in StructureFact(relations, ex) <==>
      IsRelationName(relations, name) && FactsOf(ex, name) == []
  {
    var cs := ex.structure.constants;
    var c := NoTuples(name);
    RelationsConstraintsMembership(relations, ex, c);
    assert c in StructureFact(relations, ex) <==> c in RelationsConstraints(relations, ex);
    forall i | 0 <= i < |relations|
      ensures c in RelationConstraints(cs, relations[i].name, FactsOf(ex, relations[i].name)) <==>
        relations[i].name == name && FactsOf(ex, name) == []
    {
      RelationConstraintsMembership(cs, relations[i].name, FactsOf(ex, relations[i].name), c);
    }
  }

  /** The block always ends by leaving the function interpretation empty,
      and that line occurs nowhere else. */
  lemma NoFunctionLineIsLast(relations: seq<FOLRelation>, ex: FOLExample)
    ensures var f := StructureFact(relations, ex);
      f[|f| - 1] == NoFunctionInterpretation &&
      forall k :: 0 <= k < |f| - 1 ==> f[k] != NoFunctionInterpretation
  {
    var cs := ex.structure.constants;
    var c := NoFunctionInterpretation;
    RelationsConstraintsMembership(relations, ex, c);
    forall i | 0 <= i < |relations|
      ensures c !in RelationConstraints(cs, relations[i].name, FactsOf(ex, relations[i].name))
    {
      RelationConstraintsMembership(cs, relations[i].name, FactsOf(ex, relations[i].name), c);
    }
    var f := StructureFact(relations, ex);
    assert forall k :: 0 <= k < |f| - 1 ==> f[k] == RelationsConstraints(relations, ex)[k];
  }

  // ---------------------------------------------------------------------
  // Structure declarations
  // ---------------------------------------------------------------------

  /** A declared structure: its signature name, its polarity, its elements
      `E0 .. E(elements-1)` and its fact block. */
  datatype StructureDecl = StructureDecl(name: string, positive: bool, elements: nat, facts: seq<Constraint>)

  function StructureName(positive: bool, index: nat): string {
    (if positive then "PS" else "NS") + NatToString(index)
  }

  function Declare(task: FOLTask, ex: FOLExample, positive: bool, index: nat): StructureDecl {
    StructureDecl(StructureName(positive, index), positive, |ex.structure.constants|, StructureFact(task.relations, ex))
  }

  function DeclsOf(task: FOLTask, exs: seq<FOLExample>, positive: bool): seq<StructureDecl> {
    if exs == [] then [] else DeclsOf(task, exs[..|exs| - 1], positive) + [Declare(task, exs[|exs| - 1], positive, |exs| - 1)]
  }

  /** The `k`-th declaration describes the `k`-th example. */
  lemma {:induction false} DeclsOfAt(task: FOLTask, exs: seq<FOLExample>, positive: bool)
    ensures |DeclsOf(task, exs, positive)| == |exs|
    ensures forall k :: 0 <= k < |exs| ==> DeclsOf(task, exs, positive)[k] == Declare(task, exs[k], positive, k)
  {
    if exs != [] {
      DeclsOfAt(task, exs[..|exs| - 1], positive);
    }
  }

  /** The positive structures `PS0 ..` followed by the negative `NS0 ..`. */
  function StructureDecls(task: FOLTask): seq<StructureDecl> {
    DeclsOf(task, task.positiveExamples, true) + DeclsOf(task, task.negativeExamples, false)
  }

  /** `generateStructureConstraints`: a declaration and a fact block per
      example, positives first. */
  method GenerateStructureConstraints(task: FOLTask) returns (decls: seq<StructureDecl>)
    ensures decls == StructureDecls(task)
  {
    decls := [];
    for index := 0 to |task.positiveExamples|
      invariant decls == DeclsOf(task, task.positiveExamples[..index], true)
    {
      var example := task.positiveExamples[index];
      var fact := GenerateStructureFact(task, example);
      decls := decls + [StructureDecl(StructureName(true, index), true, |example.structure.constants|, fact)];
      assert task.positiveExamples[..index + 1][..index] == task.positiveExamples[..index];
    }
    assert task.positiveExamples[..|task.positiveExamples|] == task.positiveExamples;
    ghost var positives := decls;
    for index := 0 to |task.negativeExamples|
      invariant decls == positives + DeclsOf(task, task.negativeExamples[..index], false)
    {
      var example := task.negativeExamples[index];
      var fact := GenerateStructureFact(task, example);
      decls := decls + [StructureDecl(StructureName(false, index), false, |example.structure.constants|, fact)];
      assert task.negativeExamples[..index + 1][..index] == task.negativeExamples[..index];
    }
    assert task.negativeExamples[..|task.negativeExamples|] == task.negativeExamples;
  }

  /** One declaration per example, under pairwise distinct names. */
  lemma StructureNamesDistinct(task: FOLTask)
    ensures |StructureDecls(task)| == |task.positiveExamples| + |task.negativeExamples|
    ensures forall i, j :: 0 <= i < j < |StructureDecls(task)| ==> StructureDecls(task)[i].name != StructureDecls(task)[j].name
  {
    var d := StructureDecls(task);
    var p := |task.positiveExamples|;
    DeclsOfAt(task, task.positiveExamples, true);
    DeclsOfAt(task, task.negativeExamples, false);
    forall i, j | 0 <= i < j < |d| ensures d[i].name != d[j].name {
      var (pi, ii) := if i < p then (true, i) else (false, i - p);
      var (pj, jj) := if j < p then (true, j) else (false, j - p);
      assert d[i].name == StructureName(pi, ii);
      assert d[j].name == StructureName(pj, jj);
      if d[i].name == d[j].name {
        var a := (if pi then "PS" else "NS");
        var b := (if pj then "PS" else "NS");
        assert (a + NatToString(ii))[..2] == a;
        assert (b + NatToString(jj))[..2] == b;
        assert (a + NatToString(ii))[2..] == NatToString(ii);
        assert (b + NatToString(jj))[2..] == NatToString(jj);
        NatToStringInjective(ii, jj);
      }
    }
  }

  // ---------------------------------------------------------------------
  // The encoded structure
  // ---------------------------------------------------------------------

  /** What the encoding fixes about an example: its elements `E0 ..
      E(elements-1)`, the sort every element carries, and per relation the
      tuples of element indices in its interpretation. */
  datatype Structure = Structure(elements: nat, elementSort: string, interpretation: map<string, seq<seq<nat>>>)

  function Encode(task: FOLTask, ex: FOLExample): (s: Structure)
    ensures s.elements == |ex.structure.constants|
    ensures forall name :: name in s.interpretation <==> IsRelationName(task.relations, name)
  {
    Structure(|ex.structure.constants|, ElementSort(task), Interpretation(task.relations, ex))
  }

  /** Every element index of an encoded tuple names an element of the
      structure, except the `E0` stand-in for an unknown name in a
      structure without constants. */
  lemma EncodedTuplesInRange(task: FOLTask, ex: FOLExample, name: string, t: seq<nat>)
    requires |ex.structure.constants| > 0
    requires name in Encode(task, ex).interpretation && t in Encode(task, ex).interpretation[name]
    ensures forall i :: 0 <= i < |t| ==> t[i] < Encode(task, ex).elements
  {
    var facts := FactsOf(ex, name);
    var cs := ex.structure.constants;
    var k :| 0 <= k < |facts| && MappedFacts(cs, facts)[k] == t;
    forall i | 0 <= i < |t| ensures t[i] < |cs| {
      ElementIndexIsLast(cs, facts[k][i]);
    }
  }
}

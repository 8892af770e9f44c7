/**
 * The meaning that the generated Alloy model gives to a candidate formula
 * (LTLLearner.kt): terms and formulas as a tree, their evaluation in an
 * encoded structure under a variable environment, the well-formedness
 * facts that restrict the search, and the separator the solver looks for.
 */
module Semantics {
  import opened Common
  import opened Learner
  import opened Encoding

  /** A term of an atom: the variable `V{v}`, the element `E{e}`, or a
      function symbol applied to argument terms. */
  datatype Term = VarTerm(v: nat) | ConstTerm(e: nat) | FuncTerm(func: string, args: seq<Term>)

  /** A formula node. Every node but the root has exactly one parent and
      there are no cycles, so a formula is a tree. */
  datatype Formula =
    | Atom(relation: string, terms: seq<Term>)
    | Forall(boundVar: nat, varSort: string, body: Formula)
    | Exists(boundVar: nat, varSort: string, body: Formula)
    | Not(child: Formula)
    | And(left: Formula, right: Formula)
    | Or(left: Formula, right: Formula)
    | Implies(left: Formula, right: Formula)

  function Lookup(env: Assignment, v: nat): Option<nat> {
    if v < |env| then env[v] else None
  }

  /** The element a term denotes, if any. A variable denotes what the
      environment maps it to; a constant denotes its element when the
      structure has it; a function term denotes nothing, because every
      structure's function interpretation is empty. */
  function Eval(s: Structure, env: Assignment, t: Term): Option<nat> {
    match t
    case VarTerm(v) => Lookup(env, v)
    case ConstTerm(e) => if e < s.elements then Some(e) else None
    case FuncTerm(_, _) => None
  }

  /** The tuple the terms of an atom denote, when every one denotes. */
  function EvalTerms(s: Structure, env: Assignment, terms: seq<Term>): (r: Option<seq<nat>>)
    ensures r.Some? <==> forall i :: 0 <= i < |terms| ==> Eval(s, env, terms[i]).Some?
    ensures r.Some? ==> |r.value| == |terms| && forall i :: 0 <= i < |terms| ==> Eval(s, env, terms[i]) == Some(r.value[i])
  {
    if terms == [] then Some([])
    else
      var init := EvalTerms(s, env, terms[..|terms| - 1]);
      var last := Eval(s, env, terms[|terms| - 1]);
      assert forall i :: 0 <= i < |terms| - 1 ==> terms[i] == terms[..|terms| - 1][i];
      if init.Some? && last.Some? then Some(init.value + [last.value]) else None
  }

  function Tuples(s: Structure, relation: string): seq<seq<nat>> {
    if relation in s.interpretation then s.interpretation[relation] else []
  }

  /** The atom clause as the encoding states it: some tuple of the relation
      such that at every index `I0 .. I(maxArity-1)` the atom has a term and
      the tuple's entry (if it has one there) is what that term denotes. */
  predicate AtomHoldsAsWritten(s: Structure, maxArity: nat, env: Assignment, relation: string, terms: seq<Term>) {
    exists t :: t in Tuples(s, relation) && forall i :: 0 <= i < maxArity ==> EntryMatches(s, env, terms, t, i)
  }

  /** Index `i` of the written clause: the atom has a term there, and the
      tuple's entry there, if any, is what the term denotes. */
  predicate EntryMatches(s: Structure, env: Assignment, terms: seq<Term>, t: seq<nat>, i: nat) {
    i < |terms| && (i < |t| ==> Eval(s, env, terms[i]) == Some(t[i]))
  }

  /** The atom clause as intended: the tuple the terms denote is one of the
      relation's tuples. */
  predicate AtomHolds(s: Structure, env: Assignment, relation: string, terms: seq<Term>) {
    var t := EvalTerms(s, env, terms);
    t.Some? && t.value in Tuples(s, relation)
  }

  /** Whether a structure satisfies a formula under an environment. A
      quantifier ranges over the structure's elements whose sort is the
      bound sort, under the environment extended with the bound variable. */
  predicate Satisfies(s: Structure, env: Assignment, f: Formula)
    decreases f
  {
    match f
    case Atom(relation, terms) => AtomHolds(s, env, relation, terms)
    case Forall(v, sort, body) =>
      forall e :: 0 <= e < s.elements && s.elementSort == sort ==> Satisfies(s, ExtendEnv(env, v, e), body)
    case Exists(v, sort, body) =>
      exists e :: 0 <= e < s.elements && s.elementSort == sort && Satisfies(s, ExtendEnv(env, v, e), body)
    case Not(child) => !Satisfies(s, env, child)
    case And(left, right) => Satisfies(s, env, left) && Satisfies(s, env, right)
    case Or(left, right) => Satisfies(s, env, left) || Satisfies(s, env, right)
    case Implies(left, right) => !Satisfies(s, env, left) || Satisfies(s, env, right)
  }

  // ---------------------------------------------------------------------
  // The atom clause as written and as intended
  // ---------------------------------------------------------------------

  /** As written, an atom with fewer terms than the index width never
      holds: the clause asks for a term at every index. */
  lemma ShortAtomsNeverHoldAsWritten(s: Structure, maxArity: nat, env: Assignment, relation: string, terms: seq<Term>)
    requires |terms| < maxArity
    ensures !AtomHoldsAsWritten(s, maxArity, env, relation, terms)
  {
    forall t | t in Tuples(s, relation)
      ensures !forall i :: 0 <= i < maxArity ==> EntryMatches(s, env, terms, t, i)
    {
      assert !EntryMatches(s, env, terms, t, |terms|);
    }
  }

  /** Where every atom spans the whole index width and every tuple of the
      relation has that many entries, the written clause is the intended
      one. */
  lemma FullWidthAtomsAgree(s: Structure, maxArity: nat, env: Assignment, relation: string, terms: seq<Term>)
    requires |terms| == maxArity
    requires forall t :: t in Tuples(s, relation) ==> |t| == maxArity
    ensures AtomHoldsAsWritten(s, maxArity, env, relation, terms) <==> AtomHolds(s, env, relation, terms)
  {
    var r := EvalTerms(s, env, terms);
    if AtomHoldsAsWritten(s, maxArity, env, relation, terms) {
      var t :| t in Tuples(s, relation) && forall i :: 0 <= i < maxArity ==> EntryMatches(s, env, terms, t, i);
      forall i | 0 <= i < |terms| ensures Eval(s, env, terms[i]) == Some(t[i]) {
        assert EntryMatches(s, env, terms, t, i);
      }
      assert r.Some?;
      assert r.value == t;
    }
    if AtomHolds(s, env, relation, terms) {
      assert forall i :: 0 <= i < maxArity ==> EntryMatches(s, env, terms, r.value, i);
    }
  }

  /** A task with a unary relation `P` and a binary relation `R` has index
      width 2; in the one-element structure where `P` holds of that
      element, `P(V0)` with `V0` bound to it holds as intended but not as
      written. */
  lemma UnaryAtomCounterexample()
    ensures var task := NewTask([FOLSort("S")], [FOLRelation("P", ["S"]), FOLRelation("R", ["S", "S"])], [], [], [], 3);
      var ex := FOLExample(StructureOf([FOLConstant("a", "S")], map["P" := [["a"]]]), true);
      var s := Encode(task, ex);
      && MaxArity(task) == 2
      && AtomHolds(s, [Some(0)], "P", [VarTerm(0)])
      && !AtomHoldsAsWritten(s, MaxArity(task), [Some(0)], "P", [VarTerm(0)])
  {
    var task := NewTask([FOLSort("S")], [FOLRelation("P", ["S"]), FOLRelation("R", ["S", "S"])], [], [], [], 3);
    var ex := FOLExample(StructureOf([FOLConstant("a", "S")], map["P" := [["a"]]]), true);
    var s := Encode(task, ex);
    CounterexampleArity(task);
    CounterexampleTuples(task, ex);
    assert EvalTerms(s, [Some(0)], [VarTerm(0)]) == Some([0]);
    ShortAtomsNeverHoldAsWritten(s, 2, [Some(0)], "P", [VarTerm(0)]);
  }

  lemma CounterexampleArity(task: FOLTask)
    requires task.relations == [FOLRelation("P", ["S"]), FOLRelation("R", ["S", "S"])] && task.functions == []
    ensures MaxArity(task) == 2
  {
    assert Arities(task.relations, RelationArity) == [1, 2];
    assert MaxOrDefault([1, 2], 2) == 2;
  }

  lemma CounterexampleTuples(task: FOLTask, ex: FOLExample)
    requires task.relations == [FOLRelation("P", ["S"]), FOLRelation("R", ["S", "S"])]
    requires ex.structure == StructureOf([FOLConstant("a", "S")], map["P" := [["a"]]])
    ensures Tuples(Encode(task, ex), "P") == [[0]]
  {
    var cs := [FOLConstant("a", "S")];
    var s := Encode(task, ex);
    assert ElementMapping(cs) == map["a" := 0];
    assert MapTuple(cs, ["a"]) == [0];
    assert IsRelationName(task.relations, "P") by {
      assert task.relations[0].name == "P";
    }
    assert Tuples(s, "P") == MappedFacts(cs, [["a"]]);
  }

  // ---------------------------------------------------------------------
  // Free variables and the coincidence of environments
  // ---------------------------------------------------------------------

  /** The variables an atom uses: its variable terms (terms nested in a
      function term are not among the atom's terms). */
  function TermVars(terms: seq<Term>): set<nat> {
    set i | 0 <= i < |terms| && terms[i].VarTerm? :: terms[i].v
  }

  function FreeVars(f: Formula): set<nat> {
    match f
    case Atom(_, terms) => TermVars(terms)
    case Forall(v, _, body) => FreeVars(body) - {v}
    case Exists(v, _, body) => FreeVars(body) - {v}
    case Not(child) => FreeVars(child)
    case And(l, r) => FreeVars(l) + FreeVars(r)
    case Or(l, r) => FreeVars(l) + FreeVars(r)
    case Implies(l, r) => FreeVars(l) + FreeVars(r)
  }

  predicate AgreeOn(env1: Assignment, env2: Assignment, vars: set<nat>) {
    |env1| == |env2| && forall v :: v in vars ==> Lookup(env1, v) == Lookup(env2, v)
  }

  lemma TermsCoincide(s: Structure, env1: Assignment, env2: Assignment, terms: seq<Term>)
    requires AgreeOn(env1, env2, TermVars(terms))
    ensures EvalTerms(s, env1, terms) == EvalTerms(s, env2, terms)
  {
    forall i | 0 <= i < |terms| ensures Eval(s, env1, terms[i]) == Eval(s, env2, terms[i]) {
      if terms[i].VarTerm? {
        assert terms[i].v in TermVars(terms);
      }
    }
    var r1 := EvalTerms(s, env1, terms);
    var r2 := EvalTerms(s, env2, terms);
    if r1.Some? {
      assert r1.value == r2.value;
    }
  }

  lemma ExtendAgrees(env1: Assignment, env2: Assignment, vars: set<nat>, v: nat, e: nat)
    requires AgreeOn(env1, env2, vars - {v})
    ensures AgreeOn(ExtendEnv(env1, v, e), ExtendEnv(env2, v, e), vars)
  {
    var x1 := ExtendEnv(env1, v, e);
    var x2 := ExtendEnv(env2, v, e);
    forall w | w in vars ensures Lookup(x1, w) == Lookup(x2, w) {
      if w != v {
        assert Lookup(x1, w) == Lookup(env1, w) && Lookup(x2, w) == Lookup(env2, w);
      }
    }
  }

  /** Environments that agree on the free variables of a formula give it
      the same truth value. */
  lemma {:induction false} Coincidence(s: Structure, env1: Assignment, env2: Assignment, f: Formula)
    requires AgreeOn(env1, env2, FreeVars(f))
    ensures Satisfies(s, env1, f) == Satisfies(s, env2, f)
    decreases f
  {
    match f
    case Atom(relation, terms) =>
      TermsCoincide(s, env1, env2, terms);
    case Forall(v, sort, body) =>
      forall e | 0 <= e < s.elements
        ensures Satisfies(s, ExtendEnv(env1, v, e), body) == Satisfies(s, ExtendEnv(env2, v, e), body)
      {
        ExtendAgrees(env1, env2, FreeVars(body), v, e);
        Coincidence(s, ExtendEnv(env1, v, e), ExtendEnv(env2, v, e), body);
      }
    case Exists(v, sort, body) =>
      forall e | 0 <= e < s.elements
        ensures Satisfies(s, ExtendEnv(env1, v, e), body) == Satisfies(s, ExtendEnv(env2, v, e), body)
      {
        ExtendAgrees(env1, env2, FreeVars(body), v, e);
        Coincidence(s, ExtendEnv(env1, v, e), ExtendEnv(env2, v, e), body);
      }
    case Not(child) =>
      Coincidence(s, env1, env2, child);
    case And(l, r) =>
      Coincidence(s, env1, env2, l);
      Coincidence(s, env1, env2, r);
    case Or(l, r) =>
      Coincidence(s, env1, env2, l);
      Coincidence(s, env1, env2, r);
    case Implies(l, r) =>
      Coincidence(s, env1, env2, l);
      Coincidence(s, env1, env2, r);
  }

  /** A formula without free variables means the same under every
      environment of the same width. */
  lemma ClosedFormulasIgnoreEnvironment(s: Structure, env1: Assignment, env2: Assignment, f: Formula)
    requires FreeVars(f) == {} && |env1| == |env2|
    ensures Satisfies(s, env1, f) == Satisfies(s, env2, f)
  {
    Coincidence(s, env1, env2, f);
  }

  // ---------------------------------------------------------------------
  // Facts about the semantics
  // ---------------------------------------------------------------------

  /** Every element carries the element sort, so a quantifier over any
      other sort ranges over nothing: the universal one holds and the
      existential one fails. */
  lemma QuantifierOverOtherSort(s: Structure, env: Assignment, v: nat, sort: string, body: Formula)
    requires sort != s.elementSort
    ensures Satisfies(s, env, Forall(v, sort, body))
    ensures !Satisfies(s, env, Exists(v, sort, body))
  {
  }

  /** Every element is declared with the first sort of the learning task, so
      a quantifier over any other of its sorts ranges over nothing in every
      encoded example. */
  lemma OtherSortsAreEmpty(task: FOLTask, ex: FOLExample, env: Assignment, v: nat, k: nat, body: Formula)
    requires 0 < k < |task.sorts| && task.sorts[k].name != task.sorts[0].name
    ensures Satisfies(Encode(task, ex), env, Forall(v, task.sorts[k].name, body))
    ensures !Satisfies(Encode(task, ex), env, Exists(v, task.sorts[k].name, body))
  {
    QuantifierOverOtherSort(Encode(task, ex), env, v, task.sorts[k].name, body);
  }

  /** Negating a universal quantifier gives the existential quantifier of
      the negation, and implication is the disjunction of the negated
      premise with the conclusion. */
  lemma Dualities(s: Structure, env: Assignment, v: nat, sort: string, a: Formula, b: Formula)
    ensures Satisfies(s, env, Not(Forall(v, sort, a))) == Satisfies(s, env, Exists(v, sort, Not(a)))
    ensures Satisfies(s, env, Implies(a, b)) == Satisfies(s, env, Or(Not(a), b))
    ensures Satisfies(s, env, Not(And(a, b))) == Satisfies(s, env, Or(Not(a), Not(b)))
  {
  }

  // ---------------------------------------------------------------------
  // Well-formedness
  // ---------------------------------------------------------------------

  /** The variables of all atoms of a formula, bound or free. */
  function AtomVars(f: Formula): set<nat> {
    match f
    case Atom(_, terms) => TermVars(terms)
    case Forall(_, _, body) => AtomVars(body)
    case Exists(_, _, body) => AtomVars(body)
    case Not(child) => AtomVars(child)
    case And(l, r) => AtomVars(l) + AtomVars(r)
    case Or(l, r) => AtomVars(l) + AtomVars(r)
    case Implies(l, r) => AtomVars(l) + AtomVars(r)
  }

  /** The variables bound by quantifiers in a formula. */
  function QuantifiedVars(f: Formula): set<nat> {
    match f
    case Atom(_, _) => {}
    case Forall(v, _, body) => {v} + QuantifiedVars(body)
    case Exists(v, _, body) => {v} + QuantifiedVars(body)
    case Not(child) => QuantifiedVars(child)
    case And(l, r) => QuantifiedVars(l) + QuantifiedVars(r)
    case Or(l, r) => QuantifiedVars(l) + QuantifiedVars(r)
    case Implies(l, r) => QuantifiedVars(l) + QuantifiedVars(r)
  }

  /** Every quantifier's variable occurs in an atom below it, and no
      quantifier rebinds the variable of one above it. */
  predicate QuantifiersWellUsed(f: Formula) {
    match f
    case Atom(_, _) => true
    case Forall(v, _, body) => v in AtomVars(body) && v !in QuantifiedVars(body) && QuantifiersWellUsed(body)
    case Exists(v, _, body) => v in AtomVars(body) && v !in QuantifiedVars(body) && QuantifiersWellUsed(body)
    case Not(child) => QuantifiersWellUsed(child)
    case And(l, r) => QuantifiersWellUsed(l) && QuantifiersWellUsed(r)
    case Or(l, r) => QuantifiersWellUsed(l) && QuantifiersWellUsed(r)
    case Implies(l, r) => QuantifiersWellUsed(l) && QuantifiersWellUsed(r)
  }

  function QuantifierCount(f: Formula): nat {
    match f
    case Atom(_, _) => 0
    case Forall(_, _, body) => 1 + QuantifierCount(body)
    case Exists(_, _, body) => 1 + QuantifierCount(body)
    case Not(child) => QuantifierCount(child)
    case And(l, r) => QuantifierCount(l) + QuantifierCount(r)
    case Or(l, r) => QuantifierCount(l) + QuantifierCount(r)
    case Implies(l, r) => QuantifierCount(l) + QuantifierCount(r)
  }

  /** The number of formula nodes, bounded by the scope. */
  function Size(f: Formula): nat {
    match f
    case Atom(_, _) => 1
    case Forall(_, _, body) => 1 + Size(body)
    case Exists(_, _, body) => 1 + Size(body)
    case Not(child) => 1 + Size(child)
    case And(l, r) => 1 + Size(l) + Size(r)
    case Or(l, r) => 1 + Size(l) + Size(r)
    case Implies(l, r) => 1 + Size(l) + Size(r)
  }

  /** No connective has a quantifier below it: quantifiers form a prefix. */
  predicate Prenex(f: Formula) {
    match f
    case Atom(_, _) => true
    case Forall(_, _, body) => Prenex(body)
    case Exists(_, _, body) => Prenex(body)
    case Not(child) => QuantifierCount(child) == 0
    case And(l, r) => QuantifierCount(l) == 0 && QuantifierCount(r) == 0
    case Or(l, r) => QuantifierCount(l) == 0 && QuantifierCount(r) == 0
    case Implies(l, r) => QuantifierCount(l) == 0 && QuantifierCount(r) == 0
  }

  predicate NoDoubleNegation(f: Formula) {
    match f
    case Atom(_, _) => true
    case Forall(_, _, body) => NoDoubleNegation(body)
    case Exists(_, _, body) => NoDoubleNegation(body)
    case Not(child) => !child.Not? && NoDoubleNegation(child)
    case And(l, r) => NoDoubleNegation(l) && NoDoubleNegation(r)
    case Or(l, r) => NoDoubleNegation(l) && NoDoubleNegation(r)
    case Implies(l, r) => NoDoubleNegation(l) && NoDoubleNegation(r)
  }

  /** The atoms of a formula, left to right, as relation and terms. */
  function Atoms(f: Formula): seq<(string, seq<Term>)> {
    match f
    case Atom(relation, terms) => [(relation, terms)]
    case Forall(_, _, body) => Atoms(body)
    case Exists(_, _, body) => Atoms(body)
    case Not(child) => Atoms(child)
    case And(l, r) => Atoms(l) + Atoms(r)
    case Or(l, r) => Atoms(l) + Atoms(r)
    case Implies(l, r) => Atoms(l) + Atoms(r)
  }

  /** Each atom names a relation of the learning task and has one term per
      argument position of it. */
  predicate AtomsMatchArity(relations: seq<FOLRelation>, f: Formula) {
    forall k :: 0 <= k < |Atoms(f)| ==> Declared(relations, Atoms(f)[k].0, |Atoms(f)[k].1|)
  }

  /** Some relation of the list has this name and this arity. */
  predicate Declared(relations: seq<FOLRelation>, name: string, arity: nat) {
    exists i :: 0 <= i < |relations| && relations[i].name == name && relations[i].Arity() == arity
  }

  /** The default custom constraint: atoms take variables only. */
  predicate OnlyVariableTerms(f: Formula) {
    forall k, i :: 0 <= k < |Atoms(f)| && 0 <= i < |Atoms(f)[k].1| ==> Atoms(f)[k].1[i].VarTerm?
  }

  function OperatorName(f: Formula): string {
    match f
    case Atom(_, _) => "Atom"
    case Forall(_, _, _) => "Forall"
    case Exists(_, _, _) => "Exists"
    case Not(_) => "Not"
    case And(_, _) => "And"
    case Or(_, _) => "Or"
    case Implies(_, _) => "Implies"
  }

  /** Every connective and quantifier used is one the learning task did not exclude
      (an excluded one has no signature to build nodes from). */
  predicate OperatorsEnabled(excluded: seq<string>, f: Formula) {
    (f.Atom? || OperatorName(f) in EnabledOperators(excluded)) &&
    match f
    case Atom(_, _) => true
    case Forall(_, _, body) => OperatorsEnabled(excluded, body)
    case Exists(_, _, body) => OperatorsEnabled(excluded, body)
    case Not(child) => OperatorsEnabled(excluded, child)
    case And(l, r) => OperatorsEnabled(excluded, l) && OperatorsEnabled(excluded, r)
    case Or(l, r) => OperatorsEnabled(excluded, l) && OperatorsEnabled(excluded, r)
    case Implies(l, r) => OperatorsEnabled(excluded, l) && OperatorsEnabled(excluded, r)
  }

  /** The variables `V0 .. V(n-1)`: one per allowed quantifier. */
  function NumVariables(task: FOLTask): nat {
    if task.maxQuantifiers < 0 then 0 else task.maxQuantifiers
  }

  /** Variables, elements and sorts are ones the encoding declares. */
  predicate InVocabulary(task: FOLTask, f: Formula) {
    (forall v :: v in AtomVars(f) + QuantifiedVars(f) ==> v < NumVariables(task)) &&
    (forall k, i :: 0 <= k < |Atoms(f)| && 0 <= i < |Atoms(f)[k].1| && Atoms(f)[k].1[i].ConstTerm? ==>
       Atoms(f)[k].1[i].e < MaxElements(task)) &&
    QuantifierSortsDeclared(task.sorts, f)
  }

  predicate QuantifierSortsDeclared(sorts: seq<FOLSort>, f: Formula) {
    match f
    case Atom(_, _) => true
    case Forall(_, sort, body) => (exists i :: 0 <= i < |sorts| && sorts[i].name == sort) && QuantifierSortsDeclared(sorts, body)
    case Exists(_, sort, body) => (exists i :: 0 <= i < |sorts| && sorts[i].name == sort) && QuantifierSortsDeclared(sorts, body)
    case Not(child) => QuantifierSortsDeclared(sorts, child)
    case And(l, r) => QuantifierSortsDeclared(sorts, l) && QuantifierSortsDeclared(sorts, r)
    case Or(l, r) => QuantifierSortsDeclared(sorts, l) && QuantifierSortsDeclared(sorts, r)
    case Implies(l, r) => QuantifierSortsDeclared(sorts, l) && QuantifierSortsDeclared(sorts, r)
  }

  /** The restrictions the encoding puts on a candidate separator. */
  predicate WellFormed(task: FOLTask, f: Formula) {
    && FreeVars(f) == {}
    && QuantifiersWellUsed(f)
    && AtomsMatchArity(task.relations, f)
    && QuantifierCount(f) <= task.maxQuantifiers
    && Prenex(f)
    && NoDoubleNegation(f)
    && Distinct(Atoms(f))
    && InVocabulary(task, f)
    && OperatorsEnabled(task.excludedOperators, f)
    && (task.customConstraints == OnlyVarTerms ==> OnlyVariableTerms(f))
  }

  /** `findSeparator` at scope `scope`: a well-formed formula of at most
      `scope` nodes that every positive structure satisfies and no negative
      one does, under the empty environment. */
  predicate IsSeparator(task: FOLTask, scope: int, f: Formula) {
    && WellFormed(task, f)
    && Size(f) <= scope
    && (forall k :: 0 <= k < |task.positiveExamples| ==>
          Satisfies(Encode(task, task.positiveExamples[k]), Unbound(NumVariables(task)), f))
    && (forall k :: 0 <= k < |task.negativeExamples| ==>
          !Satisfies(Encode(task, task.negativeExamples[k]), Unbound(NumVariables(task)), f))
  }

  // ---------------------------------------------------------------------
  // Consequences of well-formedness
  // ---------------------------------------------------------------------

  lemma {:induction false} EveryFormulaHasAnAtom(f: Formula)
    ensures |Atoms(f)| > 0
  {
    match f
    case Atom(_, _) =>
    case Forall(_, _, body) => EveryFormulaHasAnAtom(body);
    case Exists(_, _, body) => EveryFormulaHasAnAtom(body);
    case Not(child) => EveryFormulaHasAnAtom(child);
    case And(l, r) => EveryFormulaHasAnAtom(l);
    case Or(l, r) => EveryFormulaHasAnAtom(l);
    case Implies(l, r) => EveryFormulaHasAnAtom(l);
  }

  predicate ChildrenDiffer(f: Formula) {
    match f
    case Atom(_, _) => true
    case Forall(_, _, body) => ChildrenDiffer(body)
    case Exists(_, _, body) => ChildrenDiffer(body)
    case Not(child) => ChildrenDiffer(child)
    case And(l, r) => l != r && ChildrenDiffer(l) && ChildrenDiffer(r)
    case Or(l, r) => l != r && ChildrenDiffer(l) && ChildrenDiffer(r)
    case Implies(l, r) => l != r && ChildrenDiffer(l) && ChildrenDiffer(r)
  }

  lemma DistinctParts<T>(p: seq<T>, q: seq<T>)
    requires Distinct(p + q)
    ensures Distinct(p) && Distinct(q)
    ensures p != [] ==> p != q
  {
    assert forall i :: 0 <= i < |p| ==> (p + q)[i] == p[i];
    assert forall i :: 0 <= i < |q| ==> (p + q)[|p| + i] == q[i];
    if p != [] && q != [] {
      assert (p + q)[0] != (p + q)[|p|];
      assert p[0] != q[0];
    }
  }

  lemma {:induction false} BinaryDistinct(l: Formula, r: Formula)
    requires Distinct(Atoms(l) + Atoms(r))
    ensures l != r && Distinct(Atoms(l)) && Distinct(Atoms(r))
  {
    EveryFormulaHasAnAtom(l);
    DistinctParts(Atoms(l), Atoms(r));
  }

  /** Without duplicate atoms the two children of a binary connective are
      never the same formula. */
  lemma {:induction false} NoDuplicateAtomsMeansChildrenDiffer(f: Formula)
    requires Distinct(Atoms(f))
    ensures ChildrenDiffer(f)
  {
    match f
    case Atom(_, _) =>
    case Forall(_, _, body) => NoDuplicateAtomsMeansChildrenDiffer(body);
    case Exists(_, _, body) => NoDuplicateAtomsMeansChildrenDiffer(body);
    case Not(child) => NoDuplicateAtomsMeansChildrenDiffer(child);
    case And(l, r) =>
      BinaryDistinct(l, r);
      NoDuplicateAtomsMeansChildrenDiffer(l);
      NoDuplicateAtomsMeansChildrenDiffer(r);
    case Or(l, r) =>
      BinaryDistinct(l, r);
      NoDuplicateAtomsMeansChildrenDiffer(l);
      NoDuplicateAtomsMeansChildrenDiffer(r);
    case Implies(l, r) =>
      BinaryDistinct(l, r);
      NoDuplicateAtomsMeansChildrenDiffer(l);
      NoDuplicateAtomsMeansChildrenDiffer(r);
  }

  /** A separator is closed, so its truth in a structure does not depend on
      the environment it is evaluated in. */
  lemma SeparatorIgnoresEnvironment(task: FOLTask, f: Formula, s: Structure, env: Assignment)
    requires WellFormed(task, f)
    requires |env| == NumVariables(task)
    ensures Satisfies(s, env, f) == Satisfies(s, Unbound(NumVariables(task)), f)
  {
    ClosedFormulasIgnoreEnvironment(s, env, Unbound(NumVariables(task)), f);
  }

  /** A separator found at some scope is one at every larger scope, so the
      satisfiable node bounds are closed upwards. */
  lemma SeparatorAtLargerScope(task: FOLTask, scope: int, larger: int, f: Formula)
    requires IsSeparator(task, scope, f) && scope <= larger
    ensures IsSeparator(task, larger, f)
  {
  }

  /** A positive and a negative example that encode to the same structure
      leave nothing to find. */
  lemma ConflictingExamples(task: FOLTask, i: nat, j: nat, scope: int)
    requires i < |task.positiveExamples| && j < |task.negativeExamples|
    requires Encode(task, task.positiveExamples[i]) == Encode(task, task.negativeExamples[j])
    ensures forall f :: !IsSeparator(task, scope, f)
  {
    forall f | IsSeparator(task, scope, f) ensures false {
    }
  }

  /** A task with the examples' polarities swapped. */
  function Swapped(task: FOLTask): FOLTask {
    task.(positiveExamples := task.negativeExamples, negativeExamples := task.positiveExamples)
  }

  /** The negation of a quantifier-free separator separates the swapped
      task, provided `Not` is available and the separator is not itself a
      negation. */
  lemma NegatedSeparator(task: FOLTask, scope: int, f: Formula)
    requires IsSeparator(task, scope, f)
    requires QuantifierCount(f) == 0 && !f.Not?
    requires "Not" !in task.excludedOperators
    ensures IsSeparator(Swapped(task), scope + 1, Not(f))
  {
    var t := Swapped(task);
    NegationWellFormed(task, f);
    forall k | 0 <= k < |t.positiveExamples|
      ensures Satisfies(Encode(t, t.positiveExamples[k]), Unbound(NumVariables(t)), Not(f))
    {
      SwappedExample(task, t.positiveExamples[k], f);
    }
    forall k | 0 <= k < |t.negativeExamples|
      ensures !Satisfies(Encode(t, t.negativeExamples[k]), Unbound(NumVariables(t)), Not(f))
    {
      SwappedExample(task, t.negativeExamples[k], f);
    }
  }

  /** Swapping the example lists changes neither the encoding of an example
      nor the number of variables, so the negation flips each verdict. */
  lemma SwappedExample(task: FOLTask, ex: FOLExample, f: Formula)
    ensures Satisfies(Encode(Swapped(task), ex), Unbound(NumVariables(Swapped(task))), Not(f))
        <==> !Satisfies(Encode(task, ex), Unbound(NumVariables(task)), f)
  {
    assert Encode(Swapped(task), ex) == Encode(task, ex);
  }

  lemma NegationWellFormed(task: FOLTask, f: Formula)
    requires WellFormed(task, f)
    requires QuantifierCount(f) == 0 && !f.Not?
    requires "Not" !in task.excludedOperators
    ensures WellFormed(Swapped(task), Not(f))
  {
    var t := Swapped(task);
    NegationShape(f);
    assert t.relations == task.relations && t.maxQuantifiers == task.maxQuantifiers;
    assert t.customConstraints == task.customConstraints;
    assert AtomsMatchArity(t.relations, Not(f));
    NegationInVocabulary(task, f);
  }

  /** Negating a quantifier-free formula that is not itself a negation keeps
      it closed, prenex, free of double negation, with the same atoms. */
  lemma NegationShape(f: Formula)
    requires FreeVars(f) == {} && QuantifiersWellUsed(f) && Prenex(f) && NoDoubleNegation(f)
    requires QuantifierCount(f) == 0 && !f.Not?
    ensures FreeVars(Not(f)) == {} && QuantifiersWellUsed(Not(f)) && Prenex(Not(f)) && NoDoubleNegation(Not(f))
    ensures QuantifierCount(Not(f)) == 0 && Atoms(Not(f)) == Atoms(f)
    ensures OnlyVariableTerms(f) ==> OnlyVariableTerms(Not(f))
  {
  }

  lemma NegationInVocabulary(task: FOLTask, f: Formula)
    requires InVocabulary(task, f) && OperatorsEnabled(task.excludedOperators, f)
    requires "Not" !in task.excludedOperators
    ensures InVocabulary(Swapped(task), Not(f)) && OperatorsEnabled(Swapped(task).excludedOperators, Not(f))
  {
    SwappedBounds(task);
    NegationVocabulary(task, Swapped(task), f);
    NegationEnabled(task.excludedOperators, f);
  }

  /** Swapping the example lists keeps the element and variable bounds. */
  lemma SwappedBounds(task: FOLTask)
    ensures MaxElements(Swapped(task)) == MaxElements(task)
    ensures NumVariables(Swapped(task)) == NumVariables(task)
    ensures Swapped(task).sorts == task.sorts && Swapped(task).excludedOperators == task.excludedOperators
  {
  }

  lemma NegationVocabulary(task: FOLTask, t: FOLTask, f: Formula)
    requires InVocabulary(task, f)
    requires MaxElements(t) == MaxElements(task) && NumVariables(t) == NumVariables(task) && t.sorts == task.sorts
    ensures InVocabulary(t, Not(f))
  {
    assert AtomVars(Not(f)) + QuantifiedVars(Not(f)) == AtomVars(f) + QuantifiedVars(f);
    assert Atoms(Not(f)) == Atoms(f);
  }

  lemma NegationEnabled(excluded: seq<string>, f: Formula)
    requires OperatorsEnabled(excluded, f)
    requires "Not" !in excluded
    ensures OperatorsEnabled(excluded, Not(f))
  {
    assert "Not" in Operators;
  }
}

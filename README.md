# A Dafny model of the FOL separator learner

The Kotlin project learns a first-order formula that separates labelled
finite structures. A task is given as an S-expression file: sorts,
relation and function symbols, and positive and negative models. The learning task
is first reduced: constants are renamed canonically, and duplicate and
equivalent examples are dropped. The learner then encodes the search as an
Alloy model and asks the solver for a formula with a growing node bound.
The formula the solver finds is printed back as text.

This project models that core in Dafny, one module per concern:

- `Strings` (strings.dfy): the string operations the printers and the
  reducer use. These are Kotlin's `isWhitespace`, `lowercase`, literal
  `replace`, the regular expressions `\$\d+` and `\d+$`, `split`, `trim`
  and decimal printing.
- `Common` (common.dfy): the vocabulary and structures of `Common.kt`.
  The `arity` getters are `Arity()` members giving the signature length;
  a function's signature ends with its result sort, so a one-argument
  function has arity 2. Structures and examples are datatypes, so they are
  equal exactly when their fields are, and `StructureOf` supplies the
  default of no function facts.
- `Learner` (learner.dfy): `FOLTask`, the node-bound schedule of `learn`,
  and `learn` itself. The Alloy solver is a parameter `sat: int -> bool`
  that says whether a bound has an instance.
- `Encoding` (encoding.dfy): the instance-specific part of the Alloy
  model. It covers the element count, the index width, the enabled
  operators, every environment, and the fact block of each example
  structure, written as a list of constraint lines.
- `Semantics` (semantics.dfy): the formula language and the `Semantics`,
  `WellFormedness`, `QuantifierLimit`, `SyntacticRestrictions` and
  `AvoidDegenerateFormulas` facts of the encoding, and `findSeparator`.
  All of these are stated over the structures the encoding declares.
- `TaskParser` (task_parser.dfy): the tokenizer, the S-expression reader,
  the reading of model contents and of a whole task, the choice between
  the two input formats, and the CSV summary line.
- `SampleReducer` (sample_reducer.dfy): canonical constant names, the
  reduction of a structure, the equivalence of examples, and the dedup
  pass.
- `LearningSolution` (solution.dfy): the printers `getFOL` and `getFOL2`
  and their helpers, over an abstraction of the solver's instance as two
  lookup tables keyed by the solver's atom labels, and `next`.

Loops of the source are methods with loop invariants, proved equal to a
specification function. The specification functions carry the lemmas.

## Model

| member | source | states |
|---|---|---|
| Strings.Lowercase | src/main/kotlin/cmu/s3d/ltl/learning/LTLLearningSolution.kt:206 | the result has the input's length and each character is the lower-case form of the input's character at that position |
| Strings.RemoveAll | src/main/kotlin/cmu/s3d/ltl/learning/LTLLearningSolution.kt:157 | a literal `replace` with the empty string never makes a label longer; RemoveAllDeletesOnlyPattern, RemoveAllNoOccurrence and RemoveAllKeepsPrefix state what it deletes |
| Strings.RemoveAllDeletesOnlyPattern | src/main/kotlin/cmu/s3d/ltl/learning/LTLLearningSolution.kt:157 | deleting a literal word removes only characters of that word: what is left is a subsequence of the input, and every other character occurs in it as often as in the input |
| Strings.DigitRun | src/main/kotlin/cmu/s3d/ltl/learning/LTLLearningSolution.kt:157 | the length of the maximal run of digits at the start of a string: every character before it is a digit, the one at it is not |
| Strings.RemoveDollarDigits | src/main/kotlin/cmu/s3d/ltl/learning/LTLLearningSolution.kt:198 | the `\$\d+` clean-up never makes a label longer; RemoveDollarDigitsDeletesOnlyRuns states what it deletes and what it leaves |
| Strings.RemoveDollarDigitsDeletesOnlyRuns | src/main/kotlin/cmu/s3d/ltl/learning/LTLLearningSolution.kt:198 | removing the `$`-digit runs deletes only `$` signs and digits, keeps the rest in order and as often as in the input, leaves no `$` directly before a digit, and starts with a digit only where the input does |
| Strings.TrailingDigits | src/main/kotlin/cmu/s3d/ltl/learning/LTLLearningSolution.kt:132 | the length of the maximal digit suffix that `\d+$` matches: all of it digits, and the character before it is not a digit |
| Strings.FirstOf | src/main/kotlin/cmu/s3d/ltl/learning/LTLLearningSolution.kt:312 | the index of the first separator character, or the length when there is none; no earlier character is a separator |
| Strings.Split | src/main/kotlin/cmu/s3d/ltl/learning/LTLLearningSolution.kt:189-190 | splitting at a character always yields at least one piece |
| Strings.NatToString | src/main/kotlin/cmu/s3d/ltl/samples2ltl/TaskParser.kt:307-309 | a count is written as a non-empty string of decimal digits |
| Strings.NatToStringRoundTrip | src/main/kotlin/cmu/s3d/ltl/samples2ltl/TaskParser.kt:307-309 | reading the decimal digits back gives the number written |
| Strings.NatToStringInjective | src/main/kotlin/cmu/s3d/ltl/learning/SampleReducer.kt:44 | two different indices never get the same decimal suffix |
| Strings.SplitAfterField | src/main/kotlin/cmu/s3d/ltl/learning/LTLLearningSolution.kt:189-190 | a comma-free field followed by a comma splits off as the first piece |
| Strings.SplitJoin | src/main/kotlin/cmu/s3d/ltl/learning/LTLLearningSolution.kt:189-190 | fields joined with commas split back into exactly those fields when none holds a comma |
| Learner.KotlinDiv | src/main/kotlin/cmu/s3d/ltl/learning/LTLLearner.kt:416 | Kotlin's `/` by a positive divisor leaves a remainder with the sign of the dividend and smaller than the divisor, which is division truncated toward zero |
| Learner.DefaultStart | src/main/kotlin/cmu/s3d/ltl/learning/LTLLearner.kt:416 | the first bound tried when none is given always lies between 3 and 6 |
| Learner.DefaultStartWithFlooredDivision | src/main/kotlin/cmu/s3d/ltl/learning/LTLLearner.kt:416 | after the clamp, truncating and flooring division give the same start, so the sign of the numerator does not matter |
| Learner.Progression | src/main/kotlin/cmu/s3d/ltl/learning/LTLLearner.kt:417 | `start..end step s` is strictly rising, stays within the range, begins at the start when the range is non-empty, and stops within one step of the end |
| Learner.NodeBoundsRise | src/main/kotlin/cmu/s3d/ltl/learning/LTLLearner.kt:417-419 | the bounds `learn` tries are non-empty, strictly rising, never above the node limit, and end at the node limit |
| Learner.NodeBoundsOnProgression | src/main/kotlin/cmu/s3d/ltl/learning/LTLLearner.kt:417-419 | every bound but the last is start plus a multiple of the step, and the first is the start when it does not exceed the limit |
| Learner.ProgressionSteps | src/main/kotlin/cmu/s3d/ltl/learning/LTLLearner.kt:417 | the k-th element of the progression is start + k * step |
| Learner.FirstSatisfiable | src/main/kotlin/cmu/s3d/ltl/learning/LTLLearner.kt:421-440 | the result is none exactly when no bound is satisfiable; otherwise it is a satisfiable bound with no satisfiable bound before it |
| Learner.SolveFirst | src/main/kotlin/cmu/s3d/ltl/learning/LTLLearner.kt:421-440 | the loop over the bounds returns the first bound the solver satisfies |
| Learner.Learn | src/main/kotlin/cmu/s3d/ltl/learning/LTLLearner.kt:415-441 | `learn` fails on a non-positive step and otherwise returns the first satisfiable bound of its schedule with the step, or none |
| Learner.FirstSatisfiableOnRising | src/main/kotlin/cmu/s3d/ltl/learning/LTLLearner.kt:421-440 | on a rising schedule the bound found is the least satisfiable bound of the schedule and does not exceed the end |
| Learner.LearnFindsFirst | src/main/kotlin/cmu/s3d/ltl/learning/LTLLearner.kt:415-441 | `learn` returns none exactly when no scheduled bound is satisfiable; otherwise a satisfiable bound within the node limit, with every smaller scheduled bound unsatisfiable |
| Encoding.DistinctConcat | src/main/kotlin/cmu/s3d/ltl/learning/LTLLearner.kt:330-348 | two duplicate-free lists with nothing in common concatenate to a duplicate-free list |
| Encoding.MaxConstants | src/main/kotlin/cmu/s3d/ltl/learning/LTLLearner.kt:41-44 | the largest constant count over the examples: no example has more, and some example has exactly that many unless it is 0 |
| Encoding.MaxElements | src/main/kotlin/cmu/s3d/ltl/learning/LTLLearner.kt:41-44 | the element count bounds every positive and negative example's constants and is reached by one of them, or is 0 |
| Encoding.MaxOrDefault | src/main/kotlin/cmu/s3d/ltl/learning/LTLLearner.kt:46-49 | `maxOfOrNull ?: d`: the default on an empty list, else an element that bounds all the others |
| Encoding.MaxArityBounds | src/main/kotlin/cmu/s3d/ltl/learning/LTLLearner.kt:46-49 | every relation and function fits the index width; the width is 2 or the arity of some symbol; without functions it is at least 2 |
| Encoding.MaxArity | src/main/kotlin/cmu/s3d/ltl/learning/LTLLearner.kt:46-49 | the width of the index signature (no contract of its own); MaxArityBounds states that every symbol fits it and that it is 2 or the arity of some symbol |
| Encoding.EnabledOperators | src/main/kotlin/cmu/s3d/ltl/learning/LTLLearner.kt:141-157 | an operator is declared exactly when it is one of the six and not excluded |
| Encoding.ScriptResolvesIff | src/main/kotlin/cmu/s3d/ltl/learning/LTLLearner.kt:249-256 | the fixed facts name And, Or, Implies and Not, so the operator names that those facts use resolve exactly when none of the four is excluded; sort, element and tuple names are not covered (see `Encoding.Encode` under "## Left out") |
| Encoding.ExcludingNothing | src/main/kotlin/cmu/s3d/ltl/learning/LTLLearner.kt:141-157 | excluding nothing declares all six operators in order |
| Encoding.KeepAll | src/main/kotlin/cmu/s3d/ltl/learning/LTLLearner.kt:141-157 | filtering against an empty exclusion list keeps the list unchanged |
| Encoding.ElementChoices | src/main/kotlin/cmu/s3d/ltl/learning/LTLLearner.kt:385-387 | a variable can be bound to each element `E0 .. E(m-1)` in order, or left unbound as the last choice |
| Encoding.ElementChoicesAreValid | src/main/kotlin/cmu/s3d/ltl/learning/LTLLearner.kt:385-387 | a choice is offered exactly when it is unbound or names an existing element, and no choice is offered twice |
| Encoding.GenerateAllEnvironments | src/main/kotlin/cmu/s3d/ltl/learning/LTLLearner.kt:382-412 | the environments produced are the specified ones, and the count returned is their number |
| Encoding.AllMappings | src/main/kotlin/cmu/s3d/ltl/learning/LTLLearner.kt:389-400 | extending variable by variable yields every mapping of the variables to a choice; a negative variable count counts as none |
| Encoding.NextMappings | src/main/kotlin/cmu/s3d/ltl/learning/LTLLearner.kt:393-398 | one extension step is the product of the mappings so far with the choices, in order |
| Encoding.ProductMembership | src/main/kotlin/cmu/s3d/ltl/learning/LTLLearner.kt:393-398 | a mapping is in the product exactly when its prefix is an earlier mapping and its last entry is a choice |
| Encoding.ProductLength | src/main/kotlin/cmu/s3d/ltl/learning/LTLLearner.kt:393-398 | the product has as many mappings as the two factors' sizes multiplied |
| Encoding.ProductDistinct | src/main/kotlin/cmu/s3d/ltl/learning/LTLLearner.kt:393-398 | the product of duplicate-free factors is duplicate-free |
| Encoding.AssignmentsExactly | src/main/kotlin/cmu/s3d/ltl/learning/LTLLearner.kt:389-400 | a mapping is generated exactly when it has one entry per variable and every bound entry names an existing element |
| Encoding.AssignmentsDistinct | src/main/kotlin/cmu/s3d/ltl/learning/LTLLearner.kt:389-400 | no mapping is generated twice |
| Encoding.AssignmentsCount | src/main/kotlin/cmu/s3d/ltl/learning/LTLLearner.kt:389-400 | there are (m + 1) to the power n mappings |
| Encoding.BoundOfBound | src/main/kotlin/cmu/s3d/ltl/learning/LTLLearner.kt:402 | the filter keeps a list in which every mapping binds something |
| Encoding.BoundDistinct | src/main/kotlin/cmu/s3d/ltl/learning/LTLLearner.kt:402 | filtering keeps a list duplicate-free |
| Encoding.BoundRemovesOne | src/main/kotlin/cmu/s3d/ltl/learning/LTLLearner.kt:402 | when exactly one listed mapping binds nothing, the filter drops exactly one |
| Encoding.EnvironmentsExactly | src/main/kotlin/cmu/s3d/ltl/learning/LTLLearner.kt:382-412 | an environment is declared exactly when it is a valid mapping that binds at least one variable |
| Encoding.EnvironmentsDistinct | src/main/kotlin/cmu/s3d/ltl/learning/LTLLearner.kt:382-412 | no environment is declared twice |
| Encoding.EnvironmentsCount | src/main/kotlin/cmu/s3d/ltl/learning/LTLLearner.kt:382-412 | (m + 1)^n - 1 environments are declared besides the empty one, and none without variables |
| Encoding.Environments | src/main/kotlin/cmu/s3d/ltl/learning/LTLLearner.kt:382-412 | the declared environments (no contract of its own); EnvironmentsExactly, EnvironmentsDistinct and EnvironmentsCount state which mappings they are and how many |
| Encoding.NoVariablesNoEnvironments | src/main/kotlin/cmu/s3d/ltl/learning/LTLLearner.kt:383-402 | with no variables only the empty mapping exists, so no environment is declared |
| Encoding.ExtendEnv | src/main/kotlin/cmu/s3d/ltl/learning/LTLLearner.kt:181-184 | extending an environment keeps its number of variables |
| Encoding.ExtensionIsDeclared | src/main/kotlin/cmu/s3d/ltl/learning/LTLLearner.kt:181-184 | binding a variable to an element always yields a declared environment, so `extendEnv` is never empty |
| Encoding.ElementMappingIsLast | src/main/kotlin/cmu/s3d/ltl/learning/LTLLearner.kt:357 | a name is mapped exactly when some constant has it, and it maps to the last constant with that name |
| Encoding.ElementIndexIsLast | src/main/kotlin/cmu/s3d/ltl/learning/LTLLearner.kt:357-364 | a name in a fact stands for the last constant of that name, or for `E0` when no constant has it |
| Encoding.MapTuple | src/main/kotlin/cmu/s3d/ltl/learning/LTLLearner.kt:364-366 | a fact becomes a tuple of the same length whose entries are the elements its names stand for |
| Encoding.TupleConstraintsAt | src/main/kotlin/cmu/s3d/ltl/learning/LTLLearner.kt:363-368 | the tuple lines of a relation are one per fact, in order, each naming the fact's elements |
| Encoding.GenerateStructureFact | src/main/kotlin/cmu/s3d/ltl/learning/LTLLearner.kt:356-380 | the loop over the relations produces the specified fact block |
| Encoding.RelationLines | src/main/kotlin/cmu/s3d/ltl/learning/LTLLearner.kt:361-372 | one relation's lines are the specified tuple lines and count, or `no` when it has no facts |
| Encoding.RelationsConstraintsMembership | src/main/kotlin/cmu/s3d/ltl/learning/LTLLearner.kt:360-373 | a line is in the relation part exactly when it is a line of one declared relation |
| Encoding.RelationConstraintsMembership | src/main/kotlin/cmu/s3d/ltl/learning/LTLLearner.kt:361-372 | a relation has a tuple line for exactly its mapped facts, a count line equal to its number of facts when it has any, and a `no` line exactly when it has none |
| Encoding.TupleLinesAreTheInterpretation | src/main/kotlin/cmu/s3d/ltl/learning/LTLLearner.kt:356-380 | the tuple lines of the block describe exactly the interpretation of the declared relations |
| Encoding.InterpretationPinned | src/main/kotlin/cmu/s3d/ltl/learning/LTLLearner.kt:363-371 | a set of tuples that holds every tuple line of a relation and has the size its count line states is exactly the model's interpretation, when the relation's mapped facts are distinct |
| Encoding.RepeatedTupleLeavesRoom | src/main/kotlin/cmu/s3d/ltl/learning/LTLLearner.kt:363-369 | when two facts of a relation map to the same element tuple, the tuple lines force fewer distinct tuples than the count line asks for |
| Encoding.Interpretation | src/main/kotlin/cmu/s3d/ltl/learning/LTLLearner.kt:356-380 | an example interprets exactly the relations of the learning task, each by its mapped facts; InterpretationPinned and RepeatedTupleLeavesRoom say when the script forces this interpretation |
| Encoding.CountLines | src/main/kotlin/cmu/s3d/ltl/learning/LTLLearner.kt:369 | a count line states exactly the number of facts of a declared relation with facts |
| Encoding.NoTuplesLines | src/main/kotlin/cmu/s3d/ltl/learning/LTLLearner.kt:371 | a `no` line appears exactly for the declared relations without facts |
| Encoding.NoFunctionLineIsLast | src/main/kotlin/cmu/s3d/ltl/learning/LTLLearner.kt:375 | the block always ends with the single line that leaves the function interpretation empty |
| Encoding.StructureFact | src/main/kotlin/cmu/s3d/ltl/learning/LTLLearner.kt:356-380 | the fact block of one example (no contract of its own); RelationsConstraintsMembership, CountLines, NoTuplesLines and NoFunctionLineIsLast state its lines |
| Encoding.DeclsOfAt | src/main/kotlin/cmu/s3d/ltl/learning/LTLLearner.kt:330-348 | every example gets one declaration, at its own index |
| Encoding.GenerateStructureConstraints | src/main/kotlin/cmu/s3d/ltl/learning/LTLLearner.kt:330-348 | the loops produce the declarations of the positive examples and then the negative ones |
| Encoding.StructureNamesDistinct | src/main/kotlin/cmu/s3d/ltl/learning/LTLLearner.kt:330-354 | one structure is declared per example, and no two have the same name |
| Encoding.Encode | src/main/kotlin/cmu/s3d/ltl/learning/LTLLearner.kt:350-380 | an example's structure has one element per constant and interprets exactly the declared relations |
| Encoding.EncodedTuplesInRange | src/main/kotlin/cmu/s3d/ltl/learning/LTLLearner.kt:356-380 | every interpreted tuple names only elements of its structure, for a structure with at least one constant |
| Semantics.EvalTerms | src/main/kotlin/cmu/s3d/ltl/learning/LTLLearner.kt:93-126 | the terms of an atom denote a tuple exactly when every term denotes, and the tuple lists what each denotes |
| Semantics.AtomHolds | src/main/kotlin/cmu/s3d/ltl/learning/LTLLearner.kt:188-195 | the intended atom clause, used by the model (no contract of its own); FullWidthAtomsAgree states that it coincides with the clause as written when the atom spans the whole index signature |
| Semantics.AtomHoldsAsWritten | src/main/kotlin/cmu/s3d/ltl/learning/LTLLearner.kt:188-195 | the atom clause as written (no contract of its own); ShortAtomsNeverHoldAsWritten and UnaryAtomCounterexample state that atoms narrower than the index signature never hold under it |
| Semantics.Satisfies | src/main/kotlin/cmu/s3d/ltl/learning/LTLLearner.kt:188-223 | the `Semantics` fact (no contract of its own); Dualities, Coincidence, ClosedFormulasIgnoreEnvironment and QuantifierOverOtherSort state its properties |
| Semantics.ShortAtomsNeverHoldAsWritten | src/main/kotlin/cmu/s3d/ltl/learning/LTLLearner.kt:188-195 | under the atom clause as written, an atom with fewer terms than the index width never holds |
| Semantics.FullWidthAtomsAgree | src/main/kotlin/cmu/s3d/ltl/learning/LTLLearner.kt:188-195 | when the atom and all its relation's tuples span the index width, the written clause holds exactly when the intended one does |
| Semantics.UnaryAtomCounterexample | src/main/kotlin/cmu/s3d/ltl/learning/LTLLearner.kt:46-58 | a task with a unary and a binary relation has index width 2, and there a true unary atom fails under the written clause |
| Semantics.TermsCoincide | src/main/kotlin/cmu/s3d/ltl/learning/LTLLearner.kt:93-126 | terms denote the same under two environments that agree on the terms' variables |
| Semantics.Coincidence | src/main/kotlin/cmu/s3d/ltl/learning/LTLLearner.kt:188-223 | a formula's truth depends only on the values of its free variables |
| Semantics.ClosedFormulasIgnoreEnvironment | src/main/kotlin/cmu/s3d/ltl/learning/LTLLearner.kt:188-223 | a formula without free variables has the same truth under every environment |
| Semantics.QuantifierOverOtherSort | src/main/kotlin/cmu/s3d/ltl/learning/LTLLearner.kt:212-223 | a quantifier over a sort that is not the elements' sort ranges over nothing: `all` holds and `some` fails |
| Semantics.OtherSortsAreEmpty | src/main/kotlin/cmu/s3d/ltl/learning/LTLLearner.kt:301-306 | every element is declared with the first sort of the learning task, so over any other sort a universal quantifier holds and an existential one fails in every encoded example |
| Semantics.Dualities | src/main/kotlin/cmu/s3d/ltl/learning/LTLLearner.kt:196-223 | the clauses obey the usual dualities: not-all is some-not, implication is not-or, not-and is or-not |
| Semantics.EveryFormulaHasAnAtom | src/main/kotlin/cmu/s3d/ltl/learning/LTLLearner.kt:234 | every formula reaches at least one atom |
| Semantics.BinaryDistinct | src/main/kotlin/cmu/s3d/ltl/learning/LTLLearner.kt:253-260 | without repeated atoms a connective's two operands differ |
| Semantics.NoDuplicateAtomsMeansChildrenDiffer | src/main/kotlin/cmu/s3d/ltl/learning/LTLLearner.kt:149-154 | the ban on repeated atoms implies `left != right` at every binary connective |
| Semantics.WellFormed | src/main/kotlin/cmu/s3d/ltl/learning/LTLLearner.kt:227-260 | the `WellFormedness`, `QuantifierLimit`, `SyntacticRestrictions` and `AvoidDegenerateFormulas` facts (no contract of its own); NegationWellFormed, BinaryDistinct and NoDuplicateAtomsMeansChildrenDiffer state its consequences |
| Semantics.SeparatorIgnoresEnvironment | src/main/kotlin/cmu/s3d/ltl/learning/LTLLearner.kt:288-291 | a well-formed formula has the same truth under the empty environment as under any other |
| Semantics.IsSeparator | src/main/kotlin/cmu/s3d/ltl/learning/LTLLearner.kt:288-291 | `findSeparator` within the node bound (no contract of its own); SeparatorIgnoresEnvironment, SeparatorAtLargerScope, ConflictingExamples and NegatedSeparator state its properties |
| Semantics.SeparatorAtLargerScope | src/main/kotlin/cmu/s3d/ltl/learning/LTLLearner.kt:421-438 | a separator found at one node bound is also one at every larger bound |
| Semantics.ConflictingExamples | src/main/kotlin/cmu/s3d/ltl/learning/LTLLearner.kt:288-291 | when a positive and a negative example encode to the same structure, no formula separates them |
| Semantics.NegatedSeparator | src/main/kotlin/cmu/s3d/ltl/learning/LTLLearner.kt:288-291 | the negation of a quantifier-free separator that is not a negation separates the learning task with the labels swapped, one node larger, when `Not` is enabled |
| Semantics.SwappedExample | src/main/kotlin/cmu/s3d/ltl/learning/LTLLearner.kt:196-199 | swapping the labels leaves each example's structure unchanged, so the negation holds there exactly when the formula fails |
| Semantics.NegationWellFormed | src/main/kotlin/cmu/s3d/ltl/learning/LTLLearner.kt:233-260 | negating such a separator keeps every well-formedness restriction |
| Semantics.NegationShape | src/main/kotlin/cmu/s3d/ltl/learning/LTLLearner.kt:249-260 | the negation of a closed, prenex, quantifier-free formula without double negation keeps those properties and the same atoms |
| Semantics.NegationInVocabulary | src/main/kotlin/cmu/s3d/ltl/learning/LTLLearner.kt:141-157 | the negation stays within the vocabulary and uses only enabled operators |
| TaskParser.CommentEnd | src/main/kotlin/cmu/s3d/ltl/samples2ltl/TaskParser.kt:241-244 | a comment stops at the first line feed or at the end of input |
| TaskParser.AtomEnd | src/main/kotlin/cmu/s3d/ltl/samples2ltl/TaskParser.kt:253-260 | an atom stops at the first whitespace or parenthesis or at the end of input |
| TaskParser.Tokenize | src/main/kotlin/cmu/s3d/ltl/samples2ltl/TaskParser.kt:234-265 | the loop yields the specified tokens of the whole input |
| TaskParser.ReadStep | src/main/kotlin/cmu/s3d/ltl/samples2ltl/TaskParser.kt:238-262 | one pass of the loop body reads the specified tokens and resumes where specified |
| TaskParser.SkipComment | src/main/kotlin/cmu/s3d/ltl/samples2ltl/TaskParser.kt:241-244 | the inner loop stops at the end of the comment |
| TaskParser.ScanAtom | src/main/kotlin/cmu/s3d/ltl/samples2ltl/TaskParser.kt:253-260 | the inner loop stops at the end of the atom |
| TaskParser.TokensAreTokens | src/main/kotlin/cmu/s3d/ltl/samples2ltl/TaskParser.kt:234-265 | every token is a lone parenthesis or a non-empty run without whitespace and parentheses |
| TaskParser.Tokens | src/main/kotlin/cmu/s3d/ltl/samples2ltl/TaskParser.kt:234-265 | the token list of a text (no contract of its own); Tokenize computes it, and TokensAreTokens, CommentLineIsDropped and TokenizeUnwords state its properties |
| TaskParser.TokensFromShift | src/main/kotlin/cmu/s3d/ltl/samples2ltl/TaskParser.kt:234-265 | text before the reading position does not change the tokens read from there |
| TaskParser.CommentLineIsDropped | src/main/kotlin/cmu/s3d/ltl/samples2ltl/TaskParser.kt:241-244 | a `;` comment line contributes no tokens |
| TaskParser.TokenizeUnwords | src/main/kotlin/cmu/s3d/ltl/samples2ltl/TaskParser.kt:234-265 | tokens written out separated by spaces read back as the same tokens |
| TaskParser.ParseExpr | src/main/kotlin/cmu/s3d/ltl/samples2ltl/TaskParser.kt:267-296 | a successful read consumes at least one token and stays within the input |
| TaskParser.ParseElements | src/main/kotlin/cmu/s3d/ltl/samples2ltl/TaskParser.kt:273-291 | a list's elements end at a closing parenthesis |
| TaskParser.ParseExpression | src/main/kotlin/cmu/s3d/ltl/samples2ltl/TaskParser.kt:267-296 | the method with its element loop returns the specified expression, next index or error |
| TaskParser.ParseSExpressions | src/main/kotlin/cmu/s3d/ltl/samples2ltl/TaskParser.kt:220-232 | reading top-level expressions until the tokens run out gives the specified list or error |
| TaskParser.ElementsErrorIsUnmatched | src/main/kotlin/cmu/s3d/ltl/samples2ltl/TaskParser.kt:283-285 | every error inside a list is an unmatched opening parenthesis |
| TaskParser.ExprErrorInside | src/main/kotlin/cmu/s3d/ltl/samples2ltl/TaskParser.kt:267-296 | an expression not starting with `)` can only fail as an unmatched opening parenthesis |
| TaskParser.ParseExprErrors | src/main/kotlin/cmu/s3d/ltl/samples2ltl/TaskParser.kt:267-296 | end of input is reported exactly at the end, a stray `)` exactly at a `)`, and anything else as unmatched `(` |
| TaskParser.ParseFlatten | src/main/kotlin/cmu/s3d/ltl/samples2ltl/TaskParser.kt:267-296 | the tokens of an expression read back as that expression, ending right after it |
| TaskParser.ParseAllFlatten | src/main/kotlin/cmu/s3d/ltl/samples2ltl/TaskParser.kt:220-232 | the tokens of a list of expressions read back as that list |
| TaskParser.TruncatedListIsUnmatched | src/main/kotlin/cmu/s3d/ltl/samples2ltl/TaskParser.kt:283-285 | a list cut off before its closing parenthesis is reported as unmatched |
| TaskParser.TruncatedElementsAreUnmatched | src/main/kotlin/cmu/s3d/ltl/samples2ltl/TaskParser.kt:283-285 | list elements cut off before the closing parenthesis are reported as unmatched |
| TaskParser.ParsePrint | src/main/kotlin/cmu/s3d/ltl/samples2ltl/TaskParser.kt:220-296 | printing expressions and reading the text back gives the same expressions |
| TaskParser.AtomValuesOfAtoms | src/main/kotlin/cmu/s3d/ltl/samples2ltl/TaskParser.kt:199-204 | when every element is an atom, their values are kept one for one |
| TaskParser.PairConstantsOfAtoms | src/main/kotlin/cmu/s3d/ltl/samples2ltl/TaskParser.kt:174-182 | each `(name sort)` pair of atoms declares the constant with that name and sort, in order |
| TaskParser.AddFact | src/main/kotlin/cmu/s3d/ltl/samples2ltl/TaskParser.kt:186-204 | adding a fact appends its tuple to that name's list, creating it if needed, and leaves other names alone |
| TaskParser.DeclaredConstants | src/main/kotlin/cmu/s3d/ltl/samples2ltl/TaskParser.kt:174-182 | the loop over the pairs yields the specified constants |
| TaskParser.ParseModelContents | src/main/kotlin/cmu/s3d/ltl/samples2ltl/TaskParser.kt:165-218 | the loop over a model's forms yields the specified structure |
| TaskParser.ModelFactsByName | src/main/kotlin/cmu/s3d/ltl/samples2ltl/TaskParser.kt:165-218 | a relation or function name has facts exactly when some form gives it a tuple, and its list is those tuples in order |
| TaskParser.ModelOf | src/main/kotlin/cmu/s3d/ltl/samples2ltl/TaskParser.kt:165-218 | the structure of a model form (no contract of its own); ParseModelContents computes it and ModelFactsByName states which facts it holds |
| TaskParser.TaskFromForms | src/main/kotlin/cmu/s3d/ltl/samples2ltl/TaskParser.kt:95-163 | a task read from the text form has node limit 8, three quantifiers, nothing excluded, and correctly labelled positive and negative models |
| TaskParser.PartsLabels | src/main/kotlin/cmu/s3d/ltl/samples2ltl/TaskParser.kt:136-147 | `+` models are positive and all others negative |
| TaskParser.PartsOfAppend | src/main/kotlin/cmu/s3d/ltl/samples2ltl/TaskParser.kt:95-163 | the declarations of two lists of forms are those of each, concatenated in order |
| TaskParser.SkippedFormsAreIgnored | src/main/kotlin/cmu/s3d/ltl/samples2ltl/TaskParser.kt:95-163 | a form the reader does not recognise changes nothing |
| TaskParser.RelationForm | src/main/kotlin/cmu/s3d/ltl/samples2ltl/TaskParser.kt:118-126 | `(relation r s1 .. sn)` declares relation r over those sorts |
| TaskParser.ModelFormPolarity | src/main/kotlin/cmu/s3d/ltl/samples2ltl/TaskParser.kt:136-147 | `(model p body..)` declares the structure of its body, positive exactly when p is `+` |
| TaskParser.ParseFolFormat | src/main/kotlin/cmu/s3d/ltl/samples2ltl/TaskParser.kt:95-163 | the loop over the top-level forms yields the specified task or the reader's error |
| TaskParser.FolFormat | src/main/kotlin/cmu/s3d/ltl/samples2ltl/TaskParser.kt:95-163 | the text format reader (no contract of its own); ParseFolFormat computes it, and TaskFromForms, PartsLabels, RelationForm and ModelFormPolarity state what it reads |
| TaskParser.TrimKeepsFirst | src/main/kotlin/cmu/s3d/ltl/samples2ltl/TaskParser.kt:55 | trimming keeps a first character that is not whitespace |
| TaskParser.JsonFileName | src/main/kotlin/cmu/s3d/ltl/samples2ltl/TaskParser.kt:53-62 | a `.json` file name always selects the JSON decoder |
| TaskParser.ParseTask | src/main/kotlin/cmu/s3d/ltl/samples2ltl/TaskParser.kt:53-62 | the choice between the two formats (no contract of its own); JsonFileName and ParsePrintedTask state which reader each input gets |
| TaskParser.ParsePrintedTask | src/main/kotlin/cmu/s3d/ltl/samples2ltl/TaskParser.kt:53-163 | a printed task whose first form is a list reads back, by content, as the learning task those forms declare |
| TaskParser.CsvFields | src/main/kotlin/cmu/s3d/ltl/samples2ltl/TaskParser.kt:307-309 | the summary line splits into the five counts: positives, negatives, node limit, sorts, relations |
| TaskParser.CsvLine | src/main/kotlin/cmu/s3d/ltl/samples2ltl/TaskParser.kt:307-309 | the summary line (no contract of its own); CsvFields states that it splits back into its five counts |
| SampleReducer.Group | src/main/kotlin/cmu/s3d/ltl/learning/SampleReducer.kt:42 | the constants of one sort are constants of the input with that sort |
| SampleReducer.SortOrder | src/main/kotlin/cmu/s3d/ltl/learning/SampleReducer.kt:42 | `groupBy` keys: every constant's sort appears once |
| SampleReducer.GroupAppend | src/main/kotlin/cmu/s3d/ltl/learning/SampleReducer.kt:42 | grouping distributes over concatenation |
| SampleReducer.GroupAt | src/main/kotlin/cmu/s3d/ltl/learning/SampleReducer.kt:42-47 | a constant sits in its sort's group at its rank, followed by the later constants of that sort |
| SampleReducer.CreateCanonicalConstantMapping | src/main/kotlin/cmu/s3d/ltl/learning/SampleReducer.kt:37-51 | the nested loops build the specified mapping |
| SampleReducer.AssignGroupKeys | src/main/kotlin/cmu/s3d/ltl/learning/SampleReducer.kt:42-47 | after a group's pass the mapping holds the old names and exactly the group's names |
| SampleReducer.MappingForCanonical | src/main/kotlin/cmu/s3d/ltl/learning/SampleReducer.kt:37-51 | with distinct names, each constant maps to lowercase sort plus its rank within its sort |
| SampleReducer.CanonicalNameOfConstant | src/main/kotlin/cmu/s3d/ltl/learning/SampleReducer.kt:37-51 | the canonical name of each constant is its lower-cased sort and its index among the constants of that sort |
| SampleReducer.MappingForKeys | src/main/kotlin/cmu/s3d/ltl/learning/SampleReducer.kt:37-51 | only names of constants are mapped, and every constant of a visited sort is |
| SampleReducer.CanonicalMappingKeys | src/main/kotlin/cmu/s3d/ltl/learning/SampleReducer.kt:37-51 | a name is mapped exactly when some constant has it |
| SampleReducer.DistinctBy | src/main/kotlin/cmu/s3d/ltl/learning/SampleReducer.kt:62 | `distinctBy` never adds elements |
| SampleReducer.DistinctByKeepsFirsts | src/main/kotlin/cmu/s3d/ltl/learning/SampleReducer.kt:62 | `distinctBy` keeps exactly the first element of each key, in order: every key survives, and none twice |
| SampleReducer.DistinctByOfDistinct | src/main/kotlin/cmu/s3d/ltl/learning/SampleReducer.kt:62 | a list whose keys are already distinct is kept unchanged |
| SampleReducer.ReducedConstants | src/main/kotlin/cmu/s3d/ltl/learning/SampleReducer.kt:53-63 | the reduced constants are the first renamed constants of each key, with distinct keys, each coming from an input constant |
| SampleReducer.ReducedFacts | src/main/kotlin/cmu/s3d/ltl/learning/SampleReducer.kt:65-76 | the reduced facts have the same names, and each list is its renamed tuples without repeats |
| SampleReducer.ReduceStructure | src/main/kotlin/cmu/s3d/ltl/learning/SampleReducer.kt:21-35 | the reduction of one structure (no contract of its own); ReducedConstants, ReducedFacts and ReduceIsIdempotent state what it keeps |
| SampleReducer.ReduceExample | src/main/kotlin/cmu/s3d/ltl/learning/SampleReducer.kt:16-19 | the reduction of one example (no contract of its own); ReduceSamples states that it keeps the label |
| SampleReducer.NoFunctionFactsStayNone | src/main/kotlin/cmu/s3d/ltl/learning/SampleReducer.kt:83 | a structure without function facts keeps none |
| SampleReducer.UnmappedNamesUnchanged | src/main/kotlin/cmu/s3d/ltl/learning/SampleReducer.kt:71-73 | names the mapping lacks are left as they were |
| SampleReducer.ReduceSamples | src/main/kotlin/cmu/s3d/ltl/learning/SampleReducer.kt:10-14 | reduction keeps every example and its label, positives and negatives alike |
| SampleReducer.RankIncreases | src/main/kotlin/cmu/s3d/ltl/learning/SampleReducer.kt:42-47 | a later constant of the same sort has a larger index |
| SampleReducer.GroupSizeBySorts | src/main/kotlin/cmu/s3d/ltl/learning/SampleReducer.kt:42 | groups depend only on the sorts of the constants |
| SampleReducer.CanonicalNameInjective | src/main/kotlin/cmu/s3d/ltl/learning/SampleReducer.kt:44 | the same sort with two indices gives two different names |
| SampleReducer.CanonicalMappingOfCanonical | src/main/kotlin/cmu/s3d/ltl/learning/SampleReducer.kt:37-51 | constants already canonically named are mapped to themselves |
| SampleReducer.ConstantKeyInjective | src/main/kotlin/cmu/s3d/ltl/learning/SampleReducer.kt:62 | the key name + `_` + sort tells constants apart when sorts contain no `_` |
| SampleReducer.CanonicalKeyInjective | src/main/kotlin/cmu/s3d/ltl/learning/SampleReducer.kt:42-62 | the `distinctBy` key of a canonically renamed constant determines its sort and its index within the sort, whatever characters the sort holds |
| SampleReducer.FirstReductionOfConstants | src/main/kotlin/cmu/s3d/ltl/learning/SampleReducer.kt:53-63 | reducing distinctly named constants yields canonical names with distinct keys, whatever characters the sort names hold |
| SampleReducer.SecondReductionOfConstants | src/main/kotlin/cmu/s3d/ltl/learning/SampleReducer.kt:53-63 | reducing canonical constants with distinct keys changes nothing |
| SampleReducer.ReduceIsIdempotent | src/main/kotlin/cmu/s3d/ltl/learning/SampleReducer.kt:21-35 | reducing a reduced structure changes nothing, for every structure whose constant names are distinct |
| SampleReducer.ReducedStructureIsFixed | src/main/kotlin/cmu/s3d/ltl/learning/SampleReducer.kt:21-35 | a structure with canonical constants, distinct keys and repeat-free facts is its own reduction |
| SampleReducer.StructuresEquivalentIffSameSummary | src/main/kotlin/cmu/s3d/ltl/learning/SampleReducer.kt:104-124 | two structures are equivalent exactly when they have the same sort counts and the same sets of facts per name |
| SampleReducer.StructuresAreEquivalent | src/main/kotlin/cmu/s3d/ltl/learning/SampleReducer.kt:104-124 | the comparison of two reduced structures (no contract of its own); StructuresEquivalentIffSameSummary states what it compares |
| SampleReducer.EquivalentIffSameSummary | src/main/kotlin/cmu/s3d/ltl/learning/SampleReducer.kt:95-102 | examples of different labels are never equivalent; otherwise equivalence is equality of the reduced structures' summaries |
| SampleReducer.AreEquivalent | src/main/kotlin/cmu/s3d/ltl/learning/SampleReducer.kt:95-102 | the equivalence of examples (no contract of its own); EquivalentIffSameSummary and the reflexivity, symmetry and transitivity lemmas state its properties |
| SampleReducer.EquivalenceIsReflexive | src/main/kotlin/cmu/s3d/ltl/learning/SampleReducer.kt:95-124 | every example is equivalent to itself |
| SampleReducer.EquivalenceIsSymmetric | src/main/kotlin/cmu/s3d/ltl/learning/SampleReducer.kt:95-124 | equivalence is symmetric |
| SampleReducer.EquivalenceIsTransitive | src/main/kotlin/cmu/s3d/ltl/learning/SampleReducer.kt:95-124 | equivalence is transitive |
| SampleReducer.Kept | src/main/kotlin/cmu/s3d/ltl/learning/SampleReducer.kt:127-146 | the dedup pass never adds examples |
| SampleReducer.KeptStep | src/main/kotlin/cmu/s3d/ltl/learning/SampleReducer.kt:131-136 | each example is appended exactly when no kept example is equivalent to it |
| SampleReducer.KeptSeparated | src/main/kotlin/cmu/s3d/ltl/learning/SampleReducer.kt:127-146 | no two kept examples are equivalent |
| SampleReducer.KeptCover | src/main/kotlin/cmu/s3d/ltl/learning/SampleReducer.kt:127-146 | every input example has an equivalent kept example |
| SampleReducer.KeptFromInput | src/main/kotlin/cmu/s3d/ltl/learning/SampleReducer.kt:127-146 | every kept example is one of the input |
| SampleReducer.KeptAreFirsts | src/main/kotlin/cmu/s3d/ltl/learning/SampleReducer.kt:127-146 | for an equivalence, the kept examples are exactly the first of each class, in order |
| SampleReducer.NoneEquivalent | src/main/kotlin/cmu/s3d/ltl/learning/SampleReducer.kt:133 | the inner loop answers true exactly when no kept example is equivalent |
| SampleReducer.DedupExamples | src/main/kotlin/cmu/s3d/ltl/learning/SampleReducer.kt:131-136 | the loop keeps the specified survivors |
| SampleReducer.RemoveRedundantExamples | src/main/kotlin/cmu/s3d/ltl/learning/SampleReducer.kt:127-146 | both lists are deduplicated independently to their survivors |
| SampleReducer.SurvivorsProperties | src/main/kotlin/cmu/s3d/ltl/learning/SampleReducer.kt:127-146 | the survivors are no more than the input, pairwise inequivalent, cover every reduced input, and are the first of each class |
| SampleReducer.GetReductionStats | src/main/kotlin/cmu/s3d/ltl/learning/SampleReducer.kt:149-159 | the counts before and after deduplication, and a total reduction that is their difference and never negative |
| LearningSolution.KindName | src/main/kotlin/cmu/s3d/ltl/learning/LTLLearningSolution.kt:312 | a node's kind is the longest prefix of its label without `$` or superscript zero |
| LearningSolution.VariableSort | src/main/kotlin/cmu/s3d/ltl/learning/LTLLearningSolution.kt:213-222 | a quantifier's printed sort is never empty |
| LearningSolution.RemoveAllNoOccurrence | src/main/kotlin/cmu/s3d/ltl/learning/LTLLearningSolution.kt:157 | removing a word that does not occur changes nothing |
| LearningSolution.RemoveAllKeepsPrefix | src/main/kotlin/cmu/s3d/ltl/learning/LTLLearningSolution.kt:157 | a prefix in which the word does not start is kept as it is |
| LearningSolution.CleanLabel | src/main/kotlin/cmu/s3d/ltl/learning/LTLLearningSolution.kt:198 | cleaning `name$k` gives back the name |
| LearningSolution.CleanSymbolLabel | src/main/kotlin/cmu/s3d/ltl/learning/LTLLearningSolution.kt:157 | cleaning `nameRel$k` (or `Func`, `Sort`) gives back the name |
| LearningSolution.Clean | src/main/kotlin/cmu/s3d/ltl/learning/LTLLearningSolution.kt:198 | the label clean-up (no contract of its own); CleanLabel states that `name$k` gives back the name, and RemoveAllDeletesOnlyPattern and RemoveDollarDigitsDeletesOnlyRuns what it deletes |
| LearningSolution.VariableLabel | src/main/kotlin/cmu/s3d/ltl/learning/LTLLearningSolution.kt:202-211 | a bound variable labelled `V$k` prints as `v` |
| LearningSolution.BoundVariable | src/main/kotlin/cmu/s3d/ltl/learning/LTLLearningSolution.kt:202-211 | the printed bound variable (no contract of its own); VariableLabel states that `V$k` prints as `v` |
| LearningSolution.SortLabel | src/main/kotlin/cmu/s3d/ltl/learning/LTLLearningSolution.kt:213-222 | a sort labelled `nameSort$k` prints as its name |
| LearningSolution.MissingSortPrintsSort | src/main/kotlin/cmu/s3d/ltl/learning/LTLLearningSolution.kt:213-222 | a quantifier without a sort prints `Sort` |
| LearningSolution.OperatorGlyphs | src/main/kotlin/cmu/s3d/ltl/learning/LTLLearningSolution.kt:38-45 | each operator maps to its glyph with or without a numeric suffix, and no two operators share a glyph |
| LearningSolution.MappedOperator | src/main/kotlin/cmu/s3d/ltl/learning/LTLLearningSolution.kt:131-133 | `getMappedOperator`: the label without its trailing digits is looked up among the six operators; success exactly when it is one of them, with that operator's glyph, and otherwise the `Invalid operator: name` error; OperatorGlyphs and UnknownOperatorRejected state which names map to which glyph |
| LearningSolution.UnknownOperatorRejected | src/main/kotlin/cmu/s3d/ltl/learning/LTLLearningSolution.kt:131-133 | a name that is not one of the six operators is rejected with its message |
| LearningSolution.BuildTermString | src/main/kotlin/cmu/s3d/ltl/learning/LTLLearningSolution.kt:225-307 | the method prints a term as specified |
| LearningSolution.TermString | src/main/kotlin/cmu/s3d/ltl/learning/LTLLearningSolution.kt:225-307 | the term printer (no contract of its own); BuildTermString computes it |
| LearningSolution.BuildArguments | src/main/kotlin/cmu/s3d/ltl/learning/LTLLearningSolution.kt:271-287 | the loop collects the function's arguments up to the first missing index |
| LearningSolution.BuildAtomString | src/main/kotlin/cmu/s3d/ltl/learning/LTLLearningSolution.kt:153-200 | the method prints an atom as specified |
| LearningSolution.BuildAtomTerms | src/main/kotlin/cmu/s3d/ltl/learning/LTLLearningSolution.kt:176-187 | the loop collects the atom's terms up to the first missing index |
| LearningSolution.AtomArguments | src/main/kotlin/cmu/s3d/ltl/learning/LTLLearningSolution.kt:153-200 | an atom prints as its relation alone, or as the relation applied to arguments that split back into its terms |
| LearningSolution.AtomString | src/main/kotlin/cmu/s3d/ltl/learning/LTLLearningSolution.kt:153-200 | the atom printer (no contract of its own); BuildAtomString computes it and AtomArguments states its shape |
| LearningSolution.NodeAndChildren | src/main/kotlin/cmu/s3d/ltl/learning/LTLLearningSolution.kt:310-346 | a node's left child is the quantifier body, else the unary child or left operand; children rank below it |
| LearningSolution.ConnectiveIsMapped | src/main/kotlin/cmu/s3d/ltl/learning/LTLLearningSolution.kt:57-94 | the connectives `getFOL` spells out are those of the operator mapping |
| LearningSolution.PrintersAgree | src/main/kotlin/cmu/s3d/ltl/learning/LTLLearningSolution.kt:57-129 | `getFOL` and `getFOL2` print every node identically, errors included |
| LearningSolution.GetFOL | src/main/kotlin/cmu/s3d/ltl/learning/LTLLearningSolution.kt:57-94 | the printer that spells out connectives (no contract of its own); PrintersAgree and ConnectiveIsMapped state its output |
| LearningSolution.GetFOL2 | src/main/kotlin/cmu/s3d/ltl/learning/LTLLearningSolution.kt:96-129 | the printer with operator glyphs (no contract of its own); PrintSucceedsIffPrintable, PrintErrors and the Prints lemmas state its output |
| LearningSolution.Print | src/main/kotlin/cmu/s3d/ltl/learning/LTLLearningSolution.kt:52-55 | `getFOL2()` from the root (no contract of its own); ExamplePrints states its text for one instance |
| LearningSolution.PrintSucceedsIffPrintable | src/main/kotlin/cmu/s3d/ltl/learning/LTLLearningSolution.kt:96-129 | printing succeeds exactly on nodes whose subtree has valid shapes and operators |
| LearningSolution.PrintErrors | src/main/kotlin/cmu/s3d/ltl/learning/LTLLearningSolution.kt:96-133 | every failure is an invalid formula or an invalid operator |
| LearningSolution.RightWithoutLeftRejected | src/main/kotlin/cmu/s3d/ltl/learning/LTLLearningSolution.kt:120-127 | a node with a right operand and no left one is an invalid formula for both printers |
| LearningSolution.OperatorNodeKind | src/main/kotlin/cmu/s3d/ltl/learning/LTLLearningSolution.kt:57-59 | an operator node labelled `Kind$k` is of kind Kind and maps to its glyph |
| LearningSolution.PrintsBinary | src/main/kotlin/cmu/s3d/ltl/learning/LTLLearningSolution.kt:107-111 | a binary node prints as its operands around its glyph, in parentheses |
| LearningSolution.PrintsUnary | src/main/kotlin/cmu/s3d/ltl/learning/LTLLearningSolution.kt:114-117 | a unary node prints as its glyph before its child |
| LearningSolution.PrintsQuantifier | src/main/kotlin/cmu/s3d/ltl/learning/LTLLearningSolution.kt:101-104 | a quantifier prints as glyph, variable, `:`, sort, `. ` and body |
| LearningSolution.NextAsWrittenRepeatsLimit | src/main/kotlin/cmu/s3d/ltl/learning/LTLLearningSolution.kt:353-360 | as written, once the limit's instances are used up, `next` solves the limit again and returns its first instance |
| LearningSolution.NextMovesUp | src/main/kotlin/cmu/s3d/ltl/learning/LTLLearningSolution.kt:353-360 | corrected, `next` keeps the instance when there is another, stops at the limit, and otherwise moves to a larger satisfiable bound within the limit |
| LearningSolution.NextAsWritten | src/main/kotlin/cmu/s3d/ltl/learning/LTLLearningSolution.kt:353-360 | `next` as written (no contract of its own); NextAsWrittenRepeatsLimit states that it re-solves the limit |
| LearningSolution.Next | src/main/kotlin/cmu/s3d/ltl/learning/LTLLearningSolution.kt:353-360 | `next` corrected (no contract of its own); NextMovesUp states that it stays, stops, or moves strictly up within the limit |
| LearningSolution.ExamplePrints | src/main/kotlin/cmu/s3d/ltl/learning/LTLLearningSolution.kt:47-55 | an instance holding the nodes of `forall v0: Node. P(v0) and not Q(v0)` prints as `∀v0:Node. (P(v0) ∧ ¬Q(v0))` |

## Left out

- The JSON task format is not modelled: its decoder is a parameter of `TaskParser.ParseTask`.
- The calls into Alloy and Kodkod are not modelled. Whether a bound has an instance is the parameter `sat` of `Learner.Learn`. A found instance is two lookup tables in `LearningSolution`.
- The Alloy script text is modelled as its content, not its characters. This covers its fixed part and the sig declarations of relations and functions (`generateRelations`, `generateFunctions`). The scope bounds of the `run` command are left out.
- The custom constraint is modelled only as the default variable-terms-only restriction; a verbatim Alloy constraint is kept as text and not interpreted.
- `ReductionStats.reductionPercentage` is a floating-point ratio and is left out; `SampleReducer.GetReductionStats` states the integer counts.
- The command-line entry point, the `println` logging, `dumpInstance`, `debugFormulaStructure` and `buildLearner` are left out.
- The exception fallbacks of `buildAtomString`, `buildTermString` and `getBoundVariable` are left out: the table lookups of the model cannot throw.
- `isAtom` evaluates an Alloy expression; in the model it is a field of the node table.
- Semantics.WellFormed: treats an excluded operator as one the separator may not use. As written, excluding And, Or, Implies or Not drops that signature while the fixed facts `SyntacticRestrictions` and `AvoidDegenerateFormulas` (LTLLearner.kt:249-256) still name it, so the script does not resolve and `learn` fails when Alloy reads it. Only Forall and Exists can be excluded in practice. `Learner.Learn` has no outcome for that failure.
- Encoding.Encode: gives an outcome for inputs on which the script does not parse or resolve, so `learn` fails when Alloy reads the script (LTLLearner.kt:427). There are four such inputs:
  - A task with no sorts: LTLLearner.kt:277 declares no sort signature, and LTLLearner.kt:304 gives every element the undeclared `DefaultSortSort`.
  - An example with no constants: LTLLearner.kt:352 writes `elements = ` with nothing after it, while the model gives that example a structure with no elements.
  - A fact with no arguments, such as `(edge)`: TaskParser.kt:199-201 reads it as an empty tuple, and LTLLearner.kt:365-366 then write `some t: … | ` with an empty body.
  - A relation whose signature names an undeclared sort: LTLLearner.kt:313 writes a sort signature that no declaration provides.
  `Learner.Learn` has no outcome for these failures.
- Encoding.EnabledOperators: states which signatures are declared. That excluding And, Or, Implies or Not leaves the script unresolved is stated by `Encoding.ScriptResolvesIff`, not by this member.
- Encoding.Interpretation: is the interpretation Alloy's instance must have only when each relation's mapped facts are distinct (`Encoding.InterpretationPinned`). A repeated fact, or two unknown names that both become `E0`, makes the count line ask for more tuples than the tuple lines force (`Encoding.RepeatedTupleLeavesRoom`). The solver may then add arbitrary tuples, and the model does not capture those instances.
- Semantics.IsSeparator: is judged on the model's interpretation, so it matches the solver only under the proviso on `Encoding.Interpretation`.
- Semantics.ConflictingExamples: holds for the model's interpretation, under the same proviso.
- Strings.Lowercase: maps ASCII letters only; Kotlin's `lowercase` also folds non-ASCII letters.
- LearningSolution.NodeAndChildren: assumes the formula nodes are acyclic (the node part of the `Ranked` predicate), which the encoding's `FormulaStructure` fact (LTLLearner.kt:227-231) guarantees but the model does not derive from it.
- LearningSolution.TermString / BuildTermString: `TermsRanked` excludes cyclic function-term tables. No fact of the encoding keeps a function term from being its own argument; it can arise only when a custom constraint replaces `OnlyVarTerms` and the task declares functions. On such a table `buildTermString` recurses without bound until the stack overflows, which its `catch (e: Exception)` blocks do not catch, so the source never returns; the model does not describe that case.
- LearningSolution.ExamplePrints: states the printed text for any instance holding those nodes; it does not show that the solver produces such an instance.
- Semantics.SeparatorAtLargerScope: bounds only the node count; the other scope bounds of the `run` command are not modelled.

## Findings

| source | as written | input that shows it | evidently intended | confidence | as-written member | corrected member |
|---|---|---|---|---|---|---|
| src/main/kotlin/cmu/s3d/ltl/learning/LTLLearner.kt:188-195 | the atom clause asks for a term at every index of `Idx`, and `Idx` has as many indices as the largest arity | a unary relation `P` next to a binary `R`: `P(V0)` never holds, even in a structure where `P` holds of the element `V0` is bound to | an atom holds when the tuple its terms denote is one of its relation's tuples | medium, not executed | Semantics.UnaryAtomCounterexample | Semantics.FullWidthAtomsAgree |
| src/main/kotlin/cmu/s3d/ltl/learning/LTLLearningSolution.kt:353-360 | when no further instance exists, `next` calls `learn(numOfNode + stepSize)`, and `learn` always appends the node limit to its bounds | a solution at the node limit whose instances are used up: `next` solves the limit again and returns its first instance, so enumeration never ends | stop with no solution once the node limit is reached | high, not executed | LearningSolution.NextAsWrittenRepeatsLimit | LearningSolution.NextMovesUp |


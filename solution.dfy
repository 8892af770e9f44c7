/**
 * A learned separator and how it is printed (LTLLearningSolution.kt). The
 * solver's instance is abstracted as two lookup tables, one for formula
 * nodes and one for terms, keyed by the solver's atom labels (such as
 * `Forall$0` or `V1$0`); every field the printers read from the instance
 * is a field of a table entry. Printing is then a set of string functions
 * over the tables, and errors the source throws are `Err` results.
 */
module LearningSolution {
  import opened Strings
  import opened Common
  import opened Learner

  /** What the instance holds about one formula node: whether it is in
      `Atom`, the first atom of each of its fields, and for an atom the term
      at each index of the index ordering (`None` where that index has no
      term). The children of a node rank below it: the formula structure of
      the encoding is acyclic, and `rank` is a witness of that. */
  datatype FormulaNode = FormulaNode(
    rank: nat,
    isAtom: bool,
    body: Option<string>,
    child: Option<string>,
    left: Option<string>,
    right: Option<string>,
    relation: Option<string>,
    terms: seq<Option<string>>,
    boundVar: Option<string>,
    varSort: Option<string>)

  /** What the instance holds about one term: its variable, constant or
      function symbol and, for a function term, the argument at each index. */
  datatype TermNode = TermNode(
    rank: nat,
    variable: Option<string>,
    constant: Option<string>,
    func: Option<string>,
    args: seq<Option<string>>)

  /** A solver instance as the printers see it; `root` is the atom of
      `Separator.root`. */
  datatype Instance = Instance(nodes: map<string, FormulaNode>, termNodes: map<string, TermNode>, root: string)

  /** Every lookup on a label the instance does not have fails, and the
      printers treat a failed lookup as an absent field. */
  const NoNode := FormulaNode(0, false, None, None, None, None, None, [], None, None)
  const NoTerm := TermNode(0, None, None, None, [])

  function NodeOf(inst: Instance, id: string): FormulaNode {
    if id in inst.nodes then inst.nodes[id] else NoNode
  }

  function TermOf(inst: Instance, id: string): TermNode {
    if id in inst.termNodes then inst.termNodes[id] else NoTerm
  }

  function NodeRank(inst: Instance, id: string): nat {
    if id in inst.nodes then inst.nodes[id].rank + 1 else 0
  }

  function TermRank(inst: Instance, id: string): nat {
    if id in inst.termNodes then inst.termNodes[id].rank + 1 else 0
  }

  predicate Below(inst: Instance, c: Option<string>, id: string) {
    c.Some? ==> NodeRank(inst, c.value) < NodeRank(inst, id)
  }

  /** Every argument of a function term ranks below the term. No fact of
      the encoding guarantees this for function terms; on a cyclic term
      table `buildTermString` does not return. */
  predicate TermsRanked(inst: Instance) {
    forall id, k :: id in inst.termNodes && 0 <= k < |inst.termNodes[id].args| && inst.termNodes[id].args[k].Some? ==>
      TermRank(inst, inst.termNodes[id].args[k].value) < TermRank(inst, id)
  }

  /** Every child of a formula node ranks below the node, and the terms are
      ranked as well. */
  predicate Ranked(inst: Instance) {
    && TermsRanked(inst)
    && forall id :: id in inst.nodes ==>
         && Below(inst, inst.nodes[id].body, id)
         && Below(inst, inst.nodes[id].child, id)
         && Below(inst, inst.nodes[id].left, id)
         && Below(inst, inst.nodes[id].right, id)
  }

  // ----- Labels -----

  const Superscript0: char := '⁰'

  /** `getNodeAndChildren`: a node's kind is its label up to the first `$`
      or superscript zero. */
  function KindName(id: string): (name: string)
    ensures |name| <= |id| && id[..|name|] == name
    ensures '$' !in name && Superscript0 !in name
    ensures |name| == |id| || id[|name|] == '$' || id[|name|] == Superscript0
  {
    SplitFirst(id, {'$', Superscript0})
  }

  /** A solver label drops its superscript zeros, then every `$` with the
      digits after it. */
  function Clean(s: string): string {
    RemoveDollarDigits(RemoveAll(s, [Superscript0]))
  }

  /** `Rel`, `Func` or `Sort` removed, then the label cleaned. */
  function CleanWithout(s: string, word: string): string
    requires word != []
  {
    Clean(RemoveAll(s, word))
  }

  /** A bound variable's name: the cleaned label in lower case, or `x`
      when the node has none. */
  function BoundVariable(inst: Instance, id: string): string {
    match NodeOf(inst, id).boundVar
    case Some(v) => Lowercase(Clean(v))
    case None => "x"
  }

  /** A quantifier's sort: the label without `Sort`, cleaned, or `Sort`
      itself when nothing is left or the node has none. */
  function VariableSort(inst: Instance, id: string): (r: string)
    ensures r != []
  {
    var s := match NodeOf(inst, id).varSort case Some(v) => v case None => "Sort";
    var c := CleanWithout(s, "Sort");
    if c == [] then "Sort" else c
  }

  // ----- Label lemmas -----

  /** `p` starts at position `i` of `s`. */
  predicate OccursAt(s: string, p: string, i: nat) {
    i + |p| <= |s| && s[i..i + |p|] == p
  }

  lemma {:induction false} RemoveAllNoOccurrence(s: string, p: string)
    requires p != []
    requires forall i :: 0 <= i < |s| ==> !OccursAt(s, p, i)
    ensures RemoveAll(s, p) == s
    decreases |s|
  {
    if |s| >= |p| {
      assert !OccursAt(s, p, 0);
      assert s[..|p|] != p;
      forall i | 0 <= i < |s[1..]| ensures !OccursAt(s[1..], p, i) {
        ShiftOccurs(s, p, i);
      }
      RemoveAllNoOccurrence(s[1..], p);
      assert s == [s[0]] + s[1..];
    }
  }

  lemma ShiftOccurs(s: string, p: string, i: nat)
    requires s != [] && !OccursAt(s, p, i + 1)
    ensures !OccursAt(s[1..], p, i)
  {
    if i + |p| <= |s[1..]| {
      assert s[1..][i..i + |p|] == s[i + 1..i + 1 + |p|];
    }
  }

  /** Text before any occurrence of `p` is kept as it is. */
  lemma {:induction false} RemoveAllKeepsPrefix(a: string, b: string, p: string)
    requires p != []
    requires forall i :: 0 <= i < |a| ==> !OccursAt(a + b, p, i)
    ensures RemoveAll(a + b, p) == a + RemoveAll(b, p)
    decreases |a|
  {
    if a != [] {
      var s := a + b;
      assert !OccursAt(s, p, 0);
      assert s[1..] == a[1..] + b;
      forall i | 0 <= i < |a[1..]| ensures !OccursAt(a[1..] + b, p, i) {
        ShiftOccurs(s, p, i);
      }
      RemoveAllKeepsPrefix(a[1..], b, p);
      if |s| >= |p| {
        assert s[..|p|] != p;
        assert RemoveAll(s, p) == [s[0]] + RemoveAll(s[1..], p);
        assert s[0] == a[0];
        assert RemoveAll(s, p) == [a[0]] + (a[1..] + RemoveAll(b, p));
      } else {
        assert RemoveAll(s, p) == s;
        assert RemoveAll(b, p) == b;
      }
      assert a == [a[0]] + a[1..];
    } else {
      assert a + b == b;
    }
  }

  lemma {:induction false} RemoveAllLeading(b: string, p: string)
    requires p != []
    ensures RemoveAll(p + b, p) == RemoveAll(b, p)
  {
    assert (p + b)[..|p|] == p;
    assert (p + b)[|p|..] == b;
  }

  lemma {:induction false} RemoveDollarDigitsPlain(s: string)
    requires '$' !in s
    ensures RemoveDollarDigits(s) == s
    decreases |s|
  {
    if s != [] {
      RemoveDollarDigitsPlain(s[1..]);
      assert s == [s[0]] + s[1..];
    }
  }

  /** A `$` followed by digits at the end of a label without `$` goes. */
  lemma {:induction false} RemoveDollarDigitsSuffix(s: string, d: string)
    requires '$' !in s
    requires d != [] && forall k :: 0 <= k < |d| ==> IsDigit(d[k])
    ensures RemoveDollarDigits(s + "$" + d) == s
    decreases |s|
  {
    var t := s + "$" + d;
    if s == [] {
      assert t == "$" + d;
      assert t[1..] == d;
      assert DigitRun(d) == |d|;
      assert t[1 + |d|..] == [];
    } else {
      assert t[0] == s[0] && s[0] != '$';
      assert t[1..] == s[1..] + "$" + d;
      RemoveDollarDigitsSuffix(s[1..], d);
    }
  }

  lemma NatToStringDigits(n: nat)
    ensures NatToString(n) != []
    ensures forall k :: 0 <= k < |NatToString(n)| ==> IsDigit(NatToString(n)[k]) && NatToString(n)[k] != '$' && NatToString(n)[k] != Superscript0
  {
  }

  /** A label `name$k` cleans to `name` when the name has neither `$` nor a
      superscript zero. */
  lemma CleanLabel(name: string, k: nat)
    requires '$' !in name && Superscript0 !in name
    ensures Clean(name + "$" + NatToString(k)) == name
  {
    var d := NatToString(k);
    NatToStringDigits(k);
    var s := name + "$" + d;
    forall i | 0 <= i < |s| ensures !OccursAt(s, [Superscript0], i) {
      assert s[i..i + 1] == [s[i]];
      if i < |name| {
        assert s[i] == name[i];
      } else if i > |name| {
        assert s[i] == d[i - |name| - 1];
      }
    }
    RemoveAllNoOccurrence(s, [Superscript0]);
    RemoveDollarDigitsSuffix(name, d);
  }

  /** A marker word cannot start inside a `$`-and-digits tail. */
  lemma NoWordInTail(word: string, k: nat)
    requires word != [] && word[0] != '$' && !IsDigit(word[0])
    ensures RemoveAll("$" + NatToString(k), word) == "$" + NatToString(k)
  {
    var d := NatToString(k);
    NatToStringDigits(k);
    var tail := "$" + d;
    forall i | 0 <= i < |tail| ensures !OccursAt(tail, word, i) {
      if i + |word| <= |tail| {
        assert tail[i..i + |word|][0] == tail[i];
        if i > 0 {
          assert tail[i] == d[i - 1];
        }
      }
    }
    RemoveAllNoOccurrence(tail, word);
  }

  /** The labels the encoding gives relations (`PRel$0`), functions
      (`fFunc$0`) and sorts (`NodeSort$0`) clean back to the symbol's name,
      when the marker word does not also start inside the name. */
  lemma CleanSymbolLabel(name: string, word: string, k: nat)
    requires word != [] && word[0] != '$' && !IsDigit(word[0])
    requires '$' !in name && Superscript0 !in name
    requires forall i :: 0 <= i < |name| ==> !OccursAt(name + word, word, i)
    ensures CleanWithout(name + word + "$" + NatToString(k), word) == name
  {
    var tail := "$" + NatToString(k);
    assert name + word + "$" + NatToString(k) == name + (word + tail);
    forall i | 0 <= i < |name| ensures !OccursAt(name + (word + tail), word, i) {
      assert !OccursAt(name + word, word, i);
      if i + |word| <= |name + (word + tail)| {
        assert (name + (word + tail))[i..i + |word|] == (name + word)[i..i + |word|];
      }
    }
    RemoveAllKeepsPrefix(name, word + tail, word);
    RemoveAllLeading(tail, word);
    NoWordInTail(word, k);
    assert RemoveAll(name + (word + tail), word) == name + tail;
    assert name + tail == name + "$" + NatToString(k);
    CleanLabel(name, k);
  }

  /** Lowercasing a cleaned variable label gives the name the printers use
      for variable `Vi`: `vi`. */
  lemma VariableLabel(inst: Instance, id: string, name: string, k: nat)
    requires NodeOf(inst, id).boundVar == Some(name + "$" + NatToString(k))
    requires '$' !in name && Superscript0 !in name
    ensures BoundVariable(inst, id) == Lowercase(name)
  {
    CleanLabel(name, k);
  }

  /** A quantifier whose sort atom is `NodeSort$k` prints the sort `Node`. */
  lemma SortLabel(inst: Instance, id: string, name: string, k: nat)
    requires NodeOf(inst, id).varSort == Some(name + "Sort" + "$" + NatToString(k))
    requires name != [] && '$' !in name && Superscript0 !in name
    requires forall i :: 0 <= i < |name| ==> !OccursAt(name + "Sort", "Sort", i)
    ensures VariableSort(inst, id) == name
  {
    CleanSymbolLabel(name, "Sort", k);
  }

  /** A quantifier without a sort atom prints the sort `Sort`. */
  lemma MissingSortPrintsSort(inst: Instance, id: string)
    requires NodeOf(inst, id).varSort.None?
    ensures VariableSort(inst, id) == "Sort"
  {
    assert RemoveAll("Sort", "Sort") == [];
    assert RemoveAll([], [Superscript0]) == [];
  }

  // ----- Operators -----

  const OperatorSymbols: map<string, string> :=
    map["Forall" := "∀", "Exists" := "∃", "Not" := "¬", "And" := "∧", "Or" := "∨", "Implies" := "→"]

  /** `getMappedOperator`: the glyph of the operator named by the label
      without its trailing digits, or the error the source throws. */
  function MappedOperator(name: string): (r: Result<string, string>)
    ensures r.Ok? <==> StripTrailingDigits(name) in OperatorSymbols
    ensures r.Ok? ==> r.value == OperatorSymbols[StripTrailingDigits(name)]
    ensures r.Err? ==> r.error == "Invalid operator: " + name
  {
    var base := StripTrailingDigits(name);
    if base in OperatorSymbols then Ok(OperatorSymbols[base]) else Err("Invalid operator: " + name)
  }

  predicate IsQuantifier(name: string) {
    name == "Forall" || name == "Exists"
  }

  lemma {:induction false} TrailingDigitsOfSuffix(s: string, d: string)
    requires s == [] || !IsDigit(s[|s| - 1])
    requires forall k :: 0 <= k < |d| ==> IsDigit(d[k])
    ensures StripTrailingDigits(s + d) == s
    decreases |d|
  {
    if d == [] {
      assert s + d == s;
    } else {
      var t := s + d;
      assert t[..|t| - 1] == s + d[..|d| - 1];
      TrailingDigitsOfSuffix(s, d[..|d| - 1]);
    }
  }

  /** Each of the six operators, with or without a numeric suffix, maps to
      its glyph, and the glyphs are pairwise different, so the printed
      operator names the operator. */
  lemma OperatorGlyphs(op: string, k: nat)
    requires op in OperatorSymbols
    ensures MappedOperator(op) == MappedOperator(op + NatToString(k)) == Ok(OperatorSymbols[op])
    ensures forall other :: other in OperatorSymbols && OperatorSymbols[other] == OperatorSymbols[op] ==> other == op
  {
    assert op[|op| - 1] in "sltdrg";
    TrailingDigitsOfSuffix(op, []);
    assert op + [] == op;
    NatToStringDigits(k);
    TrailingDigitsOfSuffix(op, NatToString(k));
  }

  /** The kinds of the encoding's formula signatures all map, and names
      outside them are rejected with the name in the message. */
  lemma UnknownOperatorRejected(name: string)
    requires StripTrailingDigits(name) !in ["Forall", "Exists", "Not", "And", "Or", "Implies"]
    ensures MappedOperator(name) == Err("Invalid operator: " + name)
  {
  }

  // ----- Terms and atoms -----

  /** The entries before the first absent one: the index walk stops at the
      first index that has no term. */
  function LeadingSome(xs: seq<Option<string>>): (r: seq<string>)
    ensures |r| <= |xs|
    ensures forall k :: 0 <= k < |r| ==> xs[k] == Some(r[k])
    ensures |r| == |xs| || xs[|r|].None?
  {
    if xs == [] || xs[0].None? then [] else [xs[0].value] + LeadingSome(xs[1..])
  }

  function CleanFunction(f: string): string {
    CleanWithout(f, "Func")
  }

  function CleanRelation(r: string): string {
    CleanWithout(r, "Rel")
  }

  /** `buildTermString`: a variable prints as its lowercased name, a
      constant as its cleaned name, a function term as `f(a1,...,an)` over
      its arguments up to the first index without one, and anything else as
      its own cleaned label. */
  function TermString(inst: Instance, id: string): string
    requires TermsRanked(inst)
    decreases TermRank(inst, id)
  {
    var info := TermOf(inst, id);
    if info.variable.Some? then Lowercase(Clean(info.variable.value))
    else if info.constant.Some? then Clean(info.constant.value)
    else if info.func.Some? then
      var args := LeadingSome(info.args);
      CleanFunction(info.func.value) + "(" + JoinFields(seq(|args|, k requires 0 <= k < |args| => TermString(inst, args[k]))) + ")"
    else Clean(id)
  }

  /** The printed terms of a list of term atoms. */
  function TermStrings(inst: Instance, ids: seq<string>): (r: seq<string>)
    requires TermsRanked(inst)
    ensures |r| == |ids| && forall k :: 0 <= k < |ids| ==> r[k] == TermString(inst, ids[k])
  {
    seq(|ids|, k requires 0 <= k < |ids| => TermString(inst, ids[k]))
  }

  /** `buildAtomString`: the cleaned relation name (`R` when there is
      none), followed by the printed terms in index order in parentheses
      when there is at least one. */
  function AtomString(inst: Instance, id: string): string
    requires TermsRanked(inst)
  {
    var info := NodeOf(inst, id);
    var rel := if info.relation.Some? then CleanRelation(info.relation.value) else "R";
    var ts := TermStrings(inst, LeadingSome(info.terms));
    if ts == [] then rel else rel + "(" + JoinFields(ts) + ")"
  }

  /** The argument loop of `buildTermString`. */
  method BuildTermString(inst: Instance, id: string) returns (s: string)
    requires TermsRanked(inst)
    ensures s == TermString(inst, id)
    decreases TermRank(inst, id), 1
  {
    var info := TermOf(inst, id);
    if info.variable.Some? {
      s := Lowercase(Clean(info.variable.value));
    } else if info.constant.Some? {
      s := Clean(info.constant.value);
    } else if info.func.Some? {
      var argsList := BuildArguments(inst, id);
      s := CleanFunction(info.func.value) + "(" + JoinFields(argsList) + ")";
    } else {
      s := Clean(id);
    }
  }

  /** The argument loop of a function term: its arguments printed in index
      order, up to the first index without one. */
  method BuildArguments(inst: Instance, id: string) returns (argsList: seq<string>)
    requires TermsRanked(inst)
    ensures argsList == TermStrings(inst, LeadingSome(TermOf(inst, id).args))
    decreases TermRank(inst, id), 0
  {
    var info := TermOf(inst, id);
    argsList := [];
    var i := 0;
    while i < |info.args| && info.args[i].Some?
      invariant 0 <= i <= |info.args|
      invariant forall k :: 0 <= k < i ==> info.args[k].Some?
      invariant |argsList| == i
      invariant forall k :: 0 <= k < i ==> argsList[k] == TermString(inst, info.args[k].value)
    {
      var arg := BuildTermString(inst, info.args[i].value);
      argsList := argsList + [arg];
      i := i + 1;
    }
    assert |LeadingSome(info.args)| == i;
  }

  /** The index walk of `buildAtomString`: terms are printed in index order
      until the first index without one. */
  method BuildAtomString(inst: Instance, id: string) returns (s: string)
    requires TermsRanked(inst)
    ensures s == AtomString(inst, id)
  {
    var info := NodeOf(inst, id);
    var cleanRelation := if info.relation.Some? then CleanRelation(info.relation.value) else "R";
    var termsList := BuildAtomTerms(inst, info.terms);
    if termsList != [] {
      s := cleanRelation + "(" + JoinFields(termsList) + ")";
    } else {
      s := cleanRelation;
    }
  }

  method BuildAtomTerms(inst: Instance, terms: seq<Option<string>>) returns (termsList: seq<string>)
    requires TermsRanked(inst)
    ensures termsList == TermStrings(inst, LeadingSome(terms))
  {
    termsList := [];
    var i := 0;
    while i < |terms| && terms[i].Some?
      invariant 0 <= i <= |terms|
      invariant forall k :: 0 <= k < i ==> terms[k].Some?
      invariant |termsList| == i
      invariant forall k :: 0 <= k < i ==> termsList[k] == TermString(inst, terms[k].value)
    {
      var t := BuildTermString(inst, terms[i].value);
      termsList := termsList + [t];
      i := i + 1;
    }
    assert |LeadingSome(terms)| == i;
  }

  /** The text between an atom's parentheses splits at its commas into the
      printed terms, one per index before the first index without a term,
      provided no printed term holds a comma. */
  lemma AtomArguments(inst: Instance, id: string)
    requires TermsRanked(inst)
    requires CommaFree(TermStrings(inst, LeadingSome(NodeOf(inst, id).terms)))
    ensures var info := NodeOf(inst, id);
      var rel := if info.relation.Some? then CleanRelation(info.relation.value) else "R";
      var ts := TermStrings(inst, LeadingSome(info.terms));
      && |ts| == |LeadingSome(info.terms)|
      && (ts == [] ==> AtomString(inst, id) == rel)
      && (ts != [] ==> exists inner :: AtomString(inst, id) == rel + "(" + inner + ")" && Split(inner, ',') == ts)
  {
    var ts := TermStrings(inst, LeadingSome(NodeOf(inst, id).terms));
    if ts != [] {
      SplitJoin(ts);
    }
  }

  // ----- Printing a formula -----

  /** `getNodeAndChildren`: a node's kind and its children. A quantifier's
      first child is its body; any other node's is its `child` or, failing
      that, its `left`. */
  datatype Node = Node(name: string, left: Option<string>, right: Option<string>)

  function NodeAndChildren(inst: Instance, id: string): (n: Node)
    ensures Ranked(inst) ==> Below(inst, n.left, id) && Below(inst, n.right, id)
    ensures n.right == NodeOf(inst, id).right
    ensures n.left.None? <==> if IsQuantifier(KindName(id)) then NodeOf(inst, id).body.None?
                              else NodeOf(inst, id).child.None? && NodeOf(inst, id).left.None?
  {
    var info := NodeOf(inst, id);
    var name := KindName(id);
    var left := if IsQuantifier(name) then info.body else if info.child.Some? then info.child else info.left;
    Node(name, left, info.right)
  }

  const InvalidFormula := "Invalid FOL formula."

  /** A leaf prints as its atom when it is one, else as its kind name. */
  function Leaf(inst: Instance, id: string): string
    requires TermsRanked(inst)
  {
    if NodeOf(inst, id).isAtom then AtomString(inst, id) else KindName(id)
  }

  /** The binary case of `getFOL`. */
  function Connective(sigName: string, l: string, op: string, r: string): string {
    if sigName == "Implies" then "(" + l + " → " + r + ")"
    else if sigName == "And" then "(" + l + " ∧ " + r + ")"
    else if sigName == "Or" then "(" + l + " ∨ " + r + ")"
    else "(" + l + " " + op + " " + r + ")"
  }

  /** The spelled-out connectives are the mapped operators. */
  lemma ConnectiveIsMapped(sigName: string, l: string, r: string)
    requires MappedOperator(sigName).Ok?
    ensures Connective(sigName, l, MappedOperator(sigName).value, r) == "(" + l + " " + MappedOperator(sigName).value + " " + r + ")"
  {
    if sigName in ["Implies", "And", "Or"] {
      OperatorGlyphs(sigName, 0);
    }
  }

  /** `getFOL`: binary connectives named `Implies`, `And` and `Or` are
      spelled out with their glyphs, any other with the mapped operator. */
  function GetFOL(inst: Instance, id: string): Result<string, string>
    requires Ranked(inst)
    decreases NodeRank(inst, id)
  {
    var n := NodeAndChildren(inst, id);
    var sigName := StripTrailingDigits(n.name);
    if IsQuantifier(sigName) && n.left.Some? && n.right.None? then
      var op := MappedOperator(sigName);
      if op.Err? then op
      else
        var body := GetFOL(inst, n.left.value);
        if body.Err? then body
        else Ok(op.value + BoundVariable(inst, id) + ":" + VariableSort(inst, id) + ". " + body.value)
    else if n.left.Some? && n.right.Some? then
      var l := GetFOL(inst, n.left.value);
      if l.Err? then l
      else
        var r := GetFOL(inst, n.right.value);
        if r.Err? then r
        else
          var op := MappedOperator(sigName);
          if op.Err? then op else Ok(Connective(sigName, l.value, op.value, r.value))
    else if n.left.Some? then
      var c := GetFOL(inst, n.left.value);
      if c.Err? then c
      else
        var op := MappedOperator(sigName);
        if op.Err? then op else Ok(op.value + c.value)
    else if n.right.None? then Ok(Leaf(inst, id))
    else Err(InvalidFormula)
  }

  /** `getFOL2`: every binary connective with its mapped operator. */
  function GetFOL2(inst: Instance, id: string): Result<string, string>
    requires Ranked(inst)
    decreases NodeRank(inst, id)
  {
    var n := NodeAndChildren(inst, id);
    var sigName := StripTrailingDigits(n.name);
    if IsQuantifier(sigName) && n.left.Some? && n.right.None? then
      var op := MappedOperator(sigName);
      if op.Err? then op
      else
        var body := GetFOL2(inst, n.left.value);
        if body.Err? then body
        else Ok(op.value + BoundVariable(inst, id) + ":" + VariableSort(inst, id) + ". " + body.value)
    else if n.left.Some? && n.right.Some? then
      var l := GetFOL2(inst, n.left.value);
      if l.Err? then l
      else
        var r := GetFOL2(inst, n.right.value);
        if r.Err? then r
        else
          var op := MappedOperator(sigName);
          if op.Err? then op else Ok("(" + l.value + " " + op.value + " " + r.value + ")")
    else if n.left.Some? then
      var c := GetFOL2(inst, n.left.value);
      if c.Err? then c
      else
        var op := MappedOperator(sigName);
        if op.Err? then op else Ok(op.value + c.value)
    else if n.right.None? then Ok(Leaf(inst, id))
    else Err(InvalidFormula)
  }

  /** The printed separator, from the root. */
  function Print(inst: Instance): Result<string, string>
    requires Ranked(inst)
  {
    GetFOL2(inst, inst.root)
  }

  lemma StripTwice(s: string)
    ensures StripTrailingDigits(StripTrailingDigits(s)) == StripTrailingDigits(s)
  {
    var t := StripTrailingDigits(s);
    if t != [] {
      assert !IsDigit(t[|t| - 1]);
    }
    assert t[..|t|] == t;
  }

  /** The two printers agree on every node, errors included. */
  lemma {:induction false} PrintersAgree(inst: Instance, id: string)
    requires Ranked(inst)
    ensures GetFOL(inst, id) == GetFOL2(inst, id)
    decreases NodeRank(inst, id)
  {
    var n := NodeAndChildren(inst, id);
    var sigName := StripTrailingDigits(n.name);
    if n.left.Some? {
      PrintersAgree(inst, n.left.value);
    }
    if n.right.Some? {
      PrintersAgree(inst, n.right.value);
      if n.left.Some? {
        var l := GetFOL2(inst, n.left.value);
        var r := GetFOL2(inst, n.right.value);
        if l.Ok? && r.Ok? && MappedOperator(sigName).Ok? {
          ConnectiveIsMapped(sigName, l.value, r.value);
        }
      }
    }
  }

  /** A node whose kind names an operator and whose children have the shape
      that operator needs, all the way down: a leaf has no children, a
      quantifier a body, any other operator a first child and maybe a
      second. */
  predicate Printable(inst: Instance, id: string)
    requires Ranked(inst)
    decreases NodeRank(inst, id)
  {
    var n := NodeAndChildren(inst, id);
    var sigName := StripTrailingDigits(n.name);
    if n.left.Some? then
      && sigName in OperatorSymbols
      && Printable(inst, n.left.value)
      && (n.right.Some? ==> Printable(inst, n.right.value))
    else n.right.None?
  }

  /** `getFOL2` prints a node exactly when it is printable. */
  lemma {:induction false} PrintSucceedsIffPrintable(inst: Instance, id: string)
    requires Ranked(inst)
    ensures GetFOL2(inst, id).Ok? <==> Printable(inst, id)
    decreases NodeRank(inst, id)
  {
    var n := NodeAndChildren(inst, id);
    StripTwice(n.name);
    if n.left.Some? {
      PrintSucceedsIffPrintable(inst, n.left.value);
      if n.right.Some? {
        PrintSucceedsIffPrintable(inst, n.right.value);
      }
    }
  }

  /** When `getFOL2` fails, it is with the invalid-formula error or with an
      unknown operator. */
  lemma {:induction false} PrintErrors(inst: Instance, id: string)
    requires Ranked(inst)
    requires GetFOL2(inst, id).Err?
    ensures GetFOL2(inst, id).error == InvalidFormula || StartsWith(GetFOL2(inst, id).error, "Invalid operator: ")
    decreases NodeRank(inst, id)
  {
    var n := NodeAndChildren(inst, id);
    if n.left.Some? {
      if GetFOL2(inst, n.left.value).Err? {
        PrintErrors(inst, n.left.value);
      } else if n.right.Some? && GetFOL2(inst, n.right.value).Err? {
        PrintErrors(inst, n.right.value);
      } else {
        var e := "Invalid operator: " + StripTrailingDigits(n.name);
        assert GetFOL2(inst, id).error == e;
        assert e[..|"Invalid operator: "|] == "Invalid operator: ";
      }
    }
  }

  /** A node with a second child but no first one is rejected by both
      printers. */
  lemma RightWithoutLeftRejected(inst: Instance, id: string)
    requires Ranked(inst)
    requires NodeOf(inst, id).right.Some?
    requires NodeOf(inst, id).body.None? && NodeOf(inst, id).child.None? && NodeOf(inst, id).left.None?
    ensures GetFOL(inst, id) == GetFOL2(inst, id) == Err(InvalidFormula)
  {
  }

  /** A node labelled `kind$k` whose kind is an operator. */
  predicate OperatorNode(id: string, kind: string, k: nat) {
    && kind in OperatorSymbols
    && id == kind + "$" + NatToString(k)
  }

  lemma OperatorNodeKind(id: string, kind: string, k: nat)
    requires OperatorNode(id, kind, k)
    ensures KindName(id) == kind && StripTrailingDigits(kind) == kind
    ensures MappedOperator(kind) == Ok(OperatorSymbols[kind])
  {
    assert '$' !in kind && Superscript0 !in kind;
    KindOfLabel(kind, k);
    OperatorGlyphs(kind, 0);
    TrailingDigitsOfSuffix(kind, []);
    assert kind + [] == kind;
  }

  /** A binary node prints as its two children around the operator's glyph,
      in parentheses. */
  lemma PrintsBinary(inst: Instance, id: string, kind: string, k: nat)
    requires Ranked(inst) && OperatorNode(id, kind, k) && !IsQuantifier(kind)
    requires NodeOf(inst, id).child.None?
    requires NodeOf(inst, id).left.Some? && NodeOf(inst, id).right.Some?
    requires GetFOL2(inst, NodeOf(inst, id).left.value).Ok? && GetFOL2(inst, NodeOf(inst, id).right.value).Ok?
    ensures GetFOL2(inst, id) == Ok("(" + GetFOL2(inst, NodeOf(inst, id).left.value).value + " " + OperatorSymbols[kind] + " " +
                                    GetFOL2(inst, NodeOf(inst, id).right.value).value + ")")
  {
    OperatorNodeKind(id, kind, k);
  }

  /** A unary node prints as the operator's glyph right before its child. */
  lemma PrintsUnary(inst: Instance, id: string, kind: string, k: nat)
    requires Ranked(inst) && OperatorNode(id, kind, k) && !IsQuantifier(kind)
    requires NodeOf(inst, id).child.Some? && NodeOf(inst, id).right.None?
    requires GetFOL2(inst, NodeOf(inst, id).child.value).Ok?
    ensures GetFOL2(inst, id) == Ok(OperatorSymbols[kind] + GetFOL2(inst, NodeOf(inst, id).child.value).value)
  {
    OperatorNodeKind(id, kind, k);
  }

  /** A quantifier prints as its glyph, bound variable, `:`, sort, `. ` and
      body. */
  lemma PrintsQuantifier(inst: Instance, id: string, kind: string, k: nat)
    requires Ranked(inst) && OperatorNode(id, kind, k) && IsQuantifier(kind)
    requires NodeOf(inst, id).body.Some? && NodeOf(inst, id).right.None?
    requires GetFOL2(inst, NodeOf(inst, id).body.value).Ok?
    ensures GetFOL2(inst, id) == Ok(OperatorSymbols[kind] + BoundVariable(inst, id) + ":" + VariableSort(inst, id) + ". " +
                                    GetFOL2(inst, NodeOf(inst, id).body.value).value)
  {
    OperatorNodeKind(id, kind, k);
  }

  // ----- The next solution -----

  /** `next`: another instance at the same bound when the solver has one
      (`hasAlternative`), else `learn` again from `numOfNode + stepSize`,
      with `learn`'s default step of 2. */
  function NextAsWritten(task: FOLTask, current: LearnedBound, hasAlternative: bool, sat: int -> bool): Result<Option<LearnedBound>, LearnError> {
    if hasAlternative then Ok(Some(current))
    else LearnOutcome(task, Some(current.numOfNode + current.stepSize), 2, sat)
  }

  /** Once the instances at the node limit are used up, `next` as written
      solves the node limit again and hands back its first instance, so the
      enumeration never ends. */
  lemma NextAsWrittenRepeatsLimit(task: FOLTask, current: LearnedBound, sat: int -> bool)
    requires current.numOfNode == task.maxNumOfNode && current.stepSize > 0
    requires sat(task.maxNumOfNode)
    ensures NextAsWritten(task, current, false, sat) == Ok(Some(LearnedBound(task.maxNumOfNode, 2)))
  {
    var b := NodeBounds(current.numOfNode + current.stepSize, task.maxNumOfNode, 2);
    assert Progression(current.numOfNode + current.stepSize, task.maxNumOfNode, 2) == [];
    assert b == [task.maxNumOfNode];
  }

  /** `next` with the enumeration ending at the node limit: no further
      bound is tried once the current one is the limit. */
  function Next(task: FOLTask, current: LearnedBound, hasAlternative: bool, sat: int -> bool): Result<Option<LearnedBound>, LearnError> {
    if hasAlternative then Ok(Some(current))
    else if current.numOfNode >= task.maxNumOfNode then Ok(None)
    else LearnOutcome(task, Some(current.numOfNode + current.stepSize), 2, sat)
  }

  /** Every bound `learn` tries is at least the start or the node limit. */
  lemma NodeBoundsFrom(start: int, end: int, step: int)
    requires step > 0
    ensures forall k :: 0 <= k < |NodeBounds(start, end, step)| ==>
      start <= NodeBounds(start, end, step)[k] || NodeBounds(start, end, step)[k] == end
  {
  }

  /** Without an alternative at the current bound, `next` either stops at
      the node limit or moves to a strictly larger bound within it, the
      smallest satisfiable one `learn` schedules from there; otherwise it
      stays at the current bound. */
  lemma NextMovesUp(task: FOLTask, current: LearnedBound, hasAlternative: bool, sat: int -> bool)
    requires current.stepSize > 0
    ensures var r := Next(task, current, hasAlternative, sat);
      && r.Ok?
      && (hasAlternative ==> r.value == Some(current))
      && (!hasAlternative && current.numOfNode >= task.maxNumOfNode ==> r.value.None?)
      && (!hasAlternative && r.value.Some? ==>
            current.numOfNode < r.value.value.numOfNode <= task.maxNumOfNode && sat(r.value.value.numOfNode))
      && (!hasAlternative && current.numOfNode < task.maxNumOfNode ==> r == NextAsWritten(task, current, false, sat))
  {
    if !hasAlternative && current.numOfNode < task.maxNumOfNode {
      var start := current.numOfNode + current.stepSize;
      LearnFindsFirst(task, Some(start), 2, sat);
      NodeBoundsFrom(start, task.maxNumOfNode, 2);
    }
  }

  // ----- An example -----

  /** An atom over the variable term `VarTerm$0` at the first index. */
  function ExampleAtomNode(rel: string): FormulaNode {
    FormulaNode(1, true, None, None, None, None, Some(rel), [Some("VarTerm$0"), None], None, None)
  }

  /** The nodes of the separator `forall v0: Node. (P(v0) and not Q(v0))`
      with the solver's labels, as any instance that holds it has them. */
  predicate HoldsExample(inst: Instance) {
    && Ranked(inst)
    && inst.root == "Forall$0"
    && NodeOf(inst, "Forall$0") == FormulaNode(4, false, Some("And$0"), None, None, None, None, [], Some("V0$0"), Some("NodeSort$0"))
    && NodeOf(inst, "And$0") == FormulaNode(3, false, None, None, Some("Atom$0"), Some("Not$0"), None, [], None, None)
    && NodeOf(inst, "Not$0") == FormulaNode(2, false, None, Some("Atom$1"), None, None, None, [], None, None)
    && NodeOf(inst, "Atom$0") == ExampleAtomNode("PRel$0")
    && NodeOf(inst, "Atom$1") == ExampleAtomNode("QRel$0")
    && TermOf(inst, "VarTerm$0") == TermNode(0, Some("V0$0"), None, None, [])
  }

  lemma ExamplePrints(inst: Instance)
    requires HoldsExample(inst)
    ensures Print(inst) == Ok("∀v0:Node. (P(v0) ∧ ¬Q(v0))")
  {
    ExampleTerm(inst, "VarTerm$0");
    ExampleAtomP(inst, "Atom$0");
    ExampleAtomQ(inst, "Atom$1");
    ExampleNot(inst, "Atom$1", "Not$0");
    ExampleAnd(inst, "Atom$0", "Not$0", "And$0");
    ExampleQuantifier(inst, "And$0", "Forall$0");
  }

  lemma ExampleTerm(inst: Instance, t: string)
    requires HoldsExample(inst) && t == "VarTerm$0"
    ensures TermString(inst, t) == "v0"
  {
    ExampleVariableLabel("V0$0");
    CleanLabel("V0", 0);
  }

  lemma ExampleAtomP(inst: Instance, a0: string)
    requires HoldsExample(inst) && a0 == "Atom$0"
    requires TermString(inst, "VarTerm$0") == "v0"
    ensures GetFOL2(inst, a0) == Ok("P(v0)")
  {
    ExampleAtomLabel(a0, 0);
    ExampleAtomNames("PRel$0", "P", "P(v0)");
    ExampleAtom(inst, a0, "PRel$0", "P", 0);
  }

  lemma ExampleAtomQ(inst: Instance, a1: string)
    requires HoldsExample(inst) && a1 == "Atom$1"
    requires TermString(inst, "VarTerm$0") == "v0"
    ensures GetFOL2(inst, a1) == Ok("Q(v0)")
  {
    ExampleAtomLabel(a1, 1);
    ExampleAtomNames("QRel$0", "Q", "Q(v0)");
    ExampleAtom(inst, a1, "QRel$0", "Q", 1);
  }

  lemma ExampleNot(inst: Instance, a1: string, not: string)
    requires HoldsExample(inst) && a1 == "Atom$1" && not == "Not$0"
    requires GetFOL2(inst, a1) == Ok("Q(v0)")
    ensures GetFOL2(inst, not) == Ok("¬Q(v0)")
  {
    ExampleZeroLabel(not, "Not");
    assert NodeOf(inst, not).child == Some(a1);
    PrintsUnary(inst, not, "Not", 0);
    ExampleNotText("Q(v0)");
  }

  lemma ExampleAnd(inst: Instance, a0: string, not: string, and: string)
    requires HoldsExample(inst) && a0 == "Atom$0" && not == "Not$0" && and == "And$0"
    requires GetFOL2(inst, a0) == Ok("P(v0)") && GetFOL2(inst, not) == Ok("¬Q(v0)")
    ensures GetFOL2(inst, and) == Ok("(P(v0) ∧ ¬Q(v0))")
  {
    ExampleZeroLabel(and, "And");
    assert NodeOf(inst, and).left == Some(a0);
    assert NodeOf(inst, and).right == Some(not);
    PrintsBinary(inst, and, "And", 0);
    ExampleAndText("P(v0)", "¬Q(v0)");
  }

  lemma ExampleQuantifier(inst: Instance, and: string, all: string)
    requires HoldsExample(inst) && and == "And$0" && all == "Forall$0"
    requires GetFOL2(inst, and) == Ok("(P(v0) ∧ ¬Q(v0))")
    ensures GetFOL2(inst, all) == Ok("∀v0:Node. (P(v0) ∧ ¬Q(v0))")
  {
    ExampleBinding(inst, all);
    ExampleZeroLabel(all, "Forall");
    assert NodeOf(inst, all).body == Some(and);
    PrintsQuantifier(inst, all, "Forall", 0);
    ExampleForallText("(P(v0) ∧ ¬Q(v0))");
  }

  lemma ExampleBinding(inst: Instance, all: string)
    requires HoldsExample(inst) && all == "Forall$0"
    ensures BoundVariable(inst, all) == "v0" && VariableSort(inst, all) == "Node"
  {
    var info := NodeOf(inst, all);
    assert info.boundVar == Some("V0$0");
    ExampleVariableLabel("V0$0");
    VariableLabel(inst, all, "V0", 0);
    assert info.varSort == Some("NodeSort$0");
    ExampleSortLabel("NodeSort$0");
    SortLabel(inst, all, "Node", 0);
  }

  // The labels and texts of the example, taken apart one at a time.

  lemma ExampleZeroLabel(id: string, kind: string)
    requires (id == "Not$0" && kind == "Not") || (id == "And$0" && kind == "And") ||
             (id == "Forall$0" && kind == "Forall")
    ensures OperatorNode(id, kind, 0)
  {
    assert NatToString(0) == "0";
  }

  lemma ExampleAtomLabel(id: string, k: nat)
    requires (id == "Atom$0" && k == 0) || (id == "Atom$1" && k == 1)
    ensures id == "Atom" + "$" + NatToString(k)
  {
    assert NatToString(0) == "0" && NatToString(1) == "1";
  }

  lemma ExampleAtomNames(r: string, name: string, text: string)
    requires (r == "PRel$0" && name == "P" && text == "P(v0)") || (r == "QRel$0" && name == "Q" && text == "Q(v0)")
    ensures r == name + "Rel$0" && text == name + "(v0)"
    ensures '$' !in name && Superscript0 !in name && |name| == 1
  {
  }

  lemma ExampleVariableLabel(v: string)
    requires v == "V0$0"
    ensures v == "V0" + "$" + NatToString(0) && Lowercase("V0") == "v0"
  {
    assert NatToString(0) == "0";
  }

  lemma ExampleSortLabel(v: string)
    requires v == "NodeSort$0"
    ensures v == "Node" + "Sort" + "$" + NatToString(0)
    ensures forall i :: 0 <= i < |"Node"| ==> !OccursAt("Node" + "Sort", "Sort", i)
  {
    assert NatToString(0) == "0";
    var s := "Node" + "Sort";
    assert s == "NodeSort";
    forall i | 0 <= i < |"Node"|
      ensures !OccursAt(s, "Sort", i)
    {
      assert s[i] in "Node";
      FirstCharDiffers(s, "Sort", i);
    }
  }

  lemma FirstCharDiffers(s: string, p: string, i: nat)
    requires p != [] && i < |s| && s[i] != p[0]
    ensures !OccursAt(s, p, i)
  {
    if i + |p| <= |s| {
      assert s[i..i + |p|][0] == s[i];
    }
  }

  lemma ExampleNotText(q: string)
    requires q == "Q(v0)"
    ensures OperatorSymbols["Not"] + q == "¬Q(v0)"
  {
  }

  lemma ExampleAndText(p: string, q: string)
    requires p == "P(v0)" && q == "¬Q(v0)"
    ensures "(" + p + " " + OperatorSymbols["And"] + " " + q + ")" == "(P(v0) ∧ ¬Q(v0))"
  {
  }

  lemma ExampleForallText(body: string)
    requires body == "(P(v0) ∧ ¬Q(v0))"
    ensures OperatorSymbols["Forall"] + "v0" + ":" + "Node" + ". " + body == "∀v0:Node. (P(v0) ∧ ¬Q(v0))"
  {
  }

  /** The label of a node of kind `kind`. */
  lemma KindOfLabel(kind: string, k: nat)
    requires '$' !in kind && Superscript0 !in kind
    ensures KindName(kind + "$" + NatToString(k)) == kind
  {
    var id := kind + "$" + NatToString(k);
    assert id[|kind|] == '$';
    assert id[..|kind|] == kind;
    assert FirstOf(id, {'$', Superscript0}) == |kind|;
  }

  lemma ExampleAtom(inst: Instance, id: string, relId: string, rel: string, k: nat)
    requires Ranked(inst)
    requires id == "Atom" + "$" + NatToString(k)
    requires relId == rel + "Rel$0" && NodeOf(inst, id) == ExampleAtomNode(relId)
    requires '$' !in rel && Superscript0 !in rel && |rel| == 1
    requires TermString(inst, "VarTerm$0") == "v0"
    ensures GetFOL2(inst, id) == Ok(rel + "(v0)")
  {
    ExampleAtomString(inst, id, rel);
    KindOfLabel("Atom", k);
    var n := NodeAndChildren(inst, id);
    assert n.left.None? && n.right.None?;
  }

  lemma ExampleAtomString(inst: Instance, id: string, rel: string)
    requires TermsRanked(inst)
    requires NodeOf(inst, id) == ExampleAtomNode(rel + "Rel$0")
    requires '$' !in rel && Superscript0 !in rel && |rel| == 1
    requires TermString(inst, "VarTerm$0") == "v0"
    ensures AtomString(inst, id) == rel + "(v0)"
  {
    ExampleRelation(rel);
    ExampleAtomArguments(inst, NodeOf(inst, id).terms);
    ExampleParenthesised(rel, "v0");
  }

  lemma ExampleAtomArguments(inst: Instance, terms: seq<Option<string>>)
    requires TermsRanked(inst) && terms == [Some("VarTerm$0"), None]
    requires TermString(inst, "VarTerm$0") == "v0"
    ensures JoinFields(TermStrings(inst, LeadingSome(terms))) == "v0"
  {
    assert LeadingSome(terms[1..]) == [];
    assert LeadingSome(terms) == ["VarTerm$0"];
  }

  lemma ExampleParenthesised(rel: string, v: string)
    requires v == "v0"
    ensures rel + "(" + v + ")" == rel + "(v0)"
  {
  }

  lemma ExampleRelation(rel: string)
    requires '$' !in rel && Superscript0 !in rel && |rel| == 1
    ensures CleanRelation(rel + "Rel$0") == rel
  {
    assert NatToString(0) == "0";
    assert rel + "Rel$0" == rel + "Rel" + "$" + NatToString(0);
    assert !OccursAt(rel + "Rel", "Rel", 0) by {
      assert (rel + "Rel")[1] == 'R';
      assert "Rel"[1] == 'e';
    }
    CleanSymbolLabel(rel, "Rel", 0);
  }
}

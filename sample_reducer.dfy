/**
 * The example reducer (SampleReducer.kt): the constants of every example are
 * renamed canonically per sort, fact tuples are renamed and deduplicated, and
 * examples equal up to that renaming are dropped.
 */
module SampleReducer {
  import opened Common
  import opened Strings

  // ---------------------------------------------------------------------
  // Grouping constants by sort
  // ---------------------------------------------------------------------

  /** `groupBy { it.sort }[s]`: the constants of sort `s`, in input order. */
  function Group(cs: seq<FOLConstant>, s: string): (g: seq<FOLConstant>)
    ensures |g| <= |cs|
    ensures forall c :: c in g ==> c in cs && c.sort == s
  {
    if cs == [] then []
    else Group(cs[..|cs| - 1], s) + (if cs[|cs| - 1].sort == s then [cs[|cs| - 1]] else [])
  }

  /** The 0-based position of `cs[k]` among the constants of its sort. */
  function Rank(cs: seq<FOLConstant>, k: nat): nat
    requires k < |cs|
  {
    |Group(cs[..k], cs[k].sort)|
  }

  /** The sorts in order of first appearance: the key order of `groupBy`. */
  function SortOrder(cs: seq<FOLConstant>): (r: seq<string>)
    ensures forall k :: 0 <= k < |cs| ==> cs[k].sort in r
    ensures forall i, j :: 0 <= i < j < |r| ==> r[i] != r[j]
  {
    if cs == [] then []
    else
      var p := SortOrder(cs[..|cs| - 1]);
      assert forall k :: 0 <= k < |cs| - 1 ==> cs[..|cs| - 1][k] == cs[k];
      if cs[|cs| - 1].sort in p then p else p + [cs[|cs| - 1].sort]
  }

  lemma {:induction false} GroupAppend(xs: seq<FOLConstant>, ys: seq<FOLConstant>, s: string)
    ensures Group(xs + ys, s) == Group(xs, s) + Group(ys, s)
    decreases |ys|
  {
    if ys == [] {
      assert xs + ys == xs;
    } else {
      assert (xs + ys)[..|xs + ys| - 1] == xs + ys[..|ys| - 1];
      GroupAppend(xs, ys[..|ys| - 1], s);
    }
  }

  /** `cs[k]` sits at its rank in the group of its sort, and every later
      member of that group comes from after position `k`. */
  lemma GroupAt(cs: seq<FOLConstant>, k: nat)
    requires k < |cs|
    ensures Rank(cs, k) < |Group(cs, cs[k].sort)|
    ensures Group(cs, cs[k].sort)[Rank(cs, k)] == cs[k]
    ensures Group(cs, cs[k].sort)[Rank(cs, k) + 1..] == Group(cs[k + 1..], cs[k].sort)
  {
    var s := cs[k].sort;
    assert cs == cs[..k + 1] + cs[k + 1..];
    GroupAppend(cs[..k + 1], cs[k + 1..], s);
    assert cs[..k + 1][..k] == cs[..k];
    assert Group(cs[..k + 1], s) == Group(cs[..k], s) + [cs[k]];
  }

  // ---------------------------------------------------------------------
  // The canonical mapping
  // ---------------------------------------------------------------------

  function CanonicalName(s: string, i: nat): string {
    Lowercase(s) + NatToString(i)
  }

  /** One pass over the constants `g` of sort `s`: the i-th is mapped to
      `lowercase(s) + i`, overwriting an earlier entry for the same name. */
  function AssignGroup(m: map<string, string>, s: string, g: seq<FOLConstant>): map<string, string> {
    if g == [] then m
    else AssignGroup(m, s, g[..|g| - 1])[g[|g| - 1].name := CanonicalName(s, |g| - 1)]
  }

  /** The passes over the groups of `sorts`, in that order. */
  function MappingFor(cs: seq<FOLConstant>, sorts: seq<string>): map<string, string> {
    if sorts == [] then map[]
    else AssignGroup(MappingFor(cs, sorts[..|sorts| - 1]), sorts[|sorts| - 1], Group(cs, sorts[|sorts| - 1]))
  }

  function CanonicalMapping(cs: seq<FOLConstant>): map<string, string> {
    MappingFor(cs, SortOrder(cs))
  }

  /** Walks the groups in first-appearance order and, within each, the
      constants by index, recording `lowercase(sort) + index` for each name. */
  method CreateCanonicalConstantMapping(constants: seq<FOLConstant>) returns (mapping: map<string, string>)
    ensures mapping == CanonicalMapping(constants)
  {
    mapping := map[];
    var sortCounters: map<string, int> := map[];
    var sorts := SortOrder(constants);
    for t := 0 to |sorts|
      invariant mapping == MappingFor(constants, sorts[..t])
    {
      var sort := sorts[t];
      var constantsOfSort := Group(constants, sort);
      assert sorts[..t + 1][..t] == sorts[..t];
      for index := 0 to |constantsOfSort|
        invariant mapping == AssignGroup(MappingFor(constants, sorts[..t]), sort, constantsOfSort[..index])
      {
        assert constantsOfSort[..index + 1][..index] == constantsOfSort[..index];
        mapping := mapping[constantsOfSort[index].name := Lowercase(sort) + NatToString(index)];
        sortCounters := sortCounters[sort := index + 1];
      }
      assert constantsOfSort[..|constantsOfSort|] == constantsOfSort;
    }
    assert sorts[..|sorts|] == sorts;
  }

  lemma {:induction false} AssignGroupKeys(m: map<string, string>, s: string, g: seq<FOLConstant>, x: string)
    ensures x in AssignGroup(m, s, g) <==> x in m || exists i :: 0 <= i < |g| && g[i].name == x
  {
    if g != [] {
      AssignGroupKeys(m, s, g[..|g| - 1], x);
      assert forall i :: 0 <= i < |g| - 1 ==> g[..|g| - 1][i] == g[i];
    }
  }

  lemma {:induction false} AssignGroupUntouched(m: map<string, string>, s: string, g: seq<FOLConstant>, x: string)
    requires x in m
    requires forall i :: 0 <= i < |g| ==> g[i].name != x
    ensures x in AssignGroup(m, s, g) && AssignGroup(m, s, g)[x] == m[x]
  {
    if g != [] {
      AssignGroupUntouched(m, s, g[..|g| - 1], x);
    }
  }

  /** The value a name gets is set by its last occurrence in the group. */
  lemma {:induction false} AssignGroupLast(m: map<string, string>, s: string, g: seq<FOLConstant>, i: nat)
    requires i < |g|
    requires forall j :: i < j < |g| ==> g[j].name != g[i].name
    ensures g[i].name in AssignGroup(m, s, g) && AssignGroup(m, s, g)[g[i].name] == CanonicalName(s, i)
  {
    if i < |g| - 1 {
      AssignGroupLast(m, s, g[..|g| - 1], i);
    }
  }

  predicate DistinctNames(cs: seq<FOLConstant>) {
    forall i, j :: 0 <= i < j < |cs| ==> cs[i].name != cs[j].name
  }

  lemma {:induction false} MappingForCanonical(cs: seq<FOLConstant>, sorts: seq<string>, k: nat)
    requires k < |cs| && DistinctNames(cs) && cs[k].sort in sorts
    ensures cs[k].name in MappingFor(cs, sorts)
    ensures MappingFor(cs, sorts)[cs[k].name] == CanonicalName(cs[k].sort, Rank(cs, k))
  {
    var last := sorts[|sorts| - 1];
    var g := Group(cs, last);
    var prev := MappingFor(cs, sorts[..|sorts| - 1]);
    if last == cs[k].sort {
      GroupAt(cs, k);
      LaterInGroupDiffer(cs, k);
      AssignGroupLast(prev, last, g, Rank(cs, k));
    } else {
      MappingForCanonical(cs, sorts[..|sorts| - 1], k);
      OtherGroupDiffers(cs, k, last);
      AssignGroupUntouched(prev, last, g, cs[k].name);
    }
  }

  /** No constant after `cs[k]` in its group shares its name. */
  lemma LaterInGroupDiffer(cs: seq<FOLConstant>, k: nat)
    requires k < |cs| && DistinctNames(cs)
    ensures Rank(cs, k) < |Group(cs, cs[k].sort)|
    ensures forall j :: Rank(cs, k) < j < |Group(cs, cs[k].sort)| ==>
      Group(cs, cs[k].sort)[j].name != Group(cs, cs[k].sort)[Rank(cs, k)].name
  {
    var g := Group(cs, cs[k].sort);
    var r := Rank(cs, k);
    GroupAt(cs, k);
    forall j | r < j < |g|
      ensures g[j].name != g[r].name
    {
      assert g[j] == Group(cs[k + 1..], cs[k].sort)[j - r - 1];
      assert g[j] in cs[k + 1..];
      var q :| 0 <= q < |cs[k + 1..]| && cs[k + 1..][q] == g[j];
      assert cs[k + 1 + q] == g[j];
    }
  }

  /** No constant of another sort shares the name of `cs[k]`. */
  lemma OtherGroupDiffers(cs: seq<FOLConstant>, k: nat, s: string)
    requires k < |cs| && DistinctNames(cs) && s != cs[k].sort
    ensures forall i :: 0 <= i < |Group(cs, s)| ==> Group(cs, s)[i].name != cs[k].name
  {
    var g := Group(cs, s);
    forall i | 0 <= i < |g|
      ensures g[i].name != cs[k].name
    {
      assert g[i] in g;
      var q :| 0 <= q < |cs| && cs[q] == g[i];
      assert q != k;
    }
  }

  /** When the constant names are distinct, each constant is mapped to
      `lowercase(sort)` followed by its position among the constants of its
      sort. */
  lemma CanonicalNameOfConstant(cs: seq<FOLConstant>, k: nat)
    requires k < |cs| && DistinctNames(cs)
    ensures cs[k].name in CanonicalMapping(cs)
    ensures CanonicalMapping(cs)[cs[k].name] == Lowercase(cs[k].sort) + NatToString(Rank(cs, k))
  {
    MappingForCanonical(cs, SortOrder(cs), k);
  }

  lemma {:induction false} MappingForKeys(cs: seq<FOLConstant>, sorts: seq<string>, x: string)
    ensures x in MappingFor(cs, sorts) ==> exists k :: 0 <= k < |cs| && cs[k].name == x
    ensures forall k :: 0 <= k < |cs| && cs[k].name == x && cs[k].sort in sorts ==> x in MappingFor(cs, sorts)
  {
    if sorts != [] {
      var last := sorts[|sorts| - 1];
      var g := Group(cs, last);
      var prev := MappingFor(cs, sorts[..|sorts| - 1]);
      MappingForKeys(cs, sorts[..|sorts| - 1], x);
      AssignGroupKeys(prev, last, g, x);
      if x in MappingFor(cs, sorts) && x !in prev {
        var i :| 0 <= i < |g| && g[i].name == x;
        assert g[i] in g;
      }
      forall k | 0 <= k < |cs| && cs[k].name == x && cs[k].sort in sorts
        ensures x in MappingFor(cs, sorts)
      {
        if cs[k].sort == last {
          GroupAt(cs, k);
        }
      }
    }
  }

  /** The mapping has an entry for exactly the names of the constants. */
  lemma CanonicalMappingKeys(cs: seq<FOLConstant>, x: string)
    ensures x in CanonicalMapping(cs) <==> exists k :: 0 <= k < |cs| && cs[k].name == x
  {
    MappingForKeys(cs, SortOrder(cs), x);
  }

  // ---------------------------------------------------------------------
  // First occurrences by key
  // ---------------------------------------------------------------------

  function KeySet<T, K(==)>(xs: seq<T>, key: T -> K): set<K> {
    set j | 0 <= j < |xs| :: key(xs[j])
  }

  /** Kotlin's `distinctBy(key)`: an element is kept when no earlier kept
      element has its key. */
  function DistinctBy<T, K(==)>(xs: seq<T>, key: T -> K): (r: seq<T>)
    ensures |r| <= |xs|
  {
    if xs == [] then []
    else
      var p := DistinctBy(xs[..|xs| - 1], key);
      if key(xs[|xs| - 1]) in KeySet(p, key) then p else p + [xs[|xs| - 1]]
  }

  /** `xs[k]` is the first element with its key. */
  predicate FirstWithKey<T, K(==)>(xs: seq<T>, key: T -> K, k: nat)
    requires k < |xs|
  {
    forall j :: 0 <= j < k ==> key(xs[j]) != key(xs[k])
  }

  /** The elements that come first with their key, in input order. */
  function FirstsWithKey<T, K(==)>(xs: seq<T>, key: T -> K): seq<T> {
    if xs == [] then []
    else FirstsWithKey(xs[..|xs| - 1], key) + (if FirstWithKey(xs, key, |xs| - 1) then [xs[|xs| - 1]] else [])
  }

  predicate DistinctKeys<T, K(==)>(xs: seq<T>, key: T -> K) {
    forall i, j :: 0 <= i < j < |xs| ==> key(xs[i]) != key(xs[j])
  }

  lemma KeySetSnoc<T, K>(xs: seq<T>, x: T, key: T -> K)
    ensures KeySet(xs + [x], key) == KeySet(xs, key) + {key(x)}
  {
    var l, r := KeySet(xs + [x], key), KeySet(xs, key) + {key(x)};
    forall y | y in l ensures y in r {
      var j :| 0 <= j < |xs| + 1 && key((xs + [x])[j]) == y;
      if j < |xs| {
        assert key(xs[j]) in KeySet(xs, key);
      }
    }
    forall y | y in r ensures y in l {
      if y == key(x) {
        assert key((xs + [x])[|xs|]) in l;
      } else {
        var j :| 0 <= j < |xs| && key(xs[j]) == y;
        assert key((xs + [x])[j]) in l;
      }
    }
  }

  /** `distinctBy` keeps exactly the first element of every key, in order,
      loses no key, and leaves no two elements with one key. */
  lemma {:induction false} DistinctByKeepsFirsts<T, K>(xs: seq<T>, key: T -> K)
    ensures DistinctBy(xs, key) == FirstsWithKey(xs, key)
    ensures KeySet(DistinctBy(xs, key), key) == KeySet(xs, key)
    ensures DistinctKeys(DistinctBy(xs, key), key)
  {
    if xs != [] {
      var pre, x := xs[..|xs| - 1], xs[|xs| - 1];
      assert xs == pre + [x];
      DistinctByKeepsFirsts(pre, key);
      KeySetSnoc(pre, x, key);
      var p := DistinctBy(pre, key);
      KeySetSnoc(p, x, key);
      if key(x) in KeySet(pre, key) {
        var j :| 0 <= j < |pre| && key(pre[j]) == key(x);
        assert key(xs[j]) == key(xs[|xs| - 1]);
      } else {
        forall j | 0 <= j < |xs| - 1 ensures key(xs[j]) != key(xs[|xs| - 1]) {
          assert xs[j] == pre[j];
          assert key(pre[j]) in KeySet(pre, key);
        }
        forall i | 0 <= i < |p| ensures key(p[i]) != key(x) {
          assert key(p[i]) in KeySet(p, key);
        }
      }
    }
  }

  /** On a list whose keys are already distinct, `distinctBy` changes nothing. */
  lemma {:induction false} DistinctByOfDistinct<T, K>(xs: seq<T>, key: T -> K)
    requires DistinctKeys(xs, key)
    ensures DistinctBy(xs, key) == xs
  {
    if xs != [] {
      var pre := xs[..|xs| - 1];
      DistinctByOfDistinct(pre, key);
      forall j | 0 <= j < |pre| ensures key(pre[j]) != key(xs[|xs| - 1]) {
        assert pre[j] == xs[j];
      }
      assert key(xs[|xs| - 1]) !in KeySet(pre, key);
      assert pre + [xs[|xs| - 1]] == xs;
    }
  }

  // ---------------------------------------------------------------------
  // Reducing a structure
  // ---------------------------------------------------------------------

  /** `mapping[name] ?: name`. */
  function Rename(m: map<string, string>, name: string): string {
    if name in m then m[name] else name
  }

  /** The `distinctBy` key of a constant: its name, `_`, its sort. */
  function ConstantKey(c: FOLConstant): string {
    c.name + "_" + c.sort
  }

  function RenameConstants(cs: seq<FOLConstant>, m: map<string, string>): (r: seq<FOLConstant>)
    ensures |r| == |cs|
    ensures forall k :: 0 <= k < |cs| ==> r[k] == FOLConstant(Rename(m, cs[k].name), cs[k].sort)
  {
    seq(|cs|, k requires 0 <= k < |cs| => FOLConstant(Rename(m, cs[k].name), cs[k].sort))
  }

  /** The constants renamed, keeping the first of each name-and-sort key. */
  function ReduceConstants(cs: seq<FOLConstant>, m: map<string, string>): seq<FOLConstant> {
    DistinctBy(RenameConstants(cs, m), ConstantKey)
  }

  function RenameFact(f: Fact, m: map<string, string>): (r: Fact)
    ensures |r| == |f|
    ensures forall i :: 0 <= i < |f| ==> r[i] == Rename(m, f[i])
  {
    seq(|f|, i requires 0 <= i < |f| => Rename(m, f[i]))
  }

  function RenameFacts(fs: seq<Fact>, m: map<string, string>): (r: seq<Fact>)
    ensures |r| == |fs|
    ensures forall k :: 0 <= k < |fs| ==> r[k] == RenameFact(fs[k], m)
  {
    seq(|fs|, k requires 0 <= k < |fs| => RenameFact(fs[k], m))
  }

  function Itself<T>(x: T): T {
    x
  }

  /** Every list of tuples renamed pointwise, keeping first occurrences. */
  function ReduceFacts(fm: map<string, seq<Fact>>, m: map<string, string>): map<string, seq<Fact>> {
    map r | r in fm :: DistinctBy(RenameFacts(fm[r], m), Itself)
  }

  /** Function facts are reduced like relation facts; an empty map stays
      empty. */
  function ReduceFunctionFacts(fm: map<string, seq<Fact>>, m: map<string, string>): map<string, seq<Fact>> {
    if |fm| == 0 then map[] else ReduceFacts(fm, m)
  }

  function ReduceStructure(st: FOLStructure): FOLStructure {
    var m := CanonicalMapping(st.constants);
    FOLStructure(ReduceConstants(st.constants, m), ReduceFacts(st.relationFacts, m),
                 ReduceFunctionFacts(st.functionFacts, m))
  }

  function ReduceExample(e: FOLExample): FOLExample {
    FOLExample(ReduceStructure(e.structure), e.isPositive)
  }

  /** Reduced constants are the renamed constants that come first with their
      key, in input order; their keys are pairwise distinct. */
  lemma ReducedConstants(cs: seq<FOLConstant>, m: map<string, string>)
    ensures ReduceConstants(cs, m) == FirstsWithKey(RenameConstants(cs, m), ConstantKey)
    ensures DistinctKeys(ReduceConstants(cs, m), ConstantKey)
    ensures forall c :: c in ReduceConstants(cs, m) ==> exists k :: 0 <= k < |cs| && c == FOLConstant(Rename(m, cs[k].name), cs[k].sort)
  {
    var rc := RenameConstants(cs, m);
    DistinctByKeepsFirsts(rc, ConstantKey);
    FirstsAreElements(rc, ConstantKey);
    forall c | c in ReduceConstants(cs, m)
      ensures exists k :: 0 <= k < |cs| && c == FOLConstant(Rename(m, cs[k].name), cs[k].sort)
    {
      var k :| 0 <= k < |rc| && rc[k] == c;
    }
  }

  lemma {:induction false} FirstsAreElements<T, K>(xs: seq<T>, key: T -> K)
    ensures forall x :: x in FirstsWithKey(xs, key) ==> x in xs
  {
    if xs != [] {
      FirstsAreElements(xs[..|xs| - 1], key);
    }
  }

  /** Reduced fact maps keep the key set; each entry is the renamed tuples
      with later repeats removed. */
  lemma ReducedFacts(fm: map<string, seq<Fact>>, m: map<string, string>, r: string)
    requires r in fm
    ensures ReduceFacts(fm, m).Keys == fm.Keys
    ensures ReduceFacts(fm, m)[r] == FirstsWithKey(RenameFacts(fm[r], m), Itself)
    ensures forall i, j :: 0 <= i < j < |ReduceFacts(fm, m)[r]| ==> ReduceFacts(fm, m)[r][i] != ReduceFacts(fm, m)[r][j]
  {
    DistinctByKeepsFirsts(RenameFacts(fm[r], m), Itself);
  }

  /** An example without function facts keeps none after reduction. */
  lemma NoFunctionFactsStayNone(st: FOLStructure)
    requires st.functionFacts == map[]
    ensures ReduceStructure(st).functionFacts == map[]
  {
  }

  /** Constants have no dedicated names in facts: names that the mapping does
      not know are left as they are. */
  lemma UnmappedNamesUnchanged(f: Fact, m: map<string, string>, i: nat)
    requires i < |f| && f[i] !in m
    ensures RenameFact(f, m)[i] == f[i]
  {
  }

  /** `reduceSamples`: both lists keep their length, and every example keeps
      its label and gets its reduced structure. */
  function ReduceSamples(positives: seq<FOLExample>, negatives: seq<FOLExample>): (r: (seq<FOLExample>, seq<FOLExample>))
    ensures |r.0| == |positives| && |r.1| == |negatives|
    ensures forall k :: 0 <= k < |positives| ==> r.0[k].isPositive == positives[k].isPositive
    ensures forall k :: 0 <= k < |negatives| ==> r.1[k].isPositive == negatives[k].isPositive
  {
    (seq(|positives|, k requires 0 <= k < |positives| => ReduceExample(positives[k])),
     seq(|negatives|, k requires 0 <= k < |negatives| => ReduceExample(negatives[k])))
  }

  // ---------------------------------------------------------------------
  // Reducing twice
  // ---------------------------------------------------------------------

  /** Constants of one sort have strictly increasing ranks. */
  lemma RankIncreases(cs: seq<FOLConstant>, i: nat, j: nat)
    requires i < j < |cs| && cs[i].sort == cs[j].sort
    ensures Rank(cs, i) < Rank(cs, j)
  {
    var s := cs[i].sort;
    var a := cs[..i];
    var b := cs[i + 1..j];
    assert cs[..j] == (a + [cs[i]]) + b;
    GroupAppend(a + [cs[i]], b, s);
    GroupSingle(a, cs[i]);
  }

  lemma GroupSingle(a: seq<FOLConstant>, c: FOLConstant)
    ensures Group(a + [c], c.sort) == Group(a, c.sort) + [c]
  {
    assert (a + [c])[..|a|] == a;
  }

  /** Groups depend only on the sorts, position by position. */
  lemma {:induction false} GroupSizeBySorts(a: seq<FOLConstant>, b: seq<FOLConstant>, s: string)
    requires |a| == |b| && forall k :: 0 <= k < |a| ==> a[k].sort == b[k].sort
    ensures |Group(a, s)| == |Group(b, s)|
  {
    if a != [] {
      GroupSizeBySorts(a[..|a| - 1], b[..|b| - 1], s);
    }
  }

  lemma CanonicalNameInjective(s: string, i: nat, j: nat)
    requires CanonicalName(s, i) == CanonicalName(s, j)
    ensures i == j
  {
    var l := Lowercase(s);
    assert (l + NatToString(i))[|l|..] == NatToString(i);
    assert (l + NatToString(j))[|l|..] == NatToString(j);
    NatToStringInjective(i, j);
  }

  /** A constant list in which every name is already the canonical one. */
  predicate IsCanonical(cs: seq<FOLConstant>) {
    forall k :: 0 <= k < |cs| ==> cs[k].name == CanonicalName(cs[k].sort, Rank(cs, k))
  }

  lemma {:induction false} CanonicalGroups(cs: seq<FOLConstant>, s: string)
    requires IsCanonical(cs)
    ensures forall i :: 0 <= i < |Group(cs, s)| ==> Group(cs, s)[i].name == CanonicalName(s, i)
  {
    if cs != [] {
      var pre := cs[..|cs| - 1];
      CanonicalPrefix(cs);
      CanonicalGroups(pre, s);
      CanonicalLast(cs, s);
    }
  }

  lemma CanonicalPrefix(cs: seq<FOLConstant>)
    requires cs != [] && IsCanonical(cs)
    ensures IsCanonical(cs[..|cs| - 1])
  {
    var pre := cs[..|cs| - 1];
    forall k | 0 <= k < |pre| ensures pre[k].name == CanonicalName(pre[k].sort, Rank(pre, k)) {
      assert pre[k] == cs[k];
      assert pre[..k] == cs[..k];
    }
  }

  /** The last constant, when of sort `s`, closes its group with the name
      for the group's length so far. */
  lemma CanonicalLast(cs: seq<FOLConstant>, s: string)
    requires cs != [] && IsCanonical(cs)
    requires forall i :: 0 <= i < |Group(cs[..|cs| - 1], s)| ==> Group(cs[..|cs| - 1], s)[i].name == CanonicalName(s, i)
    ensures forall i :: 0 <= i < |Group(cs, s)| ==> Group(cs, s)[i].name == CanonicalName(s, i)
  {
    var n := |cs| - 1;
    var before := Group(cs[..n], s);
    var g := Group(cs, s);
    if cs[n].sort == s {
      assert g == before + [cs[n]];
      assert Rank(cs, n) == |before|;
      forall i | 0 <= i < |g|
        ensures g[i].name == CanonicalName(s, i)
      {
        if i < |before| {
          assert g[i] == before[i];
        } else {
          assert g[i] == cs[n];
        }
      }
    } else {
      assert g == before;
    }
  }

  lemma {:induction false} AssignGroupFixed(m: map<string, string>, s: string, g: seq<FOLConstant>)
    requires forall x :: x in m ==> m[x] == x
    requires forall i :: 0 <= i < |g| ==> g[i].name == CanonicalName(s, i)
    ensures forall x :: x in AssignGroup(m, s, g) ==> AssignGroup(m, s, g)[x] == x
  {
    if g != [] {
      AssignGroupFixed(m, s, g[..|g| - 1]);
    }
  }

  lemma {:induction false} MappingForFixed(cs: seq<FOLConstant>, sorts: seq<string>)
    requires IsCanonical(cs)
    ensures forall x :: x in MappingFor(cs, sorts) ==> MappingFor(cs, sorts)[x] == x
  {
    if sorts != [] {
      var last := sorts[|sorts| - 1];
      MappingForFixed(cs, sorts[..|sorts| - 1]);
      CanonicalGroups(cs, last);
      AssignGroupFixed(MappingFor(cs, sorts[..|sorts| - 1]), last, Group(cs, last));
    }
  }

  /** On canonical constants the mapping renames nothing. */
  lemma CanonicalMappingOfCanonical(cs: seq<FOLConstant>)
    requires IsCanonical(cs)
    ensures forall x :: Rename(CanonicalMapping(cs), x) == x
  {
    MappingForFixed(cs, SortOrder(cs));
  }

  lemma SeparatorInLongerSuffix(n1: string, s1: string, n2: string, s2: string)
    requires n1 + "_" + s1 == n2 + "_" + s2
    requires |s1| < |s2|
    ensures '_' in s2
  {
    var key := n1 + "_" + s1;
    var p := |key| - |s1| - 1;
    assert key[p] == '_';
    var q := p - (|key| - |s2|);
    assert s2[q] == (n2 + "_" + s2)[p];
  }

  /** Without `_` in sort names, the `distinctBy` key of a constant determines
      the constant. */
  lemma ConstantKeyInjective(a: FOLConstant, b: FOLConstant)
    requires '_' !in a.sort && '_' !in b.sort
    requires ConstantKey(a) == ConstantKey(b)
    ensures a == b
  {
    var key := ConstantKey(a);
    if |a.sort| < |b.sort| {
      SeparatorInLongerSuffix(a.name, a.sort, b.name, b.sort);
    } else if |b.sort| < |a.sort| {
      SeparatorInLongerSuffix(b.name, b.sort, a.name, a.sort);
    }
    assert a.sort == key[|key| - |a.sort|..] == b.sort;
    assert a.name == key[..|a.name|] == b.name;
  }

  /** Renaming facts with a mapping that changes no name, then dropping
      repeats, leaves a repeat-free fact map as it is. */
  lemma ReduceFactsFixed(fm: map<string, seq<Fact>>, m: map<string, string>)
    requires forall x :: Rename(m, x) == x
    requires forall r :: r in fm ==> DistinctKeys(fm[r], Itself)
    ensures ReduceFacts(fm, m) == fm
  {
    forall r | r in fm ensures ReduceFacts(fm, m)[r] == fm[r] {
      forall k | 0 <= k < |fm[r]| ensures RenameFact(fm[r][k], m) == fm[r][k] {
      }
      assert RenameFacts(fm[r], m) == fm[r];
      DistinctByOfDistinct(fm[r], Itself);
    }
  }

  lemma ReducedFactsAreDistinct(fm: map<string, seq<Fact>>, m: map<string, string>)
    ensures forall r :: r in ReduceFacts(fm, m) ==> DistinctKeys(ReduceFacts(fm, m)[r], Itself)
  {
    forall r | r in ReduceFacts(fm, m) ensures DistinctKeys(ReduceFacts(fm, m)[r], Itself) {
      DistinctByKeepsFirsts(RenameFacts(fm[r], m), Itself);
    }
  }

  /** With distinct names, renaming gives every constant its canonical name. */
  lemma CanonicalRenaming(cs: seq<FOLConstant>)
    requires DistinctNames(cs)
    ensures forall k :: 0 <= k < |cs| ==>
      RenameConstants(cs, CanonicalMapping(cs))[k] == FOLConstant(CanonicalName(cs[k].sort, Rank(cs, k)), cs[k].sort)
  {
    forall k | 0 <= k < |cs|
      ensures RenameConstants(cs, CanonicalMapping(cs))[k] == FOLConstant(CanonicalName(cs[k].sort, Rank(cs, k)), cs[k].sort)
    {
      CanonicalNameOfConstant(cs, k);
    }
  }

  /** The key of a canonically renamed constant with the shorter sort has a
      digit where the other key has its `_`, so the two keys differ. */
  lemma ShorterSortKeysDiffer(s1: string, i: nat, s2: string, j: nat)
    requires |s1| < |s2|
    ensures CanonicalName(s1, i) + "_" + s1 != CanonicalName(s2, j) + "_" + s2
  {
    var d1, d2 := NatToString(i), NatToString(j);
    var k1 := CanonicalName(s1, i) + "_" + s1;
    var k2 := CanonicalName(s2, j) + "_" + s2;
    assert k1 == Lowercase(s1) + d1 + "_" + s1;
    assert k2 == Lowercase(s2) + d2 + "_" + s2;
    if |k1| == |k2| {
      var p := |s2| + |d2|;
      assert |s1| <= p < |s1| + |d1|;
      assert k1[p] == d1[p - |s1|];
      assert k2[p] == '_';
    }
  }

  /** Keys of canonically renamed constants determine the sort and the rank,
      whatever characters the sort names hold. */
  lemma CanonicalKeyInjective(s1: string, i: nat, s2: string, j: nat)
    requires ConstantKey(FOLConstant(CanonicalName(s1, i), s1)) == ConstantKey(FOLConstant(CanonicalName(s2, j), s2))
    ensures s1 == s2 && i == j
  {
    var key := ConstantKey(FOLConstant(CanonicalName(s1, i), s1));
    if |s1| < |s2| {
      ShorterSortKeysDiffer(s1, i, s2, j);
    } else if |s2| < |s1| {
      ShorterSortKeysDiffer(s2, j, s1, i);
    } else {
      assert s1 == key[|key| - |s1|..] == s2;
      assert CanonicalName(s1, i) == key[..|key| - |s1| - 1] == CanonicalName(s2, j);
      CanonicalNameInjective(s1, i, j);
    }
  }

  /** Canonically renamed constants have pairwise distinct keys. */
  lemma CanonicalRenamingKeys(cs: seq<FOLConstant>, renamed: seq<FOLConstant>)
    requires |renamed| == |cs|
    requires forall k :: 0 <= k < |cs| ==> renamed[k] == FOLConstant(CanonicalName(cs[k].sort, Rank(cs, k)), cs[k].sort)
    ensures DistinctKeys(renamed, ConstantKey)
  {
    forall i, j | 0 <= i < j < |renamed| ensures ConstantKey(renamed[i]) != ConstantKey(renamed[j]) {
      if ConstantKey(renamed[i]) == ConstantKey(renamed[j]) {
        CanonicalKeyInjective(cs[i].sort, Rank(cs, i), cs[j].sort, Rank(cs, j));
        RankIncreases(cs, i, j);
      }
    }
  }

  /** Canonically renamed constants are canonical for their own ranks. */
  lemma RenamedIsCanonical(cs: seq<FOLConstant>, renamed: seq<FOLConstant>)
    requires |renamed| == |cs|
    requires forall k :: 0 <= k < |cs| ==> renamed[k] == FOLConstant(CanonicalName(cs[k].sort, Rank(cs, k)), cs[k].sort)
    ensures IsCanonical(renamed)
  {
    forall k | 0 <= k < |renamed| ensures Rank(renamed, k) == Rank(cs, k) {
      GroupSizeBySorts(renamed[..k], cs[..k], cs[k].sort);
    }
  }

  /** The first reduction of distinct names renames every constant to its
      canonical name and drops none. */
  lemma FirstReductionOfConstants(cs: seq<FOLConstant>)
    requires DistinctNames(cs)
    ensures var r := ReduceConstants(cs, CanonicalMapping(cs));
      IsCanonical(r) && DistinctKeys(r, ConstantKey)
  {
    var renamed := RenameConstants(cs, CanonicalMapping(cs));
    CanonicalRenaming(cs);
    CanonicalRenamingKeys(cs, renamed);
    RenamedIsCanonical(cs, renamed);
    DistinctByOfDistinct(renamed, ConstantKey);
  }

  /** Canonical constants with distinct keys reduce to themselves, under a
      mapping that renames nothing. */
  lemma SecondReductionOfConstants(cs: seq<FOLConstant>)
    requires IsCanonical(cs) && DistinctKeys(cs, ConstantKey)
    ensures forall x :: Rename(CanonicalMapping(cs), x) == x
    ensures ReduceConstants(cs, CanonicalMapping(cs)) == cs
  {
    CanonicalMappingOfCanonical(cs);
    assert RenameConstants(cs, CanonicalMapping(cs)) == cs;
    DistinctByOfDistinct(cs, ConstantKey);
  }

  /** Reducing a structure whose constant names are distinct gives a
      structure that a second reduction leaves unchanged. */
  lemma ReduceIsIdempotent(st: FOLStructure)
    requires DistinctNames(st.constants)
    ensures ReduceStructure(ReduceStructure(st)) == ReduceStructure(st)
  {
    var m := CanonicalMapping(st.constants);
    var once := ReduceStructure(st);
    FirstReductionOfConstants(st.constants);
    ReducedFactsAreDistinct(st.relationFacts, m);
    if |st.functionFacts| != 0 {
      ReducedFactsAreDistinct(st.functionFacts, m);
    }
    ReducedStructureIsFixed(once);
  }

  /** A structure with canonical constants of distinct keys, and duplicate-free
      fact lists, is left as it is by the reduction. */
  lemma ReducedStructureIsFixed(st: FOLStructure)
    requires IsCanonical(st.constants) && DistinctKeys(st.constants, ConstantKey)
    requires forall r :: r in st.relationFacts ==> DistinctKeys(st.relationFacts[r], Itself)
    requires forall f :: f in st.functionFacts ==> DistinctKeys(st.functionFacts[f], Itself)
    ensures ReduceStructure(st) == st
  {
    var m := CanonicalMapping(st.constants);
    SecondReductionOfConstants(st.constants);
    ReduceFactsFixed(st.relationFacts, m);
    if |st.functionFacts| != 0 {
      ReduceFactsFixed(st.functionFacts, m);
    }
  }

  // ---------------------------------------------------------------------
  // Equivalence of examples
  // ---------------------------------------------------------------------

  /** `groupBy { it.sort }.mapValues { it.value.size }`. */
  function SortCounts(cs: seq<FOLConstant>): map<string, nat> {
    map s | s in SortOrder(cs) :: |Group(cs, s)|
  }

  function SetOf(fs: seq<Fact>): set<Fact> {
    set f | f in fs
  }

  /** Same per-sort constant counts, same relation and function names, and per
      name the same set of tuples. */
  predicate StructuresAreEquivalent(s1: FOLStructure, s2: FOLStructure) {
    && SortCounts(s1.constants) == SortCounts(s2.constants)
    && s1.relationFacts.Keys == s2.relationFacts.Keys
    && (forall r :: r in s1.relationFacts ==> SetOf(s1.relationFacts[r]) == SetOf(s2.relationFacts[r]))
    && s1.functionFacts.Keys == s2.functionFacts.Keys
    && (forall f :: f in s1.functionFacts ==> SetOf(s1.functionFacts[f]) == SetOf(s2.functionFacts[f]))
  }

  predicate AreEquivalent(e1: FOLExample, e2: FOLExample) {
    e1.isPositive == e2.isPositive && StructuresAreEquivalent(ReduceStructure(e1.structure), ReduceStructure(e2.structure))
  }

  /** What the comparison looks at: the sort counts and the tuple sets. */
  datatype Summary = Summary(sortCounts: map<string, nat>, relations: map<string, set<Fact>>, functions: map<string, set<Fact>>)

  function FactSets(fm: map<string, seq<Fact>>): map<string, set<Fact>> {
    map r | r in fm :: SetOf(fm[r])
  }

  function SummaryOf(st: FOLStructure): Summary {
    Summary(SortCounts(st.constants), FactSets(st.relationFacts), FactSets(st.functionFacts))
  }

  lemma FactSetsEqual(a: map<string, seq<Fact>>, b: map<string, seq<Fact>>)
    ensures FactSets(a) == FactSets(b) <==> a.Keys == b.Keys && forall r :: r in a ==> SetOf(a[r]) == SetOf(b[r])
  {
    if FactSets(a) == FactSets(b) {
      assert a.Keys == FactSets(a).Keys;
      forall r | r in a ensures SetOf(a[r]) == SetOf(b[r]) {
        assert FactSets(a)[r] == FactSets(b)[r];
      }
    }
  }

  /** Two structures are equivalent exactly when their summaries are equal. */
  lemma StructuresEquivalentIffSameSummary(s1: FOLStructure, s2: FOLStructure)
    ensures StructuresAreEquivalent(s1, s2) <==> SummaryOf(s1) == SummaryOf(s2)
  {
    FactSetsEqual(s1.relationFacts, s2.relationFacts);
    FactSetsEqual(s1.functionFacts, s2.functionFacts);
  }

  /** Examples of different labels are never equivalent; otherwise they are
      equivalent exactly when their reduced structures have the same sort
      counts and tuple sets. */
  lemma EquivalentIffSameSummary(e1: FOLExample, e2: FOLExample)
    ensures e1.isPositive != e2.isPositive ==> !AreEquivalent(e1, e2)
    ensures AreEquivalent(e1, e2) <==>
      e1.isPositive == e2.isPositive && SummaryOf(ReduceStructure(e1.structure)) == SummaryOf(ReduceStructure(e2.structure))
  {
    StructuresEquivalentIffSameSummary(ReduceStructure(e1.structure), ReduceStructure(e2.structure));
  }

  lemma EquivalenceIsReflexive(e: FOLExample)
    ensures AreEquivalent(e, e)
  {
    EquivalentIffSameSummary(e, e);
  }

  lemma EquivalenceIsSymmetric(e1: FOLExample, e2: FOLExample)
    ensures AreEquivalent(e1, e2) ==> AreEquivalent(e2, e1)
  {
    EquivalentIffSameSummary(e1, e2);
    EquivalentIffSameSummary(e2, e1);
  }

  lemma EquivalenceIsTransitive(e1: FOLExample, e2: FOLExample, e3: FOLExample)
    ensures AreEquivalent(e1, e2) && AreEquivalent(e2, e3) ==> AreEquivalent(e1, e3)
  {
    EquivalentIffSameSummary(e1, e2);
    EquivalentIffSameSummary(e2, e3);
    EquivalentIffSameSummary(e1, e3);
  }

  // ---------------------------------------------------------------------
  // Dropping redundant examples
  // ---------------------------------------------------------------------

  /** `kept.none { equivalent(it, e) }` fails. */
  predicate HasEquivalent<T>(kept: seq<T>, e: T, equivalent: (T, T) -> bool) {
    exists j :: 0 <= j < |kept| && equivalent(kept[j], e)
  }

  /** One dedup pass: an element is kept unless an equivalent one was kept
      before it. */
  function Kept<T>(xs: seq<T>, equivalent: (T, T) -> bool): (r: seq<T>)
    ensures |r| <= |xs|
  {
    if xs == [] then []
    else
      var p := Kept(xs[..|xs| - 1], equivalent);
      if HasEquivalent(p, xs[|xs| - 1], equivalent) then p else p + [xs[|xs| - 1]]
  }

  lemma KeptStep<T>(xs: seq<T>, i: nat, equivalent: (T, T) -> bool)
    requires i < |xs|
    ensures Kept(xs[..i + 1], equivalent) ==
      (var p := Kept(xs[..i], equivalent); if HasEquivalent(p, xs[i], equivalent) then p else p + [xs[i]])
  {
    assert xs[..i + 1][..i] == xs[..i];
  }

  /** `xs[i]` is the first element of its class. */
  predicate FirstOfClass<T>(xs: seq<T>, i: nat, equivalent: (T, T) -> bool)
    requires i < |xs|
  {
    forall j :: 0 <= j < i ==> !equivalent(xs[j], xs[i])
  }

  /** The first member of every class, in input order. */
  function FirstsOfClasses<T>(xs: seq<T>, equivalent: (T, T) -> bool): seq<T> {
    if xs == [] then []
    else FirstsOfClasses(xs[..|xs| - 1], equivalent) + (if FirstOfClass(xs, |xs| - 1, equivalent) then [xs[|xs| - 1]] else [])
  }

  /** No two kept elements are equivalent. */
  lemma {:induction false} KeptSeparated<T>(xs: seq<T>, equivalent: (T, T) -> bool)
    ensures forall i, j :: 0 <= i < j < |Kept(xs, equivalent)| ==> !equivalent(Kept(xs, equivalent)[i], Kept(xs, equivalent)[j])
  {
    if xs != [] {
      var n := |xs| - 1;
      KeptSeparated(xs[..n], equivalent);
      KeptStep(xs, n, equivalent);
      assert xs[..n + 1] == xs;
    }
  }

  /** For a reflexive relation, every element is equivalent to a kept one. */
  lemma {:induction false} KeptCover<T>(xs: seq<T>, equivalent: (T, T) -> bool)
    requires forall a :: equivalent(a, a)
    ensures forall i :: 0 <= i < |xs| ==> HasEquivalent(Kept(xs, equivalent), xs[i], equivalent)
  {
    if xs != [] {
      var n := |xs| - 1;
      var pre := xs[..n];
      KeptCover(pre, equivalent);
      KeptStep(xs, n, equivalent);
      assert xs[..n + 1] == xs;
      var p := Kept(pre, equivalent);
      forall i | 0 <= i < |xs|
        ensures HasEquivalent(Kept(xs, equivalent), xs[i], equivalent)
      {
        if i < n {
          assert pre[i] == xs[i];
          var j :| 0 <= j < |p| && equivalent(p[j], pre[i]);
          assert Kept(xs, equivalent)[j] == p[j];
        } else if !HasEquivalent(p, xs[n], equivalent) {
          assert Kept(xs, equivalent)[|p|] == xs[n];
        }
      }
    }
  }

  /** Every kept element is an input element. */
  lemma {:induction false} KeptFromInput<T>(xs: seq<T>, equivalent: (T, T) -> bool)
    ensures forall j :: 0 <= j < |Kept(xs, equivalent)| ==> exists i :: 0 <= i < |xs| && Kept(xs, equivalent)[j] == xs[i]
  {
    if xs == [] {
      assert |Kept(xs, equivalent)| == 0;
    } else {
      var n := |xs| - 1;
      var pre := xs[..n];
      KeptFromInput(pre, equivalent);
      KeptStep(xs, n, equivalent);
      assert xs[..n + 1] == xs;
      var p := Kept(pre, equivalent);
      forall j | 0 <= j < |Kept(xs, equivalent)|
        ensures exists i :: 0 <= i < |xs| && Kept(xs, equivalent)[j] == xs[i]
      {
        if j < |p| {
          var i :| 0 <= i < n && p[j] == pre[i];
          assert pre[i] == xs[i];
          assert Kept(xs, equivalent)[j] == p[j];
        } else {
          assert Kept(xs, equivalent)[j] == xs[n];
        }
      }
    }
  }

  /** For a reflexive and transitive relation, the pass keeps exactly the
      first member of every class, in input order. */
  lemma {:induction false} KeptAreFirsts<T>(xs: seq<T>, equivalent: (T, T) -> bool)
    requires forall a :: equivalent(a, a)
    requires forall a, b, c :: equivalent(a, b) && equivalent(b, c) ==> equivalent(a, c)
    ensures Kept(xs, equivalent) == FirstsOfClasses(xs, equivalent)
  {
    if xs != [] {
      var n := |xs| - 1;
      var pre := xs[..n];
      KeptAreFirsts(pre, equivalent);
      KeptStep(xs, n, equivalent);
      assert xs[..n + 1] == xs;
      KeptLastIsFirst(xs, equivalent);
    }
  }

  /** The last element is kept exactly when it is the first of its class. */
  lemma KeptLastIsFirst<T>(xs: seq<T>, equivalent: (T, T) -> bool)
    requires xs != []
    requires forall a :: equivalent(a, a)
    requires forall a, b, c :: equivalent(a, b) && equivalent(b, c) ==> equivalent(a, c)
    ensures HasEquivalent(Kept(xs[..|xs| - 1], equivalent), xs[|xs| - 1], equivalent) <==> !FirstOfClass(xs, |xs| - 1, equivalent)
  {
    var n := |xs| - 1;
    if HasEquivalent(Kept(xs[..n], equivalent), xs[n], equivalent) {
      DroppedHasEarlier(xs, equivalent);
    } else {
      KeptIsFirst(xs, equivalent);
    }
  }

  lemma DroppedHasEarlier<T>(xs: seq<T>, equivalent: (T, T) -> bool)
    requires xs != []
    requires HasEquivalent(Kept(xs[..|xs| - 1], equivalent), xs[|xs| - 1], equivalent)
    ensures !FirstOfClass(xs, |xs| - 1, equivalent)
  {
    var n := |xs| - 1;
    var pre := xs[..n];
    var p := Kept(pre, equivalent);
    KeptFromInput(pre, equivalent);
    var j :| 0 <= j < |p| && equivalent(p[j], xs[n]);
    var i :| 0 <= i < n && p[j] == pre[i];
    assert pre[i] == xs[i];
    assert equivalent(xs[i], xs[n]);
  }

  lemma KeptIsFirst<T>(xs: seq<T>, equivalent: (T, T) -> bool)
    requires xs != []
    requires forall a :: equivalent(a, a)
    requires forall a, b, c :: equivalent(a, b) && equivalent(b, c) ==> equivalent(a, c)
    requires !HasEquivalent(Kept(xs[..|xs| - 1], equivalent), xs[|xs| - 1], equivalent)
    ensures FirstOfClass(xs, |xs| - 1, equivalent)
  {
    var n := |xs| - 1;
    var pre := xs[..n];
    var p := Kept(pre, equivalent);
    KeptCover(pre, equivalent);
    forall i | 0 <= i < n
      ensures !equivalent(xs[i], xs[n])
    {
      assert pre[i] == xs[i];
      assert HasEquivalent(p, pre[i], equivalent);
      var j :| 0 <= j < |p| && equivalent(p[j], pre[i]);
      assert !equivalent(p[j], xs[n]);
    }
  }

  /** Every example reduced, in order. */
  function ReduceAll(xs: seq<FOLExample>): (r: seq<FOLExample>)
    ensures |r| == |xs|
    ensures forall k :: 0 <= k < |xs| ==> r[k] == ReduceExample(xs[k])
  {
    seq(|xs|, k requires 0 <= k < |xs| => ReduceExample(xs[k]))
  }

  /** The reduced examples kept by one dedup loop over `xs`. */
  function Survivors(xs: seq<FOLExample>): seq<FOLExample> {
    Kept(ReduceAll(xs), AreEquivalent)
  }

  /** `kept.none { areEquivalent(it, e) }`, with the comparison passed in. */
  method NoneEquivalent<T>(kept: seq<T>, e: T, equivalent: (T, T) -> bool) returns (none: bool)
    ensures none <==> !HasEquivalent(kept, e, equivalent)
  {
    none := true;
    for j := 0 to |kept|
      invariant none <==> forall j' :: 0 <= j' < j ==> !equivalent(kept[j'], e)
    {
      if equivalent(kept[j], e) {
        none := false;
      }
    }
  }

  /** For each example, reduces it and keeps it unless an equivalent one was
      kept before. */
  method DedupExamples(examples: seq<FOLExample>) returns (kept: seq<FOLExample>)
    ensures kept == Survivors(examples)
  {
    ghost var all := ReduceAll(examples);
    kept := [];
    for i := 0 to |examples|
      invariant kept == Kept(all[..i], AreEquivalent)
    {
      KeptStep(all, i, AreEquivalent);
      var reduced := ReduceExample(examples[i]);
      var none := NoneEquivalent(kept, reduced, AreEquivalent);
      if none {
        kept := kept + [reduced];
      }
    }
    assert all[..|examples|] == all;
  }

  /** `removeRedundantExamples`: the same loop over the positives and over the
      negatives. */
  method RemoveRedundantExamples(positives: seq<FOLExample>, negatives: seq<FOLExample>)
    returns (reducedPositives: seq<FOLExample>, reducedNegatives: seq<FOLExample>)
    ensures reducedPositives == Survivors(positives) && reducedNegatives == Survivors(negatives)
  {
    reducedPositives := DedupExamples(positives);
    reducedNegatives := DedupExamples(negatives);
  }

  /** The examples left by the dedup loop: no longer than the input, no two
      of them equivalent, every reduced input equivalent to one of them, and
      they are the reduced first members of the classes, in input order. */
  lemma SurvivorsProperties(xs: seq<FOLExample>)
    ensures |Survivors(xs)| <= |xs|
    ensures forall i, j :: 0 <= i < j < |Survivors(xs)| ==> !AreEquivalent(Survivors(xs)[i], Survivors(xs)[j])
    ensures forall i :: 0 <= i < |xs| ==> exists j :: 0 <= j < |Survivors(xs)| && AreEquivalent(Survivors(xs)[j], ReduceExample(xs[i]))
    ensures Survivors(xs) == FirstsOfClasses(ReduceAll(xs), AreEquivalent)
  {
    var rs := ReduceAll(xs);
    forall a ensures AreEquivalent(a, a) {
      EquivalenceIsReflexive(a);
    }
    forall a, b, c | AreEquivalent(a, b) && AreEquivalent(b, c) ensures AreEquivalent(a, c) {
      EquivalenceIsTransitive(a, b, c);
    }
    KeptSeparated(rs, AreEquivalent);
    KeptCover(rs, AreEquivalent);
    KeptAreFirsts(rs, AreEquivalent);
    forall i | 0 <= i < |xs|
      ensures exists j :: 0 <= j < |Survivors(xs)| && AreEquivalent(Survivors(xs)[j], ReduceExample(xs[i]))
    {
      assert rs[i] == ReduceExample(xs[i]);
      assert HasEquivalent(Survivors(xs), rs[i], AreEquivalent);
    }
  }

  // ---------------------------------------------------------------------
  // Statistics
  // ---------------------------------------------------------------------

  /** The integer fields of the reduction statistics. */
  datatype ReductionStats = ReductionStats(
    originalPositiveCount: int,
    originalNegativeCount: int,
    reducedPositiveCount: int,
    reducedNegativeCount: int,
    totalReduction: int)

  /** Counts before and after dropping redundant examples; the reduction is
      the difference, and it is never negative. */
  method GetReductionStats(positives: seq<FOLExample>, negatives: seq<FOLExample>) returns (stats: ReductionStats)
    ensures stats.originalPositiveCount == |positives| && stats.originalNegativeCount == |negatives|
    ensures stats.reducedPositiveCount == |Survivors(positives)| && stats.reducedNegativeCount == |Survivors(negatives)|
    ensures stats.totalReduction ==
      (stats.originalPositiveCount + stats.originalNegativeCount) - (stats.reducedPositiveCount + stats.reducedNegativeCount)
    ensures stats.totalReduction >= 0
    ensures stats.reducedPositiveCount <= stats.originalPositiveCount && stats.reducedNegativeCount <= stats.originalNegativeCount
  {
    var reducedPos, reducedNeg := RemoveRedundantExamples(positives, negatives);
    stats := ReductionStats(
      |positives|, |negatives|, |reducedPos|, |reducedNeg|,
      (|positives| + |negatives|) - (|reducedPos| + |reducedNeg|));
  }
}

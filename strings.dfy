/**
 * Character and string operations of the Kotlin standard library that the
 * learner relies on: `Char.isWhitespace`, `lowercase`, literal `replace`,
 * the two regular-expression clean-ups applied to solver labels, `split`,
 * `trim`, `startsWith`/`endsWith` and decimal rendering of integers.
 */
module Strings {

  /** Kotlin's `Char.isWhitespace`: Java whitespace or a Unicode space,
      line or paragraph separator. */
  predicate IsWhitespace(c: char) {
    || ('\t' <= c <= '\r')                    // tab, line feed, vertical tab, form feed, carriage return
    || ('\U{1C}' <= c <= ' ')                 // file/group/record/unit separators and space
    || c == '\U{A0}' || c == '\U{1680}'
    || ('\U{2000}' <= c <= '\U{200A}')
    || c == '\U{2028}' || c == '\U{2029}'
    || c == '\U{202F}' || c == '\U{205F}' || c == '\U{3000}'
  }

  /** `\d` of Java regular expressions (ASCII digits). */
  predicate IsDigit(c: char) {
    '0' <= c <= '9'
  }

  predicate NoWhitespace(s: string) {
    forall k :: 0 <= k < |s| ==> !IsWhitespace(s[k])
  }

  function LowerChar(c: char): char {
    if 'A' <= c <= 'Z' then (c as int + 32) as char else c
  }

  /** `String.lowercase()`, on the ASCII letters. */
  function Lowercase(s: string): (r: string)
    ensures |r| == |s|
    ensures forall k :: 0 <= k < |s| ==> r[k] == LowerChar(s[k])
  {
    if s == [] then [] else [LowerChar(s[0])] + Lowercase(s[1..])
  }

  predicate StartsWith(s: string, p: string) {
    |p| <= |s| && s[..|p|] == p
  }

  predicate EndsWith(s: string, p: string) {
    |p| <= |s| && s[|s| - |p|..] == p
  }

  /** `a` is what is left of `b` after deleting some of its characters. */
  predicate IsSubsequence(a: string, b: string)
    decreases |b|
  {
    if a == [] then true
    else if b == [] then false
    else (a[0] == b[0] && IsSubsequence(a[1..], b[1..])) || IsSubsequence(a, b[1..])
  }

  lemma {:induction false} SubsequenceOfSuffix(a: string, b: string, k: nat)
    requires k <= |b|
    requires IsSubsequence(a, b[k..])
    ensures IsSubsequence(a, b)
  {
    if k > 0 {
      assert b[1..][k - 1..] == b[k..];
      SubsequenceOfSuffix(a, b[1..], k - 1);
    }
  }

  lemma {:induction false} SubsequenceOfItself(a: string)
    ensures IsSubsequence(a, a)
    decreases |a|
  {
    if a != [] {
      SubsequenceOfItself(a[1..]);
    }
  }

  lemma SubsequenceCons(c: char, a: string, b: string)
    requires IsSubsequence(a, b)
    ensures IsSubsequence([c] + a, [c] + b)
  {
    assert ([c] + a)[1..] == a;
    assert ([c] + b)[1..] == b;
  }

  /** `s.replace(p, "")` for a non-empty literal `p`: every occurrence found
      scanning left to right, without overlaps, is deleted. */
  function RemoveAll(s: string, p: string): (r: string)
    requires p != []
    ensures |r| <= |s|
    decreases |s|
  {
    if |s| < |p| then s
    else if s[..|p|] == p then RemoveAll(s[|p|..], p)
    else [s[0]] + RemoveAll(s[1..], p)
  }

  /** Only characters of `p` are deleted: every other character is kept,
      and what is kept stays in order. */
  lemma {:induction false} RemoveAllDeletesOnlyPattern(s: string, p: string)
    requires p != []
    ensures IsSubsequence(RemoveAll(s, p), s)
    ensures forall c :: c !in p ==> multiset(RemoveAll(s, p))[c] == multiset(s)[c]
    decreases |s|
  {
    var r := RemoveAll(s, p);
    if |s| < |p| {
      SubsequenceOfItself(s);
    } else if s[..|p|] == p {
      RemoveAllDeletesOnlyPattern(s[|p|..], p);
      SubsequenceOfSuffix(r, s, |p|);
      assert s == p + s[|p|..];
      forall c | c !in p ensures multiset(r)[c] == multiset(s)[c] {
        CountPastPrefix(p, s[|p|..], c);
      }
    } else {
      RemoveAllDeletesOnlyPattern(s[1..], p);
      SubsequenceCons(s[0], RemoveAll(s[1..], p), s[1..]);
      assert s == [s[0]] + s[1..];
    }
  }

  /** Length of the run of digits at the start of `s`. */
  function DigitRun(s: string): (n: nat)
    ensures n <= |s|
    ensures forall k :: 0 <= k < n ==> IsDigit(s[k])
    ensures n == |s| || !IsDigit(s[n])
  {
    if s != [] && IsDigit(s[0]) then 1 + DigitRun(s[1..]) else 0
  }

  /** `s.replace(Regex("\\$\\d+"), "")`: a `$` followed by one or more digits
      is deleted together with the whole digit run. */
  function RemoveDollarDigits(s: string): (r: string)
    ensures |r| <= |s|
    decreases |s|
  {
    if s == [] then []
    else if s[0] == '$' && DigitRun(s[1..]) > 0 then RemoveDollarDigits(s[1 + DigitRun(s[1..])..])
    else [s[0]] + RemoveDollarDigits(s[1..])
  }

  /** Nothing but `$` signs and digits is deleted, the rest keeps its
      order, no `$` is left in front of a digit, and the result starts with
      a digit only where the input does. */
  lemma RemoveDollarDigitsDeletesOnlyRuns(s: string)
    ensures IsSubsequence(RemoveDollarDigits(s), s)
    ensures forall c :: c != '$' && !IsDigit(c) ==> multiset(RemoveDollarDigits(s))[c] == multiset(s)[c]
    ensures NoDollarBeforeDigit(RemoveDollarDigits(s))
    ensures StartsWithDigit(RemoveDollarDigits(s)) ==> StartsWithDigit(s)
  {
    RemoveDollarDigitsKeepsOthers(s);
    RemoveDollarDigitsLeavesNoRun(s);
  }

  lemma RemoveDollarDigitsKeepsOthers(s: string)
    ensures IsSubsequence(RemoveDollarDigits(s), s)
    ensures forall c :: c != '$' && !IsDigit(c) ==> multiset(RemoveDollarDigits(s))[c] == multiset(s)[c]
  {
    RemoveDollarDigitsSubsequence(s);
    forall c | c != '$' && !IsDigit(c) ensures multiset(RemoveDollarDigits(s))[c] == multiset(s)[c] {
      RemoveDollarDigitsCount(s, c);
    }
  }

  lemma {:induction false} RemoveDollarDigitsSubsequence(s: string)
    ensures IsSubsequence(RemoveDollarDigits(s), s)
    decreases |s|
  {
    if s == [] {
    } else if s[0] == '$' && DigitRun(s[1..]) > 0 {
      var n := 1 + DigitRun(s[1..]);
      RemoveDollarDigitsSubsequence(s[n..]);
      SubsequenceOfSuffix(RemoveDollarDigits(s[n..]), s, n);
    } else {
      RemoveDollarDigitsSubsequence(s[1..]);
      SubsequenceCons(s[0], RemoveDollarDigits(s[1..]), s[1..]);
      assert s == [s[0]] + s[1..];
    }
  }

  lemma {:induction false} RemoveDollarDigitsCount(s: string, c: char)
    requires c != '$' && !IsDigit(c)
    ensures multiset(RemoveDollarDigits(s))[c] == multiset(s)[c]
    decreases |s|
  {
    if s == [] {
    } else if s[0] == '$' && DigitRun(s[1..]) > 0 {
      var n := 1 + DigitRun(s[1..]);
      RemoveDollarDigitsCount(s[n..], c);
      assert s == s[..n] + s[n..];
      assert c !in s[..n];
      CountPastPrefix(s[..n], s[n..], c);
    } else {
      RemoveDollarDigitsCount(s[1..], c);
      assert s == [s[0]] + s[1..];
      assert multiset(s) == multiset([s[0]]) + multiset(s[1..]);
    }
  }

  /** A character that does not occur in `a` occurs in `a + b` as often as
      in `b`. */
  lemma CountPastPrefix(a: string, b: string, c: char)
    requires c !in a
    ensures multiset(a + b)[c] == multiset(b)[c]
  {
    assert multiset(a + b) == multiset(a) + multiset(b);
  }

  lemma {:induction false} RemoveDollarDigitsLeavesNoRun(s: string)
    ensures NoDollarBeforeDigit(RemoveDollarDigits(s))
    ensures StartsWithDigit(RemoveDollarDigits(s)) ==> StartsWithDigit(s)
    decreases |s|
  {
    if s == [] {
    } else if s[0] == '$' && DigitRun(s[1..]) > 0 {
      var n := 1 + DigitRun(s[1..]);
      assert RemoveDollarDigits(s) == RemoveDollarDigits(s[n..]);
      RemoveDollarDigitsLeavesNoRun(s[n..]);
      assert !StartsWithDigit(s[n..]);
    } else {
      var r := RemoveDollarDigits(s[1..]);
      assert RemoveDollarDigits(s) == [s[0]] + r;
      RemoveDollarDigitsLeavesNoRun(s[1..]);
      assert s[0] == '$' ==> !StartsWithDigit(s[1..]);
      DollarGuardCons(s[0], r);
    }
  }

  predicate StartsWithDigit(s: string) {
    |s| > 0 && IsDigit(s[0])
  }

  predicate NoDollarBeforeDigit(s: string) {
    forall k :: 0 <= k < |s| - 1 && s[k] == '$' ==> !IsDigit(s[k + 1])
  }

  lemma DollarGuardCons(c: char, r: string)
    requires NoDollarBeforeDigit(r)
    requires c == '$' ==> !StartsWithDigit(r)
    ensures NoDollarBeforeDigit([c] + r)
  {
    var t := [c] + r;
    forall k | 0 <= k < |t| - 1 && t[k] == '$' ensures !IsDigit(t[k + 1]) {
      if k > 0 {
        assert t[k] == r[k - 1] && t[k + 1] == r[k];
      }
    }
  }

  /** Length of the run of digits at the end of `s`. */
  function TrailingDigits(s: string): (n: nat)
    ensures n <= |s|
    ensures forall k :: |s| - n <= k < |s| ==> IsDigit(s[k])
    ensures n == |s| || !IsDigit(s[|s| - n - 1])
  {
    if s != [] && IsDigit(s[|s| - 1]) then 1 + TrailingDigits(s[..|s| - 1]) else 0
  }

  /** `s.replace(Regex("\\d+$"), "")`: the digits ending the label go. */
  function StripTrailingDigits(s: string): string {
    s[..|s| - TrailingDigits(s)]
  }

  /** Index of the first character of `s` that belongs to `cs`, or `|s|`. */
  function FirstOf(s: string, cs: set<char>): (n: nat)
    ensures n <= |s|
    ensures forall k :: 0 <= k < n ==> s[k] !in cs
    ensures n < |s| ==> s[n] in cs
  {
    if s == [] || s[0] in cs then 0 else 1 + FirstOf(s[1..], cs)
  }

  /** `s.split(c1, c2, ...)[0]`: the text before the first delimiter. */
  function SplitFirst(s: string, cs: set<char>): string {
    s[..FirstOf(s, cs)]
  }

  /** `s.split(',')`: the pieces between commas, in order. */
  function Split(s: string, c: char): (r: seq<string>)
    ensures |r| > 0
    decreases |s|
  {
    var n := FirstOf(s, {c});
    if n == |s| then [s] else [s[..n]] + Split(s[n + 1..], c)
  }

  /** `s.trim()`: whitespace removed from both ends. */
  function Trim(s: string): string
    decreases |s|
  {
    if s != [] && IsWhitespace(s[0]) then Trim(s[1..])
    else if s != [] && IsWhitespace(s[|s| - 1]) then Trim(s[..|s| - 1])
    else s
  }

  function DigitChar(d: nat): char
    requires d < 10
  {
    ('0' as int + d) as char
  }

  /** Decimal rendering of a natural number (`Int.toString` for n >= 0). */
  function NatToString(n: nat): (r: string)
    ensures |r| > 0
    ensures forall k :: 0 <= k < |r| ==> IsDigit(r[k])
  {
    if n < 10 then [DigitChar(n)] else NatToString(n / 10) + [DigitChar(n % 10)]
  }

  /** `Int.toString`. */
  function IntToString(i: int): string {
    if i < 0 then "-" + NatToString(-i) else NatToString(i)
  }

  /** The decimal value of a run of digits. */
  function DigitsValue(s: string): nat
    requires forall k :: 0 <= k < |s| ==> IsDigit(s[k])
  {
    if s == [] then 0
    else
      assert IsDigit(s[|s| - 1]);
      10 * DigitsValue(s[..|s| - 1]) + (s[|s| - 1] as int - '0' as int)
  }

  lemma {:induction false} NatToStringRoundTrip(n: nat)
    ensures DigitsValue(NatToString(n)) == n
  {
    if n >= 10 {
      var s := NatToString(n);
      assert s[..|s| - 1] == NatToString(n / 10);
      NatToStringRoundTrip(n / 10);
    }
  }

  /** Distinct numbers render differently. */
  lemma NatToStringInjective(i: nat, j: nat)
    requires NatToString(i) == NatToString(j)
    ensures i == j
  {
    NatToStringRoundTrip(i);
    NatToStringRoundTrip(j);
  }

  /** `joinToString(",")`: the fields with a comma between neighbours. */
  function JoinFields(fs: seq<string>): string {
    if fs == [] then "" else if |fs| == 1 then fs[0] else fs[0] + "," + JoinFields(fs[1..])
  }

  lemma SplitAfterField(a: string, b: string)
    requires forall k :: 0 <= k < |a| ==> a[k] != ','
    ensures Split(a + "," + b, ',') == [a] + Split(b, ',')
  {
    var s := a + "," + b;
    assert s[|a|] == ',';
    assert FirstOf(s, {','}) == |a|;
    assert s[..|a|] == a;
    assert s[|a| + 1..] == b;
  }

  /** No field holds a comma. */
  predicate CommaFree(fs: seq<string>) {
    forall i, k :: 0 <= i < |fs| && 0 <= k < |fs[i]| ==> fs[i][k] != ','
  }

  /** Splitting a joined line at its commas gives back the fields, when no
      field holds a comma. */
  lemma {:induction false} SplitJoin(fs: seq<string>)
    requires fs != []
    requires CommaFree(fs)
    ensures Split(JoinFields(fs), ',') == fs
  {
    assert forall k :: 0 <= k < |fs[0]| ==> fs[0][k] != ',';
    if |fs| == 1 {
      assert FirstOf(fs[0], {','}) == |fs[0]|;
    } else {
      var rest := fs[1..];
      assert JoinFields(fs) == fs[0] + "," + JoinFields(rest);
      SplitAfterField(fs[0], JoinFields(rest));
      assert CommaFree(rest) by {
        forall i, k | 0 <= i < |rest| && 0 <= k < |rest[i]| ensures rest[i][k] != ',' {
          assert rest[i] == fs[i + 1];
        }
      }
      SplitJoin(rest);
      assert fs == [fs[0]] + rest;
    }
  }
}

/**
 * The reader of learning tasks written as S-expressions (TaskParser.kt):
 * a character-level tokenizer, a recursive-descent S-expression parser,
 * and the walk that turns `(sort ...)`, `(relation ...)`, `(function ...)`
 * and `(model + ...)` / `(model - ...)` forms into a task. Tasks written in
 * JSON go to a decoder that is a parameter here.
 */
module TaskParser {
  import opened Strings
  import opened Common
  import opened Learner

  datatype SExpr = Atom(value: string) | List(elements: seq<SExpr>)

  predicate IsParen(c: char) {
    c == '(' || c == ')'
  }

  // ---------------------------------------------------------------------
  // Tokenizer
  // ---------------------------------------------------------------------

  /** Where a comment that starts at `i` ends: at the next line feed, which
      the comment does not include, or at the end of the text. */
  function CommentEnd(s: string, i: nat): (j: nat)
    requires i <= |s|
    ensures i <= j <= |s|
    ensures j == |s| || s[j] == '\n'
    ensures forall k :: i <= k < j ==> s[k] != '\n'
    decreases |s| - i
  {
    if i == |s| || s[i] == '\n' then i else CommentEnd(s, i + 1)
  }

  /** Where an atom that starts at `i` ends: at the first whitespace or
      parenthesis, or at the end of the text. */
  function AtomEnd(s: string, i: nat): (j: nat)
    requires i <= |s|
    ensures i <= j <= |s|
    ensures j == |s| || IsWhitespace(s[j]) || IsParen(s[j])
    ensures forall k :: i <= k < j ==> !IsWhitespace(s[k]) && !IsParen(s[k])
    decreases |s| - i
  {
    if i == |s| || IsWhitespace(s[i]) || IsParen(s[i]) then i else AtomEnd(s, i + 1)
  }

  /** The tokens of `s` from position `i` on. */
  function TokensFrom(s: string, i: nat): seq<string>
    requires i <= |s|
    decreases |s| - i
  {
    if i == |s| then []
    else if IsWhitespace(s[i]) then TokensFrom(s, i + 1)
    else if s[i] == ';' then TokensFrom(s, CommentEnd(s, i))
    else if s[i] == '(' then ["("] + TokensFrom(s, i + 1)
    else if s[i] == ')' then [")"] + TokensFrom(s, i + 1)
    else [s[i..AtomEnd(s, i)]] + TokensFrom(s, AtomEnd(s, i))
  }

  function Tokens(s: string): seq<string> {
    TokensFrom(s, 0)
  }

  /** A token the tokenizer can produce: a parenthesis on its own, or a
      non-empty run without whitespace and parentheses. */
  predicate IsToken(t: string) {
    t == "(" || t == ")" || (t != [] && forall k :: 0 <= k < |t| ==> !IsWhitespace(t[k]) && !IsParen(t[k]))
  }

  /** Splits the text into tokens, scanning it once from left to right. */
  method Tokenize(input: string) returns (tokens: seq<string>)
    ensures tokens == Tokens(input)
  {
    tokens := [];
    var i := 0;
    while i < |input|
      invariant 0 <= i <= |input|
      invariant tokens + TokensFrom(input, i) == Tokens(input)
    {
      var read, next := ReadStep(input, i);
      StepAppends(input, i, tokens);
      tokens := tokens + read;
      i := next;
    }
  }

  /** One turn of the tokenizer's loop: skips a whitespace character or a
      comment, or reads a parenthesis or an atom. */
  method ReadStep(input: string, i: nat) returns (read: seq<string>, next: nat)
    requires i < |input|
    ensures read == StepTokens(input, i) && next == StepEnd(input, i)
  {
    if IsWhitespace(input[i]) {
      read, next := [], i + 1;
    } else if input[i] == ';' {
      // a comment runs to the end of the line
      read := [];
      next := SkipComment(input, i);
    } else if input[i] == '(' {
      read, next := ["("], i + 1;
    } else if input[i] == ')' {
      read, next := [")"], i + 1;
    } else {
      next := ScanAtom(input, i);
      read := [input[i..next]];
    }
  }

  method SkipComment(input: string, start: nat) returns (i: nat)
    requires start <= |input|
    ensures i == CommentEnd(input, start)
  {
    i := start;
    while i < |input| && input[i] != '\n'
      invariant start <= i <= |input|
      invariant CommentEnd(input, i) == CommentEnd(input, start)
    {
      i := i + 1;
    }
  }

  method ScanAtom(input: string, start: nat) returns (i: nat)
    requires start <= |input|
    ensures i == AtomEnd(input, start)
  {
    i := start;
    while i < |input| && !IsWhitespace(input[i]) && input[i] != '(' && input[i] != ')'
      invariant start <= i <= |input|
      invariant AtomEnd(input, i) == AtomEnd(input, start)
    {
      i := i + 1;
    }
  }

  /** Every token is a lone parenthesis or a maximal run free of whitespace
      and parentheses; in particular no token is empty. */
  lemma {:induction false} TokensAreTokens(s: string, i: nat)
    requires i <= |s|
    ensures forall t :: t in TokensFrom(s, i) ==> IsToken(t)
    decreases |s| - i
  {
    if i < |s| {
      if IsWhitespace(s[i]) || IsParen(s[i]) {
        TokensAreTokens(s, i + 1);
      } else if s[i] == ';' {
        TokensAreTokens(s, CommentEnd(s, i));
      } else {
        var j := AtomEnd(s, i);
        assert IsToken(s[i..j]);
        TokensAreTokens(s, j);
      }
    }
  }

  /** `t` holds `s` from position `d` to its end. */
  predicate EndsWithAt(t: string, s: string, d: nat) {
    |t| == d + |s| && forall k :: 0 <= k < |s| ==> t[d + k] == s[k]
  }

  lemma {:induction false} CommentEndShift(t: string, s: string, d: nat, i: nat)
    requires EndsWithAt(t, s, d) && i <= |s|
    ensures CommentEnd(t, d + i) == d + CommentEnd(s, i)
    decreases |s| - i
  {
    if i < |s| {
      assert t[d + i] == s[i];
      if s[i] != '\n' {
        CommentEndShift(t, s, d, i + 1);
      }
    }
  }

  lemma {:induction false} AtomEndShift(t: string, s: string, d: nat, i: nat)
    requires EndsWithAt(t, s, d) && i <= |s|
    ensures AtomEnd(t, d + i) == d + AtomEnd(s, i)
    decreases |s| - i
  {
    if i < |s| {
      assert t[d + i] == s[i];
      if !IsWhitespace(s[i]) && !IsParen(s[i]) {
        AtomEndShift(t, s, d, i + 1);
      }
    }
  }

  /** Tokenizing does not depend on text already consumed: what precedes a
      position has no influence on the tokens read from there. */
  lemma TokensFromShift(p: string, s: string, i: nat)
    requires i <= |s|
    ensures TokensFrom(p + s, |p| + i) == TokensFrom(s, i)
  {
    TokensFromSuffix(p + s, s, |p|, i);
  }

  lemma {:induction false} TokensFromSuffix(t: string, s: string, d: nat, i: nat)
    requires EndsWithAt(t, s, d) && i <= |s|
    ensures TokensFrom(t, d + i) == TokensFrom(s, i)
    decreases |s| - i
  {
    if i == |s| {
      assert TokensFrom(t, d + i) == [];
    } else {
      TokensFromSuffix(t, s, d, StepEnd(s, i));
      StepShift(t, s, d, i);
      SuffixStep(t, s, d + i, i);
    }
  }

  /** Two positions whose next steps read the same tokens, and after which
      the same tokens follow, are followed by the same tokens. */
  lemma SuffixStep(t: string, s: string, j: nat, i: nat)
    requires j < |t| && i < |s|
    requires StepTokens(t, j) == StepTokens(s, i)
    requires TokensFrom(t, StepEnd(t, j)) == TokensFrom(s, StepEnd(s, i))
    ensures TokensFrom(t, j) == TokensFrom(s, i)
  {
    StepUnfolds(s, i);
    StepUnfolds(t, j);
  }

  /** Where one step of the tokenizer from `i` leaves off. */
  function StepEnd(s: string, i: nat): (j: nat)
    requires i < |s|
    ensures i < j <= |s|
  {
    if s[i] == ';' && !IsWhitespace(s[i]) then CommentEnd(s, i)
    else if IsWhitespace(s[i]) || IsParen(s[i]) then i + 1
    else AtomEnd(s, i)
  }

  /** The tokens one step of the tokenizer from `i` reads. */
  function StepTokens(s: string, i: nat): seq<string>
    requires i < |s|
  {
    if IsWhitespace(s[i]) || s[i] == ';' then []
    else if IsParen(s[i]) then [[s[i]]]
    else [s[i..AtomEnd(s, i)]]
  }

  lemma StepUnfolds(s: string, i: nat)
    requires i < |s|
    ensures TokensFrom(s, i) == StepTokens(s, i) + TokensFrom(s, StepEnd(s, i))
  {
  }

  lemma StepAppends(s: string, i: nat, before: seq<string>)
    requires i < |s|
    ensures before + TokensFrom(s, i) == (before + StepTokens(s, i)) + TokensFrom(s, StepEnd(s, i))
  {
    StepUnfolds(s, i);
  }

  /** One step reads the same tokens, and moves on to the same place, in
      `s` and in a text `t` that ends with `s`. */
  lemma StepShift(t: string, s: string, d: nat, i: nat)
    requires EndsWithAt(t, s, d) && i < |s|
    ensures StepTokens(t, d + i) == StepTokens(s, i)
    ensures StepEnd(t, d + i) == d + StepEnd(s, i)
  {
    assert t[d + i] == s[i];
    if s[i] == ';' {
      CommentEndShift(t, s, d, i);
    } else if !IsWhitespace(s[i]) && !IsParen(s[i]) {
      AtomEndShift(t, s, d, i);
      assert t[d + i..d + AtomEnd(s, i)] == s[i..AtomEnd(s, i)];
    }
  }

  /** A whole comment line, up to and including its line feed, yields no
      token. */
  lemma CommentLineIsDropped(comment: string, rest: string)
    requires forall k :: 0 <= k < |comment| ==> comment[k] != '\n'
    ensures Tokens(";" + comment + "\n" + rest) == Tokens(rest)
  {
    var s := ";" + comment + "\n" + rest;
    var e := |comment| + 1;
    assert s[e] == '\n';
    assert CommentEnd(s, 0) == e by {
      assert forall k :: 0 <= k < e ==> s[k] != '\n';
    }
    assert IsWhitespace(s[e]);
    assert TokensFrom(s, 0) == TokensFrom(s, e) == TokensFrom(s, e + 1);
    assert s == (";" + comment + "\n") + rest;
    TokensFromShift(";" + comment + "\n", rest, 0);
  }

  /** A token the printer below can write so that it reads back unchanged:
      a parenthesis, or an atom that does not open a comment. */
  predicate IsPrintableToken(t: string) {
    IsToken(t) && (t != "(" && t != ")" ==> t[0] != ';')
  }

  /** Writes tokens out, each followed by one space. */
  function Unwords(toks: seq<string>): string {
    if toks == [] then "" else toks[0] + " " + Unwords(toks[1..])
  }

  /** Tokenizing printed tokens gives them back. */
  lemma {:induction false} TokenizeUnwords(toks: seq<string>)
    requires forall k :: 0 <= k < |toks| ==> IsPrintableToken(toks[k])
    ensures Tokens(Unwords(toks)) == toks
  {
    if toks != [] {
      var t := toks[0];
      var rest := Unwords(toks[1..]);
      var s := Unwords(toks);
      assert s == (t + " ") + rest;
      TokenizeUnwords(toks[1..]);
      TokensFromShift(t + " ", rest, 0);
      assert s[|t|] == ' ';
      assert IsWhitespace(s[|t|]);
      if t == "(" || t == ")" {
        assert TokensFrom(s, 0) == [t] + TokensFrom(s, 1);
      } else {
        assert AtomEnd(s, 0) == |t| by {
          assert forall k :: 0 <= k < |t| ==> s[k] == t[k];
        }
        assert s[0..|t|] == t;
        assert TokensFrom(s, 0) == [t] + TokensFrom(s, |t|);
      }
    }
  }

  // ---------------------------------------------------------------------
  // S-expression parser
  // ---------------------------------------------------------------------

  /** The three failures of the parser. */
  datatype ParseError =
    | UnexpectedEndOfInput
    | UnmatchedOpeningParenthesis
    | UnexpectedClosingParenthesis

  /** The expression starting at token `start`, and the index just after it. */
  function ParseExpr(toks: seq<string>, start: nat): (r: Result<(SExpr, nat), ParseError>)
    ensures r.Ok? ==> start < r.value.1 <= |toks|
    decreases |toks| - start, 0
  {
    if start >= |toks| then Err(UnexpectedEndOfInput)
    else if toks[start] == "(" then
      match ParseElements(toks, start + 1, [])
      case Err(e) => Err(e)
      case Ok((elements, index)) => Ok((List(elements), index + 1))
    else if toks[start] == ")" then Err(UnexpectedClosingParenthesis)
    else Ok((Atom(toks[start]), start + 1))
  }

  /** The elements of a list from token `index` up to its closing
      parenthesis, appended to `elements`, and the index of that parenthesis. */
  function ParseElements(toks: seq<string>, index: nat, elements: seq<SExpr>): (r: Result<(seq<SExpr>, nat), ParseError>)
    requires index <= |toks|
    ensures r.Ok? ==> index <= r.value.1 < |toks| && toks[r.value.1] == ")"
    decreases |toks| - index, 1
  {
    if index < |toks| && toks[index] != ")" then
      match ParseExpr(toks, index)
      case Err(e) => Err(e)
      case Ok((e, next)) => ParseElements(toks, next, elements + [e])
    else if index >= |toks| then Err(UnmatchedOpeningParenthesis)
    else Ok((elements, index))
  }

  /** Every expression from token `index` on, appended to `result`. */
  function ParseAll(toks: seq<string>, index: nat, result: seq<SExpr>): Result<seq<SExpr>, ParseError>
    requires index <= |toks|
    decreases |toks| - index
  {
    if index < |toks| then
      match ParseExpr(toks, index)
      case Err(e) => Err(e)
      case Ok((e, next)) => ParseAll(toks, next, result + [e])
    else Ok(result)
  }

  /** The expressions written in a text. */
  function ParseText(input: string): Result<seq<SExpr>, ParseError> {
    ParseAll(Tokens(input), 0, [])
  }

  /** Parses one expression from token `start`; a list is read in a loop that
      parses one element after another until its closing parenthesis. */
  method ParseExpression(toks: seq<string>, start: nat) returns (r: Result<(SExpr, nat), ParseError>)
    ensures r == ParseExpr(toks, start)
    decreases |toks| - start
  {
    if start >= |toks| {
      return Err(UnexpectedEndOfInput);
    }
    if toks[start] == "(" {
      var elements := [];
      var index := start + 1;
      while index < |toks| && toks[index] != ")"
        invariant start < index <= |toks|
        invariant ParseElements(toks, index, elements) == ParseElements(toks, start + 1, [])
        decreases |toks| - index
      {
        var sub := ParseExpression(toks, index);
        if sub.Err? {
          return Err(sub.error);
        }
        elements := elements + [sub.value.0];
        index := sub.value.1;
      }
      if index >= |toks| {
        return Err(UnmatchedOpeningParenthesis);
      }
      return Ok((List(elements), index + 1));
    } else if toks[start] == ")" {
      return Err(UnexpectedClosingParenthesis);
    } else {
      return Ok((Atom(toks[start]), start + 1));
    }
  }

  /** Tokenizes the text and parses expressions until the tokens run out. */
  method ParseSExpressions(input: string) returns (r: Result<seq<SExpr>, ParseError>)
    ensures r == ParseText(input)
  {
    var toks := Tokenize(input);
    var result := [];
    var index := 0;
    while index < |toks|
      invariant index <= |toks|
      invariant ParseAll(toks, index, result) == ParseAll(toks, 0, [])
      decreases |toks| - index
    {
      var sub := ParseExpression(toks, index);
      if sub.Err? {
        return Err(sub.error);
      }
      result := result + [sub.value.0];
      index := sub.value.1;
    }
    return Ok(result);
  }

  /** The elements of a list never report a missing expression or a stray
      closing parenthesis: only an unmatched opening one. */
  lemma {:induction false} ElementsErrorIsUnmatched(toks: seq<string>, index: nat, elements: seq<SExpr>)
    requires index <= |toks|
    ensures ParseElements(toks, index, elements).Err? ==>
      ParseElements(toks, index, elements).error == UnmatchedOpeningParenthesis
    decreases |toks| - index, 1
  {
    if index < |toks| && toks[index] != ")" {
      ExprErrorInside(toks, index);
      var r := ParseExpr(toks, index);
      if r.Ok? {
        ElementsErrorIsUnmatched(toks, r.value.1, elements + [r.value.0]);
      }
    }
  }

  lemma {:induction false} ExprErrorInside(toks: seq<string>, start: nat)
    requires start < |toks| && toks[start] != ")"
    ensures ParseExpr(toks, start).Err? ==> ParseExpr(toks, start).error == UnmatchedOpeningParenthesis
    decreases |toks| - start, 0
  {
    if toks[start] == "(" {
      ElementsErrorIsUnmatched(toks, start + 1, []);
    }
  }

  /** The error cases of the parser: end of input exactly when the start is
      past the last token, a stray closing parenthesis exactly when the
      start token is one, and an unmatched opening parenthesis otherwise. */
  lemma ParseExprErrors(toks: seq<string>, start: nat)
    ensures ParseExpr(toks, start) == Err(UnexpectedEndOfInput) <==> start >= |toks|
    ensures ParseExpr(toks, start) == Err(UnexpectedClosingParenthesis) <==> start < |toks| && toks[start] == ")"
    ensures ParseExpr(toks, start).Err? && start < |toks| && toks[start] != ")" ==>
      ParseExpr(toks, start).error == UnmatchedOpeningParenthesis
  {
    if start < |toks| && toks[start] != ")" {
      ExprErrorInside(toks, start);
    }
  }

  lemma SubSlice<T>(s: seq<T>, i: nat, f: seq<T>, a: nat, b: nat)
    requires i + |f| <= |s| && s[i..i + |f|] == f && a <= b <= |f|
    ensures s[i + a..i + b] == f[a..b]
  {
    forall k | 0 <= k < b - a
      ensures s[i + a..i + b][k] == f[a..b][k]
    {
      assert s[i..i + |f|][a + k] == s[i + a + k];
    }
  }

  // ---------------------------------------------------------------------
  // Rendering S-expressions as tokens and text, and reading them back
  // ---------------------------------------------------------------------

  /** The tokens of an expression. */
  function Flatten(e: SExpr): seq<string>
    decreases e
  {
    match e
    case Atom(v) => [v]
    case List(es) => ["("] + FlattenAll(es) + [")"]
  }

  function FlattenAll(es: seq<SExpr>): seq<string>
    decreases es
  {
    if es == [] then [] else Flatten(es[0]) + FlattenAll(es[1..])
  }

  /** Atoms whose value is not a parenthesis token. */
  predicate ParsableExpr(e: SExpr)
    decreases e
  {
    match e
    case Atom(v) => v != "(" && v != ")"
    case List(es) => forall k :: 0 <= k < |es| ==> ParsableExpr(es[k])
  }

  /** Parsing the tokens of an expression gives it back and consumes exactly
      its tokens, whatever follows them. */
  lemma {:induction false} ParseFlatten(e: SExpr, toks: seq<string>, i: nat)
    requires ParsableExpr(e)
    requires i + |Flatten(e)| <= |toks| && toks[i..i + |Flatten(e)|] == Flatten(e)
    ensures ParseExpr(toks, i) == Ok((e, i + |Flatten(e)|))
    decreases e, 2
  {
    match e
    case Atom(v) =>
      assert toks[i] == Flatten(e)[0];
    case List(es) =>
      ListSlices(es, toks, i);
      ParseFlattenAll(es, toks, i + 1, []);
      assert [] + es == es;
  }

  /** The tokens of a list are its opening parenthesis, the tokens of its
      elements and its closing parenthesis. */
  lemma ListSlices(es: seq<SExpr>, toks: seq<string>, i: nat)
    requires i + |Flatten(List(es))| <= |toks| && toks[i..i + |Flatten(List(es))|] == Flatten(List(es))
    ensures |Flatten(List(es))| == |FlattenAll(es)| + 2 && toks[i] == "("
    ensures toks[i + 1..i + 1 + |FlattenAll(es)|] == FlattenAll(es)
    ensures toks[i + 1 + |FlattenAll(es)|] == ")"
  {
    var body := FlattenAll(es);
    var f := Flatten(List(es));
    assert f == ["("] + body + [")"];
    assert toks[i] == f[0];
    SubSlice(toks, i, f, 1, 1 + |body|);
    assert f[1..1 + |body|] == body;
    assert toks[i + 1 + |body|] == f[1 + |body|] == ")";
  }

  lemma {:induction false} ParseFlattenAll(es: seq<SExpr>, toks: seq<string>, i: nat, acc: seq<SExpr>)
    requires forall k :: 0 <= k < |es| ==> ParsableExpr(es[k])
    requires i + |FlattenAll(es)| < |toks| && toks[i..i + |FlattenAll(es)|] == FlattenAll(es)
    requires toks[i + |FlattenAll(es)|] == ")"
    ensures ParseElements(toks, i, acc) == Ok((acc + es, i + |FlattenAll(es)|))
    decreases es, 1
  {
    if es == [] {
      assert acc + es == acc;
    } else {
      ParseFlattenCons(es, toks, i, acc);
    }
  }

  lemma {:induction false} ParseFlattenCons(es: seq<SExpr>, toks: seq<string>, i: nat, acc: seq<SExpr>)
    requires es != []
    requires forall k :: 0 <= k < |es| ==> ParsableExpr(es[k])
    requires i + |FlattenAll(es)| < |toks| && toks[i..i + |FlattenAll(es)|] == FlattenAll(es)
    requires toks[i + |FlattenAll(es)|] == ")"
    ensures ParseElements(toks, i, acc) == Ok((acc + es, i + |FlattenAll(es)|))
    decreases es, 0
  {
    var next := ConsSlices(es, toks, i);
    var acc' := acc + [es[0]];
    ParseFirstElement(es[0], toks, i, acc);
    ParsableTail(es);
    ParseFlattenAll(es[1..], toks, next, acc');
    assert acc' + es[1..] == acc + es;
  }

  /** The tokens of a non-empty list of expressions split after those of the
      first one. */
  lemma ConsSlices(es: seq<SExpr>, toks: seq<string>, i: nat) returns (next: nat)
    requires es != []
    requires i + |FlattenAll(es)| <= |toks| && toks[i..i + |FlattenAll(es)|] == FlattenAll(es)
    ensures next == i + |Flatten(es[0])| && next + |FlattenAll(es[1..])| == i + |FlattenAll(es)|
    ensures toks[i..next] == Flatten(es[0])
    ensures toks[next..next + |FlattenAll(es[1..])|] == FlattenAll(es[1..])
  {
    var f := Flatten(es[0]);
    var rest := FlattenAll(es[1..]);
    assert FlattenAll(es) == f + rest;
    SliceConcat(toks, i, f, rest);
    next := i + |f|;
  }

  lemma ParsableTail(es: seq<SExpr>)
    requires es != [] && forall k :: 0 <= k < |es| ==> ParsableExpr(es[k])
    ensures forall k :: 0 <= k < |es[1..]| ==> ParsableExpr(es[1..][k])
  {
    assert forall k :: 0 <= k < |es[1..]| ==> es[1..][k] == es[k + 1];
  }

  /** The element loop reads a parsable expression whole and carries on
      after it. */
  lemma {:induction false} ParseFirstElement(e: SExpr, toks: seq<string>, i: nat, acc: seq<SExpr>)
    requires ParsableExpr(e)
    requires i + |Flatten(e)| <= |toks| && toks[i..i + |Flatten(e)|] == Flatten(e)
    ensures ParseElements(toks, i, acc) == ParseElements(toks, i + |Flatten(e)|, acc + [e])
    decreases e, 3
  {
    FlattenFirst(e);
    ParseFlatten(e, toks, i);
    ElementsStep(toks, i, acc);
  }

  lemma SliceConcat<T>(s: seq<T>, i: nat, f: seq<T>, g: seq<T>)
    requires i + |f| + |g| <= |s| && s[i..i + |f| + |g|] == f + g
    ensures s[i..i + |f|] == f && s[i + |f|..i + |f| + |g|] == g
  {
    SubSlice(s, i, f + g, 0, |f|);
    assert (f + g)[0..|f|] == f;
    SubSlice(s, i, f + g, |f|, |f| + |g|);
    assert (f + g)[|f|..|f| + |g|] == g;
  }

  /** One step of the element loop: parse an element and carry on after it. */
  lemma ElementsStep(toks: seq<string>, i: nat, acc: seq<SExpr>)
    requires i < |toks| && toks[i] != ")" && ParseExpr(toks, i).Ok?
    ensures ParseElements(toks, i, acc) ==
      ParseElements(toks, ParseExpr(toks, i).value.1, acc + [ParseExpr(toks, i).value.0])
  {
  }

  /** The first token of a parsable expression is never a closing parenthesis. */
  lemma FlattenFirst(e: SExpr)
    requires ParsableExpr(e)
    ensures |Flatten(e)| > 0 && Flatten(e)[0] != ")"
  {
  }

  /** Reading the tokens of several expressions gives them back, consuming
      every token. */
  lemma {:induction false} ParseAllFlatten(es: seq<SExpr>, toks: seq<string>, i: nat, acc: seq<SExpr>)
    requires forall k :: 0 <= k < |es| ==> ParsableExpr(es[k])
    requires i + |FlattenAll(es)| == |toks| && toks[i..] == FlattenAll(es)
    ensures ParseAll(toks, i, acc) == Ok(acc + es)
    decreases es
  {
    if es != [] {
      assert toks[i..i + |FlattenAll(es)|] == FlattenAll(es);
      var next := ConsSlices(es, toks, i);
      ParseFlatten(es[0], toks, i);
      ParseAllStep(toks, i, acc, es[0], next);
      ParsableTail(es);
      assert toks[next..] == FlattenAll(es[1..]);
      ParseAllFlatten(es[1..], toks, next, acc + [es[0]]);
      assert acc + [es[0]] + es[1..] == acc + es;
    } else {
      assert acc + es == acc;
    }
  }

  /** The top-level loop reads one expression and carries on after it. */
  lemma ParseAllStep(toks: seq<string>, i: nat, acc: seq<SExpr>, e: SExpr, next: nat)
    requires i <= |toks| && ParseExpr(toks, i) == Ok((e, next))
    ensures next <= |toks| && ParseAll(toks, i, acc) == ParseAll(toks, next, acc + [e])
  {
  }

  /** A list whose tokens stop before its closing parenthesis is reported as
      an unmatched opening parenthesis. */
  lemma {:induction false} TruncatedListIsUnmatched(e: SExpr, toks: seq<string>, i: nat)
    requires ParsableExpr(e) && e.List?
    requires i < |toks| && |toks| - i < |Flatten(e)| && toks[i..] == Flatten(e)[..|toks| - i]
    ensures ParseExpr(toks, i) == Err(UnmatchedOpeningParenthesis)
    decreases e, 1
  {
    assert toks[i] == Flatten(e)[0] == "(";
    var es := e.elements;
    assert toks[i + 1..] == (FlattenAll(es) + [")"])[..|toks| - i - 1] by {
      assert Flatten(e) == ["("] + (FlattenAll(es) + [")"]);
    }
    TruncatedElementsAreUnmatched(es, toks, i + 1, []);
  }

  lemma {:induction false} TruncatedElementsAreUnmatched(es: seq<SExpr>, toks: seq<string>, i: nat, acc: seq<SExpr>)
    requires forall k :: 0 <= k < |es| ==> ParsableExpr(es[k])
    requires i <= |toks| && |toks| - i < |FlattenAll(es)| + 1
    requires toks[i..] == (FlattenAll(es) + [")"])[..|toks| - i]
    ensures ParseElements(toks, i, acc) == Err(UnmatchedOpeningParenthesis)
    decreases es, 0
  {
    if i < |toks| {
      assert es != [];
      var f := Flatten(es[0]);
      var rest := FlattenAll(es[1..]);
      assert FlattenAll(es) + [")"] == f + (rest + [")"]);
      FlattenFirst(es[0]);
      assert toks[i] == f[0];
      if |toks| - i >= |f| {
        var whole := f + (rest + [")"]);
        var n := |toks| - i;
        assert toks[i..] == whole[..n];
        assert toks[i..i + |f|] == toks[i..][..|f|] == whole[..n][..|f|] == f;
        ParseFlatten(es[0], toks, i);
        assert toks[i + |f|..] == toks[i..][|f|..] == whole[..n][|f|..] == (rest + [")"])[..n - |f|];
        TruncatedElementsAreUnmatched(es[1..], toks, i + |f|, acc + [es[0]]);
      } else {
        assert es[0].Atom? ==> |f| == 1;
        assert toks[i..] == f[..|toks| - i];
        TruncatedListIsUnmatched(es[0], toks, i);
      }
    }
  }

  /** The text form of expressions: their tokens, each followed by a space. */
  function Print(es: seq<SExpr>): string {
    Unwords(FlattenAll(es))
  }

  /** Atoms the text form can carry: non-empty, free of whitespace and
      parentheses, and not starting a comment. */
  predicate PrintableExpr(e: SExpr)
    decreases e
  {
    match e
    case Atom(v) => IsToken(v) && v != "(" && v != ")" && v[0] != ';'
    case List(es) => forall k :: 0 <= k < |es| ==> PrintableExpr(es[k])
  }

  lemma {:induction false} PrintableTokens(e: SExpr)
    requires PrintableExpr(e)
    ensures forall k :: 0 <= k < |Flatten(e)| ==> IsPrintableToken(Flatten(e)[k])
    ensures ParsableExpr(e)
    decreases e, 1
  {
    match e
    case Atom(v) =>
    case List(es) =>
      PrintableAllTokens(es);
  }

  lemma {:induction false} PrintableAllTokens(es: seq<SExpr>)
    requires forall k :: 0 <= k < |es| ==> PrintableExpr(es[k])
    ensures forall k :: 0 <= k < |FlattenAll(es)| ==> IsPrintableToken(FlattenAll(es)[k])
    ensures forall k :: 0 <= k < |es| ==> ParsableExpr(es[k])
    decreases es, 0
  {
    if es != [] {
      PrintableTokens(es[0]);
      PrintableAllTokens(es[1..]);
      forall k | 1 <= k < |es| ensures ParsableExpr(es[k]) {
        assert es[k] == es[1..][k - 1];
      }
    }
  }

  /** Round trip: reading the printed form of expressions gives them back. */
  lemma ParsePrint(es: seq<SExpr>)
    requires forall k :: 0 <= k < |es| ==> PrintableExpr(es[k])
    ensures ParseText(Print(es)) == Ok(es)
  {
    PrintableAllTokens(es);
    TokenizeUnwords(FlattenAll(es));
    ParseAllFlatten(es, FlattenAll(es), 0, []);
    assert [] + es == es;
  }

  // ---------------------------------------------------------------------
  // The contents of a (model ...) form
  // ---------------------------------------------------------------------

  /** `mapNotNull { (it as? Atom)?.value }`: the atom values, lists skipped. */
  function AtomValues(es: seq<SExpr>): (r: seq<string>)
    ensures |r| <= |es|
  {
    if es == [] then [] else (if es[0].Atom? then [es[0].value] else []) + AtomValues(es[1..])
  }

  /** When every element is an atom, their values are kept one for one, in order. */
  lemma {:induction false} AtomValuesOfAtoms(es: seq<SExpr>)
    requires forall k :: 0 <= k < |es| ==> es[k].Atom?
    ensures |AtomValues(es)| == |es|
    ensures forall k :: 0 <= k < |es| ==> AtomValues(es)[k] == es[k].value
  {
    if es != [] {
      AtomValuesOfAtoms(es[1..]);
    }
  }

  predicate IsPair(e: SExpr) {
    e.List? && |e.elements| == 2
  }

  /** The constant a `(name sort)` pair declares, if both are atoms. */
  function PairConstant(p: SExpr): seq<FOLConstant>
    requires IsPair(p)
  {
    if p.elements[0].Atom? && p.elements[1].Atom? then [FOLConstant(p.elements[0].value, p.elements[1].value)] else []
  }

  function PairConstants(pairs: seq<SExpr>): seq<FOLConstant>
    requires forall k :: 0 <= k < |pairs| ==> IsPair(pairs[k])
  {
    if pairs == [] then [] else PairConstants(pairs[..|pairs| - 1]) + PairConstant(pairs[|pairs| - 1])
  }

  /** A list of `(name sort)` pairs of atoms declares one constant per pair,
      in order. */
  lemma {:induction false} PairConstantsOfAtoms(pairs: seq<SExpr>)
    requires forall k :: 0 <= k < |pairs| ==> IsPair(pairs[k]) && pairs[k].elements[0].Atom? && pairs[k].elements[1].Atom?
    ensures |PairConstants(pairs)| == |pairs|
    ensures forall k :: 0 <= k < |pairs| ==>
      PairConstants(pairs)[k] == FOLConstant(pairs[k].elements[0].value, pairs[k].elements[1].value)
  {
    if pairs != [] {
      PairConstantsOfAtoms(pairs[..|pairs| - 1]);
    }
  }

  /** What one element inside a model form contributes. */
  datatype ModelForm =
    | ConstantDecls(constants: seq<FOLConstant>)
    | FunctionFact(name: string, tuple: Fact)
    | RelationFact(name: string, tuple: Fact)
    | Ignored

  function ClassifyModelForm(x: SExpr): ModelForm {
    if x.Atom? || x.elements == [] then Ignored
    else if forall k :: 0 <= k < |x.elements| ==> IsPair(x.elements[k]) then ConstantDecls(PairConstants(x.elements))
    else if x.elements[0] == Atom("=") then
      if |x.elements| == 3 && x.elements[1].List? && x.elements[1].elements != []
         && x.elements[2].Atom? && x.elements[1].elements[0].Atom?
      then FunctionFact(x.elements[1].elements[0].value, AtomValues(x.elements[1].elements[1..]) + [x.elements[2].value])
      else Ignored
    else if x.elements[0].Atom? then RelationFact(x.elements[0].value, AtomValues(x.elements[1..]))
    else Ignored
  }

  /** `getOrPut(name) { mutableListOf() }.add(tuple)`. */
  function AddFact(m: map<string, seq<Fact>>, name: string, tuple: Fact): (r: map<string, seq<Fact>>)
    ensures r.Keys == m.Keys + {name}
    ensures r[name] == (if name in m then m[name] else []) + [tuple]
    ensures forall n :: n in m && n != name ==> r[n] == m[n]
  {
    m[name := (if name in m then m[name] else []) + [tuple]]
  }

  function AddModelForm(st: FOLStructure, f: ModelForm): FOLStructure {
    match f
    case ConstantDecls(cs) => st.(constants := st.constants + cs)
    case FunctionFact(n, t) => st.(functionFacts := AddFact(st.functionFacts, n, t))
    case RelationFact(n, t) => st.(relationFacts := AddFact(st.relationFacts, n, t))
    case Ignored => st
  }

  /** The structure described by the elements of a model form. */
  function ModelOf(es: seq<SExpr>): FOLStructure {
    if es == [] then FOLStructure([], map[], map[])
    else AddModelForm(ModelOf(es[..|es| - 1]), ClassifyModelForm(es[|es| - 1]))
  }

  /** The constants a list of `(name sort)` pairs declares, in order. */
  method DeclaredConstants(items: seq<SExpr>) returns (constants: seq<FOLConstant>)
    requires forall k :: 0 <= k < |items| ==> IsPair(items[k])
    ensures constants == PairConstants(items)
  {
    constants := [];
    for j := 0 to |items|
      invariant constants == PairConstants(items[..j])
    {
      assert items[..j + 1][..j] == items[..j];
      var pair := items[j].elements;
      if pair[0].Atom? && pair[1].Atom? {
        constants := constants + [FOLConstant(pair[0].value, pair[1].value)];
      }
    }
    assert items[..|items|] == items;
  }

  /** Reads the elements of a model form one after another: a list of pairs
      declares constants, `(= (f a1 .. an) r)` adds a function fact and any
      other list headed by an atom adds a relation fact. */
  method ParseModelContents(elements: seq<SExpr>) returns (st: FOLStructure)
    ensures st == ModelOf(elements)
  {
    var constants: seq<FOLConstant> := [];
    var relationFacts: map<string, seq<Fact>> := map[];
    var functionFacts: map<string, seq<Fact>> := map[];
    for i := 0 to |elements|
      invariant FOLStructure(constants, relationFacts, functionFacts) == ModelOf(elements[..i])
    {
      var element := elements[i];
      assert elements[..i + 1][..i] == elements[..i];
      if element.List? && element.elements != [] {
        var items := element.elements;
        if forall k :: 0 <= k < |items| ==> IsPair(items[k]) {
          var declared := DeclaredConstants(items);
          constants := constants + declared;
        } else {
          var head := if items[0].Atom? then Some(items[0].value) else None;
          if head == Some("=") {
            if |items| == 3 && items[1].List? {
              var funcCall := items[1].elements;
              if funcCall != [] && items[2].Atom? {
                var result := items[2].value;
                if funcCall[0].Atom? {
                  var funcName := funcCall[0].value;
                  var args := AtomValues(funcCall[1..]);
                  var existing := if funcName in functionFacts then functionFacts[funcName] else [];
                  functionFacts := functionFacts[funcName := existing + [args + [result]]];
                }
              }
            }
          } else if head.Some? {
            var args := AtomValues(items[1..]);
            var existing := if head.value in relationFacts then relationFacts[head.value] else [];
            relationFacts := relationFacts[head.value := existing + [args]];
          }
        }
      }
    }
    assert elements[..|elements|] == elements;
    st := FOLStructure(constants, relationFacts, functionFacts);
  }

  /** The tuples that the elements give to relation `name`, in order. */
  function RelationTuples(es: seq<SExpr>, name: string): seq<Fact> {
    if es == [] then [] else
    var f := ClassifyModelForm(es[|es| - 1]);
    RelationTuples(es[..|es| - 1], name) + (if f.RelationFact? && f.name == name then [f.tuple] else [])
  }

  /** The tuples that the elements give to function `name`, in order. */
  function FunctionTuples(es: seq<SExpr>, name: string): seq<Fact> {
    if es == [] then [] else
    var f := ClassifyModelForm(es[|es| - 1]);
    FunctionTuples(es[..|es| - 1], name) + (if f.FunctionFact? && f.name == name then [f.tuple] else [])
  }

  /** The fact maps of a model, read key by key: a relation (function) has an
      entry exactly when some element gives it a tuple, and its entry lists
      those tuples in the order of the elements. */
  lemma {:induction false} ModelFactsByName(es: seq<SExpr>)
    ensures forall n :: n in ModelOf(es).relationFacts <==> RelationTuples(es, n) != []
    ensures forall n :: n in ModelOf(es).relationFacts ==> ModelOf(es).relationFacts[n] == RelationTuples(es, n)
    ensures forall n :: n in ModelOf(es).functionFacts <==> FunctionTuples(es, n) != []
    ensures forall n :: n in ModelOf(es).functionFacts ==> ModelOf(es).functionFacts[n] == FunctionTuples(es, n)
  {
    RelationFactsByName(es);
    FunctionFactsByName(es);
  }

  lemma {:induction false} RelationFactsByName(es: seq<SExpr>)
    ensures forall n :: n in ModelOf(es).relationFacts <==> RelationTuples(es, n) != []
    ensures forall n :: n in ModelOf(es).relationFacts ==> ModelOf(es).relationFacts[n] == RelationTuples(es, n)
  {
    if es != [] {
      var pre := es[..|es| - 1];
      RelationFactsByName(pre);
      var f := ClassifyModelForm(es[|es| - 1]);
      var m := ModelOf(pre).relationFacts;
      assert ModelOf(es).relationFacts == if f.RelationFact? then AddFact(m, f.name, f.tuple) else m;
    }
  }

  lemma {:induction false} FunctionFactsByName(es: seq<SExpr>)
    ensures forall n :: n in ModelOf(es).functionFacts <==> FunctionTuples(es, n) != []
    ensures forall n :: n in ModelOf(es).functionFacts ==> ModelOf(es).functionFacts[n] == FunctionTuples(es, n)
  {
    if es != [] {
      var pre := es[..|es| - 1];
      FunctionFactsByName(pre);
      var f := ClassifyModelForm(es[|es| - 1]);
      var m := ModelOf(pre).functionFacts;
      assert ModelOf(es).functionFacts == if f.FunctionFact? then AddFact(m, f.name, f.tuple) else m;
    }
  }

  // ---------------------------------------------------------------------
  // Top-level forms
  // ---------------------------------------------------------------------

  /** What one top-level form contributes to the learning task. */
  datatype TopForm =
    | SortDecl(sort: FOLSort)
    | RelationDecl(relation: FOLRelation)
    | FunctionDecl(func: FOLFunction)
    | ModelDecl(example: FOLExample)
    | Skipped

  function ClassifyTopForm(x: SExpr): TopForm {
    if x.Atom? || x.elements == [] || !x.elements[0].Atom? then Skipped
    else
      var es := x.elements;
      var head := es[0].value;
      if head == "sort" then
        if |es| >= 2 && es[1].Atom? then SortDecl(FOLSort(es[1].value)) else Skipped
      else if head == "relation" then
        if |es| >= 3 && es[1].Atom? then RelationDecl(FOLRelation(es[1].value, AtomValues(es[2..]))) else Skipped
      else if head == "function" then
        if |es| >= 3 && es[1].Atom? then FunctionDecl(FOLFunction(es[1].value, AtomValues(es[2..]))) else Skipped
      else if head == "model" then
        if |es| >= 3 then ModelDecl(FOLExample(ModelOf(es[2..]), es[1] == Atom("+"))) else Skipped
      else Skipped
  }

  /** The parts of a task collected from the top-level forms. */
  datatype TaskParts = TaskParts(
    sorts: seq<FOLSort>,
    relations: seq<FOLRelation>,
    functions: seq<FOLFunction>,
    positives: seq<FOLExample>,
    negatives: seq<FOLExample>)

  const NoParts := TaskParts([], [], [], [], [])

  function AddTopForm(p: TaskParts, f: TopForm): TaskParts {
    match f
    case SortDecl(s) => p.(sorts := p.sorts + [s])
    case RelationDecl(r) => p.(relations := p.relations + [r])
    case FunctionDecl(g) => p.(functions := p.functions + [g])
    case ModelDecl(e) => if e.isPositive then p.(positives := p.positives + [e]) else p.(negatives := p.negatives + [e])
    case Skipped => p
  }

  function PartsOf(xs: seq<SExpr>): TaskParts {
    if xs == [] then NoParts else AddTopForm(PartsOf(xs[..|xs| - 1]), ClassifyTopForm(xs[|xs| - 1]))
  }

  function ConcatParts(p: TaskParts, q: TaskParts): TaskParts {
    TaskParts(p.sorts + q.sorts, p.relations + q.relations, p.functions + q.functions,
              p.positives + q.positives, p.negatives + q.negatives)
  }

  /** The learning task of the S-expression format: at most eight nodes, and the
      defaults for everything the format cannot say. */
  function TaskFromForms(xs: seq<SExpr>): (t: FOLTask)
    ensures t.maxNumOfNode == 8 && t.maxQuantifiers == 3 && t.excludedOperators == []
    ensures forall k :: 0 <= k < |t.positiveExamples| ==> t.positiveExamples[k].isPositive
    ensures forall k :: 0 <= k < |t.negativeExamples| ==> !t.negativeExamples[k].isPositive
  {
    PartsLabels(xs);
    var p := PartsOf(xs);
    NewTask(p.sorts, p.relations, p.functions, p.positives, p.negatives, 8)
  }

  /** Examples land in the list that matches their label. */
  lemma {:induction false} PartsLabels(xs: seq<SExpr>)
    ensures forall k :: 0 <= k < |PartsOf(xs).positives| ==> PartsOf(xs).positives[k].isPositive
    ensures forall k :: 0 <= k < |PartsOf(xs).negatives| ==> !PartsOf(xs).negatives[k].isPositive
  {
    if xs != [] {
      PartsLabels(xs[..|xs| - 1]);
    }
  }

  /** Reading forms one after another: what a run of forms contributes does
      not depend on what came before it. */
  lemma {:induction false} PartsOfAppend(xs: seq<SExpr>, ys: seq<SExpr>)
    ensures PartsOf(xs + ys) == ConcatParts(PartsOf(xs), PartsOf(ys))
    decreases |ys|
  {
    if ys == [] {
      assert xs + ys == xs;
      var p := PartsOf(xs);
      assert p.sorts + [] == p.sorts && p.relations + [] == p.relations && p.functions + [] == p.functions;
      assert p.positives + [] == p.positives && p.negatives + [] == p.negatives;
    } else {
      var ys' := ys[..|ys| - 1];
      assert (xs + ys)[..|xs + ys| - 1] == xs + ys';
      assert (xs + ys)[|xs + ys| - 1] == ys[|ys| - 1];
      PartsOfAppend(xs, ys');
      AddAfterConcat(PartsOf(xs), PartsOf(ys'), ClassifyTopForm(ys[|ys| - 1]));
    }
  }

  lemma AddAfterConcat(p: TaskParts, q: TaskParts, f: TopForm)
    ensures AddTopForm(ConcatParts(p, q), f) == ConcatParts(p, AddTopForm(q, f))
  {
    match f
    case SortDecl(s) => assert p.sorts + q.sorts + [s] == p.sorts + (q.sorts + [s]);
    case RelationDecl(r) => assert p.relations + q.relations + [r] == p.relations + (q.relations + [r]);
    case FunctionDecl(g) => assert p.functions + q.functions + [g] == p.functions + (q.functions + [g]);
    case ModelDecl(e) =>
      assert p.positives + q.positives + [e] == p.positives + (q.positives + [e]);
      assert p.negatives + q.negatives + [e] == p.negatives + (q.negatives + [e]);
    case Skipped =>
  }

  /** Atoms at the top level, empty lists and lists with an unknown head
      change nothing. */
  lemma SkippedFormsAreIgnored(xs: seq<SExpr>, x: SExpr, ys: seq<SExpr>)
    requires ClassifyTopForm(x) == Skipped
    ensures PartsOf(xs + [x] + ys) == PartsOf(xs + ys)
  {
    PartsOfAppend(xs + [x], ys);
    PartsOfAppend(xs, ys);
    assert (xs + [x])[..|xs + [x]| - 1] == xs;
  }

  /** `(relation r S1 .. Sk)` declares `r` with the signature `S1 .. Sk`. */
  lemma RelationForm(r: string, sorts: seq<string>)
    requires |sorts| >= 1
    ensures ClassifyTopForm(List([Atom("relation"), Atom(r)] + seq(|sorts|, k requires 0 <= k < |sorts| => Atom(sorts[k]))))
      == RelationDecl(FOLRelation(r, sorts))
  {
    var args := seq(|sorts|, k requires 0 <= k < |sorts| => Atom(sorts[k]));
    var es := [Atom("relation"), Atom(r)] + args;
    assert es[2..] == args;
    AtomValuesOfAtoms(args);
  }

  /** `(model p e1 .. en)` is a positive example exactly when `p` is the atom
      `+`; anything else in that place makes it negative. */
  lemma ModelFormPolarity(polarity: SExpr, body: seq<SExpr>)
    requires |body| >= 1
    ensures ClassifyTopForm(List([Atom("model"), polarity] + body)) ==
      ModelDecl(FOLExample(ModelOf(body), polarity == Atom("+")))
  {
    assert ([Atom("model"), polarity] + body)[2..] == body;
  }

  /** Parses the text, then walks the top-level forms into a task. */
  method ParseFolFormat(text: string) returns (r: Result<FOLTask, ParseError>)
    ensures r == FolFormat(text)
  {
    var parsed := ParseSExpressions(text);
    if parsed.Err? {
      return Err(parsed.error);
    }
    var sexprs := parsed.value;
    var sorts: seq<FOLSort> := [];
    var relations: seq<FOLRelation> := [];
    var functions: seq<FOLFunction> := [];
    var positiveExamples: seq<FOLExample> := [];
    var negativeExamples: seq<FOLExample> := [];
    for i := 0 to |sexprs|
      invariant TaskParts(sorts, relations, functions, positiveExamples, negativeExamples) == PartsOf(sexprs[..i])
    {
      var sexpr := sexprs[i];
      assert sexprs[..i + 1][..i] == sexprs[..i];
      if sexpr.List? && sexpr.elements != [] {
        var es := sexpr.elements;
        var head := if es[0].Atom? then Some(es[0].value) else None;
        if head == Some("sort") {
          if |es| >= 2 && es[1].Atom? {
            sorts := sorts + [FOLSort(es[1].value)];
          }
        } else if head == Some("relation") {
          if |es| >= 3 {
            var signature := AtomValues(es[2..]);
            if es[1].Atom? {
              relations := relations + [FOLRelation(es[1].value, signature)];
            }
          }
        } else if head == Some("function") {
          if |es| >= 3 {
            var signature := AtomValues(es[2..]);
            if es[1].Atom? {
              functions := functions + [FOLFunction(es[1].value, signature)];
            }
          }
        } else if head == Some("model") {
          if |es| >= 3 {
            var isPositive := es[1] == Atom("+");
            var example := ParseModelContents(es[2..]);
            if isPositive {
              positiveExamples := positiveExamples + [FOLExample(example, true)];
            } else {
              negativeExamples := negativeExamples + [FOLExample(example, false)];
            }
          }
        }
      }
    }
    assert sexprs[..|sexprs|] == sexprs;
    return Ok(NewTask(sorts, relations, functions, positiveExamples, negativeExamples, 8));
  }

  function FolFormat(text: string): Result<FOLTask, ParseError> {
    match ParseText(text)
    case Err(e) => Err(e)
    case Ok(xs) => Ok(TaskFromForms(xs))
  }

  // ---------------------------------------------------------------------
  // Choosing the format, and the summary line
  // ---------------------------------------------------------------------

  /** A task file fails either in the S-expression reader or in the JSON
      decoder. */
  datatype TaskError = SyntaxError(error: ParseError) | JsonError(message: string)

  /** JSON is chosen by the file name or by a text that starts with `{`. */
  predicate IsJsonInput(text: string, filename: string) {
    EndsWith(filename, ".json") || StartsWith(Trim(text), "{")
  }

  /** Reads a task; `decodeJson` stands for the JSON library. */
  function ParseTask(text: string, filename: string, decodeJson: string -> Result<FOLTask, TaskError>): Result<FOLTask, TaskError> {
    if IsJsonInput(text, filename) then decodeJson(text)
    else
      match FolFormat(text)
      case Err(e) => Err(SyntaxError(e))
      case Ok(t) => Ok(t)
  }

  /** Trimming keeps a first character that is not whitespace. */
  lemma {:induction false} TrimKeepsFirst(s: string)
    requires s != [] && !IsWhitespace(s[0])
    ensures Trim(s) != [] && Trim(s)[0] == s[0]
    decreases |s|
  {
    if |s| > 1 && IsWhitespace(s[|s| - 1]) {
      TrimKeepsFirst(s[..|s| - 1]);
    }
  }

  /** A file named `*.json` always goes to the JSON decoder. */
  lemma JsonFileName(text: string, filename: string, decodeJson: string -> Result<FOLTask, TaskError>)
    requires EndsWith(filename, ".json")
    ensures ParseTask(text, filename, decodeJson) == decodeJson(text)
  {
  }

  /** End to end: printed forms that start with a list, in a file not named
      `*.json`, read back as the learning task those forms describe. */
  lemma ParsePrintedTask(xs: seq<SExpr>, filename: string, decodeJson: string -> Result<FOLTask, TaskError>)
    requires xs != [] && xs[0].List?
    requires forall k :: 0 <= k < |xs| ==> PrintableExpr(xs[k])
    requires !EndsWith(filename, ".json")
    ensures ParseTask(Print(xs), filename, decodeJson) == Ok(TaskFromForms(xs))
  {
    ParsePrint(xs);
    PrintOpensList(xs);
    TrimKeepsFirst(Print(xs));
  }

  lemma PrintOpensList(xs: seq<SExpr>)
    requires xs != [] && xs[0].List?
    requires forall k :: 0 <= k < |xs| ==> PrintableExpr(xs[k])
    ensures |Print(xs)| > 0 && Print(xs)[0] == '('
  {
    ParsePrint(xs);
    assert FlattenAll(xs) == Flatten(xs[0]) + FlattenAll(xs[1..]);
    assert FlattenAll(xs)[0] == "(";
  }

  /** The summary line: positives, negatives, node bound, sorts, relations. */
  function CsvLine(t: FOLTask): string {
    JoinFields([NatToString(|t.positiveExamples|), NatToString(|t.negativeExamples|),
      IntToString(t.maxNumOfNode), NatToString(|t.sorts|), NatToString(|t.relations|)])
  }

  /** The summary line splits at its commas into the five counts, each
      written in decimal. */
  lemma CsvFields(t: FOLTask)
    ensures Split(CsvLine(t), ',') == [NatToString(|t.positiveExamples|), NatToString(|t.negativeExamples|),
      IntToString(t.maxNumOfNode), NatToString(|t.sorts|), NatToString(|t.relations|)]
  {
    var fs := [NatToString(|t.positiveExamples|), NatToString(|t.negativeExamples|),
      IntToString(t.maxNumOfNode), NatToString(|t.sorts|), NatToString(|t.relations|)];
    if t.maxNumOfNode < 0 {
      assert IntToString(t.maxNumOfNode) == "-" + NatToString(-t.maxNumOfNode);
    }
    SplitJoin(fs);
  }
}

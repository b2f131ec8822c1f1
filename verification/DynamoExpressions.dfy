/**
 Condition expressions (internal/server/dynamodb.go): a tokenizer and a recursive-descent parser that
 builds evaluators.  Text is bytes, one `char` a byte, as the tokenizer looks at it; the comparison of two
 values and the prefix test are parameters.
 */
module DynamoExpressions {
  import opened Common
  import opened DynamoValues

  /* ------------------------------ Tokens ------------------------------ */

  predicate IsSpace(c: char) {
    c == ' ' || '\t' <= c <= '\r' || c == '\U{0085}' || c == '\U{00A0}'
  }

  predicate IsPunctuation(c: char) {
    c == '(' || c == ')' || c == ',' || c == '='
  }

  predicate IsWordChar(c: char) {
    !IsSpace(c) && !IsPunctuation(c) && c != '<' && c != '>'
  }

  /** Length of the leading word. */
  function WordLength(s: string): (n: nat)
    ensures n <= |s| && (forall i :: 0 <= i < n ==> IsWordChar(s[i])) && (n < |s| ==> !IsWordChar(s[n]))
  {
    if s == "" || !IsWordChar(s[0]) then 0 else 1 + WordLength(s[1..])
  }

  /** Length of the comparison at the front: "<=", ">=", "<>", or one character. */
  function ComparisonLength(s: string): (n: nat)
    requires s != ""
    ensures 1 <= n <= 2 && n <= |s|
  {
    if |s| > 1 && (s[1] == '=' || (s[0] == '<' && s[1] == '>')) then 2 else 1
  }

  function Tokens(s: string): seq<string> {
    if s == "" then []
    else if IsSpace(s[0]) then Tokens(s[1..])
    else if IsPunctuation(s[0]) then [s[..1]] + Tokens(s[1..])
    else if s[0] == '<' || s[0] == '>' then
      var n := ComparisonLength(s);
      [s[..n]] + Tokens(s[n..])
    else
      var n := WordLength(s);
      [s[..n]] + Tokens(s[n..])
  }

  /** Length of the token at the front of `s`. */
  function TokenLength(s: string): (n: nat)
    requires s != "" && !IsSpace(s[0])
    ensures 0 < n <= |s|
  {
    if IsPunctuation(s[0]) then 1 else if s[0] == '<' || s[0] == '>' then ComparisonLength(s) else WordLength(s)
  }

  lemma TokenStep(s: string, index: nat, end: nat)
    requires index < end <= |s| && !IsSpace(s[index]) && end - index == TokenLength(s[index..])
    ensures Tokens(s[index..]) == [s[index..end]] + Tokens(s[end..])
  {
    var rest := s[index..];
    assert rest[end - index..] == s[end..] && rest[..end - index] == s[index..end];
  }

  method WordEnd(expression: string, index: nat) returns (end: nat)
    requires index < |expression| && IsWordChar(expression[index])
    ensures index < end <= |expression| && end - index == WordLength(expression[index..])
  {
    end := index;
    while end < |expression| && IsWordChar(expression[end])
      invariant index <= end <= |expression| && forall i :: index <= i < end ==> IsWordChar(expression[i])
    {
      end := end + 1;
    }
  }

  /** The end of the token that starts at `index`. */
  method TokenEnd(expression: string, index: nat) returns (end: nat)
    requires index < |expression| && !IsSpace(expression[index])
    ensures index < end <= |expression| && end - index == TokenLength(expression[index..])
  {
    var c := expression[index];
    end := index + 1;
    if IsPunctuation(c) {
    } else if c == '<' || c == '>' {
      if end < |expression| && (expression[end] == '=' || (c == '<' && expression[end] == '>')) {
        end := end + 1;
      }
    } else {
      end := WordEnd(expression, index);
    }
  }

  /** `tokenizeDynamoExpression`. */
  method Tokenize(expression: string) returns (tokens: seq<string>)
    ensures tokens == Tokens(expression)
  {
    tokens := [];
    var index := 0;
    assert expression[0..] == expression && Tokens("") == [];
    hide Tokens, TokenLength;
    while index < |expression|
      invariant index <= |expression| && tokens + Tokens(expression[index..]) == Tokens(expression)
    {
      var c := expression[index];
      if IsSpace(c) {
        index := index + 1;
        continue;
      }
      var end := TokenEnd(expression, index);
      TokenStep(expression, index, end);
      assert tokens + ([expression[index..end]] + Tokens(expression[end..])) == tokens + [expression[index..end]] + Tokens(expression[end..]);
      tokens, index := tokens + [expression[index..end]], end;
    }
    assert expression[index..] == "";
  }

  predicate IsWord(t: string) {
    t != "" && forall i :: 0 <= i < |t| ==> IsWordChar(t[i])
  }

  predicate IsComparison(t: string) {
    t == "<" || t == ">" || t == "<=" || t == ">=" || t == "<>"
  }

  predicate IsToken(t: string) {
    IsWord(t) || IsComparison(t) || (|t| == 1 && IsPunctuation(t[0]))
  }

  function Flat(tokens: seq<string>): string {
    if tokens == [] then "" else tokens[0] + Flat(tokens[1..])
  }

  function WithoutSpaces(s: string): string {
    if s == "" then "" else if IsSpace(s[0]) then WithoutSpaces(s[1..]) else [s[0]] + WithoutSpaces(s[1..])
  }

  lemma {:induction false} WithoutSpacesSkips(s: string, n: nat)
    requires n <= |s| && forall i :: 0 <= i < n ==> !IsSpace(s[i])
    ensures WithoutSpaces(s) == s[..n] + WithoutSpaces(s[n..])
  {
    if n == 0 {
      assert s[0..] == s;
    } else {
      WithoutSpacesSkips(s[1..], n - 1);
      assert s[1..][n - 1..] == s[n..] && [s[0]] + s[1..][..n - 1] == s[..n];
    }
  }

  /** Tokenizing drops exactly the spaces, and yields only tokens. */
  lemma {:induction false} TokensKeepText(s: string)
    ensures Flat(Tokens(s)) == WithoutSpaces(s)
    ensures forall t <- Tokens(s) :: IsToken(t)
    decreases |s|
  {
    if s != "" {
      if IsSpace(s[0]) {
        TokensKeepText(s[1..]);
      } else {
        var n := TokenLength(s);
        TokensKeepText(s[n..]);
        WithoutSpacesSkips(s, n);
        assert Tokens(s) == [s[..n]] + Tokens(s[n..]);
      }
    }
  }

  /* ------------------------------ Rendering ------------------------------ */

  predicate IsGap(s: string) {
    forall i :: 0 <= i < |s| ==> IsSpace(s[i])
  }

  /** Two tokens that would run together if written without a space. */
  predicate Touching(a: string, b: string)
    requires b != ""
  {
    || (IsWord(a) && IsWord(b))
    || ((a == "<" || a == ">") && b[0] == '=')
    || (a == "<" && b[0] == '>')
  }

  /** `tokens` written with `gaps` before, between and after them. */
  function Render(tokens: seq<string>, gaps: seq<string>): string
    requires |gaps| == |tokens| + 1
  {
    gaps[0] + (if tokens == [] then "" else tokens[0] + Render(tokens[1..], gaps[1..]))
  }

  predicate Spaced(tokens: seq<string>, gaps: seq<string>) {
    && |gaps| == |tokens| + 1
    && (forall i :: 0 <= i < |gaps| ==> IsGap(gaps[i]))
    && (forall i :: 0 <= i < |tokens| ==> IsToken(tokens[i]))
    && (forall i :: 0 < i < |tokens| && Touching(tokens[i - 1], tokens[i]) ==> gaps[i] != "")
  }

  lemma {:induction false} TokensSkipGap(gap: string, s: string)
    requires IsGap(gap)
    ensures Tokens(gap + s) == Tokens(s)
  {
    if gap == "" {
      assert gap + s == s;
    } else {
      TokensSkipGap(gap[1..], s);
      assert (gap + s)[1..] == gap[1..] + s;
    }
  }

  /** What may follow a token without changing it. */
  ghost predicate Stops(t: string, rest: string) {
    rest == "" || IsSpace(rest[0]) || (IsToken(t) && !Touching(t, rest[..1]) && (IsWord(t) ==> !IsWordChar(rest[0])))
  }

  lemma TokenThenRest(t: string, rest: string)
    requires IsToken(t) && Stops(t, rest)
    ensures Tokens(t + rest) == [t] + Tokens(rest)
  {
    var s := t + rest;
    assert s[|t|..] == rest && s[..|t|] == t && s[0] == t[0];
    if IsComparison(t) {
      if |t| == 1 {
        assert |s| > 1 ==> s[1] == rest[0] && rest[..1] == [rest[0]];
      } else {
        assert s[1] == t[1];
      }
      assert ComparisonLength(s) == |t|;
    } else if !IsWord(t) {
      assert t == [t[0]];
    }
  }

  /** Tokenizing inverts rendering, for every spacing. */
  lemma {:induction false} TokensOfRender(tokens: seq<string>, gaps: seq<string>)
    requires Spaced(tokens, gaps)
    ensures Tokens(Render(tokens, gaps)) == tokens
  {
    if tokens == [] {
      TokensSkipGap(gaps[0], "");
    } else {
      var t, rest := tokens[0], Render(tokens[1..], gaps[1..]);
      assert Spaced(tokens[1..], gaps[1..]) by {
        assert forall i :: 0 <= i < |tokens| - 1 ==> tokens[1..][i] == tokens[i + 1];
        assert forall i :: 0 <= i < |gaps| - 1 ==> gaps[1..][i] == gaps[i + 1];
      }
      TokensOfRender(tokens[1..], gaps[1..]);
      TokensSkipGap(gaps[0], t + rest);
      assert Stops(t, rest) by { RenderStops(tokens, gaps); }
      TokenThenRest(t, rest);
    }
  }

  lemma RenderStops(tokens: seq<string>, gaps: seq<string>)
    requires Spaced(tokens, gaps) && tokens != []
    ensures Stops(tokens[0], Render(tokens[1..], gaps[1..]))
  {
    var rest := Render(tokens[1..], gaps[1..]);
    assert gaps[1..][0] == gaps[1] && IsGap(gaps[1]) && IsToken(tokens[0]);
    if gaps[1] != "" {
      assert rest[0] == gaps[1][0];
    } else if |tokens| > 1 {
      var next := tokens[1];
      assert tokens[1..][0] == next && IsToken(next) && !Touching(tokens[0], next);
      assert rest[0] == next[0] && rest[..1] == [next[0]];
    }
  }

  /** A name is read as itself exactly when it is a token; a name token is a word. */
  lemma TokenizesToItselfIff(t: string)
    ensures Tokens(t) == [t] <==> IsToken(t)
  {
    if IsToken(t) {
      assert Stops(t, "") && t + "" == t;
      TokenThenRest(t, "");
    }
    if Tokens(t) == [t] {
      TokensKeepText(t);
      assert Tokens(t)[0] == t;
    }
  }

  /** "à" in UTF-8: its second byte is taken for a space (U+00A0). */
  const A_GRAVE := "\U{00C3}\U{00A0}"

  lemma NonAsciiNameIsSplit()
    ensures Tokens(A_GRAVE) == ["\U{00C3}"] && !IsToken(A_GRAVE)
  {
    var t := "\U{00C3}";
    assert IsWord(t);
    TokenizesToItselfIff(t);
    assert Spaced([t], ["", "\U{00A0}"]);
    TokensOfRender([t], ["", "\U{00A0}"]);
    assert [t][1..] == [] && ["", "\U{00A0}"][1..] == ["\U{00A0}"];
    assert Render([], ["\U{00A0}"]) == "\U{00A0}" + "" == "\U{00A0}";
    assert Render([t], ["", "\U{00A0}"]) == "" + (t + "\U{00A0}") == A_GRAVE;
    TokenizesToItselfIff(A_GRAVE);
  }
}

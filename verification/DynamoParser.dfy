/** The condition parser over tokens, and what its evaluators mean. */
module DynamoParser {
  import opened Common
  import opened DynamoValues
  import opened DynamoExpressions

  /** A request's name and value bindings, with the comparison of two values and the prefix test. */
  datatype Env = Env(
    names: map<string, string>, values: map<string, AttributeValue>,
    compare: (AttributeValue, AttributeValue) -> int, begins: (AttributeValue, AttributeValue) -> bool)

  datatype Operator = Eq | Ne | Lt | Le | Gt | Ge

  datatype Condition =
    | Compare(name: string, op: Operator, value: string)
    | Between(name: string, lower: string, upper: string)
    | BeginsWith(name: string, value: string)
    | Exists(name: string)
    | NotExists(name: string)
    | And(left: Condition, right: Condition)
    | Paren(inner: Condition)

  function OperatorToken(op: Operator): string {
    match op
    case Eq => "="
    case Ne => "<>"
    case Lt => "<"
    case Le => "<="
    case Gt => ">"
    case Ge => ">="
  }

  function ReadOperator(t: string): Option<Operator> {
    if t == "=" then Some(Eq) else if t == "<>" then Some(Ne) else if t == "<" then Some(Lt)
    else if t == "<=" then Some(Le) else if t == ">" then Some(Gt) else if t == ">=" then Some(Ge) else None
  }

  predicate Test(op: Operator, comparison: int) {
    match op
    case Eq => comparison == 0
    case Ne => comparison != 0
    case Lt => comparison < 0
    case Le => comparison <= 0
    case Gt => comparison > 0
    case Ge => comparison >= 0
  }

  /** `resolveDynamoName`; tokens hold no one-byte spaces to trim. */
  function Resolve(env: Env, name: string): string {
    if name in env.names then env.names[name] else name
  }

  /** The values a condition mentions are bound. */
  predicate Bound(env: Env, c: Condition) {
    match c
    case Compare(_, _, v) => v in env.values
    case Between(_, l, u) => l in env.values && u in env.values
    case BeginsWith(_, v) => v in env.values
    case Exists(_) => true
    case NotExists(_) => true
    case And(l, r) => Bound(env, l) && Bound(env, r)
    case Paren(i) => Bound(env, i)
  }

  /** The meaning of a condition on an item. */
  predicate Meaning(env: Env, c: Condition, item: Item, exists_: bool)
    requires Bound(env, c)
  {
    match c
    case Compare(n, op, v) => Resolve(env, n) in item && Test(op, env.compare(item[Resolve(env, n)], env.values[v]))
    case Between(n, l, u) =>
      && Resolve(env, n) in item
      && env.compare(item[Resolve(env, n)], env.values[l]) >= 0 && env.compare(item[Resolve(env, n)], env.values[u]) <= 0
    case BeginsWith(n, v) => Resolve(env, n) in item && env.begins(item[Resolve(env, n)], env.values[v])
    case Exists(n) => exists_ && Resolve(env, n) in item
    case NotExists(n) => !exists_ || Resolve(env, n) !in item
    case And(l, r) => Meaning(env, l, item, exists_) && Meaning(env, r, item, exists_)
    case Paren(i) => Meaning(env, i, item, exists_)
  }

  /* ------------------------------ The parser ------------------------------ */

  predicate Peek(tokens: seq<string>, pos: nat, value: string) {
    pos < |tokens| && Lower(tokens[pos]) == value
  }

  function TokenAt(tokens: seq<string>, pos: nat): string {
    if pos < |tokens| then tokens[pos] else ""
  }

  function After(tokens: seq<string>, pos: nat): nat {
    if pos < |tokens| then pos + 1 else pos
  }

  type Parsed = Option<(Condition, nat)>

  /** `parseExpression`: predicates joined by AND, grouped to the left. */
  function ParseExpression(env: Env, tokens: seq<string>, pos: nat): (r: Parsed)
    requires pos <= |tokens|
    ensures r.Some? ==> pos < r.value.1 <= |tokens| && Bound(env, r.value.0)
    decreases |tokens| - pos, 2
  {
    var first := ParsePredicate(env, tokens, pos);
    if first.None? then None else ParseRest(env, tokens, first.value.1, first.value.0)
  }

  /** The loop of `parseExpression`, with the condition built so far. */
  function ParseRest(env: Env, tokens: seq<string>, pos: nat, left: Condition): (r: Parsed)
    requires pos <= |tokens| && Bound(env, left)
    ensures r.Some? ==> pos <= r.value.1 <= |tokens| && Bound(env, r.value.0)
    decreases |tokens| - pos, 0
  {
    if !Peek(tokens, pos, "and") then Some((left, pos))
    else
      var right := ParsePredicate(env, tokens, pos + 1);
      if right.None? then None else ParseRest(env, tokens, right.value.1, And(left, right.value.0))
  }

  function ParsePredicate(env: Env, tokens: seq<string>, pos: nat): (r: Parsed)
    requires pos <= |tokens|
    ensures r.Some? ==> pos < r.value.1 <= |tokens| && Bound(env, r.value.0)
    decreases |tokens| - pos, 1
  {
    if Peek(tokens, pos, "(") then
      var nested := ParseExpression(env, tokens, pos + 1);
      if nested.None? || !Peek(tokens, nested.value.1, ")") then None
      else Some((Paren(nested.value.0), nested.value.1 + 1))
    else ParseSimple(env, tokens, pos)
  }

  /** The predicates without nesting. */
  function ParseSimple(env: Env, tokens: seq<string>, pos: nat): (r: Parsed)
    requires pos <= |tokens|
    ensures r.Some? ==> pos < r.value.1 <= |tokens| && Bound(env, r.value.0)
  {
    if Peek(tokens, pos, "attribute_exists") || Peek(tokens, pos, "attribute_not_exists") then
      if !Peek(tokens, pos + 1, "(") then None
      else
        var name := TokenAt(tokens, pos + 2);
        var end := After(tokens, pos + 2);
        if Resolve(env, name) == "" || !Peek(tokens, end, ")") then None
        else Some((if Peek(tokens, pos, "attribute_exists") then Exists(name) else NotExists(name), end + 1))
    else if Peek(tokens, pos, "begins_with") then
      if !Peek(tokens, pos + 1, "(") then None
      else
        var name, comma := TokenAt(tokens, pos + 2), After(tokens, pos + 2);
        if !Peek(tokens, comma, ",") then None
        else
          var value, end := TokenAt(tokens, comma + 1), After(tokens, comma + 1);
          if value !in env.values || !Peek(tokens, end, ")") then None
          else Some((BeginsWith(name, value), end + 1))
    else
      var name, next := TokenAt(tokens, pos), After(tokens, pos);
      if Resolve(env, name) == "" then None
      else if Peek(tokens, next, "between") then ParseBetween(env, tokens, name, next + 1)
      else
        var op, at := ReadOperator(TokenAt(tokens, next)), After(tokens, next);
        var value := TokenAt(tokens, at);
        if value !in env.values || op.None? then None else Some((Compare(name, op.value, value), After(tokens, at)))
  }

  function ParseBetween(env: Env, tokens: seq<string>, name: string, pos: nat): (r: Parsed)
    requires pos <= |tokens|
    ensures r.Some? ==> r.value.0.Between? && pos < r.value.1 <= |tokens| && Bound(env, r.value.0)
  {
    var lower, and := TokenAt(tokens, pos), After(tokens, pos);
    if lower !in env.values || !Peek(tokens, and, "and") then None
    else
      var upper := TokenAt(tokens, and + 1);
      if upper !in env.values then None else Some((Between(name, lower, upper), After(tokens, and + 1)))
  }

  /* ------------------------------ Printed forms ------------------------------ */

  function TokensOf(c: Condition): seq<string> {
    match c
    case Compare(n, op, v) => [n, OperatorToken(op), v]
    case Between(n, l, u) => [n, "BETWEEN", l, "AND", u]
    case BeginsWith(n, v) => ["begins_with", "(", n, ",", v, ")"]
    case Exists(n) => ["attribute_exists", "(", n, ")"]
    case NotExists(n) => ["attribute_not_exists", "(", n, ")"]
    case And(l, r) => TokensOf(l) + ["AND"] + TokensOf(r)
    case Paren(i) => ["("] + TokensOf(i) + [")"]
  }

  predicate Reserved(name: string) {
    Lower(name) in {"(", "attribute_exists", "attribute_not_exists", "begins_with"}
  }

  /** Values are bound, names stand for some attribute, and a name in front is not a function name or a parenthesis. */
  predicate Printable(env: Env, c: Condition) {
    match c
    case Compare(n, _, v) => !Reserved(n) && Resolve(env, n) != "" && v in env.values
    case Between(n, l, u) => !Reserved(n) && Resolve(env, n) != "" && l in env.values && u in env.values
    case BeginsWith(_, v) => v in env.values
    case Exists(n) => Resolve(env, n) != ""
    case NotExists(n) => Resolve(env, n) != ""
    case And(l, r) => Printable(env, l) && Printable(env, r)
    case Paren(i) => Printable(env, i)
  }

  lemma {:induction false} PrintableIsBound(env: Env, c: Condition)
    requires Printable(env, c)
    ensures Bound(env, c)
  {
    match c
    case And(l, r) => PrintableIsBound(env, l); PrintableIsBound(env, r);
    case Paren(i) => PrintableIsBound(env, i);
    case _ =>
  }

  /** `c` appended to the conjunction `left`, grouped to the left as the parser does. */
  function Attach(left: Option<Condition>, c: Condition): Condition
    decreases c
  {
    match c
    case And(l, r) => Attach(Some(Attach(left, l)), r)
    case Paren(i) => Joined(left, Paren(Attach(None, i)))
    case _ => Joined(left, c)
  }

  function Joined(left: Option<Condition>, c: Condition): Condition {
    if left.Some? then And(left.value, c) else c
  }

  /** Regrouping does not change the meaning. */
  lemma {:induction false} AttachMeaning(env: Env, left: Option<Condition>, c: Condition, item: Item, e: bool)
    requires Bound(env, c) && (left.Some? ==> Bound(env, left.value))
    ensures Bound(env, Attach(left, c))
    ensures Meaning(env, Attach(left, c), item, e) <==>
              (left.Some? ==> Meaning(env, left.value, item, e)) && Meaning(env, c, item, e)
    decreases c
  {
    match c
    case And(l, r) =>
      AttachMeaning(env, left, l, item, e);
      AttachMeaning(env, Some(Attach(left, l)), r, item, e);
    case Paren(i) =>
      AttachMeaning(env, None, i, item, e);
    case _ =>
  }

  /* ------------------------------ Round trip ------------------------------ */

  /** `tokens` holds `part` at `pos`. */
  predicate At(tokens: seq<string>, pos: nat, part: seq<string>) {
    pos + |part| <= |tokens| && tokens[pos..pos + |part|] == part
  }

  lemma AtParts(tokens: seq<string>, pos: nat, a: seq<string>, b: seq<string>)
    requires At(tokens, pos, a + b)
    ensures At(tokens, pos, a) && At(tokens, pos + |a|, b)
  {
    var whole := tokens[pos..pos + |a + b|];
    assert whole[..|a|] == a && whole[|a|..] == b;
    assert tokens[pos..pos + |a|] == whole[..|a|];
    assert tokens[pos + |a|..pos + |a| + |b|] == whole[|a|..];
  }

  lemma AtAnd(tokens: seq<string>, pos: nat, l: Condition, r: Condition)
    requires At(tokens, pos, TokensOf(And(l, r)))
    ensures At(tokens, pos, TokensOf(l)) && At(tokens, pos + |TokensOf(l)|, ["AND"])
    ensures At(tokens, pos + |TokensOf(l)| + 1, TokensOf(r))
    ensures |TokensOf(And(l, r))| == |TokensOf(l)| + 1 + |TokensOf(r)|
  {
    var a, b := TokensOf(l), TokensOf(r);
    assert TokensOf(And(l, r)) == a + ["AND"] + b;
    hide TokensOf, At;
    AtParts(tokens, pos, a + ["AND"], b);
    AtParts(tokens, pos, a, ["AND"]);
  }

  lemma AtIndex(tokens: seq<string>, pos: nat, part: seq<string>, i: nat)
    requires At(tokens, pos, part) && i < |part|
    ensures tokens[pos + i] == part[i]
  {
    assert tokens[pos..pos + |part|][i] == part[i];
  }

  lemma IsLower(s: string)
    requires forall i :: 0 <= i < |s| ==> LowerChar(s[i]) == s[i]
    ensures Lower(s) == s
  {
    LowerAt(s);
  }

  lemma Keywords()
    ensures Lower("AND") == "and" && Lower("BETWEEN") == "between"
    ensures Lower("(") == "(" && Lower(")") == ")" && Lower(",") == ","
  {
    hide Lower;
    LowerAt("AND");
    LowerAt("BETWEEN");
    IsLower("(");
    IsLower(")");
    IsLower(",");
  }

  lemma FunctionNames()
    ensures Lower("begins_with") == "begins_with"
    ensures Lower("attribute_exists") == "attribute_exists" && Lower("attribute_not_exists") == "attribute_not_exists"
  {
    hide Lower;
    IsLower("begins_with");
    IsLower("attribute_exists");
    IsLower("attribute_not_exists");
  }

  lemma OperatorTokens(op: Operator)
    ensures ReadOperator(OperatorToken(op)) == Some(op)
    ensures Lower(OperatorToken(op)) != "between"
  {
    hide Lower;
    LowerAt(OperatorToken(op));
  }

  lemma CompareRoundTrip(env: Env, c: Condition, tokens: seq<string>, pos: nat)
    requires (c.Compare? || c.Between?) && Printable(env, c) && At(tokens, pos, TokensOf(c))
    ensures ParsePredicate(env, tokens, pos) == Some((c, pos + |TokensOf(c)|))
  {
    hide Lower;
    Keywords();
    AtIndex(tokens, pos, TokensOf(c), 0);
    AtIndex(tokens, pos, TokensOf(c), 1);
    AtIndex(tokens, pos, TokensOf(c), 2);
    if c.Compare? {
      OperatorTokens(c.op);
    } else {
      AtIndex(tokens, pos, TokensOf(c), 3);
      AtIndex(tokens, pos, TokensOf(c), 4);
    }
  }

  lemma FunctionRoundTrip(env: Env, c: Condition, tokens: seq<string>, pos: nat)
    requires (c.BeginsWith? || c.Exists? || c.NotExists?) && Printable(env, c) && At(tokens, pos, TokensOf(c))
    ensures ParsePredicate(env, tokens, pos) == Some((c, pos + |TokensOf(c)|))
  {
    hide Lower;
    Keywords();
    FunctionNames();
    AtIndex(tokens, pos, TokensOf(c), 0);
    AtIndex(tokens, pos, TokensOf(c), 1);
    AtIndex(tokens, pos, TokensOf(c), 2);
    AtIndex(tokens, pos, TokensOf(c), 3);
    if c.BeginsWith? {
      AtIndex(tokens, pos, TokensOf(c), 4);
      AtIndex(tokens, pos, TokensOf(c), 5);
    }
  }

  lemma ExpressionStep(env: Env, tokens: seq<string>, pos: nat, c: Condition, end: nat)
    requires pos <= |tokens| && ParsePredicate(env, tokens, pos) == Some((c, end))
    ensures end <= |tokens| && Bound(env, c)
    ensures ParseExpression(env, tokens, pos) == ParseRest(env, tokens, end, c)
  {
    hide ParsePredicate, ParseRest;
  }

  lemma RestStep(env: Env, tokens: seq<string>, pos: nat, left: Condition, c: Condition, end: nat)
    requires pos <= |tokens| && Bound(env, left)
    requires Peek(tokens, pos, "and") && ParsePredicate(env, tokens, pos + 1) == Some((c, end))
    ensures end <= |tokens| && Bound(env, And(left, c))
    ensures ParseRest(env, tokens, pos, left) == ParseRest(env, tokens, end, And(left, c))
  {
    hide ParsePredicate;
  }

  lemma RestStop(env: Env, tokens: seq<string>, pos: nat, left: Condition)
    requires pos <= |tokens| && Bound(env, left) && !Peek(tokens, pos, "and")
    ensures ParseRest(env, tokens, pos, left) == Some((left, pos))
  {
    hide ParsePredicate;
  }

  lemma ParenStep(env: Env, tokens: seq<string>, pos: nat, c: Condition, end: nat)
    requires pos < |tokens| && Peek(tokens, pos, "(") && Peek(tokens, end, ")")
    requires ParseExpression(env, tokens, pos + 1) == Some((c, end))
    ensures ParsePredicate(env, tokens, pos) == Some((Paren(c), end + 1))
  {
    hide ParseExpression;
  }

  /** The predicates are parsed back, with nested conjunctions regrouped. */
  lemma {:induction false} PredicateRoundTrip(env: Env, c: Condition, tokens: seq<string>, pos: nat)
    requires !c.And? && Printable(env, c) && At(tokens, pos, TokensOf(c))
    ensures ParsePredicate(env, tokens, pos) == Some((Attach(None, c), pos + |TokensOf(c)|))
    decreases c, 1
  {
    hide Lower, ParsePredicate, ParseRest, ParseExpression;
    match c
    case Paren(i) =>
      Keywords();
      AtParts(tokens, pos, ["("] + TokensOf(i), [")"]);
      AtParts(tokens, pos, ["("], TokensOf(i));
      AtIndex(tokens, pos, ["("], 0);
      var end := pos + 1 + |TokensOf(i)|;
      AtIndex(tokens, end, [")"], 0);
      ExpressionRoundTrip(env, i, tokens, pos + 1);
      RestStop(env, tokens, end, Attach(None, i));
      ParenStep(env, tokens, pos, Attach(None, i), end);
    case Compare(_, _, _) => CompareRoundTrip(env, c, tokens, pos);
    case Between(_, _, _) => CompareRoundTrip(env, c, tokens, pos);
    case _ => FunctionRoundTrip(env, c, tokens, pos);
  }

  /** Parsing the tokens of `c` leaves the loop with `c` read and regrouped. */
  lemma {:induction false} ExpressionRoundTrip(env: Env, c: Condition, tokens: seq<string>, pos: nat)
    requires Printable(env, c) && At(tokens, pos, TokensOf(c))
    ensures Bound(env, Attach(None, c))
    ensures ParseExpression(env, tokens, pos) == ParseRest(env, tokens, pos + |TokensOf(c)|, Attach(None, c))
    decreases c, 2
  {
    hide Lower, ParsePredicate, ParseRest, ParseExpression, Meaning, At, TokensOf, Resolve, Reserved;
    if c.And? {
      var l, r := c.left, c.right;
      AtAnd(tokens, pos, l, r);
      ExpressionRoundTrip(env, l, tokens, pos);
      RestRoundTrip(env, r, tokens, pos + |TokensOf(l)|, Attach(None, l));
    } else {
      PredicateRoundTrip(env, c, tokens, pos);
      ExpressionStep(env, tokens, pos, Attach(None, c), pos + |TokensOf(c)|);
    }
  }

  lemma {:induction false} RestRoundTrip(env: Env, c: Condition, tokens: seq<string>, pos: nat, left: Condition)
    requires Printable(env, c) && Bound(env, left) && At(tokens, pos, ["AND"]) && At(tokens, pos + 1, TokensOf(c))
    ensures Bound(env, Attach(Some(left), c))
    ensures ParseRest(env, tokens, pos, left) == ParseRest(env, tokens, pos + 1 + |TokensOf(c)|, Attach(Some(left), c))
    decreases c, 2
  {
    hide Lower, ParsePredicate, ParseRest, ParseExpression, Meaning, At, TokensOf, Resolve, Reserved;
    if c.And? {
      var l, r := c.left, c.right;
      AtAnd(tokens, pos + 1, l, r);
      RestRoundTrip(env, l, tokens, pos, left);
      RestRoundTrip(env, r, tokens, pos + 1 + |TokensOf(l)|, Attach(Some(left), l));
    } else {
      Keywords();
      AtIndex(tokens, pos, ["AND"], 0);
      PredicateRoundTrip(env, c, tokens, pos + 1);
      RestStep(env, tokens, pos, left, Attach(None, c), pos + 1 + |TokensOf(c)|);
    }
  }

  /* ------------------------------ Compiling ------------------------------ */

  /** The condition that `compileDynamoCondition` compiles: all tokens must be consumed. */
  function Compiled(env: Env, expression: string): (r: Option<Condition>)
    ensures r.Some? ==> Bound(env, r.value)
  {
    var tokens := Tokens(expression);
    var parsed := ParseExpression(env, tokens, 0);
    if parsed.Some? && parsed.value.1 == |tokens| then Some(parsed.value.0) else None
  }

  /** Names and values are words. */
  predicate Wordy(c: Condition) {
    match c
    case Compare(n, _, v) => IsWord(n) && IsWord(v)
    case Between(n, l, u) => IsWord(n) && IsWord(l) && IsWord(u)
    case BeginsWith(n, v) => IsWord(n) && IsWord(v)
    case Exists(n) => IsWord(n)
    case NotExists(n) => IsWord(n)
    case And(l, r) => Wordy(l) && Wordy(r)
    case Paren(i) => Wordy(i)
  }

  lemma KeywordTokens()
    ensures IsToken("AND") && IsToken("BETWEEN") && IsToken("(") && IsToken(")") && IsToken(",")
    ensures IsToken("begins_with") && IsToken("attribute_exists") && IsToken("attribute_not_exists")
    ensures forall op :: IsToken(OperatorToken(op))
  {
    hide IsToken;
    TokenOfLetters("AND");
    TokenOfLetters("BETWEEN");
    TokenOfLetters("begins_with");
    TokenOfLetters("attribute_exists");
    TokenOfLetters("attribute_not_exists");
    PunctuationTokens();
  }

  lemma PunctuationTokens()
    ensures IsToken("(") && IsToken(")") && IsToken(",") && forall op :: IsToken(OperatorToken(op))
  {
    hide IsWord;
  }

  lemma TokenOfLetters(t: string)
    requires t != "" && forall i :: 0 <= i < |t| ==> 'A' <= t[i] <= 'z'
    ensures IsToken(t)
  {
  }

  lemma {:induction false} WordyTokens(c: Condition)
    requires Wordy(c)
    ensures forall t <- TokensOf(c) :: IsToken(t)
  {
    KeywordTokens();
    hide IsWord, OperatorToken;
    match c
    case And(l, r) => WordyTokens(l); WordyTokens(r);
    case Paren(i) => WordyTokens(i);
    case _ =>
  }

  /** The round trip: a condition written out with any spacing that keeps its tokens apart compiles to
      an evaluator with the condition's meaning on every item. */
  lemma CompileRoundTrip(env: Env, c: Condition, gaps: seq<string>, item: Item, e: bool)
    requires Printable(env, c) && Wordy(c) && Spaced(TokensOf(c), gaps)
    ensures Bound(env, c)
    ensures var compiled := Compiled(env, Render(TokensOf(c), gaps));
            compiled.Some? && (Meaning(env, compiled.value, item, e) <==> Meaning(env, c, item, e))
  {
    hide Lower, ParsePredicate, ParseRest, ParseExpression, Meaning, Tokens;
    var tokens := TokensOf(c);
    TokensOfRender(tokens, gaps);
    assert At(tokens, 0, tokens) by { assert tokens[0..|tokens|] == tokens; }
    ExpressionRoundTrip(env, c, tokens, 0);
    RestStop(env, tokens, |tokens|, Attach(None, c));
    PrintableIsBound(env, c);
    AttachMeaning(env, None, c, item, e);
  }

  /** A name with such a byte is not read as itself: "à=:v" compiles, and compares another attribute. */
  lemma NonAsciiNameIsMisread(env: Env, item: Item, e: bool)
    requires ":v" in env.values && "\U{00C3}" !in env.names
    ensures var compiled := Compiled(env, A_GRAVE + "=:v");
            compiled.Some? && (Meaning(env, compiled.value, item, e) <==>
                               "\U{00C3}" in item && env.compare(item["\U{00C3}"], env.values[":v"]) == 0)
  {
    var c := Compare("\U{00C3}", Eq, ":v");
    var gaps := ["", "\U{00A0}", "", ""];
    MisreadText(c.name, gaps);
    MisreadIsPrintable(env);
    MisreadIsSpaced(gaps);
    assert A_GRAVE + "=:v" == Render(TokensOf(c), gaps) by {
      hide Render, Spaced, Printable;
      assert A_GRAVE + "=:v" == c.name + "\U{00A0}" + "=:v";
    }
    hide Compiled, Render, Spaced, IsWord, Printable, TokensOf;
    CompileRoundTrip(env, c, gaps, item, e);
  }

  lemma MisreadIsSpaced(gaps: seq<string>)
    requires gaps == ["", "\U{00A0}", "", ""]
    ensures Spaced(TokensOf(Compare("\U{00C3}", Eq, ":v")), gaps)
  {
    var tokens := TokensOf(Compare("\U{00C3}", Eq, ":v"));
    assert tokens == ["\U{00C3}", "=", ":v"];
    assert IsToken(tokens[0]) && IsToken(tokens[1]) && IsToken(tokens[2]);
    assert !IsWord("=") by { assert !IsWordChar("="[0]); }
    assert !Touching("=", ":v");
    assert IsGap("") && IsGap("\U{00A0}");
    hide IsToken, TokensOf, Touching, IsGap;
    assert forall i :: 0 <= i < 3 ==> IsToken(tokens[i]);
    assert forall i :: 0 <= i < 4 ==> IsGap(gaps[i]);
  }

  lemma MisreadIsPrintable(env: Env)
    requires ":v" in env.values && "\U{00C3}" !in env.names
    ensures Printable(env, Compare("\U{00C3}", Eq, ":v")) && Wordy(Compare("\U{00C3}", Eq, ":v")) && Resolve(env, "\U{00C3}") == "\U{00C3}"
  {
    hide Lower;
    LowerAt("\U{00C3}");
    assert |Lower("\U{00C3}")| == 1 && Lower("\U{00C3}")[0] == '\U{00C3}';
  }

  lemma MisreadText(name: string, gaps: seq<string>)
    requires gaps == ["", "\U{00A0}", "", ""]
    ensures Render([name, "=", ":v"], gaps) == name + "\U{00A0}" + "=:v"
  {
    assert gaps[1..] == ["\U{00A0}", "", ""] && gaps[1..][1..] == ["", ""] && gaps[1..][1..][1..] == [""];
    assert [name, "=", ":v"][1..] == ["=", ":v"] && ["=", ":v"][1..] == [":v"] && [":v"][1..] == [];
    assert Render([], [""]) == "";
    assert Render([":v"], ["", ""]) == ":v";
    assert Render(["=", ":v"], ["\U{00A0}", "", ""]) == "\U{00A0}" + ("=" + ":v");
  }

  /* ------------------------------ Soundness ------------------------------ */

  /** `tokens` from `pos` to `end` spell `c`, up to letter case. */
  ghost predicate Spells(tokens: seq<string>, pos: nat, end: nat, c: Condition) {
    && pos + |TokensOf(c)| == end <= |tokens|
    && forall i :: 0 <= i < |TokensOf(c)| ==> Lower(TokensOf(c)[i]) == Lower(tokens[pos + i])
  }

  lemma SpellsAnd(tokens: seq<string>, pos: nat, mid: nat, end: nat, l: Condition, r: Condition)
    requires Spells(tokens, pos, mid, l) && Peek(tokens, mid, "and") && Spells(tokens, mid + 1, end, r)
    ensures Spells(tokens, pos, end, And(l, r))
  {
    Keywords();
    hide Lower;
    var a, b, all := TokensOf(l), TokensOf(r), TokensOf(And(l, r));
    assert all == a + ["AND"] + b;
    hide TokensOf;
    forall i | 0 <= i < |all| ensures Lower(all[i]) == Lower(tokens[pos + i]) {
      if i < |a| {
        assert all[i] == a[i];
      } else if i > |a| {
        assert all[i] == b[i - |a| - 1] && tokens[pos + i] == tokens[mid + 1 + (i - |a| - 1)];
      }
    }
  }

  lemma SpellsParen(tokens: seq<string>, pos: nat, end: nat, c: Condition)
    requires Peek(tokens, pos, "(") && Spells(tokens, pos + 1, end, c) && Peek(tokens, end, ")")
    ensures Spells(tokens, pos, end + 1, Paren(c))
  {
    Keywords();
    hide Lower;
    var a := TokensOf(c);
    forall i | 0 <= i < |["("] + a + [")"]| ensures Lower((["("] + a + [")"])[i]) == Lower(tokens[pos + i]) {
      if 0 < i <= |a| {
        assert tokens[pos + 1 + (i - 1)] == tokens[pos + i];
      }
    }
  }

  lemma CompareSound(env: Env, tokens: seq<string>, pos: nat, c: Condition, end: nat)
    requires pos <= |tokens| && "" !in env.values && !Peek(tokens, pos, "(")
    requires ParseSimple(env, tokens, pos) == Some((c, end)) && c.Compare?
    ensures Printable(env, c) && Spells(tokens, pos, end, c)
  {
    hide Lower, ParseBetween;
    assert pos + 2 < |tokens| && end == pos + 3;
    assert TokensOf(c) == [tokens[pos], tokens[pos + 1], tokens[pos + 2]];
  }

  lemma BetweenSound(env: Env, tokens: seq<string>, pos: nat, c: Condition, end: nat)
    requires pos <= |tokens| && "" !in env.values && !Peek(tokens, pos, "(")
    requires ParseSimple(env, tokens, pos) == Some((c, end)) && c.Between?
    ensures Printable(env, c) && Spells(tokens, pos, end, c)
  {
    Keywords();
    hide Lower;
    assert pos + 4 < |tokens| && end == pos + 5;
    assert TokensOf(c) == [tokens[pos], "BETWEEN", tokens[pos + 2], "AND", tokens[pos + 4]];
  }

  lemma BeginsSound(env: Env, tokens: seq<string>, pos: nat, c: Condition, end: nat)
    requires pos <= |tokens| && "" !in env.values
    requires ParseSimple(env, tokens, pos) == Some((c, end)) && c.BeginsWith?
    ensures Printable(env, c) && Spells(tokens, pos, end, c)
  {
    Keywords();
    FunctionNames();
    hide Lower, ParseBetween;
    assert pos + 5 < |tokens| && end == pos + 6;
    assert TokensOf(c) == ["begins_with", "(", tokens[pos + 2], ",", tokens[pos + 4], ")"];
  }

  lemma ExistsSound(env: Env, tokens: seq<string>, pos: nat, c: Condition, end: nat)
    requires pos <= |tokens| && ParseSimple(env, tokens, pos) == Some((c, end)) && (c.Exists? || c.NotExists?)
    ensures Printable(env, c) && Spells(tokens, pos, end, c)
  {
    Keywords();
    FunctionNames();
    hide Lower, ParseBetween;
    assert pos + 3 < |tokens| && end == pos + 4;
    assert TokensOf(c) == [if c.Exists? then "attribute_exists" else "attribute_not_exists", "(", tokens[pos + 2], ")"];
  }

  /** Without a value bound to the empty name, a simple predicate is spelled by the tokens it consumed. */
  lemma SimpleSound(env: Env, tokens: seq<string>, pos: nat)
    requires pos <= |tokens| && "" !in env.values && !Peek(tokens, pos, "(") && ParseSimple(env, tokens, pos).Some?
    ensures var (c, end) := ParseSimple(env, tokens, pos).value;
            Printable(env, c) && Spells(tokens, pos, end, c)
  {
    hide Lower, Spells, Printable;
    var (c, end) := ParseSimple(env, tokens, pos).value;
    match c
    case Compare(_, _, _) => CompareSound(env, tokens, pos, c, end);
    case Between(_, _, _) => BetweenSound(env, tokens, pos, c, end);
    case BeginsWith(_, _) => BeginsSound(env, tokens, pos, c, end);
    case Exists(_) => ExistsSound(env, tokens, pos, c, end);
    case NotExists(_) => ExistsSound(env, tokens, pos, c, end);
  }

  /** The parser accepts only spelled-out conditions: whatever it returns is printable, and the tokens
      it consumed are that condition's tokens up to letter case. */
  lemma {:induction false} ExpressionSound(env: Env, tokens: seq<string>, pos: nat)
    requires pos <= |tokens| && "" !in env.values && ParseExpression(env, tokens, pos).Some?
    ensures var (c, end) := ParseExpression(env, tokens, pos).value;
            Printable(env, c) && Spells(tokens, pos, end, c)
    decreases |tokens| - pos, 2
  {
    hide Lower, ParseSimple, ParsePredicate, ParseRest, Spells, TokensOf;
    var (c, end) := ParsePredicate(env, tokens, pos).value;
    PredicateSound(env, tokens, pos);
    RestSound(env, tokens, pos, end, c);
  }

  lemma {:induction false} RestSound(env: Env, tokens: seq<string>, start: nat, pos: nat, left: Condition)
    requires start < pos <= |tokens| && "" !in env.values && Bound(env, left) && ParseRest(env, tokens, pos, left).Some?
    requires Printable(env, left) && Spells(tokens, start, pos, left)
    ensures var (c, end) := ParseRest(env, tokens, pos, left).value;
            Printable(env, c) && Spells(tokens, start, end, c)
    decreases |tokens| - pos, 0
  {
    hide Lower, ParseSimple, ParsePredicate, Spells, TokensOf;
    if Peek(tokens, pos, "and") {
      var (c, end) := ParsePredicate(env, tokens, pos + 1).value;
      PredicateSound(env, tokens, pos + 1);
      SpellsAnd(tokens, start, pos, end, left, c);
      RestSound(env, tokens, start, end, And(left, c));
    }
  }

  lemma {:induction false} PredicateSound(env: Env, tokens: seq<string>, pos: nat)
    requires pos <= |tokens| && "" !in env.values && ParsePredicate(env, tokens, pos).Some?
    ensures var (c, end) := ParsePredicate(env, tokens, pos).value;
            Printable(env, c) && Spells(tokens, pos, end, c)
    decreases |tokens| - pos, 1
  {
    hide Lower, ParseSimple, ParseExpression, Spells, TokensOf;
    if Peek(tokens, pos, "(") {
      var (c, end) := ParseExpression(env, tokens, pos + 1).value;
      ExpressionSound(env, tokens, pos + 1);
      SpellsParen(tokens, pos, end, c);
    } else {
      SimpleSound(env, tokens, pos);
    }
  }

  /** With a value bound to the empty name, "a =" is accepted although its value is missing. */
  lemma EmptyNameIsAccepted(env: Env)
    requires "" in env.values && Resolve(env, "a") != ""
    ensures ParseExpression(env, ["a", "="], 0) == Some((Compare("a", Eq, ""), 2))
    ensures !Spells(["a", "="], 0, 2, Compare("a", Eq, ""))
  {
    var tokens := ["a", "="];
    EmptyNamePredicate(env);
    RestStop(env, tokens, 2, Compare("a", Eq, ""));
    hide ParsePredicate, ParseRest, Lower;
    ExpressionStep(env, tokens, 0, Compare("a", Eq, ""), 2);
  }

  lemma EmptyNamePredicate(env: Env)
    requires "" in env.values && Resolve(env, "a") != ""
    ensures ParsePredicate(env, ["a", "="], 0) == Some((Compare("a", Eq, ""), 2))
  {
    hide Lower;
    LowerAt("a");
    LowerAt("=");
    var tokens := ["a", "="];
    assert Lower("a")[0] == 'a' && |Lower("a")| == 1 && |Lower("=")| == 1;
    assert ParsePredicate(env, tokens, 0) == ParseSimple(env, tokens, 0);
  }

  ghost predicate Misread(env: Env, tokens: seq<string>) {
    var r := ParseExpression(env, tokens, 0);
    r.Some? && !Spells(tokens, 0, r.value.1, r.value.0)
  }

  /** The parser accepts something that its tokens do not spell exactly when a value is bound to the
      empty name. */
  lemma MisreadsIff(env: Env)
    requires Resolve(env, "a") != ""
    ensures (exists tokens :: Misread(env, tokens)) <==> "" in env.values
  {
    hide Spells, ParseExpression, Resolve;
    if "" in env.values {
      EmptyNameIsAccepted(env);
      assert Misread(env, ["a", "="]);
    } else if tokens :| Misread(env, tokens) {
      ExpressionSound(env, tokens, 0);
    }
  }
}

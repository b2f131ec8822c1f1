/** `dynamoExpressionParser` and `compileDynamoCondition`: a parser object with a position, whose methods return closures. */
module DynamoCompiler {
  import opened Common
  import opened DynamoValues
  import opened DynamoExpressions
  import P = DynamoParser

  type Evaluator = (Item, bool) -> bool

  /** The closure computes the condition's meaning on every item. */
  ghost predicate Implements(env: P.Env, e: Evaluator, c: P.Condition) {
    P.Bound(env, c) && forall item, x :: e(item, x) == P.Meaning(env, c, item, x)
  }

  /** A parse method's reply and new position agree with the specification. */
  ghost predicate Agrees(env: P.Env, r: Option<Evaluator>, position: nat, parsed: P.Parsed) {
    && r.Some? == parsed.Some?
    && (parsed.Some? ==> position == parsed.value.1 && Implements(env, r.value, parsed.value.0))
  }

  class ExpressionParser {
    const env: P.Env
    const tokens: seq<string>
    var position: nat

    constructor (env: P.Env, tokens: seq<string>)
      ensures this.env == env && this.tokens == tokens && position == 0
    {
      this.env, this.tokens, position := env, tokens, 0;
    }

    method Next() returns (token: string)
      requires position <= |tokens|
      modifies this
      ensures position <= |tokens|
      ensures token == P.TokenAt(tokens, old(position)) && position == P.After(tokens, old(position))
    {
      if position >= |tokens| {
        return "";
      }
      token := tokens[position];
      position := position + 1;
    }

    method Match(value: string) returns (matched: bool)
      requires position <= |tokens|
      modifies this
      ensures matched == P.Peek(tokens, old(position), value)
      ensures position == if matched then old(position) + 1 else old(position)
    {
      matched := position < |tokens| && Lower(tokens[position]) == value;
      if matched {
        position := position + 1;
      }
    }

    method ParseExpression() returns (r: Option<Evaluator>)
      requires position <= |tokens|
      modifies this
      ensures old(position) <= position <= |tokens|
      ensures Agrees(env, r, position, P.ParseExpression(env, tokens, old(position)))
      decreases |tokens| - position, 2
    {
      hide P.ParsePredicate, P.ParseSimple, Lower, P.Meaning;
      r := ParsePredicate();
      if r.None? {
        return;
      }
      ghost var start := old(position);
      ghost var c := P.ParsePredicate(env, tokens, start).value.0;
      P.ExpressionStep(env, tokens, start, c, position);
      var more := Match("and");
      while more
        invariant old(position) < position <= |tokens|
        invariant r.Some? && Implements(env, r.value, c)
        invariant var at := if more then position - 1 else position;
                  && P.ParseExpression(env, tokens, start) == P.ParseRest(env, tokens, at, c)
                  && more == P.Peek(tokens, at, "and")
        decreases |tokens| - position, more
      {
        ghost var at := position - 1;
        var right := ParsePredicate();
        if right.None? {
          return None;
        }
        ghost var d := P.ParsePredicate(env, tokens, at + 1).value.0;
        P.RestStep(env, tokens, at, c, d, position);
        r := Some(Conjunction(r.value, right.value));
        ConjunctionImplements(env, c, d);
        c := P.And(c, d);
        more := Match("and");
      }
      P.RestStop(env, tokens, position, c);
    }

    method ParsePredicate() returns (r: Option<Evaluator>)
      requires position <= |tokens|
      modifies this
      ensures old(position) <= position <= |tokens|
      ensures Agrees(env, r, position, P.ParsePredicate(env, tokens, old(position)))
      decreases |tokens| - position, 1
    {
      hide P.ParseExpression, P.ParseSimple, Lower;
      var open := Match("(");
      if open {
        r := ParseExpression();
        if r.Some? {
          var closed := Match(")");
          if !closed {
            return None;
          }
        }
        return;
      }
      r := ParseSimple();
    }

    method ParseSimple() returns (r: Option<Evaluator>)
      requires position <= |tokens|
      modifies this
      ensures old(position) <= position <= |tokens|
      ensures Agrees(env, r, position, P.ParseSimple(env, tokens, old(position)))
    {
      hide Lower, P.ParseBetween, P.Meaning;
      if P.Peek(tokens, position, "attribute_exists") || P.Peek(tokens, position, "attribute_not_exists") {
        r := ParseExists();
      } else if P.Peek(tokens, position, "begins_with") {
        r := ParseBegins();
      } else {
        r := ParseComparison();
      }
    }

    method ParseExists() returns (r: Option<Evaluator>)
      requires position < |tokens|
      requires P.Peek(tokens, position, "attribute_exists") || P.Peek(tokens, position, "attribute_not_exists")
      modifies this
      ensures old(position) <= position <= |tokens|
      ensures Agrees(env, r, position, P.ParseSimple(env, tokens, old(position)))
    {
      hide Lower, P.ParseBetween;
      var wanted := P.Peek(tokens, position, "attribute_exists");
      var _ := Next();
      var open := Match("(");
      if !open {
        return None;
      }
      var token := Next();
      var name := P.Resolve(env, token);
      var closed := Match(")");
      if name == "" || !closed {
        return None;
      }
      r := Some((item: Item, x: bool) => if wanted then x && name in item else !x || name !in item);
    }

    method ParseBegins() returns (r: Option<Evaluator>)
      requires position < |tokens| && P.Peek(tokens, position, "begins_with")
      requires !P.Peek(tokens, position, "attribute_exists") && !P.Peek(tokens, position, "attribute_not_exists")
      modifies this
      ensures old(position) <= position <= |tokens|
      ensures Agrees(env, r, position, P.ParseSimple(env, tokens, old(position)))
    {
      hide Lower, P.ParseBetween;
      var _ := Next();
      var open := Match("(");
      if !open {
        return None;
      }
      var token := Next();
      var name := P.Resolve(env, token);
      var comma := Match(",");
      if !comma {
        return None;
      }
      var bound := Next();
      var closed := Match(")");
      if bound !in env.values || !closed {
        return None;
      }
      var expected, begins := env.values[bound], env.begins;
      r := Some((item: Item, x: bool) => name in item && begins(item[name], expected));
    }

    method ParseComparison() returns (r: Option<Evaluator>)
      requires position <= |tokens| && !P.Peek(tokens, position, "begins_with")
      requires !P.Peek(tokens, position, "attribute_exists") && !P.Peek(tokens, position, "attribute_not_exists")
      modifies this
      ensures old(position) <= position <= |tokens|
      ensures Agrees(env, r, position, P.ParseSimple(env, tokens, old(position)))
    {
      hide Lower;
      var token := Next();
      var name := P.Resolve(env, token);
      if name == "" {
        return None;
      }
      var between := Match("between");
      if between {
        r := ParseBetween(token, name);
        return;
      }
      var symbol := Next();
      var bound := Next();
      var op := P.ReadOperator(symbol);
      if bound !in env.values || op.None? {
        return None;
      }
      var expected, compare := env.values[bound], env.compare;
      r := Some((item: Item, x: bool) => name in item && P.Test(op.value, compare(item[name], expected)));
    }

    method ParseBetween(ghost token: string, name: string) returns (r: Option<Evaluator>)
      requires position <= |tokens| && name == P.Resolve(env, token)
      modifies this
      ensures old(position) <= position <= |tokens|
      ensures Agrees(env, r, position, P.ParseBetween(env, tokens, token, old(position)))
    {
      hide Lower;
      var low := Next();
      var and := Match("and");
      if low !in env.values || !and {
        return None;
      }
      var high := Next();
      if high !in env.values {
        return None;
      }
      var lower, upper, compare := env.values[low], env.values[high], env.compare;
      r := Some((item: Item, x: bool) => name in item && compare(item[name], lower) >= 0 && compare(item[name], upper) <= 0);
    }
  }

  /** `compileDynamoCondition`: no condition for blank text, an error unless every token is consumed. */
  method Compile(env: P.Env, expression: string) returns (r: Result<Option<Evaluator>, ()>)
    ensures Tokens(expression) == [] <==> r == Ok(None)
    ensures Tokens(expression) != [] ==> r.Ok? == P.Compiled(env, expression).Some?
    ensures Tokens(expression) != [] && r.Ok? ==> r.value.Some? && Implements(env, r.value.value, P.Compiled(env, expression).value)
  {
    hide Tokens;
    var tokens := Tokenize(expression);
    if tokens == [] {
      return Ok(None);
    }
    var parser := new ExpressionParser(env, tokens);
    var evaluator := parser.ParseExpression();
    if evaluator.None? || parser.position != |tokens| {
      return Err(());
    }
    r := Ok(evaluator);
  }

  function Conjunction(left: Evaluator, right: Evaluator): Evaluator {
    (item, x) => left(item, x) && right(item, x)
  }

  lemma ConjunctionImplements(env: P.Env, c: P.Condition, d: P.Condition)
    requires P.Bound(env, c) && P.Bound(env, d)
    ensures forall l: Evaluator, r: Evaluator | Implements(env, l, c) && Implements(env, r, d) ::
              Implements(env, Conjunction(l, r), P.And(c, d))
  {
  }
}

/** What each form of condition means, said by its text: how the item's attribute must compare. */
module DynamoOperators {
  import opened Common
  import opened DynamoValues
  import opened DynamoExpressions
  import opened DynamoParser

  /** The attribute that a name stands for, itself or through ExpressionAttributeNames. */
  function Attribute(env: Env, name: string): string {
    if name in env.names then env.names[name] else name
  }

  /** A word that names some attribute and does not open a function. */
  ghost predicate PlainName(env: Env, name: string) {
    IsWord(name) && Attribute(env, name) != "" && Lower(name) !in {"attribute_exists", "attribute_not_exists", "begins_with"}
  }

  ghost predicate BoundWord(env: Env, value: string) {
    IsWord(value) && value in env.values
  }

  /** The text that these tokens and spaces make up compiles to a condition that is `holds` on the item. */
  ghost predicate CompilesTo(env: Env, tokens: seq<string>, gaps: seq<string>, item: Item, found: bool, holds: bool)
    requires |gaps| == |tokens| + 1
  {
    var compiled := Compiled(env, Render(tokens, gaps));
    compiled.Some? && (Meaning(env, compiled.value, item, found) <==> holds)
  }

  lemma NamesArePrintable(env: Env, name: string)
    requires PlainName(env, name)
    ensures !Reserved(name) && Resolve(env, name) != ""
  {
    hide Lower;
    LowerAt(name);
    assert IsWordChar(name[0]) && Lower(name)[0] == LowerChar(name[0]);
  }

  /** `name op :value`: the attribute is there and compares to the value as the operator says. */
  lemma ComparisonMeans(env: Env, name: string, op: string, value: string, gaps: seq<string>, item: Item, found: bool)
    requires PlainName(env, name) && BoundWord(env, value) && op in {"=", "<>", "<", "<=", ">", ">="}
    requires Spaced([name, op, value], gaps)
    ensures var a := Attribute(env, name);
            && (a !in item ==> CompilesTo(env, [name, op, value], gaps, item, found, false))
            && (a in item ==>
                  var n := env.compare(item[a], env.values[value]);
                  && (op == "=" ==> CompilesTo(env, [name, op, value], gaps, item, found, n == 0))
                  && (op == "<>" ==> CompilesTo(env, [name, op, value], gaps, item, found, n != 0))
                  && (op == "<" ==> CompilesTo(env, [name, op, value], gaps, item, found, n < 0))
                  && (op == "<=" ==> CompilesTo(env, [name, op, value], gaps, item, found, n <= 0))
                  && (op == ">" ==> CompilesTo(env, [name, op, value], gaps, item, found, n > 0))
                  && (op == ">=" ==> CompilesTo(env, [name, op, value], gaps, item, found, n >= 0)))
  {
    NamesArePrintable(env, name);
    var c := Compare(name, ReadOperator(op).value, value);
    assert TokensOf(c) == [name, op, value];
    hide Compiled, Render, Spaced, IsWord, Lower;
    CompileRoundTrip(env, c, gaps, item, found);
  }

  /** `name BETWEEN :lower AND :upper`: it is there and between them, both included. */
  lemma BetweenMeans(env: Env, name: string, lower: string, upper: string, gaps: seq<string>, item: Item, found: bool)
    requires PlainName(env, name) && BoundWord(env, lower) && BoundWord(env, upper)
    requires Spaced([name, "BETWEEN", lower, "AND", upper], gaps)
    ensures var a := Attribute(env, name);
            CompilesTo(env, [name, "BETWEEN", lower, "AND", upper], gaps, item, found,
                       && a in item
                       && env.compare(item[a], env.values[lower]) >= 0 && env.compare(item[a], env.values[upper]) <= 0)
  {
    NamesArePrintable(env, name);
    hide Compiled, Render, Spaced, IsWord, Lower;
    CompileRoundTrip(env, Between(name, lower, upper), gaps, item, found);
  }

  /** `begins_with(name, :value)`: it is there and begins so. */
  lemma BeginsMeans(env: Env, name: string, value: string, gaps: seq<string>, item: Item, found: bool)
    requires IsWord(name) && BoundWord(env, value) && Spaced(["begins_with", "(", name, ",", value, ")"], gaps)
    ensures var a := Attribute(env, name);
            CompilesTo(env, ["begins_with", "(", name, ",", value, ")"], gaps, item, found,
                       a in item && env.begins(item[a], env.values[value]))
  {
    hide Compiled, Render, Spaced, IsWord, Lower;
    CompileRoundTrip(env, BeginsWith(name, value), gaps, item, found);
  }

  /** `attribute_exists(name)` holds of an item that was found and has the attribute,
      `attribute_not_exists(name)` of every other. */
  lemma ExistenceMeans(env: Env, name: string, gaps: seq<string>, item: Item, found: bool)
    requires IsWord(name) && Attribute(env, name) != ""
    ensures Spaced(["attribute_exists", "(", name, ")"], gaps) ==>
              CompilesTo(env, ["attribute_exists", "(", name, ")"], gaps, item, found, found && Attribute(env, name) in item)
    ensures Spaced(["attribute_not_exists", "(", name, ")"], gaps) ==>
              CompilesTo(env, ["attribute_not_exists", "(", name, ")"], gaps, item, found, !(found && Attribute(env, name) in item))
  {
    hide Compiled, Render, Spaced, IsWord, Lower;
    if Spaced(["attribute_exists", "(", name, ")"], gaps) { CompileRoundTrip(env, Exists(name), gaps, item, found); }
    if Spaced(["attribute_not_exists", "(", name, ")"], gaps) { CompileRoundTrip(env, NotExists(name), gaps, item, found); }
  }

  /** `left AND right` holds exactly when both do, each compiled by itself; parentheses change nothing. */
  lemma ConjunctionMeans(
    env: Env, l: Condition, r: Condition, gaps: seq<string>, gapsL: seq<string>, gapsR: seq<string>, item: Item, found: bool, x: bool, y: bool)
    requires Printable(env, l) && Printable(env, r) && Wordy(l) && Wordy(r)
    requires Spaced(TokensOf(l), gapsL) && CompilesTo(env, TokensOf(l), gapsL, item, found, x)
    requires Spaced(TokensOf(r), gapsR) && CompilesTo(env, TokensOf(r), gapsR, item, found, y)
    requires Spaced(["("] + (TokensOf(l) + ["AND"] + TokensOf(r)) + [")"], gaps)
    ensures CompilesTo(env, ["("] + (TokensOf(l) + ["AND"] + TokensOf(r)) + [")"], gaps, item, found, x && y)
  {
    hide Compiled, Render, Spaced, IsWord, Lower;
    CompileRoundTrip(env, l, gapsL, item, found);
    CompileRoundTrip(env, r, gapsR, item, found);
    CompileRoundTrip(env, Paren(And(l, r)), gaps, item, found);
  }
}

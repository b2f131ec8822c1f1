/** Exactly which keys of a table with two key attributes collide (`dynamoItemKey`, internal/state/dynamodb.go). */
module DynamoCollisions {
  import opened Common
  import opened DynamoTables

  predicate IsTag(c: char) {
    c == 'S' || c == 'N' || c == 'B'
  }

  /** The scalar with this tag. */
  function Tagged(tag: char, text: string): Scalar
    requires IsTag(tag)
  {
    if tag == 'S' then S(text) else if tag == 'N' then N(text) else B(text)
  }

  /** What stands between the text of the first component and the text of the second. */
  function Link(schema: seq<KeyElement>, tag: char): string
    requires |schema| == 2
  {
    [SEPARATOR] + Prefix(schema[1]) + [tag, '\0']
  }

  predicate At(text: string, i: nat, part: string) {
    i + |part| <= |text| && text[i..i + |part|] == part
  }

  predicate HasLink(schema: seq<KeyElement>, text: string)
    requires |schema| == 2
  {
    exists tag <- {'S', 'N', 'B'}, i: nat | i <= |text| :: At(text, i, Link(schema, tag))
  }

  /** The encoding of a pair, without the common prefix. */
  function Pair(schema: seq<KeyElement>, a: Scalar, b: Scalar): string
    requires |schema| == 2
  {
    EncodeScalar(a) + Link(schema, Tag(b)) + b.text
  }

  lemma {:induction false} TailIsPair(schema: seq<KeyElement>, a: Scalar, b: Scalar)
    requires |schema| == 2
    ensures Tail(schema, [a, b]) == Pair(schema, a, b)
  {
    hide Prefix;
    var key, q, x := [a, b], Prefix(schema[1]), EncodeScalar(a);
    assert schema[1..] == [schema[1]] && key[1..] == [b];
    assert Encode(schema[1..], key[1..]) == q + EncodeScalar(b);
    assert EncodeScalar(b) == [Tag(b), '\0'] + b.text;
    hide Encode, EncodeScalar;
    assert x + [SEPARATOR] + (q + ([Tag(b), '\0'] + b.text)) == x + ([SEPARATOR] + q + [Tag(b), '\0']) + b.text;
  }

  lemma {:induction false} SameEncodingIff(schema: seq<KeyElement>, a: Scalar, b: Scalar, a': Scalar, b': Scalar)
    requires |schema| == 2
    ensures Encode(schema, [a, b]) == Encode(schema, [a', b']) <==> Pair(schema, a, b) == Pair(schema, a', b')
  {
    TailIsPair(schema, a, b);
    TailIsPair(schema, a', b');
    if Encode(schema, [a, b]) == Encode(schema, [a', b']) { SameTails(schema, [a, b], [a', b']); }
    hide Tail, Pair;
  }

  /* ------------------------------ A collision needs a link ------------------------------ */

  /** Two ways to cut one string around links of the same length: the later link starts behind the
      earlier one, since a link has the separator in front only. */
  lemma LaterLink(x: string, k: string, u: string, x': string, k': string, v: string)
    requires x + k + u == x' + k' + v && |x| < |x'| && |k| == |k'| > 0 && k'[0] == SEPARATOR
    requires forall i :: 0 < i < |k| ==> k[i] != SEPARATOR
    ensures |x| + |k| <= |x'| && At(u, |x'| - |x| - |k|, k') && At(x', |x|, k)
  {
    var w := x + k + u;
    assert w[|x'|] == (x' + k' + v)[|x'|] == SEPARATOR;
    assert forall j :: |x| < j < |x| + |k| ==> w[j] == k[j - |x|] != SEPARATOR;
    assert w[|x| + |k|..] == u && w[|x'|..|x'| + |k'|] == k';
    assert u[|x'| - |x| - |k|..][..|k'|] == k';
    assert w[|x|..|x| + |k|] == k && w[..|x'|] == x';
  }

  lemma LinkShape(schema: seq<KeyElement>, tag: char)
    requires |schema| == 2 && SEPARATOR !in Prefix(schema[1]) && IsTag(tag)
    ensures |Link(schema, tag)| == |Prefix(schema[1])| + 3 && Link(schema, tag)[0] == SEPARATOR
    ensures forall i :: 0 < i < |Link(schema, tag)| ==> Link(schema, tag)[i] != SEPARATOR
    ensures Link(schema, tag)[|Prefix(schema[1])| + 1] == tag
  {
    hide Prefix;
  }

  lemma LinkInFirst(schema: seq<KeyElement>, a: Scalar, i: nat, tag: char)
    requires |schema| == 2 && IsTag(tag) && i >= 2 && At(EncodeScalar(a), i, Link(schema, tag))
    ensures HasLink(schema, a.text)
  {
    hide Link;
    var k := Link(schema, tag);
    assert EncodeScalar(a)[2..] == a.text;
    assert a.text[i - 2..i - 2 + |k|] == EncodeScalar(a)[i..i + |k|];
    assert At(a.text, i - 2, k) && tag in {'S', 'N', 'B'};
  }

  lemma CollisionNeedsLink(schema: seq<KeyElement>, a: Scalar, b: Scalar, a': Scalar, b': Scalar)
    requires |schema| == 2 && SEPARATOR !in Prefix(schema[1]) && (a != a' || b != b')
    requires Pair(schema, a, b) == Pair(schema, a', b')
    ensures HasLink(schema, a.text) || HasLink(schema, b.text)
  {
    var x, x', k, k' := EncodeScalar(a), EncodeScalar(a'), Link(schema, Tag(b)), Link(schema, Tag(b'));
    LinkShape(schema, Tag(b));
    LinkShape(schema, Tag(b'));
    hide Link, EncodeScalar, HasLink;
    if |x| < |x'| {
      LaterLink(x, k, b.text, x', k', b'.text);
      assert HasLink(schema, b.text);
    } else if |x'| < |x| {
      LaterLink(x', k', b'.text, x, k, b.text);
      assert |x'| >= 2;
      LinkInFirst(schema, a, |x'|, Tag(b'));
    } else {
      SameCut(x, k, b.text, x', k', b'.text);
      ScalarInjective(a, a');
    }
  }

  lemma SameCut(x: string, k: string, u: string, x': string, k': string, v: string)
    requires x + k + u == x' + k' + v && |x| == |x'| && |k| == |k'|
    ensures x == x' && k == k' && u == v
  {
    var w, w' := x + k + u, x' + k' + v;
    assert w[..|x|] == x && w'[..|x|] == x' && w[|x|..|x| + |k|] == k && w'[|x|..|x| + |k|] == k';
    assert w[|x| + |k|..] == u && w'[|x| + |k|..] == v;
  }

  /* ------------------------------ A link makes a collision ------------------------------ */

  lemma Cut(text: string, i: nat, part: string)
    requires At(text, i, part)
    ensures text == text[..i] + part + text[i + |part|..]
  {
  }

  lemma IntoFirst(p: string, a: string, k: string, u: string, l: string, v: string)
    ensures p + (a + k + u) + l + v == p + a + k + (u + l + v)
  {
  }

  lemma IntoSecond(p: string, u: string, l: string, v: string, k: string, b: string)
    ensures p + u + l + (v + k + b) == p + (u + l + v) + k + b
  {
  }

  /** A link in the second text moves it, and what is before it, into the first. */
  lemma PartnerFromSecond(schema: seq<KeyElement>, a: Scalar, b: Scalar, i: nat, tag: char) returns (a': Scalar, b': Scalar)
    requires |schema| == 2 && IsTag(tag) && At(b.text, i, Link(schema, tag))
    ensures a' != a && Pair(schema, a', b') == Pair(schema, a, b)
  {
    var k, l := Link(schema, Tag(b)), Link(schema, tag);
    assert |k| > 0;
    hide Link, Pair;
    var u, v := b.text[..i], b.text[i + |l|..];
    Cut(b.text, i, l);
    a', b' := Tagged(Tag(a), a.text + k + u), Tagged(tag, v);
    assert Tag(b') == tag;
    var p := [Tag(a), '\0'];
    IntoFirst(p, a.text, k, u, l, v);
    assert |a'.text| > |a.text|;
  }

  /** A link in the first text moves what is behind it into the second. */
  lemma PartnerFromFirst(schema: seq<KeyElement>, a: Scalar, b: Scalar, i: nat, tag: char) returns (a': Scalar, b': Scalar)
    requires |schema| == 2 && IsTag(tag) && At(a.text, i, Link(schema, tag))
    ensures a' != a && Pair(schema, a', b') == Pair(schema, a, b)
  {
    var k, l := Link(schema, Tag(b)), Link(schema, tag);
    assert |l| > 0;
    hide Link, Pair;
    var u, v := a.text[..i], a.text[i + |l|..];
    Cut(a.text, i, l);
    a', b' := Tagged(Tag(a), u), Tagged(tag, v + k + b.text);
    assert Tag(b') == tag;
    var p := [Tag(a), '\0'];
    IntoSecond(p, u, l, v, k, b.text);
    assert |a'.text| < |a.text|;
  }

  ghost predicate Collides(schema: seq<KeyElement>, a: Scalar, b: Scalar)
    requires |schema| == 2
  {
    exists a', b' :: (a' != a || b' != b) && Encode(schema, [a', b']) == Encode(schema, [a, b])
  }

  /** A key shares its encoding with another one exactly when one of its two texts contains the byte
      0x01 followed by the prefix of the second attribute, a type tag and NUL. */
  lemma CollidesIff(schema: seq<KeyElement>, a: Scalar, b: Scalar)
    requires |schema| == 2 && SEPARATOR !in Prefix(schema[1])
    ensures Collides(schema, a, b) <==> HasLink(schema, a.text) || HasLink(schema, b.text)
  {
    hide Encode, Prefix, Link, Pair;
    if Collides(schema, a, b) {
      var a', b' :| (a' != a || b' != b) && Encode(schema, [a', b']) == Encode(schema, [a, b]);
      SameEncodingIff(schema, a', b', a, b);
      CollisionNeedsLink(schema, a, b, a', b');
    }
    if HasLink(schema, b.text) {
      var tag, i: nat :| tag in {'S', 'N', 'B'} && At(b.text, i, Link(schema, tag));
      var a', b' := PartnerFromSecond(schema, a, b, i, tag);
      SameEncodingIff(schema, a', b', a, b);
    } else if HasLink(schema, a.text) {
      var tag, i: nat :| tag in {'S', 'N', 'B'} && At(a.text, i, Link(schema, tag));
      var a', b' := PartnerFromFirst(schema, a, b, i, tag);
      SameEncodingIff(schema, a', b', a, b);
    }
  }
}

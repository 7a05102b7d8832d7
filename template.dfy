/**
  `template.replace` with a global pattern for `*` and the replacement
  `firstArg` (utilities/operations.js:42): every
  `*` of a template is replaced by the resolved first argument, converted
  with `String(firstArg)`.

  A string replacement is not inserted verbatim: `String.prototype.replace`
  expands the `$` patterns of section 22.1.3.19.1 (GetSubstitution) of
  ECMA-262 in it. The pattern has no capture groups, so only `$$`
  (a dollar), `$&` (the matched `*`), `` $` `` (the text before the match)
  and `$'` (the text after it) are special; every other `$` stands for
  itself.
*/
module Template {

  /** The replacement text for the `*` at index `p` of `t`, with the `$` patterns of `r` expanded. */
  function Expand(r: string, t: string, p: nat): string
    requires p < |t|
    decreases |r|
  {
    if r == [] then []
    else if r[0] == '$' && |r| >= 2 && r[1] == '$' then "$" + Expand(r[2..], t, p)
    else if r[0] == '$' && |r| >= 2 && r[1] == '&' then t[p..p + 1] + Expand(r[2..], t, p)
    else if r[0] == '$' && |r| >= 2 && r[1] == '`' then t[..p] + Expand(r[2..], t, p)
    else if r[0] == '$' && |r| >= 2 && r[1] == '\'' then t[p + 1..] + Expand(r[2..], t, p)
    else [r[0]] + Expand(r[1..], t, p)
  }

  /** The replaced text of `t[i..]`: each `*` becomes its expansion, other characters stay. */
  function ReplaceFrom(t: string, r: string, i: nat): string
    requires i <= |t|
    decreases |t| - i
  {
    if i == |t| then []
    else (if t[i] == '*' then Expand(r, t, i) else [t[i]]) + ReplaceFrom(t, r, i + 1)
  }

  /** `t.replace`, every `*` of `t` replaced by `r`. */
  function ReplaceStars(t: string, r: string): string {
    ReplaceFrom(t, r, 0)
  }

  /** The reference reading: every `*` is replaced by `r` verbatim. */
  function PlainReplace(t: string, r: string): string {
    if t == [] then [] else (if t[0] == '*' then r else [t[0]]) + PlainReplace(t[1..], r)
  }

  /** The number of `*` in `t`. */
  function Stars(t: string): nat {
    if t == [] then 0 else (if t[0] == '*' then 1 else 0) + Stars(t[1..])
  }

  /** Without a `$`, the replacement text is inserted as it is. */
  lemma {:induction false} ExpandDollarFree(r: string, t: string, p: nat)
    requires p < |t| && '$' !in r
    ensures Expand(r, t, p) == r
    decreases |r|
  {
    if r != [] {
      assert '$' !in r[1..] by {
        forall c | c in r[1..] ensures c in r { }
      }
      ExpandDollarFree(r[1..], t, p);
      assert [r[0]] + r[1..] == r;
    }
  }

  /** The suffix from `i` on, for a replacement without `$`. */
  lemma {:induction false} ReplaceFromDollarFree(t: string, r: string, i: nat)
    requires i <= |t| && '$' !in r
    ensures ReplaceFrom(t, r, i) == PlainReplace(t[i..], r)
    decreases |t| - i
  {
    if i < |t| {
      ReplaceFromDollarFree(t, r, i + 1);
      if t[i] == '*' { ExpandDollarFree(r, t, i); }
      assert t[i..][1..] == t[i + 1..];
    }
  }

  /**
    A replacement without `$` is substituted literally: the template reads
    as the reference replacement. Every uid and collection name the routes
    substitute is of this kind.
  */
  lemma DollarFreeIsPlain(t: string, r: string)
    requires '$' !in r
    ensures ReplaceStars(t, r) == PlainReplace(t, r)
  {
    ReplaceFromDollarFree(t, r, 0);
    assert t[0..] == t;
  }

  /**
    The reference replacement removes every `*` when the substituted text
    has none, and keeps every other character.
  */
  lemma {:induction false} PlainReplaceShape(t: string, r: string)
    ensures '*' !in r ==> '*' !in PlainReplace(t, r)
    ensures Stars(t) == 0 ==> PlainReplace(t, r) == t
    decreases |t|
  {
    if t != [] {
      PlainReplaceShape(t[1..], r);
      assert t == [t[0]] + t[1..];
    }
  }

  /** Each `*` grows the template by `|r| - 1` characters. */
  lemma {:induction false} PlainReplaceLength(t: string, r: string)
    ensures |PlainReplace(t, r)| == |t| + Stars(t) * (|r| - 1)
    decreases |t|
  {
    if t != [] {
      PlainReplaceLength(t[1..], r);
    }
  }

  /** The reference replacement works piecewise over a concatenation. */
  lemma {:induction false} PlainReplaceConcat(x: string, y: string, r: string)
    ensures PlainReplace(x + y, r) == PlainReplace(x, r) + PlainReplace(y, r)
    decreases |x|
  {
    if x != [] {
      assert (x + y)[1..] == x[1..] + y;
      PlainReplaceConcat(x[1..], y, r);
    } else {
      assert x + y == y;
    }
  }

  /** A text without `*` is left as it is. */
  lemma {:induction false} PlainReplaceStarFree(t: string, r: string)
    requires '*' !in t
    ensures PlainReplace(t, r) == t
    decreases |t|
  {
    if t != [] {
      assert '*' !in t[1..] by {
        forall x | x in t[1..] ensures x in t { }
      }
      PlainReplaceStarFree(t[1..], r);
      assert [t[0]] + t[1..] == t;
    }
  }

  /** A template with one `*` between two star-free texts: the value lands between them. */
  lemma OneStar(a: string, b: string, r: string)
    requires '*' !in a && '*' !in b
    ensures PlainReplace(a + "*" + b, r) == a + r + b
  {
    var star: string := "*";
    assert star[1..] == [];
    assert PlainReplace(star, r) == r + [] == r;
    PlainReplaceStarFree(a, r);
    PlainReplaceStarFree(b, r);
    PlainReplaceConcat(a, star, r);
    PlainReplaceConcat(a + star, b, r);
  }

  /**
    The `$` patterns make the substitution differ from the value: a first
    argument `$&` writes the `*` back, `$$` writes one dollar, and `` $` ``
    writes the text in front of the `*`.
  */
  lemma DollarPatterns()
    ensures ReplaceStars("id-*", "$&") == "id-*"
    ensures ReplaceStars("id-*", "a$$b") == "id-a$b"
    ensures ReplaceStars("id-*", "$`") == "id-id-"
    ensures ReplaceStars("id-*", "$1") == "id-$1"
  {
    var t := "id-*";
    assert t[3..4] == "*" && t[..3] == "id-";
    assert ReplaceFrom(t, "$&", 4) == [];
    assert Expand("$&", t, 3) == "*" + Expand([], t, 3);
    assert ReplaceFrom(t, "$&", 3) == "*";
    assert ReplaceFrom(t, "$&", 2) == "-*";
    assert ReplaceFrom(t, "$&", 1) == "d-*";
    assert Expand("a$$b", t, 3) == "a" + ("$" + ("b" + []));
    assert ReplaceFrom(t, "a$$b", 3) == "a$b";
    assert ReplaceFrom(t, "a$$b", 2) == "-a$b";
    assert ReplaceFrom(t, "a$$b", 1) == "d-a$b";
    assert Expand("$`", t, 3) == "id-" + [];
    assert ReplaceFrom(t, "$`", 3) == "id-";
    assert ReplaceFrom(t, "$`", 1) == "d-id-";
    assert Expand("$1", t, 3) == "$" + ("1" + []);
    assert ReplaceFrom(t, "$1", 3) == "$1";
    assert ReplaceFrom(t, "$1", 1) == "d-$1";
  }
}

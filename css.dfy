/**
  convertJSONtoCSS (editor/operations.js:3-14): a style object becomes a
  line of CSS declarations. Each key is split before every capital past
  its first character (`key.split` with a look-ahead for `[A-Z]`), the
  pieces are joined with `-` and lower-cased; each entry whose converted
  key or value is truthy becomes `key: value;`, followed by one space
  unless it is the entry at the last index.
*/
module Css {
  import opened JsBase
  import opened PageJson

  // ---------------------------------------------------------------------
  // Keys
  // ---------------------------------------------------------------------

  predicate IsUpper(c: char) { 'A' <= c <= 'Z' }

  function ToLower(c: char): (l: char)
    ensures !IsUpper(l)
    ensures !IsUpper(c) ==> l == c
  {
    if IsUpper(c) then (c as int + 32) as char else c
  }

  function ToUpper(c: char): char {
    if 'a' <= c <= 'z' then (c as int - 32) as char else c
  }

  /** `s.toLowerCase()` on the ASCII letters. */
  function Lower(s: string): (l: string)
    ensures |l| == |s|
  {
    if s == [] then [] else [ToLower(s[0])] + Lower(s[1..])
  }

  /**
    `key.split(/(?=[A-Z])/)`: a new piece starts before every capital at
    an index past the first (a match at index 0 splits nothing off).
  */
  function Pieces(key: string): (ps: seq<string>)
    ensures |ps| >= 1
    decreases |key|
  {
    if |key| <= 1 then [key]
    else
      var rest := Pieces(key[1..]);
      if IsUpper(key[1]) then [[key[0]]] + rest
      else [[key[0]] + rest[0]] + rest[1..]
  }

  /** `ps.join(sep)`. */
  function Join(ps: seq<string>, sep: string): string
    requires |ps| >= 1
  {
    if |ps| == 1 then ps[0] else Join(ps[..|ps| - 1], sep) + sep + ps[|ps| - 1]
  }

  /** The converted CSS property name (line 8). */
  function Kebab(key: string): string {
    Lower(Join(Pieces(key), "-"))
  }

  /** The converted name read character by character: every capital past the first gets a dash. */
  function KebabRest(s: string): string {
    if s == [] then []
    else (if IsUpper(s[0]) then ['-', ToLower(s[0])] else [ToLower(s[0])]) + KebabRest(s[1..])
  }

  /** The reference conversion: the first character lower-cased, then the rest as above. */
  function KebabRef(key: string): string {
    if key == [] then [] else [ToLower(key[0])] + KebabRest(key[1..])
  }

  /** The inverse direction: `-x` becomes `X`. */
  function Camelize(s: string): string {
    if s == [] then []
    else if s[0] == '-' && |s| >= 2 then [ToUpper(s[1])] + Camelize(s[2..])
    else [s[0]] + Camelize(s[1..])
  }

  /** The capitals at an index past the first: one dash each. */
  function Capitals(s: string): nat {
    if s == [] then 0 else (if IsUpper(s[0]) then 1 else 0) + Capitals(s[1..])
  }

  /** A name the conversion can be undone for: no dash, and no leading capital. */
  predicate CamelSafe(key: string) {
    (forall i :: 0 <= i < |key| ==> key[i] != '-') && (|key| > 0 ==> !IsUpper(key[0]))
  }

  lemma {:induction false} JoinFront(x: string, ps: seq<string>, sep: string)
    requires |ps| >= 1
    ensures Join([x] + ps, sep) == x + sep + Join(ps, sep)
    decreases |ps|
  {
    var xs := [x] + ps;
    if |ps| > 1 {
      assert xs[..|xs| - 1] == [x] + ps[..|ps| - 1];
      JoinFront(x, ps[..|ps| - 1], sep);
    } else {
      assert xs[..1] == [x];
    }
  }

  lemma {:induction false} JoinPrepend(c: char, ps: seq<string>, sep: string)
    requires |ps| >= 1
    ensures Join([[c] + ps[0]] + ps[1..], sep) == [c] + Join(ps, sep)
    decreases |ps|
  {
    var xs := [[c] + ps[0]] + ps[1..];
    if |ps| > 1 {
      assert xs[..|xs| - 1] == [[c] + ps[..|ps| - 1][0]] + ps[..|ps| - 1][1..];
      JoinPrepend(c, ps[..|ps| - 1], sep);
    }
  }

  /** The joined pieces read character by character, before lower-casing. */
  function DashRest(s: string): string {
    if s == [] then [] else (if IsUpper(s[0]) then ['-', s[0]] else [s[0]]) + DashRest(s[1..])
  }

  lemma {:induction false} JoinPieces(key: string)
    requires key != []
    ensures Join(Pieces(key), "-") == [key[0]] + DashRest(key[1..])
    decreases |key|
  {
    if |key| > 1 {
      var rest := Pieces(key[1..]);
      JoinPieces(key[1..]);
      assert key[1..][1..] == key[2..];
      if IsUpper(key[1]) {
        JoinFront([key[0]], rest, "-");
      } else {
        JoinPrepend(key[0], rest, "-");
      }
    }
  }

  lemma {:induction false} LowerConcat(a: string, b: string)
    ensures Lower(a + b) == Lower(a) + Lower(b)
    decreases |a|
  {
    if a != [] {
      assert (a + b)[1..] == a[1..] + b;
      LowerConcat(a[1..], b);
    } else {
      assert a + b == b;
    }
  }

  lemma {:induction false} LowerDashRest(s: string)
    ensures Lower(DashRest(s)) == KebabRest(s)
    decreases |s|
  {
    if s != [] {
      var head := if IsUpper(s[0]) then ['-', s[0]] else [s[0]];
      LowerConcat(head, DashRest(s[1..]));
      LowerDashRest(s[1..]);
    }
  }

  /** The split-join-lower chain of line 8 is the character-wise reference conversion. */
  lemma KebabMatchesReference(key: string)
    ensures Kebab(key) == KebabRef(key)
  {
    if key != [] {
      JoinPieces(key);
      LowerConcat([key[0]], DashRest(key[1..]));
      LowerDashRest(key[1..]);
    }
  }

  lemma {:induction false} KebabRestShape(s: string)
    ensures |KebabRest(s)| == |s| + Capitals(s)
    ensures forall i :: 0 <= i < |KebabRest(s)| ==> !IsUpper(KebabRest(s)[i])
    decreases |s|
  {
    if s != [] {
      KebabRestShape(s[1..]);
      var head := if IsUpper(s[0]) then ['-', ToLower(s[0])] else [ToLower(s[0])];
      assert KebabRest(s) == head + KebabRest(s[1..]);
    }
  }

  /**
    The converted name has no capitals, is one dash longer per capital
    past the first character, and is empty only for the empty key.
  */
  lemma KebabShape(key: string)
    ensures |Kebab(key)| == |key| + (if key == [] then 0 else Capitals(key[1..]))
    ensures forall i :: 0 <= i < |Kebab(key)| ==> !IsUpper(Kebab(key)[i])
    ensures Kebab(key) == "" <==> key == ""
  {
    KebabMatchesReference(key);
    if key != [] {
      KebabRestShape(key[1..]);
    }
  }

  /** Only the empty key converts to the empty name. */
  lemma KebabEmpty(key: string)
    ensures Kebab(key) == "" <==> key == ""
  {
    KebabMatchesReference(key);
  }

  lemma {:induction false} CamelizeKebabRest(s: string)
    requires forall i :: 0 <= i < |s| ==> s[i] != '-'
    ensures Camelize(KebabRest(s)) == s
    decreases |s|
  {
    if s != [] {
      CamelizeKebabRest(s[1..]);
      var tail := KebabRest(s[1..]);
      if IsUpper(s[0]) {
        assert KebabRest(s) == ['-', ToLower(s[0])] + tail;
        assert (['-', ToLower(s[0])] + tail)[2..] == tail;
      } else {
        assert KebabRest(s) == [s[0]] + tail;
        assert ([s[0]] + tail)[1..] == tail;
      }
    }
  }

  /** For a name without dashes or a leading capital, camel-casing the converted name gives it back. */
  lemma KebabRoundTrip(key: string)
    requires CamelSafe(key)
    ensures Camelize(Kebab(key)) == key
  {
    KebabMatchesReference(key);
    if key != [] {
      CamelizeKebabRest(key[1..]);
      assert KebabRef(key) == [key[0]] + KebabRest(key[1..]);
      assert ([key[0]] + KebabRest(key[1..]))[1..] == KebabRest(key[1..]);
    }
  }

  lemma {:induction false} KebabRestConcat(a: string, b: string)
    ensures KebabRest(a + b) == KebabRest(a) + KebabRest(b)
    decreases |a|
  {
    if a != [] {
      assert (a + b)[1..] == a[1..] + b;
      KebabRestConcat(a[1..], b);
    } else {
      assert a + b == b;
    }
  }

  lemma {:induction false} KebabRestPlain(s: string)
    requires forall i :: 0 <= i < |s| ==> !IsUpper(s[i])
    ensures KebabRest(s) == s
    decreases |s|
  {
    if s != [] {
      KebabRestPlain(s[1..]);
      assert [s[0]] + s[1..] == s;
    }
  }

  /** A key without capitals is its own CSS name. */
  lemma KebabPlain(key: string)
    requires forall i :: 0 <= i < |key| ==> !IsUpper(key[i])
    ensures Kebab(key) == key
  {
    KebabMatchesReference(key);
    if key != [] {
      KebabRestPlain(key[1..]);
      assert [key[0]] + key[1..] == key;
    }
  }

  /** One capital inside a lower-case name: a dash in front of it, lower-cased. */
  lemma KebabOneCapital(a: string, c: char, b: string)
    requires a != [] && IsUpper(c)
    requires forall i :: 0 <= i < |a| ==> !IsUpper(a[i])
    requires forall i :: 0 <= i < |b| ==> !IsUpper(b[i])
    ensures Kebab(a + [c] + b) == a + ['-', ToLower(c)] + b
  {
    var key := a + [c] + b;
    KebabMatchesReference(key);
    assert key[0] == a[0];
    assert key[1..] == a[1..] + ([c] + b);
    KebabRestConcat(a[1..], [c] + b);
    KebabRestPlain(a[1..]);
    KebabRestPlain(b);
    assert ([c] + b)[1..] == b;
    assert [a[0]] + a[1..] == a;
  }

  /** `backgroundColor` is `background-color`. */
  lemma KebabBackgroundColor(key: string)
    requires key == "backgroundColor"
    ensures Kebab(key) == "background-color"
  {
    KebabOneCapital("background", 'C', "olor");
    assert "background" + ['C'] + "olor" == key;
  }

  /** A leading capital gives no leading dash: `Color` is `color`. */
  lemma KebabLeadingCapital()
    ensures Kebab("Color") == "color"
  {
    KebabMatchesReference("Color");
    KebabRestPlain("olor");
    assert "Color"[1..] == "olor";
  }

  // ---------------------------------------------------------------------
  // Declarations
  // ---------------------------------------------------------------------

  /** `${converted}: ${value};` (line 10). */
  function Declaration(key: string, value: Json): string {
    Kebab(key) + ": " + JsString(value) + ";"
  }

  /** What the entry at index `i` adds to the string (lines 7-11): nothing when skipped. */
  function Piece(es: seq<(string, Json)>, i: nat): (p: string)
    requires i < |es|
    ensures p == "" <==> es[i].0 == "" && !Truthy(es[i].1)
  {
    KebabEmpty(es[i].0);
    if Kebab(es[i].0) == "" && !Truthy(es[i].1) then ""
    else Declaration(es[i].0, es[i].1) + (if i < |es| - 1 then " " else "")
  }

  /** The string after the first `n` entries. */
  function CssUpTo(es: seq<(string, Json)>, n: nat): string
    requires n <= |es|
  {
    if n == 0 then "" else CssUpTo(es, n - 1) + Piece(es, n - 1)
  }

  /** `convertJSONtoCSS(json)` over the entries `Object.entries(json)` lists. */
  function Css(es: seq<(string, Json)>): string {
    CssUpTo(es, |es|)
  }

  /**
    The whole call: `undefined` takes the default `{}`; `null` throws in
    `Object.entries`; every other value is converted entry by entry.
  */
  function CssOf(json: Json): (r: Eval<string>)
    ensures r.Throws? <==> json.Null?
    ensures json.Undef? || json.Num? || json.Bool? || json == Obj([]) ==> r == Ok("")
  {
    if json.Undef? then Ok("")
    else match Entries(json)
      case Throws => Throws
      case Ok(es) => Ok(Css(es))
  }

  /** Lines 3-14: `Object.entries`, then the loop over the entries. */
  method ConvertJsonToCss(json: Json) returns (r: Eval<string>)
    ensures r == CssOf(json)
  {
    if json.Undef? {
      return Ok("");
    }
    var entries := Entries(json);
    if entries.Throws? {
      return Throws;
    }
    var s := AppendDeclarations(entries.value);
    return Ok(s);
  }

  /** An entry that is not skipped adds its declaration, and a space unless it is the last. */
  lemma PieceShown(es: seq<(string, Json)>, i: nat)
    requires i < |es| && (Kebab(es[i].0) != "" || Truthy(es[i].1))
    ensures Piece(es, i) == Declaration(es[i].0, es[i].1) + (if i < |es| - 1 then " " else "")
  {
  }

  /** Lines 4-12: the index loop appending each kept declaration to `string`. */
  method AppendDeclarations(es: seq<(string, Json)>) returns (s: string)
    ensures s == Css(es)
  {
    s := "";
    for i := 0 to |es|
      invariant s == CssUpTo(es, i)
    {
      var key, value := es[i].0, es[i].1;
      var converted := Kebab(key);
      if converted == "" && !Truthy(value) {
        continue;
      }
      ghost var before := s;
      PieceShown(es, i);
      s := s + (converted + ": " + JsString(value) + ";");
      if i < |es| - 1 {
        s := s + " ";
      }
      assert s == before + Piece(es, i);
    }
  }

  /** Every entry of `es` has a non-empty key. */
  predicate AllKept(es: seq<(string, Json)>) {
    forall i :: 0 <= i < |es| ==> es[i].0 != ""
  }

  /** The declarations of the entries, in order. */
  function Declarations(es: seq<(string, Json)>): (ds: seq<string>)
    ensures |ds| == |es|
  {
    seq(|es|, i requires 0 <= i < |es| => Declaration(es[i].0, es[i].1))
  }

  /** A kept entry adds its declaration, and a space unless it is the last. */
  lemma PieceKept(es: seq<(string, Json)>, i: nat)
    requires i < |es| && es[i].0 != ""
    ensures Piece(es, i) == Declarations(es)[i] + (if i < |es| - 1 then " " else "")
  {
    KebabEmpty(es[i].0);
  }

  /** Joining one more string appends the separator and that string. */
  lemma JoinSnoc(ps: seq<string>, n: nat, sep: string)
    requires 2 <= n <= |ps|
    ensures Join(ps[..n], sep) == Join(ps[..n - 1], sep) + sep + ps[n - 1]
  {
    assert ps[..n][..n - 1] == ps[..n - 1];
  }

  /** The string after one more kept entry: the join grows by a space and its declaration. */
  lemma CssUpToNext(es: seq<(string, Json)>, n: nat)
    requires AllKept(es) && 2 <= n <= |es|
    requires CssUpTo(es, n - 1) == Join(Declarations(es)[..n - 1], " ") + " "
    ensures CssUpTo(es, n) == Join(Declarations(es)[..n], " ") + (if n < |es| then " " else "")
  {
    PieceKept(es, n - 1);
    JoinSnoc(Declarations(es), n, " ");
  }

  lemma {:induction false} CssUpToKept(es: seq<(string, Json)>, n: nat)
    requires AllKept(es) && 1 <= n <= |es|
    ensures CssUpTo(es, n) == Join(Declarations(es)[..n], " ") + (if n < |es| then " " else "")
    decreases n
  {
    if n == 1 {
      PieceKept(es, 0);
      assert CssUpTo(es, 1) == Piece(es, 0);
    } else {
      CssUpToKept(es, n - 1);
      CssUpToNext(es, n);
    }
  }

  /**
    When no entry is skipped, the result is the declarations joined by
    single spaces: no leading, trailing or doubled space.
  */
  lemma CssAllKeptIsJoin(es: seq<(string, Json)>)
    requires AllKept(es) && es != []
    ensures Css(es) == Join(Declarations(es), " ")
  {
    CssUpToKept(es, |es|);
    assert Declarations(es)[..|es|] == Declarations(es);
  }

  /** An object without entries gives the empty string. */
  lemma CssEmpty()
    ensures Css([]) == ""
    ensures CssOf(Obj([])) == Ok("")
  {
  }

  /**
    The space is decided by the index in all entries, not among the kept
    ones: a skipped last entry leaves a trailing space behind.
  */
  lemma CssTrailingSpace(v: string)
    requires v != ""
    ensures Css([("color", Str(v)), ("", Str(""))]) == "color: " + v + "; "
  {
    var es := [("color", Str(v)), ("", Str(""))];
    KebabPlain("color");
    assert Piece(es, 1) == "";
    assert Piece(es, 0) == "color: " + v + ";" + " ";
    assert CssUpTo(es, 1) == "" + Piece(es, 0);
  }
}

/** Text interpolation: the `{{expression}}` scanner and `inject`, which
    evaluates every distinct marker once and then rewrites the text in a
    single pass (test/htdocs/modules/template.js, `evaluate` and `inject`). */
module Interpolation {
  import opened Js

  /** The expression evaluator the engine builds with `new Function`;
      `None` stands for an expression that failed to compile or threw. */
  type Evaluator = (string, Value) -> Option<Value>

  /** `evaluate(element, expression, data)`: fail-soft, a failure becomes null. */
  function Evaluate(eval: Evaluator, expr: string, data: Value): (v: Value)
    ensures eval(expr, data).None? ==> v == Null
    ensures eval(expr, data).Some? ==> v == eval(expr, data).value
  {
    match eval(expr, data)
    case None => Null
    case Some(v) => v
  }

  // ---------------------------------------------------------------------
  // Markers

  /** A piece of scanned text: one literal character, or one marker. */
  datatype Piece = Lit(c: char) | Marker(expr: string)

  /** What the group `([^}]+)` accepts: a non-empty run without '}'. */
  predicate IsExpr(e: string) {
    e != [] && forall k | 0 <= k < |e| :: e[k] != '}'
  }

  function Wrap(e: string): string {
    "{{" + e + "}}"
  }

  /** `m` is a whole match of `{{([^}]+)}}`. */
  predicate IsMarker(m: string) {
    && |m| >= 5
    && m[0] == '{' && m[1] == '{'
    && m[|m| - 2] == '}' && m[|m| - 1] == '}'
    && forall k | 2 <= k < |m| - 2 :: m[k] != '}'
  }

  lemma WrapIsMarker(e: string)
    ensures IsMarker(Wrap(e)) <==> IsExpr(e)
  {
    var m := Wrap(e);
    assert forall k | 0 <= k < |e| :: m[k + 2] == e[k];
  }

  /** Some match of the regular expression begins at the start of s. */
  predicate StartsWithMarker(s: string) {
    exists n | 0 <= n <= |s| :: IsMarker(s[..n])
  }

  /** Index of the first '}' at or after i, or |s| when there is none. */
  function CloseAt(s: string, i: nat): (j: nat)
    requires i <= |s|
    ensures i <= j <= |s|
    ensures forall k | i <= k < j :: s[k] != '}'
    ensures j < |s| ==> s[j] == '}'
    decreases |s| - i
  {
    if i == |s| || s[i] == '}' then i else CloseAt(s, i + 1)
  }

  /** Length of the match of `{{([^}]+)}}` at the start of s, or 0 when it
      does not match there. The run `[^}]+` cannot hold '}', so the match,
      if any, closes at the first '}' after the opening braces. */
  function MarkerLength(s: string): (n: nat)
    ensures n == 0 || (5 <= n <= |s| && IsMarker(s[..n]))
  {
    if |s| >= 2 && s[0] == '{' && s[1] == '{' then
      var j := CloseAt(s, 2);
      if j > 2 && j + 1 < |s| && s[j + 1] == '}' then j + 2 else 0
    else 0
  }

  /** A match at the start of s has exactly the length MarkerLength finds. */
  lemma MarkerLengthExact(s: string, m: nat)
    requires m <= |s| && IsMarker(s[..m])
    ensures MarkerLength(s) == m
  {
    var p := s[..m];
    assert forall k | 2 <= k < m - 2 :: s[k] == p[k];
    assert s[m - 2] == p[m - 2] && s[m - 1] == p[m - 1];
    var j := CloseAt(s, 2);
    assert j == m - 2;
  }

  lemma MarkerLengthComplete(s: string)
    ensures MarkerLength(s) > 0 <==> StartsWithMarker(s)
  {
    if StartsWithMarker(s) {
      var m :| 0 <= m <= |s| && IsMarker(s[..m]);
      MarkerLengthExact(s, m);
    }
    if MarkerLength(s) > 0 {
      var n := MarkerLength(s);
      assert IsMarker(s[..n]);
    }
  }

  // ---------------------------------------------------------------------
  // Scanning

  /** The regular expression's global scan: leftmost match first, resuming
      after each match, one literal character at a time elsewhere. */
  function Scan(s: string): (ps: seq<Piece>)
    decreases |s|
  {
    if s == [] then []
    else
      var n := MarkerLength(s);
      if n > 0 then [Marker(s[2..n - 2])] + Scan(s[n..])
      else [Lit(s[0])] + Scan(s[1..])
  }

  /** Reference reading of a text, independent of the scanner: `ps` splits
      s into markers and literal characters such that a literal character
      is never the start of a marker (matches are leftmost and do not
      overlap). */
  predicate Tokenizes(ps: seq<Piece>, s: string)
    decreases ps
  {
    if ps == [] then s == []
    else
      match ps[0]
      case Marker(e) =>
        IsExpr(e) && StartsWith(s, Wrap(e)) && Tokenizes(ps[1..], s[|Wrap(e)|..])
      case Lit(c) =>
        s != [] && s[0] == c && !StartsWithMarker(s) && Tokenizes(ps[1..], s[1..])
  }

  /** Rewrites a reading, replacing marker `{{e}}` by `f(e)` and keeping
      literal characters. */
  function Render(ps: seq<Piece>, f: string -> string): string
    decreases ps
  {
    if ps == [] then ""
    else
      (match ps[0]
       case Lit(c) => [c]
       case Marker(e) => f(e))
      + Render(ps[1..], f)
  }

  /** The scanner produces the reference reading. */
  lemma {:induction false} ScanTokenizes(s: string)
    ensures Tokenizes(Scan(s), s)
    decreases |s|
  {
    if s != [] {
      var n := MarkerLength(s);
      MarkerLengthComplete(s);
      if n > 0 {
        var e := s[2..n - 2];
        assert s[..n] == Wrap(e);
        WrapIsMarker(e);
        ScanTokenizes(s[n..]);
        assert Scan(s)[1..] == Scan(s[n..]);
      } else {
        ScanTokenizes(s[1..]);
        assert Scan(s)[1..] == Scan(s[1..]);
      }
    }
  }

  /** The reference reading is unique: it is the scanner's. */
  lemma {:induction false} TokenizesUnique(ps: seq<Piece>, s: string)
    requires Tokenizes(ps, s)
    ensures ps == Scan(s)
    decreases ps
  {
    if ps != [] {
      match ps[0]
      case Marker(e) =>
        var w := Wrap(e);
        WrapIsMarker(e);
        assert s[..|w|] == w;
        MarkerLengthExact(s, |w|);
        assert s[2..|w| - 2] == e;
        TokenizesUnique(ps[1..], s[|w|..]);
        assert Scan(s) == [Marker(e)] + Scan(s[|w|..]);
      case Lit(c) =>
        MarkerLengthComplete(s);
        TokenizesUnique(ps[1..], s[1..]);
        assert Scan(s) == [Lit(c)] + Scan(s[1..]);
    }
  }

  /** Rendering markers as themselves gives back the text. */
  lemma {:induction false} TokenizesRender(ps: seq<Piece>, s: string)
    requires Tokenizes(ps, s)
    ensures Render(ps, Wrap) == s
    decreases ps
  {
    if ps != [] {
      match ps[0]
      case Marker(e) =>
        TokenizesRender(ps[1..], s[|Wrap(e)|..]);
        assert s == s[..|Wrap(e)|] + s[|Wrap(e)|..];
      case Lit(c) =>
        TokenizesRender(ps[1..], s[1..]);
        assert s == [s[0]] + s[1..];
    }
  }

  lemma ScanRoundTrip(s: string)
    ensures Render(Scan(s), Wrap) == s
  {
    ScanTokenizes(s);
    TokenizesRender(Scan(s), s);
  }

  // ---------------------------------------------------------------------
  // Injection

  /** Marker expressions of a reading, in order, repeats included. */
  function Exprs(ps: seq<Piece>): (r: seq<string>)
    ensures forall e :: e in r <==> Marker(e) in ps
    decreases ps
  {
    if ps == [] then []
    else
      (if ps[0].Marker? then [ps[0].expr] else [])
      + Exprs(ps[1..])
  }

  predicate NoDuplicates<T(==)>(xs: seq<T>) {
    forall i, j | 0 <= i < j < |xs| :: xs[i] != xs[j]
  }

  /** The first occurrence of every item, in order of first occurrence. */
  function Distinct(xs: seq<string>): (r: seq<string>)
    ensures NoDuplicates(r)
    ensures forall x :: x in r <==> x in xs
    decreases |xs|
  {
    if xs == [] then []
    else
      var r := Distinct(xs[..|xs| - 1]);
      assert forall x :: x in xs <==> x in xs[..|xs| - 1] || x == xs[|xs| - 1];
      if xs[|xs| - 1] in r then r else r + [xs[|xs| - 1]]
  }

  /** The expressions `inject` hands to the evaluator, in the order it
      starts them: one per distinct marker. */
  function Evaluations(text: string): seq<string> {
    Distinct(Exprs(Scan(text)))
  }

  /** The `patterns` table: one stringified evaluation per key. */
  function Table(eval: Evaluator, keys: seq<string>, data: Value): (t: map<string, string>)
    ensures t.Keys == set k | k in keys
    ensures forall k | k in t :: t[k] == ToStr(Evaluate(eval, k, data))
    decreases |keys|
  {
    if keys == [] then map[]
    else
      var k := keys[|keys| - 1];
      Table(eval, keys[..|keys| - 1], data)[k := ToStr(Evaluate(eval, k, data))]
  }

  /** `inject(text, data)`: every distinct marker is evaluated once (with no
      current element), stringified, and only then is the original text
      rewritten in one pass, looking each marker up in the table. The
      source keys the table by the whole marker `{{e}}`, which is in
      one-to-one correspondence with `e`. */
  function Inject(eval: Evaluator, text: string, data: Value): string {
    var ps := Scan(text);
    var t := Table(eval, Evaluations(text), data);
    Render(ps, e => if e in t then t[e] else Wrap(e))
  }

  /** Two renderings agree when their replacements agree on the reading's markers. */
  lemma {:induction false} RenderAgree(ps: seq<Piece>, f: string -> string, g: string -> string)
    requires forall e | Marker(e) in ps :: f(e) == g(e)
    ensures Render(ps, f) == Render(ps, g)
    decreases ps
  {
    if ps != [] {
      assert forall e | Marker(e) in ps[1..] :: Marker(e) in ps;
      RenderAgree(ps[1..], f, g);
      if ps[0].Marker? {
        assert Marker(ps[0].expr) in ps;
      }
    }
  }

  /** `inject` equals the direct reading of the text with every marker
      replaced by the string form of its evaluation, and every literal
      character kept. */
  lemma InjectIsSubstitution(eval: Evaluator, text: string, data: Value, ps: seq<Piece>)
    requires Tokenizes(ps, text)
    ensures Inject(eval, text, data) == Render(ps, e => ToStr(Evaluate(eval, e, data)))
  {
    TokenizesUnique(ps, text);
    var t := Table(eval, Evaluations(text), data);
    forall e | Marker(e) in ps
      ensures (if e in t then t[e] else Wrap(e)) == ToStr(Evaluate(eval, e, data))
    {
      assert e in Exprs(ps);
      assert e in Evaluations(text);
    }
    RenderAgree(ps, e => if e in t then t[e] else Wrap(e), e => ToStr(Evaluate(eval, e, data)));
  }

  /** An expression that fails evaluates to null, so its marker is written
      as the text "null". */
  lemma FailureShowsNull(eval: Evaluator, e: string, data: Value)
    requires IsExpr(e) && eval(e, data).None?
    ensures Evaluate(eval, e, data) == Null
    ensures Inject(eval, Wrap(e), data) == "null"
  {
    var ps := [Marker(e)];
    var w := Wrap(e);
    assert w[|w|..] == [];
    assert Tokenizes(ps, w) by {
      assert ps[1..] == [];
      assert StartsWith(w, Wrap(e));
    }
    InjectIsSubstitution(eval, w, data, ps);
    var f := e' => ToStr(Evaluate(eval, e', data));
    assert Render(ps, f) == f(e) + Render(ps[1..], f);
  }

  /** Each distinct marker is evaluated exactly once, repeats included, and
      nothing else is evaluated. */
  lemma EvaluatedOnce(text: string)
    ensures NoDuplicates(Evaluations(text))
    ensures forall e :: e in Evaluations(text) <==> Marker(e) in Scan(text)
    ensures forall e | e in Evaluations(text) :: IsExpr(e) && StartsWith(Wrap(e), "{{")
  {
    ScanTokenizes(text);
    forall e | e in Evaluations(text)
      ensures IsExpr(e)
    {
      MarkersAreExprs(Scan(text), text, e);
    }
  }

  lemma {:induction false} MarkersAreExprs(ps: seq<Piece>, s: string, e: string)
    requires Tokenizes(ps, s) && Marker(e) in ps
    ensures IsExpr(e)
    decreases ps
  {
    if ps[0] != Marker(e) {
      assert Marker(e) in ps[1..];
      match ps[0]
      case Marker(e0) => MarkersAreExprs(ps[1..], s[|Wrap(e0)|..], e);
      case Lit(c) => MarkersAreExprs(ps[1..], s[1..], e);
    }
  }

  /** A reading without markers renders as its own text, whatever the replacement. */
  lemma {:induction false} RenderLiterals(ps: seq<Piece>, f: string -> string)
    requires forall k | 0 <= k < |ps| :: ps[k].Lit?
    ensures Render(ps, f) == Render(ps, Wrap)
    decreases ps
  {
    if ps != [] {
      RenderLiterals(ps[1..], f);
    }
  }

  /** Text with no marker comes back unchanged and nothing is evaluated. */
  lemma InjectNoMarker(eval: Evaluator, text: string, data: Value)
    requires forall i | 0 <= i <= |text| :: !StartsWithMarker(text[i..])
    ensures Evaluations(text) == []
    ensures Inject(eval, text, data) == text
  {
    NoMarkerScan(text);
    ScanRoundTrip(text);
    var t := Table(eval, Evaluations(text), data);
    RenderLiterals(Scan(text), e => if e in t then t[e] else Wrap(e));
  }

  lemma {:induction false} NoMarkerScan(text: string)
    requires forall i | 0 <= i <= |text| :: !StartsWithMarker(text[i..])
    ensures forall k | 0 <= k < |Scan(text)| :: Scan(text)[k].Lit?
    decreases |text|
  {
    if text != [] {
      assert text[0..] == text;
      MarkerLengthComplete(text);
      forall i | 0 <= i <= |text[1..]|
        ensures !StartsWithMarker(text[1..][i..])
      {
        assert text[1..][i..] == text[i + 1..];
      }
      NoMarkerScan(text[1..]);
    }
  }

  // ---------------------------------------------------------------------
  // Worked cases

  /** The reading of a text with a repeated marker. */
  lemma ScanRepeated()
    ensures Scan("{{a}}-{{a}}") == [Marker("a"), Lit('-'), Marker("a")]
  {
    var s := "{{a}}-{{a}}";
    assert "{{a}}"[2..3] == "a";
    assert MarkerLength("{{a}}") == 5;
    assert "{{a}}"[5..] == "";
    assert Scan("{{a}}") == [Marker("a")];
    assert MarkerLength("-{{a}}") == 0;
    assert "-{{a}}"[1..] == "{{a}}";
    assert Scan("-{{a}}") == [Lit('-'), Marker("a")];
    assert s[2..3] == "a";
    assert MarkerLength(s) == 5;
    assert s[5..] == "-{{a}}";
  }

  /** How that reading is rewritten, whatever the replacements. */
  lemma RenderRepeated(f: string -> string)
    ensures Render([Marker("a"), Lit('-'), Marker("a")], f) == f("a") + "-" + f("a")
  {
    var ps := [Marker("a"), Lit('-'), Marker("a")];
    assert ps[1..] == [Lit('-'), Marker("a")] && ps[1..][1..] == [Marker("a")];
    assert [Marker("a")][1..] == [];
  }

  /** With a repeated marker, each occurrence becomes the same result. */
  lemma InjectRepeated(eval: Evaluator, data: Value)
    ensures Inject(eval, "{{a}}-{{a}}", data)
      == ToStr(Evaluate(eval, "a", data)) + "-" + ToStr(Evaluate(eval, "a", data))
  {
    ScanRepeated();
    ScanTokenizes("{{a}}-{{a}}");
    InjectIsSubstitution(eval, "{{a}}-{{a}}", data, Scan("{{a}}-{{a}}"));
    RenderRepeated(e => ToStr(Evaluate(eval, e, data)));
  }

  /** The repeated marker is handed to the evaluator once. */
  lemma EvaluationsRepeated()
    ensures Evaluations("{{a}}-{{a}}") == ["a"]
  {
    ScanRepeated();
    var ps := [Marker("a"), Lit('-'), Marker("a")];
    assert ps[1..] == [Lit('-'), Marker("a")] && ps[1..][1..] == [Marker("a")];
    assert [Marker("a")][1..] == [];
    assert Exprs(ps) == ["a", "a"];
    assert Distinct(["a", "a"]) == ["a"] by {
      assert ["a", "a"][..1] == ["a"];
      assert Distinct(["a"]) == ["a"] by { assert ["a"][..0] == []; }
    }
  }

  /** A string result is inserted as it is. */
  lemma EvaluatedString(eval: Evaluator, data: Value, e: string, w: string)
    requires eval(e, data) == Some(Str(w))
    ensures ToStr(Evaluate(eval, e, data)) == w
  {
  }

  /** Results are substituted in one pass over the original text: the
      repeated marker is evaluated once, and its string result is inserted
      verbatim at both places, even when it contains markers itself (for
      instance w == "{{a}}"). */
  lemma NoReinterpolation(eval: Evaluator, data: Value, w: string)
    requires eval("a", data) == Some(Str(w))
    ensures Evaluations("{{a}}-{{a}}") == ["a"]
    ensures Inject(eval, "{{a}}-{{a}}", data) == w + "-" + w
  {
    EvaluationsRepeated();
    InjectRepeated(eval, data);
    EvaluatedString(eval, data, "a", w);
  }

  /** `{{}}` and a run holding '}' are not markers: such text is kept as is. */
  lemma NotMarkers(eval: Evaluator, data: Value)
    ensures Inject(eval, "{{}}", data) == "{{}}"
    ensures Inject(eval, "{{a}b}}", data) == "{{a}b}}"
  {
    forall i | 0 <= i <= 4
      ensures !StartsWithMarker("{{}}"[i..])
    {
      MarkerLengthComplete("{{}}"[i..]);
    }
    forall i | 0 <= i <= 7
      ensures !StartsWithMarker("{{a}b}}"[i..])
    {
      var t := "{{a}b}}"[i..];
      MarkerLengthComplete(t);
      if i == 0 {
        assert t == "{{a}b}}";
        assert CloseAt(t, 3) == 3;
        assert CloseAt(t, 2) == 3;
      }
    }
    InjectNoMarker(eval, "{{}}", data);
    InjectNoMarker(eval, "{{a}b}}", data);
  }
}

/** What the parameters of a rendered query are to a reader that also knows quoted literals: the
    renderer of `internal/executor/sql/executor.go` swallows the quotes next to a placeholder, and no
    others. */
module SqlLiterals {
  import opened Integers
  import opened Strings
  import opened SqlPatterns
  import opened SqlTemplate

  // ---------------------------------------------------------------- quoted literals

  /** No fresh parameter stands inside a quoted literal, and the quotes are balanced; `open` says whether
      a literal is open in front of `toks`. Two quotes in a row close and reopen one. */
  predicate FreshOutside<V>(toks: seq<Token<V>>, base: nat, open: bool) {
    if toks == [] then !open
    else
      match toks[0]
      case Ch(c) => FreshOutside(toks[1..], base, if c == '\'' then !open else open)
      case Num(ds) =>
        (open ==> !Digits(ds) || Value(ds) <= base || Value(ds) > MAX_INT64) && FreshOutside(toks[1..], base, open)
      case Val(_) => FreshOutside(toks[1..], base, open)
  }

  /** The same for the template: every placeholder, without the quotes it swallows, stands outside the
      literals that the other quotes make, and these are balanced. */
  predicate LiteralSafe<V>(toks: seq<Token<V>>, open: bool) {
    if toks == [] then !open
    else
      match toks[0]
      case Ch(c) => LiteralSafe(toks[1..], if c == '\'' then !open else open)
      case Num(_) => LiteralSafe(toks[1..], open)
      case Val(_) => !open && LiteralSafe(toks[1..], open)
  }

  lemma {:induction false} NumberedOutside<V>(toks: seq<Token<V>>, base: nat, next: nat, open: bool)
    requires ExplicitOutside(toks, base) && base <= next && next + Holes(toks) <= MAX_INT64
    ensures FreshOutside(Numbered(toks, next), base, open) <==> LiteralSafe(toks, open)
    decreases |toks|
  {
    hide ExplicitOutside, Dec, Digits, Value, Numbered;
    NumberedCons(toks, next);
    if toks == [] {
    } else {
      assert toks == [toks[0]] + toks[1..];
      OutsideTail(toks[0], toks[1..], base);
      match toks[0]
      case Ch(c) =>
        NumberedOutside(toks[1..], base, next, if c == '\'' then !open else open);
      case Num(ds) =>
        OutsideHead(toks, base);
        NumberedOutside(toks[1..], base, next, open);
      case Val(_) =>
        ValueDec(next + 1);
        NumberedOutside(toks[1..], base, next + 1, open);
    }
  }

  /** Where the numbers are read as they were given out, every fresh parameter of the rendered query is a
      parameter, none inside a quoted literal, and the quotes are balanced, exactly when the template
      is literal-safe. */
  lemma ParametersOutsideLiteralsIff<V>(tmpl: string, input: map<string, V>)
    requires Fits(tmpl, input, MaxParam(tmpl))
    ensures var base := MaxParam(tmpl);
            FreshOutside(ReadQuery<V>(Render(tmpl, base)), base, false)
            <==> LiteralSafe(ReadTemplate(tmpl, input), false)
  {
    hide ReadQuery, ReadTemplate, Render, NoGluedDigit, ArgsOf, MaxParam, FreshOutside, LiteralSafe, ExplicitOutside;
    var base := MaxParam(tmpl);
    ReadRendered(tmpl, input, base);
    TemplateParamsAreOutside(tmpl, input);
    HolesAreArgs(tmpl, input);
    NumberedOutside(ReadTemplate(tmpl, input), base, base, false);
  }

  // ---------------------------------------------------------------- one placeholder between two texts

  function Chars<V>(p: string): seq<Token<V>> {
    if p == "" then [] else [Ch(p[0])] + Chars(p[1..])
  }

  predicate OddQuotes(p: string) {
    p != "" && ((p[0] == '\'') != OddQuotes(p[1..]))
  }

  lemma {:induction false} CharsSafe<V>(p: string, rest: seq<Token<V>>, open: bool)
    ensures LiteralSafe(Chars<V>(p) + rest, open) <==> LiteralSafe(rest, open != OddQuotes(p))
  {
    if p == "" {
      assert Chars<V>(p) + rest == rest;
    } else {
      var toks := Chars<V>(p) + rest;
      assert toks[0] == Ch(p[0]) && toks[1..] == Chars<V>(p[1..]) + rest;
      CharsSafe(p[1..], rest, if p[0] == '\'' then !open else open);
    }
  }

  /** Text that holds no `{` and no `$`. */
  predicate Inert(p: string) { '{' !in p && '$' !in p }

  lemma {:induction false} InertRead<V>(p: string, rest: string, input: map<string, V>)
    requires Inert(p) && (p == "" || p[|p| - 1] != '\'' || CoreAt(rest).None?)
    ensures ReadTemplate(p + rest, input) == Chars(p) + ReadTemplate(rest, input)
  {
    hide CoreAt;
    if p == "" {
      assert p + rest == rest && Chars<V>(p) + ReadTemplate(rest, input) == ReadTemplate(rest, input);
    } else {
      var t := p + rest;
      assert t[0] == p[0] && t[1..] == p[1..] + rest;
      InertHead(p, rest);
      InertRead(p[1..], rest, input);
      Assoc([Ch(p[0])], Chars(p[1..]), ReadTemplate(rest, input));
    }
  }

  lemma InertHead(p: string, rest: string)
    requires p != "" && Inert(p) && (p[|p| - 1] != '\'' || CoreAt(rest).None?)
    ensures PlaceholderAt(p + rest).None? && ParamAt(p + rest).None?
    ensures Inert(p[1..]) && (p[1..] == "" || p[1..][|p| - 2] != '\'' || CoreAt(rest).None?)
  {
    var t := p + rest;
    assert t[0] == p[0] && p[0] in p && t[0..] == t && t[1..] == p[1..] + rest;
    if |p| == 1 {
      assert t[1..] == rest;
    } else {
      assert t[1..][0] == p[1] && p[1] in p;
    }
    assert forall c :: c in p[1..] ==> c in p;
  }

  function Core(key: string): string { "{{input." + key + "}}" }

  /** The text behind the placeholder, without a quote it swallows. */
  function Behind(post: string): string { if "'" <= post then post[1..] else post }

  lemma OneRead<V>(pre: string, key: string, post: string, input: map<string, V>)
    requires Inert(pre) && Inert(post) && WordText(key) && (pre == "" || pre[|pre| - 1] != '\'')
    ensures ReadTemplate(pre + (Core(key) + post), input)
            == Chars(pre) + ([Val(Lookup(input, key))] + Chars(Behind(post)))
  {
    hide *;
    InertRead(pre, Core(key) + post, input);
    CoreRead(key, post, input);
    InertBehind(post, input);
  }

  lemma BehindIs(core: string, post: string) returns (back: string)
    ensures (back == "'" || (back == "" && !("'" <= Behind(post)))) && "" + core + back + Behind(post) == core + post
  {
    back := if "'" <= post then "'" else "";
    assert post == back + Behind(post);
    Assoc(core, back, Behind(post));
    assert "" + core == core;
  }

  lemma CoreMatch(key: string, post: string) returns (n: nat)
    requires WordText(key)
    ensures PlaceholderAt(Core(key) + post) == Some(Match(n, key)) && n <= |Core(key) + post|
    ensures (Core(key) + post)[n..] == Behind(post)
  {
    hide WordText, PlaceholderAt, Behind, Matches;
    var back := BehindIs(Core(key), post);
    QuotedMatches("", key, back, Behind(post));
    assert "" + "{{input." + key + "}}" == "" + Core(key);
    n := |key| + 10 + |back|;
    PlaceholderExactly(Core(key) + post, n, key);
  }

  lemma CoreRead<V>(key: string, post: string, input: map<string, V>)
    requires WordText(key)
    ensures ReadTemplate(Core(key) + post, input) == [Val(Lookup(input, key))] + ReadTemplate(Behind(post), input)
  {
    hide PlaceholderAt, WordText, Behind;
    var n := CoreMatch(key, post);
    hide Core;
  }

  lemma InertBehind<V>(post: string, input: map<string, V>)
    requires Inert(post)
    ensures ReadTemplate(Behind(post), input) == Chars(Behind(post))
  {
    var p := Behind(post);
    assert forall c :: c in p ==> c in post;
    assert p + "" == p && Chars<V>(p) + [] == Chars<V>(p);
    assert ReadTemplate("", input) == [] && CoreAt("").None?;
    hide ReadTemplate, CoreAt;
    InertRead(p, "", input);
  }

  /** A template with one placeholder is literal-safe exactly when the quotes that are not swallowed are
      even in number on both sides of it. */
  lemma OneIsSafeIff<V>(pre: string, key: string, post: string, input: map<string, V>)
    requires Inert(pre) && Inert(post) && WordText(key) && (pre == "" || pre[|pre| - 1] != '\'')
    ensures LiteralSafe(ReadTemplate(pre + (Core(key) + post), input), false)
            <==> !OddQuotes(pre) && !OddQuotes(Behind(post))
  {
    hide ReadTemplate, Core, Behind;
    OneRead(pre, key, post, input);
    var v, text := Val(Lookup(input, key)), Chars<V>(Behind(post));
    CharsSafe(pre, [v] + text, false);
    assert ([v] + text)[0] == v && ([v] + text)[1..] == text && text + [] == text;
    CharsSafe<V>(Behind(post), [], false);
  }

  /** `'%{{input.q}}%'` puts its parameter inside a literal; `'%{{input.q}}'` loses its closing quote. */
  lemma QuotedExamples<V>(input: map<string, V>)
    ensures !LiteralSafe(ReadTemplate("'%{{input.q}}%'", input), false)
    ensures !LiteralSafe(ReadTemplate("'%{{input.q}}'", input), false)
  {
    assert Core("q") == "{{input.q}}" && WordText("q") && Inert("'%") && Inert("%'") && Inert("'");
    assert "'%" + ("{{input.q}}" + "%'") == "'%{{input.q}}%'" && "'%" + ("{{input.q}}" + "'") == "'%{{input.q}}'";
    assert "'%"[1..] == "%" && "%"[1..] == "" && OddQuotes("'%") && "'%"[1] == '%';
    hide *;
    OneIsSafeIff("'%", "q", "%'", input);
    OneIsSafeIff("'%", "q", "'", input);
  }
}

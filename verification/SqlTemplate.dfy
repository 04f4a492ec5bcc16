/** The SQL parameteriser of `internal/executor/sql/executor.go`: `{{input.key}}` placeholders,
    with the quotes around them, become fresh `$n` parameters.

    `V` is the type of an input value; a missing key gives `None`, Go's nil. */
module SqlTemplate {
  import opened Integers
  import opened Strings

  // ---------------------------------------------------------------- numbers

  predicate Digit(c: char) { '0' <= c <= '9' }

  predicate Digits(s: string) { forall i :: 0 <= i < |s| ==> Digit(s[i]) }

  function Dec(n: nat): (s: string)
    ensures s != "" && Digits(s)
    ensures n > 0 ==> '1' <= s[0]
  {
    if n < 10 then [('0' as int + n) as char] else Dec(n / 10) + [('0' as int + n % 10) as char]
  }

  /** `strconv.Itoa`. */
  function Itoa(n: int): string {
    if n < 0 then "-" + Dec(-n) else Dec(n)
  }

  function Value(s: string): nat
    requires Digits(s)
  {
    if s == "" then 0 else 10 * Value(s[..|s| - 1]) + (s[|s| - 1] as int - '0' as int)
  }

  lemma {:induction false} ValueDec(n: nat)
    ensures Value(Dec(n)) == n
  {
    var s := Dec(n);
    if n < 10 {
      assert s[..0] == "";
    } else {
      ValueDec(n / 10);
      assert s[..|s| - 1] == Dec(n / 10);
    }
  }

  // ---------------------------------------------------------------- the two patterns

  predicate Word(c: char) {
    'A' <= c <= 'Z' || 'a' <= c <= 'z' || Digit(c) || c == '_'
  }

  /** Length of the longest prefix of `s` made of word characters; `[A-Za-z0-9_]*` is greedy. */
  function WordRun(s: string): (n: nat)
    ensures n <= |s| && (forall i :: 0 <= i < n ==> Word(s[i])) && (n < |s| ==> !Word(s[n]))
  {
    if s != "" && Word(s[0]) then 1 + WordRun(s[1..]) else 0
  }

  function DigitRun(s: string): (n: nat)
    ensures n <= |s| && (forall i :: 0 <= i < n ==> Digit(s[i])) && (n < |s| ==> !Digit(s[n]))
  {
    if s != "" && Digit(s[0]) then 1 + DigitRun(s[1..]) else 0
  }

  datatype Match = Match(len: nat, key: string)

  /** `\{\{input\.([A-Za-z0-9_]+)\}\}` at the start of `s`. */
  function CoreAt(s: string): (m: Option<Match>)
    ensures m.Some? ==> 0 < m.value.len <= |s| && s[0] == '{'
  {
    if "{{input." <= s then
      var n := WordRun(s[8..]);
      if n > 0 && "}}" <= s[8 + n..] then Some(Match(10 + n, s[8..8 + n])) else None
    else None
  }

  function QuoteAt(s: string): (q: nat)
    ensures q <= |s| && (q > 0 ==> q == 1 && s[0] == '\'')
  {
    if s != "" && s[0] == '\'' then 1 else 0
  }

  /** `inputPlaceholderRE` at the start of `s`; both optional quotes are greedy. */
  function PlaceholderAt(s: string): (m: Option<Match>)
    ensures m.Some? ==> 0 < m.value.len <= |s| && (s[0] == '\'' || s[0] == '{')
  {
    hide CoreAt, QuoteAt;
    var q := QuoteAt(s);
    match CoreAt(s[q..])
    case None => None
    case Some(m) =>
      var e := q + m.len;
      Some(Match(e + QuoteAt(s[e..]), m.key))
  }

  /** The digits of `sqlParamRE` at the start of `s`. */
  function ParamAt(s: string): (p: Option<string>)
    ensures p.Some? ==> |p.value| > 0 && Digits(p.value) && '1' <= p.value[0] && 1 + |p.value| <= |s| && s[0] == '$'
  {
    if |s| > 1 && s[0] == '$' && '1' <= s[1] <= '9' then Some(s[1..1 + DigitRun(s[1..])]) else None
  }

  // ---------------------------------------------------------------- rendering

  /** The rendered text when `next` is the last parameter number given out. No input value occurs in
      it: the function is not told any. */
  function Render(t: string, next: int): string
    decreases |t|
  {
    if t == "" then ""
    else
      match PlaceholderAt(t)
      case Some(m) => "$" + Itoa(Inc64(next)) + Render(t[m.len..], Inc64(next))
      case None => [t[0]] + Render(t[1..], next)
  }

  function Lookup<V>(input: map<string, V>, key: string): Option<V> {
    if key in input then Some(input[key]) else None
  }

  /** The argument list: one value for each placeholder, left to right. */
  function ArgsOf<V>(t: string, input: map<string, V>): seq<Option<V>>
    decreases |t|
  {
    if t == "" then []
    else
      match PlaceholderAt(t)
      case Some(m) => [Lookup(input, m.key)] + ArgsOf(t[m.len..], input)
      case None => ArgsOf(t[1..], input)
  }

  /** The digit strings of all parameters of a query, left to right. */
  function Params(q: string): (ps: seq<string>)
    ensures forall p :: p in ps ==> Digits(p)
    decreases |q|
  {
    if q == "" then []
    else
      match ParamAt(q)
      case Some(p) => [p] + Params(q[1 + |p|..])
      case None => Params(q[1..])
  }

  /** The largest parameter number that fits an int64, or 0; `Atoi` rejects the others. */
  function MaxOf(ps: seq<string>): (n: nat)
    requires forall p :: p in ps ==> Digits(p)
    ensures n <= MAX_INT64
    ensures forall p :: p in ps ==> Value(p) <= n || Value(p) > MAX_INT64
    ensures n > 0 ==> exists p :: p in ps && Value(p) == n
  {
    if ps == [] then 0
    else
      var rest := MaxOf(ps[1..]);
      if rest < Value(ps[0]) <= MAX_INT64 then Value(ps[0]) else rest
  }

  /** The largest parameter number of a query. */
  function MaxParam(query: string): (n: nat)
    ensures n <= MAX_INT64
  {
    MaxOf(Params(query))
  }

  /** `maxSQLParamIndex`. */
  method MaxSQLParamIndex(query: string) returns (max: nat)
    ensures max == MaxParam(query)
  {
    hide *;
    max := 0;
    var i := 0;
    MaxBounds(query, max);
    while i < |query|
      invariant 0 <= i <= |query|
      invariant Larger(max, MaxParam(query[i..])) == MaxParam(query)
    {
      MaxStep(query, i, max);
      match ParamAt(query[i..]) {
        case Some(p) =>
          var n := Value(p);
          if n <= MAX_INT64 && n > max { max := n; }
          i := i + 1 + |p|;
        case None =>
          i := i + 1;
      }
    }
    MaxBounds(query, max);
  }

  lemma MaxBounds(q: string, max: nat)
    ensures Larger(0, MaxParam(q[0..])) == MaxParam(q)
    ensures Larger(max, MaxParam(q[|q|..])) == max
  {
    assert q[0..] == q && q[|q|..] == "";
  }

  lemma MaxStep(q: string, i: nat, max: nat)
    requires i < |q|
    ensures match ParamAt(q[i..])
            case Some(p) =>
              && Digits(p) && i + 1 + |p| <= |q|
              && Larger(max, MaxParam(q[i..])) ==
                 Larger(if max < Value(p) <= MAX_INT64 then Value(p) else max, MaxParam(q[i + 1 + |p|..]))
            case None => Larger(max, MaxParam(q[i..])) == Larger(max, MaxParam(q[i + 1..]))
  {
    hide ParamAt, Value, Digits;
    match ParamAt(q[i..])
    case Some(p) =>
      assert q[i..][1 + |p|..] == q[i + 1 + |p|..];
      assert Params(q[i..]) == [p] + Params(q[i + 1 + |p|..]);
      MaxOfCons(p, Params(q[i + 1 + |p|..]));
    case None => assert q[i..][1..] == q[i + 1..];
  }

  lemma MaxOfCons(p: string, ps: seq<string>)
    requires Digits(p) && forall x :: x in ps ==> Digits(x)
    ensures MaxOf([p] + ps) == if MaxOf(ps) < Value(p) <= MAX_INT64 then Value(p) else MaxOf(ps)
  {
    hide Digits, Value;
    assert ([p] + ps)[0] == p && ([p] + ps)[1..] == ps;
  }

  function Larger(a: nat, b: nat): nat { if a < b then b else a }

  /** `renderInputTemplate`: the callback appends to `args` and counts `nextParam` up. */
  method RenderInputTemplate<V>(tmpl: string, input: map<string, V>) returns (rendered: string, args: seq<Option<V>>)
    ensures rendered == Render(tmpl, MaxParam(tmpl))
    ensures args == ArgsOf(tmpl, input)
  {
    hide *;
    args := [];
    var first := MaxSQLParamIndex(tmpl);
    var nextParam: int := first;
    rendered := "";
    var i := 0;
    RenderBounds(tmpl, nextParam, rendered, input, args);
    while i < |tmpl|
      invariant 0 <= i <= |tmpl|
      invariant rendered + Render(tmpl[i..], nextParam) == Render(tmpl, first)
      invariant args + ArgsOf(tmpl[i..], input) == ArgsOf(tmpl, input)
    {
      RenderStep(tmpl, i, nextParam, rendered);
      ArgsStep(tmpl, i, input, args);
      match PlaceholderAt(tmpl[i..]) {
        case Some(m) =>
          args := args + [Lookup(input, m.key)];
          nextParam := Inc64(nextParam);
          rendered := rendered + ("$" + Itoa(nextParam));
          i := i + m.len;
        case None =>
          rendered := rendered + [tmpl[i]];
          i := i + 1;
      }
    }
    RenderBounds(tmpl, nextParam, rendered, input, args);
  }

  lemma RenderBounds<V>(t: string, next: int, done: string, input: map<string, V>, args: seq<Option<V>>)
    ensures "" + Render(t[0..], next) == Render(t, next) && done + Render(t[|t|..], next) == done
    ensures [] + ArgsOf(t[0..], input) == ArgsOf(t, input) && args + ArgsOf(t[|t|..], input) == args
  {
    hide PlaceholderAt;
    assert t[0..] == t && t[|t|..] == "";
  }

  lemma RenderStep(t: string, i: nat, next: int, done: string)
    requires i < |t|
    ensures done + Render(t[i..], next) ==
            match PlaceholderAt(t[i..])
            case Some(m) => (done + ("$" + Itoa(Inc64(next)))) + Render(t[i + m.len..], Inc64(next))
            case None => (done + [t[i]]) + Render(t[i + 1..], next)
  {
    hide PlaceholderAt;
    match PlaceholderAt(t[i..])
    case Some(m) =>
      assert t[i..][m.len..] == t[i + m.len..];
      Assoc(done, "$" + Itoa(Inc64(next)), Render(t[i + m.len..], Inc64(next)));
    case None =>
      assert t[i..][1..] == t[i + 1..];
      Assoc(done, [t[i]], Render(t[i + 1..], next));
  }

  lemma ArgsStep<V>(t: string, i: nat, input: map<string, V>, done: seq<Option<V>>)
    requires i < |t|
    ensures done + ArgsOf(t[i..], input) ==
            match PlaceholderAt(t[i..])
            case Some(m) => (done + [Lookup(input, m.key)]) + ArgsOf(t[i + m.len..], input)
            case None => done + ArgsOf(t[i + 1..], input)
  {
    hide PlaceholderAt;
    match PlaceholderAt(t[i..])
    case Some(m) => assert t[i..][m.len..] == t[i + m.len..];
    case None => assert t[i..][1..] == t[i + 1..];
  }

  // ---------------------------------------------------------------- what a query means

  /** A query as PostgreSQL's parameter syntax reads it: characters and numbered parameters. In the
      meaning of a template a placeholder is the value itself. */
  datatype Token<V> = Ch(c: char) | Num(digits: string) | Val(value: Option<V>)

  function ReadQuery<V>(q: string): seq<Token<V>>
    decreases |q|
  {
    if q == "" then []
    else
      match ParamAt(q)
      case Some(p) => [Num(p)] + ReadQuery(q[1 + |p|..])
      case None => [Ch(q[0])] + ReadQuery(q[1..])
  }

  function ReadTemplate<V>(t: string, input: map<string, V>): seq<Token<V>>
    decreases |t|
  {
    if t == "" then []
    else
      match PlaceholderAt(t)
      case Some(m) => [Val(Lookup(input, m.key))] + ReadTemplate(t[m.len..], input)
      case None =>
        match ParamAt(t)
        case Some(p) => [Num(p)] + ReadTemplate(t[1 + |p|..], input)
        case None => [Ch(t[0])] + ReadTemplate(t[1..], input)
  }

  /** Parameter `base + i` stands for `args[i - 1]`; any other parameter stays a parameter. */
  function Bind<V>(tok: Token<V>, base: nat, args: seq<Option<V>>): Token<V> {
    if tok.Num? && Digits(tok.digits) && base < Value(tok.digits) <= base + |args|
    then Val(args[Value(tok.digits) - base - 1])
    else tok
  }

  function BindAll<V>(toks: seq<Token<V>>, base: nat, args: seq<Option<V>>): seq<Token<V>> {
    if toks == [] then [] else [Bind(toks[0], base, args)] + BindAll(toks[1..], base, args)
  }

  predicate StartsWithDigit(s: string) {
    s != "" && Digit(s[0])
  }

  /** No placeholder is directly followed by a digit, which would lengthen its parameter number. */
  predicate NoGluedDigit(t: string)
    decreases |t|
  {
    t == "" ||
    match PlaceholderAt(t)
    case Some(m) => !StartsWithDigit(t[m.len..]) && NoGluedDigit(t[m.len..])
    case None => NoGluedDigit(t[1..])
  }

  /** No parameter written in `t` lies in the range of the fresh numbers. */
  ghost predicate ExplicitOutside<V>(toks: seq<Token<V>>, base: nat) {
    forall tok :: tok in toks && tok.Num? ==>
                    Digits(tok.digits) && (Value(tok.digits) <= base || Value(tok.digits) > MAX_INT64)
  }

  // ---------------------------------------------------------------- how the renderer and the readers step

  /** Characters that cannot start a placeholder pass through unchanged. */
  predicate Plain(p: string) { '{' !in p && '\'' !in p }

  lemma {:induction false} PlainSteps<V>(p: string, rest: string, next: int, input: map<string, V>)
    requires Plain(p)
    ensures Render(p + rest, next) == p + Render(rest, next)
    ensures NoGluedDigit(p + rest) == NoGluedDigit(rest)
    ensures ArgsOf(p + rest, input) == ArgsOf(rest, input)
  {
    hide PlaceholderAt, Render, NoGluedDigit, ArgsOf;
    if p == "" {
      assert p + rest == rest && p + Render(rest, next) == Render(rest, next);
    } else {
      assert p[0] in p && p == [p[0]] + p[1..];
      PlainStep(p[0], p[1..] + rest, next, input);
      PlainSteps(p[1..], rest, next, input);
      Assoc([p[0]], p[1..], rest);
      Assoc([p[0]], p[1..], Render(rest, next));
    }
  }

  lemma PlainStep<V>(c: char, x: string, next: int, input: map<string, V>)
    requires c != '{' && c != '\''
    ensures Render([c] + x, next) == [c] + Render(x, next)
    ensures NoGluedDigit([c] + x) == NoGluedDigit(x)
    ensures ArgsOf([c] + x, input) == ArgsOf(x, input)
  {
    hide PlaceholderAt;
    var t := [c] + x;
    assert t[0] == c && t[1..] == x;
    assert PlaceholderAt(t).None?;
  }

  lemma {:induction false} DigitRunThrough(ds: string, x: string)
    requires Digits(ds)
    ensures DigitRun(ds + x) == |ds| + DigitRun(x)
  {
    if ds == "" {
      assert ds + x == x;
    } else {
      assert (ds + x)[1..] == ds[1..] + x;
      DigitRunThrough(ds[1..], x);
    }
  }

  /** A parameter followed by no digit is read as itself; glued digits lengthen it. */
  lemma ReadParam<V>(ds: string, x: string)
    requires Digits(ds) && ds != "" && '1' <= ds[0]
    ensures var n := DigitRun(x);
            ReadQuery<V>("$" + ds + x) == [Num(ds + x[..n])] + ReadQuery<V>(x[n..])
  {
    hide ParamAt, DigitRun, Digits;
    var q := "$" + ds + x;
    var n := DigitRun(x);
    ParamThrough(ds, x);
    assert q[1 + |ds + x[..n]|..] == x[n..];
  }

  lemma ParamThrough(ds: string, x: string)
    requires Digits(ds) && ds != "" && '1' <= ds[0]
    ensures ParamAt("$" + ds + x) == Some(ds + x[..DigitRun(x)])
  {
    hide DigitRun, ParamAt;
    assert Digit(ds[0]);
    Assoc("$", ds, x);
    assert (ds + x)[0] == ds[0];
    hide Digits;
    DigitRunThrough(ds, x);
    ParamAfterDollar(ds + x);
    TakeThrough(ds, x, DigitRun(x));
  }

  lemma TakeThrough(a: string, x: string, n: nat)
    requires n <= |x|
    ensures (a + x)[..|a| + n] == a + x[..n]
  {
  }

  lemma ParamAfterDollar(y: string)
    requires y != "" && '1' <= y[0] <= '9'
    ensures ParamAt("$" + y) == Some(y[..DigitRun(y)])
  {
    hide DigitRun, Digits;
    assert ("$" + y)[0] == '$' && ("$" + y)[1] == y[0];
    BehindDollar(y, DigitRun(y));
  }

  lemma BehindDollar(y: string, n: nat)
    requires n <= |y|
    ensures ("$" + y)[1..] == y && ("$" + y)[1..1 + n] == y[..n]
  {
  }

  /** The renderer never turns a non-digit start into a digit start, nor the other way round. */
  lemma RenderStart(t: string, next: int)
    ensures t != "" && PlaceholderAt(t).None? ==> Render(t, next) != "" && Render(t, next)[0] == t[0]
    ensures t != "" && PlaceholderAt(t).Some? ==> Render(t, next) != "" && Render(t, next)[0] == '$'
    ensures StartsWithDigit(Render(t, next)) <==> StartsWithDigit(t)
  {
  }

  lemma FirstIsNotDigit<V>(q: string, base: nat, args: seq<Option<V>>, c: char)
    requires !StartsWithDigit(q) && Digit(c)
    ensures var toks := BindAll(ReadQuery<V>(q), base, args); toks == [] || toks[0] != Ch(c)
  {
  }

  // ---------------------------------------------------------------- meaning is preserved

  /** The state after `j` placeholders: the arguments still to come are those of `t`. */
  ghost predicate Ready<V>(t: string, input: map<string, V>, base: nat, args: seq<Option<V>>, j: nat) {
    && j <= |args| && args[j..] == ArgsOf(t, input)
    && base + j <= MAX_INT64 && ExplicitOutside(ReadTemplate(t, input), base)
  }

  ghost predicate Faithful<V>(t: string, input: map<string, V>, base: nat, args: seq<Option<V>>, j: nat) {
    BindAll(ReadQuery<V>(Render(t, base + j)), base, args) == ReadTemplate(t, input)
    <==> NoGluedDigit(t) && base + |args| <= MAX_INT64
  }

  lemma {:induction false} MeaningFrom<V>(t: string, input: map<string, V>, base: nat, args: seq<Option<V>>, j: nat)
    requires Ready(t, input, base, args, j)
    ensures Faithful(t, input, base, args, j)
    decreases |t|
  {
    if t == "" {
    } else {
      if PlaceholderAt(t).Some? {
        PlaceholderStep(t, input, base, args, j);
      } else if ParamAt(t).Some? {
        ParamStep(t, input, base, args, j);
      } else {
        CharStep(t, input, base, args, j);
      }
    }
  }

  lemma PlaceholderStep<V>(t: string, input: map<string, V>, base: nat, args: seq<Option<V>>, j: nat)
    requires t != "" && PlaceholderAt(t).Some? && Ready(t, input, base, args, j)
    ensures Faithful(t, input, base, args, j)
    decreases |t|, 0
  {
    hide PlaceholderAt, ReadQuery, BindAll, Faithful;
    var m := PlaceholderAt(t).value;
    var rest := t[m.len..];
    var next := Inc64(base + j);
    PlaceholderHead(t, input, base, args, j);
    if next < 0 {
      OverflowCase(t, input, base, args, j);
    } else if StartsWithDigit(rest) {
      GluedCase(t, input, base, args, j);
    } else {
      MeaningFrom(rest, input, base, args, j + 1);
      FreshCase(t, input, base, args, j);
    }
  }

  lemma PlaceholderHead<V>(t: string, input: map<string, V>, base: nat, args: seq<Option<V>>, j: nat)
    requires t != "" && PlaceholderAt(t).Some? && Ready(t, input, base, args, j)
    ensures var rest := t[PlaceholderAt(t).value.len..];
            && j < |args|
            && ReadTemplate(t, input) == [Val(args[j])] + ReadTemplate(rest, input)
            && (base + j < MAX_INT64 ==> Ready(rest, input, base, args, j + 1))
  {
    hide PlaceholderAt, ParamAt, ExplicitOutside;
    var m := PlaceholderAt(t).value;
    var rest := t[m.len..];
    assert args[j..][1..] == args[j + 1..];
    assert args[j..][0] == args[j] == Lookup(input, m.key);
    OutsideTail(Val(args[j]), ReadTemplate(rest, input), base);
  }

  lemma OverflowCase<V>(t: string, input: map<string, V>, base: nat, args: seq<Option<V>>, j: nat)
    requires t != "" && PlaceholderAt(t).Some? && base + j == MAX_INT64 && j < |args|
    requires ReadTemplate(t, input) == [Val(args[j])] + ReadTemplate(t[PlaceholderAt(t).value.len..], input)
    ensures Faithful(t, input, base, args, j)
  {
    hide PlaceholderAt, ReadQuery, BindAll, ReadTemplate;
    var rest := t[PlaceholderAt(t).value.len..];
    var next := Inc64(base + j);
    NegativeStep(-next, Render(rest, next), base, args, args[j], ReadTemplate(rest, input));
  }

  lemma GluedCase<V>(t: string, input: map<string, V>, base: nat, args: seq<Option<V>>, j: nat)
    requires t != "" && PlaceholderAt(t).Some? && base + j < MAX_INT64 && j < |args|
    requires ReadTemplate(t, input) == [Val(args[j])] + ReadTemplate(t[PlaceholderAt(t).value.len..], input)
    requires StartsWithDigit(t[PlaceholderAt(t).value.len..])
    ensures Faithful(t, input, base, args, j)
  {
    hide PlaceholderAt, ReadQuery, BindAll, ReadTemplate;
    var rest := t[PlaceholderAt(t).value.len..];
    var next := base + j + 1;
    GluedStep(rest, input, base, args, Dec(next), Render(rest, next));
  }

  lemma FreshCase<V>(t: string, input: map<string, V>, base: nat, args: seq<Option<V>>, j: nat)
    requires t != "" && PlaceholderAt(t).Some? && base + j < MAX_INT64 && j < |args|
    requires ReadTemplate(t, input) == [Val(args[j])] + ReadTemplate(t[PlaceholderAt(t).value.len..], input)
    requires !StartsWithDigit(t[PlaceholderAt(t).value.len..])
    requires Faithful(t[PlaceholderAt(t).value.len..], input, base, args, j + 1)
    ensures Faithful(t, input, base, args, j)
  {
    hide PlaceholderAt, ReadQuery, BindAll, ReadTemplate;
    var rest := t[PlaceholderAt(t).value.len..];
    var x := Render(rest, base + (j + 1));
    RenderStart(rest, base + (j + 1));
    FreshStep<V>(base, args, j, x);
    ConsEqual(Val(args[j]), BindAll(ReadQuery<V>(x), base, args), Val(args[j]), ReadTemplate(rest, input));
  }

  lemma OutsideTail<V>(tok: Token<V>, toks: seq<Token<V>>, base: nat)
    requires ExplicitOutside([tok] + toks, base)
    ensures ExplicitOutside(toks, base)
  {
    forall x | x in toks && x.Num?
      ensures Digits(x.digits) && (Value(x.digits) <= base || Value(x.digits) > MAX_INT64)
    {
      assert x in [tok] + toks;
    }
  }

  lemma ConsEqual<T>(a: T, s: seq<T>, b: T, t: seq<T>)
    ensures [a] + s == [b] + t <==> a == b && s == t
  {
    assert ([a] + s)[0] == a && ([a] + s)[1..] == s;
    assert ([b] + t)[0] == b && ([b] + t)[1..] == t;
  }

  lemma BoundOnlyOnOverflow<V>(p: string, toks: seq<Token<V>>, base: nat, args: seq<Option<V>>)
    requires ExplicitOutside([Num(p)] + toks, base)
    ensures base + |args| <= MAX_INT64 ==> Bind(Num(p), base, args) == Token<V>.Num(p)
  {
    assert ([Num(p)] + toks)[0] == Token<V>.Num(p);
  }

  lemma NegativeStep<V>(n: nat, x: string, base: nat, args: seq<Option<V>>, v: Option<V>, tail: seq<Token<V>>)
    ensures BindAll(ReadQuery<V>("$" + ("-" + Dec(n)) + x), base, args) != [Val(v)] + tail
  {
    var q := "$" + ("-" + Dec(n)) + x;
    assert q[0] == '$' && q[1] == '-';
    assert ReadQuery<V>(q)[0] == Ch('$');
    assert BindAll(ReadQuery<V>(q), base, args)[0] == Ch('$');
    assert ([Val(v)] + tail)[0] == Val(v);
  }

  lemma FreshStep<V>(base: nat, args: seq<Option<V>>, j: nat, x: string)
    requires j < |args| && !StartsWithDigit(x)
    ensures BindAll(ReadQuery<V>("$" + Dec(base + j + 1) + x), base, args)
            == [Val(args[j])] + BindAll(ReadQuery<V>(x), base, args)
  {
    var ds := Dec(base + j + 1);
    ReadParam<V>(ds, x);
    ValueDec(base + j + 1);
    assert DigitRun(x) == 0 && x[0..] == x && ds + x[..0] == ds;
    var toks := ReadQuery<V>("$" + ds + x);
    assert toks[1..] == ReadQuery<V>(x);
  }

  lemma GluedStep<V>(rest: string, input: map<string, V>, base: nat, args: seq<Option<V>>, ds: string, x: string)
    requires StartsWithDigit(rest) && Digits(ds) && ds != "" && '1' <= ds[0]
    ensures forall v :: BindAll(ReadQuery<V>("$" + ds + x), base, args) != [Val(v)] + ReadTemplate(rest, input)
  {
    var n := DigitRun(x);
    ReadParam<V>(ds, x);
    FirstIsNotDigit<V>(x[n..], base, args, rest[0]);
    assert ReadTemplate(rest, input)[0] == Ch(rest[0]);
    var toks := ReadQuery<V>("$" + ds + x);
    assert toks[1..] == ReadQuery<V>(x[n..]);
    var bound := BindAll(toks, base, args);
    assert bound[1..] == BindAll(toks[1..], base, args);
    forall v ensures bound != [Val(v)] + ReadTemplate(rest, input) {
      assert ([Val(v)] + ReadTemplate(rest, input))[1..] == ReadTemplate(rest, input);
    }
  }

  lemma ParamStep<V>(t: string, input: map<string, V>, base: nat, args: seq<Option<V>>, j: nat)
    requires t != "" && PlaceholderAt(t).None? && ParamAt(t).Some? && Ready(t, input, base, args, j)
    ensures Faithful(t, input, base, args, j)
    decreases |t|, 0
  {
    hide PlaceholderAt, ParamAt, ExplicitOutside, ReadQuery, BindAll, Bind, Value, Digits;
    var p := ParamAt(t).value;
    var rest := t[1 + |p|..];
    ParamSplit(t);
    PlainSteps("$" + p, rest, base + j, input);
    var x := Render(rest, base + j);
    RenderStart(rest, base + j);
    assert ReadTemplate(t, input) == [Num(p)] + ReadTemplate(rest, input);
    ExplicitStep<V>(p, x, base, args);
    OutsideTail(Num(p), ReadTemplate(rest, input), base);
    ConsEqual(Bind(Num(p), base, args), BindAll(ReadQuery<V>(x), base, args), Num(p), ReadTemplate(rest, input));
    BoundOnlyOnOverflow<V>(p, ReadTemplate(rest, input), base, args);
    MeaningFrom(rest, input, base, args, j);
  }

  lemma ParamSplit(t: string)
    requires ParamAt(t).Some?
    ensures var p := ParamAt(t).value;
            t == ("$" + p) + t[1 + |p|..] && Plain("$" + p) && !StartsWithDigit(t[1 + |p|..])
  {
  }

  lemma ExplicitStep<V>(p: string, x: string, base: nat, args: seq<Option<V>>)
    requires Digits(p) && p != "" && '1' <= p[0] && !StartsWithDigit(x)
    ensures BindAll(ReadQuery<V>("$" + p + x), base, args)
            == [Bind(Num(p), base, args)] + BindAll(ReadQuery<V>(x), base, args)
  {
    ReadParam<V>(p, x);
    assert DigitRun(x) == 0 && x[0..] == x && p + x[..0] == p;
    var toks := ReadQuery<V>("$" + p + x);
    assert toks[1..] == ReadQuery<V>(x);
  }

  lemma CharStep<V>(t: string, input: map<string, V>, base: nat, args: seq<Option<V>>, j: nat)
    requires t != "" && PlaceholderAt(t).None? && ParamAt(t).None? && Ready(t, input, base, args, j)
    ensures Faithful(t, input, base, args, j)
    decreases |t|, 0
  {
    hide PlaceholderAt, ParamAt, Ready, Render, ReadQuery, ReadTemplate, BindAll, NoGluedDigit;
    var toks := ReadQuery<V>(Render(t[1..], base + j));
    ReadCharThrough<V>(t, base + j);
    CharHead(t, input, base, args, j);
    BindChar(t[0], toks, base, args);
    MeaningFrom(t[1..], input, base, args, j);
    ConsEqual(Ch(t[0]), BindAll(toks, base, args), Ch(t[0]), ReadTemplate(t[1..], input));
  }

  lemma CharHead<V>(t: string, input: map<string, V>, base: nat, args: seq<Option<V>>, j: nat)
    requires t != "" && PlaceholderAt(t).None? && ParamAt(t).None? && Ready(t, input, base, args, j)
    ensures ReadTemplate(t, input) == [Ch(t[0])] + ReadTemplate(t[1..], input)
    ensures NoGluedDigit(t) == NoGluedDigit(t[1..])
    ensures Ready(t[1..], input, base, args, j)
  {
    hide PlaceholderAt, ParamAt, ExplicitOutside;
    OutsideTail(Ch(t[0]), ReadTemplate(t[1..], input), base);
  }

  lemma BindChar<V>(c: char, toks: seq<Token<V>>, base: nat, args: seq<Option<V>>)
    ensures BindAll([Ch(c)] + toks, base, args) == [Ch(c)] + BindAll(toks, base, args)
  {
    assert ([Ch(c)] + toks)[0] == Ch(c) && ([Ch(c)] + toks)[1..] == toks;
  }

  // ---------------------------------------------------------------- the parameters of a template

  /** A placeholder spans no `$`. */
  lemma PlaceholderHasNoDollar(t: string)
    requires PlaceholderAt(t).Some?
    ensures '$' !in t[..PlaceholderAt(t).value.len]
  {
    var q := QuoteAt(t);
    CoreHasNoDollar(t[q..]);
    var c := CoreAt(t[q..]).value.len;
    var e := QuoteAt(t[q + c..]);
    assert PlaceholderAt(t).value.len == q + c + e;
    hide PlaceholderAt, CoreAt;
    QuoteIsQuote(t);
    QuoteIsQuote(t[q + c..]);
    ThreeParts(t, q, c, e);
  }

  lemma QuoteIsQuote(s: string)
    ensures QuoteAt(s) <= |s| && '$' !in s[..QuoteAt(s)]
  {
  }

  lemma ThreeParts(t: string, q: nat, c: nat, e: nat)
    requires q + c + e <= |t| && '$' !in t[..q] && '$' !in t[q..][..c] && '$' !in t[q + c..][..e]
    ensures '$' !in t[..q + c + e]
  {
    assert t[..q + c + e] == t[..q] + t[q..][..c] + t[q + c..][..e];
  }

  lemma CoreHasNoDollar(s: string)
    requires CoreAt(s).Some?
    ensures '$' !in s[..CoreAt(s).value.len]
  {
    var n := WordRun(s[8..]);
    assert s[..10 + n] == "{{input." + s[8..][..n] + "}}";
    assert forall i :: 0 <= i < n ==> s[8..][..n][i] == s[8..][i] && Word(s[8..][i]);
    assert '$' !in s[8..][..n];
  }

  lemma {:induction false} ParamsSkip(p: string, rest: string)
    requires '$' !in p
    ensures Params(p + rest) == Params(rest)
  {
    if p == "" {
      assert p + rest == rest;
    } else {
      var t := p + rest;
      assert t[0] == p[0] && p[0] in p;
      assert t[1..] == p[1..] + rest;
      ParamsSkip(p[1..], rest);
    }
  }

  function Nums<V>(toks: seq<Token<V>>): seq<string> {
    if toks == [] then []
    else if toks[0].Num? then [toks[0].digits] + Nums(toks[1..])
    else Nums(toks[1..])
  }

  lemma {:induction false} ParamsOfTemplate<V>(t: string, input: map<string, V>)
    ensures Nums(ReadTemplate(t, input)) == Params(t)
    decreases |t|
  {
    hide ParamAt, PlaceholderAt, Nums;
    if t == "" {
      NumsOfNone<V>();
    } else {
      match PlaceholderAt(t)
      case Some(m) =>
        PlaceholderSkipped(t);
        ParamsOfTemplate(t[m.len..], input);
        NumsCons(Val(Lookup(input, m.key)), ReadTemplate(t[m.len..], input));
      case None =>
        match ParamAt(t)
        case Some(p) =>
          ParamsOfTemplate(t[1 + |p|..], input);
          NumsCons(Num(p), ReadTemplate(t[1 + |p|..], input));
        case None =>
          ParamsOfTemplate(t[1..], input);
          NumsCons(Ch(t[0]), ReadTemplate(t[1..], input));
    }
  }

  /** The scan for parameters finds nothing inside a placeholder. */
  lemma PlaceholderSkipped(t: string)
    requires PlaceholderAt(t).Some?
    ensures Params(t) == Params(t[PlaceholderAt(t).value.len..])
  {
    hide PlaceholderAt, ParamAt, Params;
    var n := PlaceholderAt(t).value.len;
    PlaceholderHasNoDollar(t);
    assert t == t[..n] + t[n..];
    ParamsSkip(t[..n], t[n..]);
  }

  lemma {:induction false} ParamsOfQuery<V>(q: string)
    ensures Nums(ReadQuery<V>(q)) == Params(q)
    decreases |q|
  {
    hide ParamAt, Nums;
    if q == "" {
      NumsOfNone<V>();
    } else {
      match ParamAt(q)
      case Some(p) =>
        ParamsOfQuery<V>(q[1 + |p|..]);
        NumsCons(Num(p), ReadQuery<V>(q[1 + |p|..]));
      case None =>
        ParamsOfQuery<V>(q[1..]);
        NumsCons(Ch(q[0]), ReadQuery<V>(q[1..]));
    }
  }

  lemma {:induction false} NumIn<V>(toks: seq<Token<V>>, tok: Token<V>)
    requires tok in toks && tok.Num?
    ensures tok.digits in Nums(toks)
  {
    if toks[0] == tok {
    } else {
      NumIn(toks[1..], tok);
    }
  }

  lemma TemplateParamsAreOutside<V>(t: string, input: map<string, V>)
    ensures ExplicitOutside(ReadTemplate(t, input), MaxParam(t))
  {
    hide ReadTemplate;
    var toks := ReadTemplate(t, input);
    ParamsOfTemplate(t, input);
    forall tok | tok in toks && tok.Num?
      ensures Digits(tok.digits) && (Value(tok.digits) <= MaxParam(t) || Value(tok.digits) > MAX_INT64)
    {
      NumIn(toks, tok);
    }
  }

  /** The rendered query, with its fresh parameters bound to the arguments, means what the template
      means with each placeholder (and the quotes around it) replaced by its input value, and no
      parameter the author wrote is captured, exactly when no placeholder is directly followed by a
      digit and the fresh numbers fit an int64. */
  lemma MeaningPreserved<V>(tmpl: string, input: map<string, V>)
    ensures var base := MaxParam(tmpl);
            var args := ArgsOf(tmpl, input);
            BindAll(ReadQuery<V>(Render(tmpl, base)), base, args) == ReadTemplate(tmpl, input)
            <==> Fits(tmpl, input, base)
  {
    TemplateParamsAreOutside(tmpl, input);
    var args := ArgsOf(tmpl, input);
    assert args[0..] == args;
    MeaningFrom(tmpl, input, MaxParam(tmpl), args, 0);
  }

  // ---------------------------------------------------------------- fresh numbering

  /** The template's tokens with its placeholders numbered `next + 1`, `next + 2`, ... */
  function Numbered<V>(toks: seq<Token<V>>, next: nat): seq<Token<V>> {
    if toks == [] then []
    else if toks[0].Val? then [Num(Dec(next + 1))] + Numbered(toks[1..], next + 1)
    else [toks[0]] + Numbered(toks[1..], next)
  }

  lemma {:induction false} ReadRendered<V>(t: string, input: map<string, V>, next: nat)
    requires NoGluedDigit(t) && next + |ArgsOf(t, input)| <= MAX_INT64
    ensures ReadQuery<V>(Render(t, next)) == Numbered(ReadTemplate(t, input), next)
    decreases |t|
  {
    hide PlaceholderAt, ParamAt, ReadQuery, Numbered;
    NumberedCons(ReadTemplate(t, input), next);
    if t == "" {
      assert ReadQuery<V>("") == [] by { ReadNothing<V>(); }
    } else {
      match PlaceholderAt(t)
      case Some(m) =>
        var rest := t[m.len..];
        RenderStart(rest, next + 1);
        ReadRendered(rest, input, next + 1);
        ReadUnglued<V>(Dec(next + 1), Render(rest, next + 1));
        assert ReadTemplate(t, input)[1..] == ReadTemplate(rest, input);
      case None =>
        match ParamAt(t)
        case Some(p) =>
          var rest := t[1 + |p|..];
          ParamSplit(t);
          PlainSteps("$" + p, rest, next, input);
          RenderStart(rest, next);
          ReadRendered(rest, input, next);
          ReadUnglued<V>(p, Render(rest, next));
          assert ReadTemplate(t, input)[1..] == ReadTemplate(rest, input);
        case None =>
          ReadCharThrough<V>(t, next);
          ReadRendered(t[1..], input, next);
          assert ReadTemplate(t, input)[1..] == ReadTemplate(t[1..], input);
    }
  }

  lemma ReadNothing<V>()
    ensures ReadQuery<V>("") == []
  {
  }

  lemma ReadUnglued<V>(ds: string, x: string)
    requires Digits(ds) && ds != "" && '1' <= ds[0] && !StartsWithDigit(x)
    ensures ReadQuery<V>("$" + ds + x) == [Num(ds)] + ReadQuery<V>(x)
  {
    ReadParam<V>(ds, x);
    assert DigitRun(x) == 0 && x[0..] == x && ds + x[..0] == ds;
  }

  lemma ReadCharThrough<V>(t: string, next: int)
    requires t != "" && PlaceholderAt(t).None? && ParamAt(t).None?
    ensures ReadQuery<V>(Render(t, next)) == [Ch(t[0])] + ReadQuery<V>(Render(t[1..], next))
  {
    RenderStart(t[1..], next);
    var q := [t[0]] + Render(t[1..], next);
    assert q[1..] == Render(t[1..], next);
    assert ParamAt(q).None?;
  }

  lemma {:induction false} MaxOfNumbered<V>(toks: seq<Token<V>>, next: nat)
    requires ExplicitOutside(toks, next) && next + Holes(toks) <= MAX_INT64
    ensures forall p :: p in Nums(Numbered(toks, next)) ==> Digits(p)
    ensures MaxOf(Nums(Numbered(toks, next))) <= next + Holes(toks)
    ensures Holes(toks) > 0 ==> MaxOf(Nums(Numbered(toks, next))) == next + Holes(toks)
    ensures Holes(toks) == 0 ==> Nums(Numbered(toks, next)) == Nums(toks)
    decreases |toks|
  {
    hide ExplicitOutside, Digits, Value, MaxOf, Dec, Nums, Numbered;
    NumberedCons(toks, next);
    if toks == [] {
      MaxOfNone();
      NumsOfNone<V>();
    } else {
      assert toks == [toks[0]] + toks[1..];
      OutsideTail(toks[0], toks[1..], next);
      NumsCons(toks[0], toks[1..]);
      if toks[0].Val? {
        var rest := Numbered(toks[1..], next + 1);
        OutsideGrows(toks[1..], next);
        MaxOfNumbered(toks[1..], next + 1);
        ValueDec(next + 1);
        NumsCons(Num(Dec(next + 1)), rest);
        MaxOfCons(Dec(next + 1), Nums(rest));
        if Holes(toks[1..]) == 0 { MaxOfOutside(Nums(rest), next + 1, toks[1..]); }
      } else {
        var rest := Numbered(toks[1..], next);
        MaxOfNumbered(toks[1..], next);
        NumsCons(toks[0], rest);
        if toks[0].Num? {
          OutsideHead(toks, next);
          MaxOfCons(toks[0].digits, Nums(rest));
        }
      }
    }
  }

  lemma NumberedCons<V>(toks: seq<Token<V>>, next: nat)
    ensures Numbered(toks, next) ==
            if toks == [] then []
            else if toks[0].Val? then [Num(Dec(next + 1))] + Numbered(toks[1..], next + 1)
            else [toks[0]] + Numbered(toks[1..], next)
  {
  }

  lemma MaxOfNone()
    ensures MaxOf([]) == 0
  {
  }

  lemma NumsOfNone<V>()
    ensures Nums<V>([]) == []
  {
  }

  lemma NumsCons<V>(tok: Token<V>, toks: seq<Token<V>>)
    ensures Nums([tok] + toks) == if tok.Num? then [tok.digits] + Nums(toks) else Nums(toks)
  {
    assert ([tok] + toks)[0] == tok && ([tok] + toks)[1..] == toks;
  }

  lemma OutsideHead<V>(toks: seq<Token<V>>, next: nat)
    requires ExplicitOutside(toks, next) && toks != [] && toks[0].Num?
    ensures Digits(toks[0].digits) && (Value(toks[0].digits) <= next || Value(toks[0].digits) > MAX_INT64)
  {
    hide Digits, Value;
    assert toks[0] in toks;
  }

  /** How many placeholders a template has. */
  function Holes<V>(toks: seq<Token<V>>): nat {
    if toks == [] then 0 else (if toks[0].Val? then 1 else 0) + Holes(toks[1..])
  }

  lemma OutsideGrows<V>(toks: seq<Token<V>>, next: nat)
    requires ExplicitOutside(toks, next)
    ensures ExplicitOutside(toks, next + 1)
  {
  }

  lemma {:induction false} MaxOfOutside<V>(ps: seq<string>, next: nat, toks: seq<Token<V>>)
    requires ps == Nums(toks) && ExplicitOutside(toks, next)
    ensures forall p :: p in ps ==> Digits(p)
    ensures MaxOf(ps) <= next
    decreases |toks|
  {
    hide ExplicitOutside, Digits, Value, MaxOf;
    if toks == [] {
      MaxOfNone();
    } else {
      assert toks == [toks[0]] + toks[1..];
      OutsideTail(toks[0], toks[1..], next);
      MaxOfOutside(Nums(toks[1..]), next, toks[1..]);
      NumsCons(toks[0], toks[1..]);
      if toks[0].Num? {
        OutsideHead(toks, next);
        MaxOfCons(toks[0].digits, Nums(toks[1..]));
      }
    }
  }

  lemma {:induction false} HolesAreArgs<V>(t: string, input: map<string, V>)
    ensures Holes(ReadTemplate(t, input)) == |ArgsOf(t, input)|
    decreases |t|
  {
    hide PlaceholderAt, ParamAt;
    if t == "" {
    } else {
      match PlaceholderAt(t)
      case Some(m) => HolesAreArgs(t[m.len..], input);
      case None =>
        match ParamAt(t)
        case Some(p) =>
          HolesAreArgs(t[1 + |p|..], input);
          ParamSplit(t);
          PlainSteps("$" + p, t[1 + |p|..], 0, input);
        case None => HolesAreArgs(t[1..], input);
    }
  }

  // ---------------------------------------------------------------- when the numbering goes wrong

  lemma NoDollarInDigits(s: string)
    requires Digits(s)
    ensures '$' !in s
  {
  }

  lemma ParamsOfParam(ds: string, x: string)
    requires Digits(ds) && ds != "" && '1' <= ds[0]
    ensures Params("$" + ds + x) == [ds + x[..DigitRun(x)]] + Params(x)
  {
    hide ParamAt, Params;
    var n := DigitRun(x);
    NoDollarInDigits(x[..n]);
    ParamThrough(ds, x);
    hide *;
    assert x == x[..n] + x[n..];
    Regroup("$", ds, x[..n], x[n..]);
    ParamsSkip(x[..n], x[n..]);
    ParamsHead("$" + ds + x, ds + x[..n], x[n..]);
  }

  lemma Regroup(a: string, b: string, c: string, d: string)
    ensures a + b + (c + d) == a + (b + c) + d
  {
  }

  lemma ParamsHead(q: string, p: string, rest: string)
    requires ParamAt(q) == Some(p) && q == "$" + p + rest
    ensures Params(q) == [p] + Params(rest)
  {
    hide ParamAt;
    assert q[1 + |p|..] == rest;
  }

  lemma ParamsOfNoParam(p: string, x: string)
    requires p != "" && '$' !in p && !('1' <= p[0] <= '9')
    ensures Params("$" + p + x) == Params(x)
  {
    var q := "$" + p + x;
    assert q[1] == p[0] && q[1..] == p + x;
    assert ParamAt(q).None?;
    hide ParamAt;
    ParamsSkip(p, x);
  }

  lemma ParamsOfItoa(n: int, x: string)
    ensures |Params("$" + Itoa(n) + x)| <= 1 + |Params(x)|
  {
    if n > 0 {
      ParamsOfParam(Dec(n), x);
    } else if n == 0 {
      assert Itoa(0) == "0";
      ParamsOfNoParam("0", x);
    } else {
      NoDollarInDigits(Dec(-n));
      ParamsOfNoParam(Itoa(n), x);
    }
  }

  lemma ParamsOfChar(t: string, next: int)
    requires t != "" && PlaceholderAt(t).None? && ParamAt(t).None?
    ensures Params(Render(t, next)) == Params(Render(t[1..], next)) && Params(t) == Params(t[1..])
  {
    RenderStart(t[1..], next);
    var q := [t[0]] + Render(t[1..], next);
    assert q[1..] == Render(t[1..], next);
    assert ParamAt(q).None?;
  }

  /** A template with a parameter in front renders to that parameter and the rest. */
  lemma ParamsOfExplicit<V>(t: string, next: int, input: map<string, V>)
    requires PlaceholderAt(t).None? && ParamAt(t).Some?
    ensures var p := ParamAt(t).value;
            var rest := t[1 + |p|..];
            && Params(Render(t, next)) == [p] + Params(Render(rest, next))
            && Params(t) == [p] + Params(rest)
            && NoGluedDigit(t) == NoGluedDigit(rest) && ArgsOf(t, input) == ArgsOf(rest, input)
  {
    var p := ParamAt(t).value;
    var rest := t[1 + |p|..];
    ParamSplit(t);
    PlainSteps("$" + p, rest, next, input);
    RenderStart(rest, next);
    hide ParamAt, PlaceholderAt, Render, NoGluedDigit, ArgsOf;
    ParamsOfParam(p, Render(rest, next));
    assert DigitRun(Render(rest, next)) == 0 && p + Render(rest, next)[..0] == p;
  }

  /** Rendering makes no more parameters than the template has parameters and placeholders. */
  ghost predicate Few<V>(t: string, next: int, input: map<string, V>) {
    |Params(Render(t, next))| <= Holes(ReadTemplate(t, input)) + |Params(t)|
  }

  lemma {:induction false} ParamsAreFew<V>(t: string, next: int, input: map<string, V>)
    ensures Few(t, next, input)
    decreases |t|
  {
    hide *;
    if t == "" {
      FewInNothing(next, input);
    } else {
      match PlaceholderAt(t)
      case Some(m) =>
        ParamsAreFew(t[m.len..], Inc64(next), input);
        FewAtPlaceholder(t, next, input);
      case None =>
        match ParamAt(t)
        case Some(p) =>
          ParamsAreFew(t[1 + |p|..], next, input);
          FewAtParam(t, next, input);
        case None =>
          ParamsAreFew(t[1..], next, input);
          FewAtChar(t, next, input);
    }
  }

  lemma FewInNothing<V>(next: int, input: map<string, V>)
    ensures Few("", next, input)
  {
  }

  lemma FewAtPlaceholder<V>(t: string, next: int, input: map<string, V>)
    requires t != "" && PlaceholderAt(t).Some? && Few(t[PlaceholderAt(t).value.len..], Inc64(next), input)
    ensures Few(t, next, input)
  {
    hide PlaceholderAt, Params, Itoa, Inc64, Holes;
    var m := PlaceholderAt(t).value;
    var rest := t[m.len..];
    PlaceholderSkipped(t);
    ParamsOfItoa(Inc64(next), Render(rest, Inc64(next)));
    HolesCons(Val(Lookup(input, m.key)), ReadTemplate(rest, input));
  }

  lemma FewAtParam<V>(t: string, next: int, input: map<string, V>)
    requires t != "" && PlaceholderAt(t).None? && ParamAt(t).Some? && Few(t[1 + |ParamAt(t).value|..], next, input)
    ensures Few(t, next, input)
  {
    hide PlaceholderAt, ParamAt, Params, Holes, Render;
    var p := ParamAt(t).value;
    ParamsOfExplicit(t, next, input);
    HolesCons(Num(p), ReadTemplate(t[1 + |p|..], input));
  }

  lemma FewAtChar<V>(t: string, next: int, input: map<string, V>)
    requires t != "" && PlaceholderAt(t).None? && ParamAt(t).None? && Few(t[1..], next, input)
    ensures Few(t, next, input)
  {
    hide PlaceholderAt, ParamAt, Params, Holes, Render;
    ParamsOfChar(t, next);
    HolesCons(Ch(t[0]), ReadTemplate(t[1..], input));
  }

  lemma HolesCons<V>(tok: Token<V>, toks: seq<Token<V>>)
    ensures Holes([tok] + toks) == (if tok.Val? then 1 else 0) + Holes(toks)
  {
    assert ([tok] + toks)[0] == tok && ([tok] + toks)[1..] == toks;
  }

  lemma {:induction false} NumberedCount<V>(toks: seq<Token<V>>, next: nat)
    ensures |Nums(Numbered(toks, next))| == Holes(toks) + |Nums(toks)|
    decreases |toks|
  {
    hide Nums, Numbered, Dec;
    NumberedCons(toks, next);
    if toks == [] {
      NumsOfNone<V>();
    } else {
      assert toks == [toks[0]] + toks[1..];
      NumsCons(toks[0], toks[1..]);
      if toks[0].Val? {
        NumberedCount(toks[1..], next + 1);
        NumsCons(Num(Dec(next + 1)), Numbered(toks[1..], next + 1));
      } else {
        NumberedCount(toks[1..], next);
        NumsCons(toks[0], Numbered(toks[1..], next));
      }
    }
  }

  /** The parameters the rendered query ought to have. */
  function Wanted<V>(t: string, input: map<string, V>, next: nat): seq<string> {
    Nums(Numbered(ReadTemplate(t, input), next))
  }

  lemma WantedStep<V>(t: string, input: map<string, V>, next: nat)
    requires t != ""
    ensures Wanted(t, input, next) ==
            match PlaceholderAt(t)
            case Some(m) => [Dec(next + 1)] + Wanted(t[m.len..], input, next + 1)
            case None =>
              match ParamAt(t)
              case Some(p) => [p] + Wanted(t[1 + |p|..], input, next)
              case None => Wanted(t[1..], input, next)
  {
    hide PlaceholderAt, ParamAt, Nums, Numbered, Dec;
    var toks := ReadTemplate(t, input);
    NumberedCons(toks, next);
    match PlaceholderAt(t)
    case Some(m) =>
      assert toks[1..] == ReadTemplate(t[m.len..], input);
      NumsCons(Num(Dec(next + 1)), Numbered(toks[1..], next + 1));
    case None =>
      match ParamAt(t)
      case Some(p) =>
        assert toks[1..] == ReadTemplate(t[1 + |p|..], input);
        NumsCons(toks[0], Numbered(toks[1..], next));
      case None =>
        assert toks[1..] == ReadTemplate(t[1..], input);
        NumsCons(toks[0], Numbered(toks[1..], next));
  }

  /** No digit is glued to a placeholder and the numbers from `next` on fit an int64. */
  predicate Fits<V>(t: string, input: map<string, V>, next: nat) {
    NoGluedDigit(t) && next + |ArgsOf(t, input)| <= MAX_INT64
  }

  lemma FitsStep<V>(t: string, input: map<string, V>, next: nat)
    requires t != "" && next <= MAX_INT64
    ensures Fits(t, input, next) ==
            match PlaceholderAt(t)
            case Some(m) =>
              next < MAX_INT64 && !StartsWithDigit(t[m.len..]) && Fits(t[m.len..], input, next + 1)
            case None => Fits(if ParamAt(t).Some? then t[1 + |ParamAt(t).value|..] else t[1..], input, next)
  {
    hide PlaceholderAt, ParamAt;
    if PlaceholderAt(t).None? && ParamAt(t).Some? { ParamsOfExplicit(t, next, input); }
  }

  /** A glued digit or a number that does not fit spoils the parameter list. */
  lemma {:induction false} ParamsDiffer<V>(t: string, input: map<string, V>, next: nat)
    requires next <= MAX_INT64 && !Fits(t, input, next)
    ensures Params(Render(t, next)) != Wanted(t, input, next)
    decreases |t|
  {
    assert t != "";
    hide PlaceholderAt, ParamAt, Params, Wanted, Fits, NoGluedDigit, ArgsOf;
    FitsStep(t, input, next);
    WantedStep(t, input, next);
    match PlaceholderAt(t)
    case Some(m) =>
      var rest := t[m.len..];
      if next == MAX_INT64 {
        OverflowDiffers(rest, input);
      } else {
        if !StartsWithDigit(rest) { ParamsDiffer(rest, input, next + 1); }
        PlaceholderDiffers(t, input, next);
      }
    case None =>
      match ParamAt(t)
      case Some(p) =>
        ParamsOfExplicit(t, next, input);
        ParamsDiffer(t[1 + |p|..], input, next);
        SameFront([p], Params(Render(t[1 + |p|..], next)), Wanted(t[1 + |p|..], input, next));
      case None =>
        ParamsOfChar(t, next);
        ParamsDiffer(t[1..], input, next);
  }

  lemma PlaceholderDiffers<V>(t: string, input: map<string, V>, next: nat)
    requires t != "" && PlaceholderAt(t).Some? && next < MAX_INT64
    requires var rest := t[PlaceholderAt(t).value.len..];
             StartsWithDigit(rest) || Params(Render(rest, next + 1)) != Wanted(rest, input, next + 1)
    ensures Params(Render(t, next)) != Wanted(t, input, next)
  {
    hide PlaceholderAt, ParamAt, Params, Wanted;
    var rest := t[PlaceholderAt(t).value.len..];
    var ds, x := Dec(next + 1), Render(rest, next + 1);
    assert Render(t, next) == "$" + ds + x;
    assert ds != "" && '1' <= ds[0] && Digits(ds);
    WantedStep(t, input, next);
    RenderStart(rest, next + 1);
    assert DigitRun(x) > 0 <==> StartsWithDigit(rest);
    hide *;
    ParamsOfParam(ds, x);
    if StartsWithDigit(rest) {
      LongerHeadDiffers(ds, x[..DigitRun(x)], Params(x), Wanted(rest, input, next + 1));
    } else {
      assert ds + x[..DigitRun(x)] == ds;
      SameFront([ds], Params(x), Wanted(rest, input, next + 1));
    }
  }

  lemma LongerHeadDiffers(ds: string, more: string, a: seq<string>, b: seq<string>)
    requires more != ""
    ensures [ds + more] + a != [ds] + b
  {
    assert ([ds + more] + a)[0] == ds + more && ([ds] + b)[0] == ds && |ds + more| > |ds|;
  }

  /** After the largest int64 the next number is negative, and `$-` is no parameter. */
  lemma OverflowDiffers<V>(rest: string, input: map<string, V>)
    ensures var n := Inc64(MAX_INT64);
            Params("$" + Itoa(n) + Render(rest, n)) != [Dec(MAX_INT64 + 1)] + Wanted(rest, input, MAX_INT64 + 1)
  {
    hide PlaceholderAt, ParamAt, Params;
    var n := Inc64(MAX_INT64);
    NoDollarInDigits(Dec(-n));
    assert Itoa(n)[0] == '-';
    ParamsOfNoParam(Itoa(n), Render(rest, n));
    ParamsAreFew(rest, n, input);
    NumberedCount(ReadTemplate(rest, input), MAX_INT64 + 1);
    ParamsOfTemplate(rest, input);
  }

  /** The parameters of the rendered query are the template's own, in place, with its placeholders
      numbered upwards from the largest of them, exactly when no placeholder is directly followed by a
      digit and the numbers fit an int64. Then the largest is the old largest plus the number of
      arguments, and every argument has a parameter of its own. */
  lemma FreshParameters<V>(tmpl: string, input: map<string, V>)
    ensures var base := MaxParam(tmpl);
            && (Params(Render(tmpl, base)) == Wanted(tmpl, input, base) <==> Fits(tmpl, input, base))
            && (Fits(tmpl, input, base) ==> MaxParam(Render(tmpl, base)) == base + |ArgsOf(tmpl, input)|)
            && Nums(ReadTemplate(tmpl, input)) == Params(tmpl)
  {
    hide NoGluedDigit, Render, ArgsOf, ReadTemplate, MaxOf, Numbered, Nums, Params, ReadQuery;
    var base := MaxParam(tmpl);
    ParamsOfTemplate(tmpl, input);
    TemplateParamsAreOutside(tmpl, input);
    HolesAreArgs(tmpl, input);
    if Fits(tmpl, input, base) {
      ReadRendered(tmpl, input, base);
      ParamsOfQuery<V>(Render(tmpl, base));
      MaxOfNumbered(ReadTemplate(tmpl, input), base);
      if Holes(ReadTemplate(tmpl, input)) == 0 { assert Params(Render(tmpl, base)) == Params(tmpl); }
    } else {
      ParamsDiffer(tmpl, input, base);
    }
  }

  // ---------------------------------------------------------------- rendering twice

  /** Up to its first `$` the rendered text is the template. */
  lemma {:induction false} AgreesUpToDollar(t: string, next: int, n: nat)
    requires n <= |Render(t, next)| && '$' !in Render(t, next)[..n]
    ensures n <= |t| && t[..n] == Render(t, next)[..n]
    decreases |t|
  {
    hide PlaceholderAt;
    if t == "" || n == 0 {
    } else {
      var r := Render(t, next);
      assert r[0] in r[..n];
      assert PlaceholderAt(t).None?;
      var r' := Render(t[1..], next);
      assert r == [t[0]] + r';
      assert r[..n] == [t[0]] + r'[..n - 1];
      AgreesUpToDollar(t[1..], next, n - 1);
      assert t[..n] == [t[0]] + t[1..][..n - 1];
    }
  }

  /** Whether a placeholder starts a text is decided by the text it spans. */
  lemma PlaceholderIsLocal(s: string, t: string)
    requires PlaceholderAt(s).Some? && PlaceholderAt(s).value.len <= |t|
    requires t[..PlaceholderAt(s).value.len] == s[..PlaceholderAt(s).value.len]
    ensures PlaceholderAt(t).Some?
  {
    var m := PlaceholderAt(s).value;
    var q := QuoteAt(s);
    assert t[0] == t[..m.len][0] == s[..m.len][0] == s[0];
    assert QuoteAt(t) == q;
    var c := CoreAt(s[q..]).value.len;
    SliceOfPrefix(t, m.len, q, c);
    SliceOfPrefix(s, m.len, q, c);
    CoreIsLocal(s[q..], t[q..]);
  }

  lemma SliceOfPrefix(t: string, n: nat, q: nat, c: nat)
    requires q + c <= n <= |t|
    ensures t[q..][..c] == t[..n][q..q + c]
  {
  }

  lemma CoreIsLocal(s: string, t: string)
    requires CoreAt(s).Some? && CoreAt(s).value.len <= |t|
    requires t[..CoreAt(s).value.len] == s[..CoreAt(s).value.len]
    ensures CoreAt(t).Some?
  {
    var c := CoreAt(s).value.len;
    var n := WordRun(s[8..]);
    assert forall i :: 0 <= i < c ==> t[i] == t[..c][i] == s[..c][i] == s[i];
    assert forall i :: 0 <= i <= n ==> t[8..][i] == s[8..][i];
    assert WordRun(t[8..]) == n;
    assert t[8 + n..][..2] == s[8 + n..][..2] == "}}";
    assert t[..8] == s[..8] == "{{input.";
  }

  /** Rendering a rendered query changes nothing and binds nothing: no placeholder spans a `$`, and
      none starts in the text between two parameters. */
  lemma {:induction false} RenderIsIdempotent<V>(t: string, next: int, again: int, input: map<string, V>)
    ensures Render(Render(t, next), again) == Render(t, next)
    ensures ArgsOf(Render(t, next), input) == []
    decreases |t|
  {
    hide PlaceholderAt;
    if t == "" {
    } else {
      match PlaceholderAt(t)
      case Some(m) =>
        var n := Inc64(next);
        var p := "$" + Itoa(n);
        RenderIsIdempotent(t[m.len..], n, again, input);
        assert Plain(p) by { assert forall c :: c in p ==> c == '$' || c == '-' || Digit(c); }
        PlainSteps(p, Render(t[m.len..], n), again, input);
      case None =>
        var r := Render(t, next);
        RenderIsIdempotent(t[1..], next, again, input);
        if PlaceholderAt(r).Some? {
          PlaceholderHasNoDollar(r);
          AgreesUpToDollar(t, next, PlaceholderAt(r).value.len);
          PlaceholderIsLocal(r, t);
        }
        assert r[1..] == Render(t[1..], next);
    }
  }

  /** A digit glued to a placeholder changes which parameter is read: `{{input.id}}0` becomes `$10`. */
  lemma GluedDigitExample()
    ensures Render("{{input.id}}0", 0) == "$10" && ReadQuery<int>("$10") == [Num("10")]
    ensures ReadTemplate("{{input.id}}0", map["id" := 7]) == [Val(Some(7)), Ch('0')]
  {
    var t := "{{input.id}}0";
    IdPlaceholder();
    ReadTen();
    hide PlaceholderAt;
    assert t[12..] == "0" && "0"[1..] == "";
    assert Render("0", 1) == "0";
    assert Itoa(1) == "1";
    assert ReadTemplate("0", map["id" := 7]) == [Ch('0')];
  }

  lemma IdPlaceholder()
    ensures PlaceholderAt("{{input.id}}0") == Some(Match(12, "id")) && PlaceholderAt("0").None?
  {
    var t := "{{input.id}}0";
    IdCore();
    assert "0"[0..] == "0" && CoreAt("0").None?;
    hide CoreAt;
    assert t[0..] == t;
    assert t[12..] == "0";
  }

  lemma IdCore()
    ensures CoreAt("{{input.id}}0") == Some(Match(12, "id"))
  {
    var t := "{{input.id}}0";
    assert t[8..] == "id}}0" && t[10..] == "}}0" && t[8..10] == "id";
    assert "id}}0"[1..] == "d}}0" && "d}}0"[1..] == "}}0";
    assert WordRun("}}0") == 0;
    assert WordRun("d}}0") == 1;
    assert WordRun("id}}0") == 2;
  }

  lemma ReadTen()
    ensures ReadQuery<int>("$10") == [Num("10")]
  {
    assert "$10"[1..] == "10" && DigitRun("10") == 2;
    assert "$10"[1..3] == "10" && "$10"[3..] == "";
    assert ParamAt("$10") == Some("10");
  }
}

/** The placeholder engine of `internal/executor/http/executor.go`: `renderTemplate`,
    `renderTemplateURL` and the test that decides which inputs a URL template uses.

    Input values are modelled as the strings `fmt.Sprintf("%v", v)` makes of them. */
module Template {
  import opened Strings
  import opened Replacer

  datatype Form = Double | Single | Input | Args

  function Open(f: Form): string {
    if f == Single then "{" else "{{"
  }

  function Close(f: Form): string {
    if f == Single then "}" else "}}"
  }

  function Body(f: Form, k: string): string {
    match f
    case Double => k
    case Single => k
    case Input => "input." + k
    case Args => "args." + k
  }

  function Placeholder(f: Form, k: string): (p: string)
    ensures p != ""
  {
    Open(f) + Body(f, k) + Close(f)
  }

  /** The four pairs the loop body appends for one key. */
  function RulesForKey(k: string, v: string): (rules: seq<Rule>)
    ensures Usable(rules)
  {
    [ Rule(Placeholder(Double, k), v), Rule(Placeholder(Single, k), v),
      Rule(Placeholder(Input, k), v), Rule(Placeholder(Args, k), v) ]
  }

  lemma MatchForm(k: string, v: string, s: string) returns (f: Form)
    requires FirstMatch(RulesForKey(k, v), s).Some?
    ensures FirstMatch(RulesForKey(k, v), s) == Some(Rule(Placeholder(f, k), v))
  {
    var rules := RulesForKey(k, v);
    var r := FirstMatch(rules, s).value;
    f := if r == rules[0] then Double else if r == rules[1] then Single else if r == rules[2] then Input else Args;
  }

  /** All pairs, for a map ranged over in `order`. */
  function RulesFor(order: seq<string>, values: map<string, string>): (rules: seq<Rule>)
    requires forall k :: k in order ==> k in values
    ensures Usable(rules)
  {
    if order == [] then []
    else
      RulesForKey(order[0], values[order[0]]) + RulesFor(order[1..], values)
  }

  lemma {:induction false} RulesForSnoc(order: seq<string>, k: string, values: map<string, string>)
    requires k in values && forall x :: x in order ==> x in values
    ensures RulesFor(order + [k], values) == RulesFor(order, values) + RulesForKey(k, values[k])
  {
    hide RulesForKey;
    var longer := order + [k];
    if order == [] {
      assert longer == [k] && longer[1..] == [];
      assert RulesFor(longer[1..], values) == [];
    } else {
      assert longer[0] == order[0] && longer[1..] == order[1..] + [k];
      RulesForSnoc(order[1..], k, values);
      Assoc(RulesForKey(order[0], values[order[0]]), RulesFor(order[1..], values), RulesForKey(k, values[k]));
    }
  }

  // ---------------------------------------------------------------- rendering

  /** The text the replacer makes of `tmpl` when Go ranges over the map in `order`. */
  function Render(order: seq<string>, values: map<string, string>, tmpl: string): string
    requires forall k :: k in order ==> k in values
  {
    Replace(RulesFor(order, values), tmpl)
  }

  /** The loop that appends four pairs for each input key, in whatever order Go picks. */
  method CollectPairs(values: map<string, string>) returns (pairs: seq<Rule>, ghost order: seq<string>)
    ensures Enumerates(order, values.Keys) && pairs == RulesFor(order, values)
  {
    pairs, order := [], [];
    var rest := values.Keys;
    while rest != {}
      invariant rest <= values.Keys
      invariant Enumerates(order, values.Keys - rest)
      invariant pairs == RulesFor(order, values)
    {
      var k :| k in rest;
      order := AppendKey(order, k, rest, values);
      pairs := pairs + RulesForKey(k, values[k]);
      rest := rest - {k};
    }
    assert values.Keys - rest == values.Keys;
  }

  lemma AppendKey(order: seq<string>, k: string, rest: set<string>, values: map<string, string>)
    returns (longer: seq<string>)
    requires k in rest && rest <= values.Keys && Enumerates(order, values.Keys - rest)
    ensures longer == order + [k] && Enumerates(longer, values.Keys - (rest - {k}))
    ensures RulesFor(longer, values) == RulesFor(order, values) + RulesForKey(k, values[k])
  {
    longer := order + [k];
    hide *;
    EnumeratesNext(k, order, rest, values.Keys);
    RulesForSnoc(order, k, values);
  }

  /** `renderTemplate`, and `renderTemplateURL` when `values` holds the query-escaped values. Go
      picks the iteration order; whichever it picks, the text is `Render` of that order. When no
      pattern of one key can be confused with a pattern of another, every order gives that text. */
  method RenderTemplate(tmpl: string, values: map<string, string>) returns (rendered: string, ghost order: seq<string>)
    ensures Enumerates(order, values.Keys) && rendered == Render(order, values, tmpl)
    ensures Compatible(values) ==>
              forall o :: Enumerates(o, values.Keys) ==> rendered == Render(o, values, tmpl)
  {
    var pairs;
    pairs, order := CollectPairs(values);
    rendered := Replace(pairs, tmpl);
    if Compatible(values) { AllOrders(values, order, tmpl); }
  }

  // ---------------------------------------------------------------- iteration order

  /** No pattern of one key starts a pattern of another, unless both mean the same text. */
  ghost predicate Compatible(values: map<string, string>) {
    forall k1, k2, f1, f2 :: k1 in values && k2 in values && k1 != k2 && Placeholder(f1, k1) <= Placeholder(f2, k2) ==>
                               Placeholder(f1, k1) == Placeholder(f2, k2) && values[k1] == values[k2]
  }

  lemma {:induction false} MatchComesFromAKey(order: seq<string>, values: map<string, string>, s: string)
    requires forall k :: k in order ==> k in values
    ensures var m := FirstMatch(RulesFor(order, values), s);
            if m.Some? then exists k :: k in order && FirstMatch(RulesForKey(k, values[k]), s) == m
            else forall k :: k in order ==> FirstMatch(RulesForKey(k, values[k]), s).None?
  {
    if order == [] {
    } else {
      var k := order[0];
      FirstMatchConcat(RulesForKey(k, values[k]), RulesFor(order[1..], values), s);
      MatchComesFromAKey(order[1..], values, s);
    }
  }

  lemma SameMatch(values: map<string, string>, a: seq<string>, b: seq<string>, s: string)
    requires Compatible(values) && Enumerates(a, values.Keys) && Enumerates(b, values.Keys)
    ensures FirstMatch(RulesFor(a, values), s) == FirstMatch(RulesFor(b, values), s)
  {
    hide RulesFor, RulesForKey, FirstMatch, Compatible, Enumerates;
    MatchComesFromAKey(a, values, s);
    MatchComesFromAKey(b, values, s);
    var m, n := FirstMatch(RulesFor(a, values), s), FirstMatch(RulesFor(b, values), s);
    if m.Some? && n.Some? {
      var k1 :| k1 in a && FirstMatch(RulesForKey(k1, values[k1]), s) == m;
      var k2 :| k2 in b && FirstMatch(RulesForKey(k2, values[k2]), s) == n;
      KeysAgree(values, k1, k2, s);
    }
  }

  lemma KeysAgree(values: map<string, string>, k1: string, k2: string, s: string)
    requires Compatible(values) && k1 in values && k2 in values
    requires FirstMatch(RulesForKey(k1, values[k1]), s).Some? && FirstMatch(RulesForKey(k2, values[k2]), s).Some?
    ensures FirstMatch(RulesForKey(k1, values[k1]), s) == FirstMatch(RulesForKey(k2, values[k2]), s)
  {
    var f1 := MatchForm(k1, values[k1], s);
    var f2 := MatchForm(k2, values[k2], s);
    assert Placeholder(f1, k1) <= Placeholder(f2, k2) || Placeholder(f2, k2) <= Placeholder(f1, k1);
  }

  /** Rendering does not depend on the order in which Go ranges over a compatible map. */
  lemma OrderFree(values: map<string, string>, a: seq<string>, b: seq<string>, tmpl: string)
    requires Compatible(values) && Enumerates(a, values.Keys) && Enumerates(b, values.Keys)
    ensures Render(a, values, tmpl) == Render(b, values, tmpl)
  {
    forall s ensures FirstMatch(RulesFor(a, values), s) == FirstMatch(RulesFor(b, values), s) {
      SameMatch(values, a, b, s);
    }
    SameMatchesSameText(RulesFor(a, values), RulesFor(b, values), tmpl);
  }

  lemma AllOrders(values: map<string, string>, a: seq<string>, tmpl: string)
    requires Compatible(values) && Enumerates(a, values.Keys)
    ensures forall b :: Enumerates(b, values.Keys) ==> Render(a, values, tmpl) == Render(b, values, tmpl)
  {
    forall b | Enumerates(b, values.Keys) ensures Render(a, values, tmpl) == Render(b, values, tmpl) {
      OrderFree(values, a, b, tmpl);
    }
  }

  predicate BraceFree(s: string) {
    '{' !in s && '}' !in s
  }

  predicate BraceFreeKeys(keys: set<string>) {
    forall k :: k in keys ==> BraceFree(k)
  }

  /** `{{a}}` is how key `k` is written through its namespace. */
  predicate Alias(a: string, k: string) {
    a == Body(Input, k) || a == Body(Args, k)
  }

  lemma BodiesMeet(a: string, b: string, x: string)
    requires '}' !in a && '}' !in b && a + "}" <= b + "}" + x
    ensures a == b
  {
    var t := b + "}" + x;
    assert t[|a|] == (a + "}")[|a|] == '}' && t[|b|] == '}';
    assert forall i :: 0 <= i < |b| ==> t[i] == b[i] && b[i] in b;
    assert forall i :: 0 <= i < |a| ==> t[i] == (a + "}")[i] == a[i] && a[i] in a;
    assert |a| == |b|;
    assert a == (a + "}")[..|a|] == t[..|a|] == b;
  }

  lemma BodyBraceFree(f: Form, k: string)
    requires BraceFree(k)
    ensures BraceFree(Body(f, k))
  {
  }

  /** For brace-free keys a pattern starts another only if both are the same text: the same key in
      the same form, or one key spelled as an alias of the other. */
  lemma PatternsMeet(f1: Form, k1: string, f2: Form, k2: string)
    requires BraceFree(k1) && BraceFree(k2)
    requires Placeholder(f1, k1) <= Placeholder(f2, k2)
    ensures (f1 == Single) == (f2 == Single) && Body(f1, k1) == Body(f2, k2)
    ensures Placeholder(f1, k1) == Placeholder(f2, k2)
    ensures k1 == k2 ==> f1 == f2
    ensures k1 != k2 ==> ((f1 == Double && k1 == Body(f2, k2) && Alias(k1, k2))
                          || (f2 == Double && k2 == Body(f1, k1) && Alias(k2, k1)))
  {
    hide Body;
    BodyBraceFree(f1, k1);
    BodyBraceFree(f2, k2);
    SameOpening(f1, Body(f1, k1), f2, Body(f2, k2));
    BehindOpening(f1, Body(f1, k1), f2, Body(f2, k2));
    BodiesMeet(Body(f1, k1), Body(f2, k2), Close(f2)[1..]);
    SameBody(f1, k1, f2, k2);
  }

  lemma SameOpening(f1: Form, b1: string, f2: Form, b2: string)
    requires BraceFree(b1) && BraceFree(b2) && Open(f1) + b1 + Close(f1) <= Open(f2) + b2 + Close(f2)
    ensures Open(f1) == Open(f2) && Close(f1) == Close(f2) && (f1 == Single <==> f2 == Single)
  {
    var p, q := Open(f1) + b1 + Close(f1), Open(f2) + b2 + Close(f2);
    assert p[1] == q[1];
    assert p[1] == (if f1 == Single then (b1 + "}")[0] else '{');
    assert q[1] == (if f2 == Single then (b2 + "}")[0] else '{');
  }

  lemma BehindOpening(f1: Form, b1: string, f2: Form, b2: string)
    requires Open(f1) == Open(f2) && Open(f1) + b1 + Close(f1) <= Open(f2) + b2 + Close(f2)
    ensures b1 + "}" <= b2 + "}" + Close(f2)[1..]
  {
    var p, q, n := Open(f1) + b1 + Close(f1), Open(f2) + b2 + Close(f2), |Open(f1)|;
    assert p[n..] == b1 + Close(f1) && q[n..] == b2 + Close(f2);
    assert b1 + "}" <= p[n..] <= q[n..];
    assert q[n..] == b2 + "}" + Close(f2)[1..];
  }

  lemma SameBody(f1: Form, k1: string, f2: Form, k2: string)
    requires Body(f1, k1) == Body(f2, k2) && (f1 == Single <==> f2 == Single)
    ensures k1 == k2 ==> f1 == f2
    ensures k1 != k2 ==> ((f1 == Double && k1 == Body(f2, k2) && Alias(k1, k2))
                          || (f2 == Double && k2 == Body(f1, k1) && Alias(k2, k1)))
  {
    assert f1 == Input ==> Body(f1, k1)[6..] == k1;
    assert f2 == Input ==> Body(f2, k2)[6..] == k2;
    assert f1 == Args ==> Body(f1, k1)[5..] == k1;
    assert f2 == Args ==> Body(f2, k2)[5..] == k2;
    assert f1.Input? ==> Body(f1, k1)[0] == 'i';
    assert f2.Input? ==> Body(f2, k2)[0] == 'i';
    assert f1.Args? ==> Body(f1, k1)[0] == 'a';
    assert f2.Args? ==> Body(f2, k2)[0] == 'a';
  }

  predicate AliasesAgree(values: map<string, string>) {
    forall a, k :: a in values && k in values && Alias(a, k) ==> values[a] == values[k]
  }

  /** With brace-free keys the output is the same for every iteration order, on every template,
      exactly when keys that alias each other hold the same text. */
  lemma OrderFreeIffAliasesAgree(values: map<string, string>)
    requires BraceFreeKeys(values.Keys)
    ensures (forall a, b, tmpl :: Enumerates(a, values.Keys) && Enumerates(b, values.Keys) ==>
                Render(a, values, tmpl) == Render(b, values, tmpl))
            <==> AliasesAgree(values)
  {
    hide Enumerates, Render, Compatible, AliasesAgree, BraceFreeKeys;
    if AliasesAgree(values) {
      AgreeingIsCompatible(values);
      forall a, b, tmpl | Enumerates(a, values.Keys) && Enumerates(b, values.Keys)
        ensures Render(a, values, tmpl) == Render(b, values, tmpl)
      {
        OrderFree(values, a, b, tmpl);
      }
    } else {
      var a, b, tmpl := DisagreeingDiffer(values);
    }
  }

  lemma AgreeingIsCompatible(values: map<string, string>)
    requires BraceFreeKeys(values.Keys) && AliasesAgree(values)
    ensures Compatible(values)
  {
    hide Placeholder, BraceFree, Alias;
    forall k1, k2, f1, f2 | k1 in values && k2 in values && k1 != k2 && Placeholder(f1, k1) <= Placeholder(f2, k2)
      ensures Placeholder(f1, k1) == Placeholder(f2, k2) && values[k1] == values[k2]
    {
      PatternsMeet(f1, k1, f2, k2);
    }
  }

  lemma DisagreeingDiffer(values: map<string, string>) returns (a: seq<string>, b: seq<string>, tmpl: string)
    requires BraceFreeKeys(values.Keys) && !AliasesAgree(values)
    ensures Enumerates(a, values.Keys) && Enumerates(b, values.Keys)
        && Render(a, values, tmpl) != Render(b, values, tmpl)
  {
    hide Enumerates, Render;
    var x, k :| x in values && k in values && Alias(x, k) && values[x] != values[k];
    var f := if x == Body(Input, k) then Input else Args;
    a := EnumerationStartingWith(x, values.Keys);
    b := EnumerationStartingWith(k, values.Keys);
    tmpl := Placeholder(f, k);
    assert tmpl == Placeholder(Double, x);
    FirstKeyWins(a, values, Double, x);
    FirstKeyWins(b, values, f, k);
  }

  lemma OwnPattern(f: Form, k: string, v: string)
    requires BraceFree(k)
    ensures FirstMatch(RulesForKey(k, v), Placeholder(f, k)) == Some(Rule(Placeholder(f, k), v))
  {
    hide Placeholder, FirstMatch;
    var s, rules := Placeholder(f, k), RulesForKey(k, v);
    assert rules[match f case Double => 0 case Single => 1 case Input => 2 case Args => 3].pattern == s;
    var g := MatchForm(k, v, s);
    PatternsMeet(g, k, f, k);
  }

  lemma FirstKeyWins(order: seq<string>, values: map<string, string>, f: Form, k: string)
    requires order != [] && order[0] == k && forall x :: x in order ==> x in values
    requires BraceFree(k)
    ensures Render(order, values, Placeholder(f, k)) == values[k]
  {
    hide RulesForKey, FirstMatch, Placeholder;
    var s, rules := Placeholder(f, k), RulesFor(order, values);
    OwnPattern(f, k, values[k]);
    FirstMatchConcat(RulesForKey(k, values[k]), RulesFor(order[1..], values), s);
    assert FirstMatch(rules, s) == Some(Rule(s, values[k]));
    assert s[|s|..] == "" && Replace(rules, "") == "";
    assert values[k] + "" == values[k];
  }

  /** The four forms, written out. */
  lemma FormsWritten(k: string)
    ensures Placeholder(Double, k) == "{{" + k + "}}" && Placeholder(Single, k) == "{" + k + "}"
    ensures Placeholder(Input, k) == "{{input." + k + "}}" && Placeholder(Args, k) == "{{args." + k + "}}"
  {
    assert "{{" + ("input." + k) == "{{input." + k && "{{" + ("args." + k) == "{{args." + k;
  }

  /** Each of them is replaced by the value of the key, and of four pairs of one key the order is this one. */
  lemma EachFormIsReplaced(order: seq<string>, values: map<string, string>, k: string)
    requires order != [] && order[0] == k && forall x :: x in order ==> x in values
    requires BraceFree(k)
    ensures Render(order, values, "{{" + k + "}}") == values[k]
    ensures Render(order, values, "{" + k + "}") == values[k]
    ensures Render(order, values, "{{input." + k + "}}") == values[k]
    ensures Render(order, values, "{{args." + k + "}}") == values[k]
    ensures var v := values[k];
            RulesForKey(k, v) == [ Rule("{{" + k + "}}", v), Rule("{" + k + "}", v),
                                   Rule("{{input." + k + "}}", v), Rule("{{args." + k + "}}", v) ]
  {
    hide Render, Placeholder;
    FormsWritten(k);
    FirstKeyWins(order, values, Double, k);
    FirstKeyWins(order, values, Single, k);
    FirstKeyWins(order, values, Input, k);
    FirstKeyWins(order, values, Args, k);
  }
}

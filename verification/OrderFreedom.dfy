/** When the iteration order of a given map does not matter to `renderTemplate` and `renderTemplateURL`
    (`internal/executor/http/executor.go`), for all keys and values. Two patterns that can match at one
    place are a critical pair: the order is free exactly when all of them join. */
module OrderFreedom {
  import opened Strings
  import opened Replacer
  import opened Template
  import opened Segmentation

  // ---------------------------------------------------------------- the patterns of one key

  lemma {:induction false} ShiftFree(k: string, a: string, y: string, n: nat)
    requires '}' !in a && a != "" && n <= |k| && k + "}" <= a + k + y
    ensures forall i :: 0 <= i < n ==> k[i] != '}'
  {
    if n == 0 {
    } else {
      ShiftFree(k, a, y, n - 1);
      var t, i := a + k + y, n - 1;
      assert k[i] == (k + "}")[i] == t[i];
      assert t[i] == if i < |a| then a[i] else k[i - |a|];
      assert i < |a| ==> a[i] in a;
    }
  }

  lemma ShiftedChar(k: string, a: string, y: string)
    requires '}' !in a && a != "" && '}' !in k
    ensures |k| < |a + k + y| && (a + k + y)[|k|] != '}'
  {
    var t := a + k + y;
    assert t[|k|] == if |k| < |a| then a[|k|] else k[|k| - |a|];
    assert |k| < |a| ==> a[|k|] in a;
    assert |k| >= |a| ==> k[|k| - |a|] in k;
  }

  /** A key and its closing brace do not start the key shifted by a text without closing brace. */
  lemma NoShift(k: string, a: string, y: string)
    requires '}' !in a && a != ""
    ensures !(k + "}" <= a + k + y)
  {
    if k + "}" <= a + k + y {
      ShiftFree(k, a, y, |k|);
      ShiftedChar(k, a, y);
    }
  }

  /** What stands between the braces that `f` opens and the key, in the form `g`. */
  function Between(f: Form, g: Form): string {
    (if f == Single && g != Single then "{" else "") + Body(g, "")
  }

  lemma DropMore(a: string, b: string, n: nat)
    requires |a| <= n <= |a| + |b|
    ensures (a + b)[n..] == b[n - |a|..]
  {
  }

  lemma BodySplits(g: Form, k: string)
    ensures Body(g, k) == Body(g, "") + k && '}' !in Body(g, "")
  {
  }

  lemma OpenSplits(f: Form, g: Form)
    requires |Open(f)| <= |Open(g)|
    ensures Open(g) == Open(f) + if f == Single && g != Single then "{" else ""
  {
  }

  lemma Regroup(o: string, e: string, b: string, k: string, c: string)
    ensures (o + e) + (b + k) + c == o + ((e + b) + k + c)
  {
  }

  lemma BehindBraces(f: Form, g: Form, k: string)
    requires |Open(f)| <= |Open(g)|
    ensures |Open(f)| <= |Placeholder(g, k)|
    ensures Placeholder(g, k)[|Open(f)|..] == Between(f, g) + k + Close(g)
  {
    var e := if f == Single && g != Single then "{" else "";
    BodySplits(g, k);
    OpenSplits(f, g);
    assert Placeholder(g, k) == (Open(f) + e) + (Body(g, "") + k) + Close(g);
    assert Between(f, g) == e + Body(g, "");
    hide *;
    Regroup(Open(f), e, Body(g, ""), k, Close(g));
    DropMore(Open(f), Between(f, g) + k + Close(g), |Open(f)|);
  }

  lemma ArgsIsNotInput(k: string)
    ensures !(Placeholder(Args, k) <= Placeholder(Input, k))
  {
    assert Placeholder(Args, k)[2] == 'a' && Placeholder(Input, k)[2] == 'i';
  }

  lemma PrefixBehind(p: string, q: string, n: nat)
    requires p <= q && n <= |p|
    ensures p[n..] <= q[n..]
  {
  }

  lemma Lengths(k: string)
    ensures |Placeholder(Single, k)| == |k| + 2 && |Placeholder(Double, k)| == |k| + 4
    ensures |Placeholder(Args, k)| == |k| + 9 && |Placeholder(Input, k)| == |k| + 10
  {
  }

  /** No pattern of a key, whatever it holds, starts another pattern of the same key. */
  lemma OwnForms(f: Form, g: Form, k: string)
    requires Placeholder(f, k) <= Placeholder(g, k)
    ensures f == g
  {
    Lengths(k);
    if f == Args && g == Input {
      ArgsIsNotInput(k);
    } else if f != g {
      ShorterForm(f, g, k);
    }
  }

  lemma ShorterForm(f: Form, g: Form, k: string)
    requires f != g && (f == Single || (f == Double && g != Single))
    ensures !(Placeholder(f, k) <= Placeholder(g, k))
  {
    OpenIsShorter(f, g);
    AfterOpen(f, k);
    BehindBraces(f, g, k);
    BetweenIsPlain(f, g);
    hide *;
    NoShift(k, Between(f, g), Close(g));
    if Placeholder(f, k) <= Placeholder(g, k) {
      PrefixBehind(Placeholder(f, k), Placeholder(g, k), |Open(f)|);
    }
  }

  lemma OpenIsShorter(f: Form, g: Form)
    requires f == Single || (f == Double && g != Single)
    ensures |Open(f)| <= |Open(g)|
  {
  }

  lemma BetweenIsPlain(f: Form, g: Form)
    requires f != g && (f == Single || (f == Double && g != Single))
    ensures Between(f, g) != "" && '}' !in Between(f, g)
  {
  }

  lemma AfterOpen(f: Form, k: string)
    requires f == Single || f == Double
    ensures |Open(f)| <= |Placeholder(f, k)| && k + "}" <= Placeholder(f, k)[|Open(f)|..]
  {
    assert Placeholder(f, k) == Open(f) + (k + Close(f));
  }

  /** The pattern that matches at the front for the key ranged over first. */
  lemma FirstKeyMatches(order: seq<string>, f: Form, s: string)
    requires order != [] && Placeholder(f, order[0]) <= s
    ensures PlaceholderAt(order, s) == Some(Sub(order[0], f))
  {
    hide Placeholder;
    var k := order[0];
    var g := FormAt(k, s).value;
    if |Placeholder(g, k)| <= |Placeholder(f, k)| { OwnForms(g, f, k); } else { OwnForms(f, g, k); }
  }

  // ---------------------------------------------------------------- critical pairs

  ghost predicate OrderFreeMap(values: map<string, string>) {
    forall a, b, tmpl :: Enumerates(a, values.Keys) && Enumerates(b, values.Keys) ==>
                           Render(a, values, tmpl) == Render(b, values, tmpl)
  }

  /** Where one pattern starts the other, it makes no difference which of the two is taken, whatever
      stands behind them. */
  ghost predicate Joins(values: map<string, string>, f1: Form, k1: string, f2: Form, k2: string)
    requires k1 in values && k2 in values && Placeholder(f1, k1) <= Placeholder(f2, k2)
  {
    forall order, x :: Enumerates(order, values.Keys) ==>
                         values[k1] + Render(order, values, Placeholder(f2, k2)[|Placeholder(f1, k1)|..] + x)
                         == values[k2] + Render(order, values, x)
  }

  ghost predicate PairsJoin(values: map<string, string>) {
    forall k1, k2, f1, f2 :: k1 in values && k2 in values && k1 != k2 && Placeholder(f1, k1) <= Placeholder(f2, k2) ==>
                               Joins(values, f1, k1, f2, k2)
  }

  lemma RenderHead(order: seq<string>, values: map<string, string>, s: string)
    requires (forall k :: k in order ==> k in values) && s != ""
    ensures Render(order, values, s) ==
            match PlaceholderAt(order, s)
            case None => [s[0]] + Render(order, values, s[1..])
            case Some(seg) => values[seg.key] + Render(order, values, s[|Placeholder(seg.form, seg.key)|..])
  {
    hide PlaceholderAt, Placeholder, RulesFor, FirstMatch;
    RuleOfPlaceholder(order, values, s);
  }

  /** Taking the shorter of two patterns gives what taking the longer one gives. */
  lemma EitherPattern(values: map<string, string>, order: seq<string>, f1: Form, k1: string,
                      f2: Form, k2: string, s: string)
    requires PairsJoin(values) && Enumerates(order, values.Keys) && k1 in values && k2 in values
    requires Placeholder(f1, k1) <= s && Placeholder(f2, k2) <= s && |Placeholder(f1, k1)| <= |Placeholder(f2, k2)|
    ensures values[k1] + Render(order, values, s[|Placeholder(f1, k1)|..])
            == values[k2] + Render(order, values, s[|Placeholder(f2, k2)|..])
  {
    hide Enumerates, Render, Placeholder;
    var p, q := Placeholder(f1, k1), Placeholder(f2, k2);
    assert p == s[..|p|] && q == s[..|q|];
    assert p <= q;
    if k1 == k2 {
      OwnForms(f1, f2, k1);
    } else {
      assert Joins(values, f1, k1, f2, k2);
      assert q[|p|..] + s[|q|..] == s[|p|..];
    }
  }

  lemma {:induction false} JoinedRender(values: map<string, string>, a: seq<string>, b: seq<string>, s: string)
    requires PairsJoin(values) && Enumerates(a, values.Keys) && Enumerates(b, values.Keys)
    ensures Render(a, values, s) == Render(b, values, s)
    decreases |s|
  {
    hide Enumerates, Placeholder, PairsJoin, PlaceholderAt, RulesFor, FirstMatch;
    if s == "" {
    } else {
      hide Render;
      RenderHead(a, values, s);
      RenderHead(b, values, s);
      var m, n := PlaceholderAt(a, s), PlaceholderAt(b, s);
      if m.Some? && n.Some? {
        var p, q := Placeholder(m.value.form, m.value.key), Placeholder(n.value.form, n.value.key);
        if |p| <= |q| {
          EitherPattern(values, a, m.value.form, m.value.key, n.value.form, n.value.key, s);
          JoinedRender(values, a, b, s[|q|..]);
        } else {
          EitherPattern(values, b, n.value.form, n.value.key, m.value.form, m.value.key, s);
          JoinedRender(values, a, b, s[|p|..]);
        }
      } else {
        assert m.None? && n.None?;
        JoinedRender(values, a, b, s[1..]);
      }
    }
  }

  /** The key ranged over first is taken wherever one of its patterns stands. */
  lemma FirstKeyTaken(order: seq<string>, values: map<string, string>, f: Form, k: string, s: string)
    requires order != [] && order[0] == k && Enumerates(order, values.Keys) && Placeholder(f, k) <= s
    ensures k in values && Render(order, values, s) == values[k] + Render(order, values, s[|Placeholder(f, k)|..])
  {
    hide Enumerates, Placeholder, Render, PlaceholderAt;
    FirstKeyMatches(order, f, s);
    RenderHead(order, values, s);
  }

  lemma AnyTwoOrders(values: map<string, string>, a: seq<string>, b: seq<string>, tmpl: string)
    requires OrderFreeMap(values) && Enumerates(a, values.Keys) && Enumerates(b, values.Keys)
    ensures Render(a, values, tmpl) == Render(b, values, tmpl)
  {
    hide Enumerates, Render;
  }

  lemma FreeJoins(values: map<string, string>, f1: Form, k1: string, f2: Form, k2: string)
    requires OrderFreeMap(values) && k1 in values && k2 in values && Placeholder(f1, k1) <= Placeholder(f2, k2)
    ensures Joins(values, f1, k1, f2, k2)
  {
    var p, q := Placeholder(f1, k1), Placeholder(f2, k2);
    hide Enumerates, Placeholder, Render, OrderFreeMap;
    var a := EnumerationStartingWith(k1, values.Keys);
    var b := EnumerationStartingWith(k2, values.Keys);
    forall order, x | Enumerates(order, values.Keys)
      ensures values[k1] + Render(order, values, q[|p|..] + x) == values[k2] + Render(order, values, x)
    {
      var s := q + x;
      assert p <= s && q <= s && s[|p|..] == q[|p|..] + x && s[|q|..] == x;
      FirstKeyTaken(a, values, f1, k1, s);
      FirstKeyTaken(b, values, f2, k2, s);
      AnyTwoOrders(values, a, b, s);
      AnyTwoOrders(values, a, order, q[|p|..] + x);
      AnyTwoOrders(values, b, order, x);
    }
  }

  /** For every map, whatever its keys and values hold: all orders render all templates alike exactly
      when all critical pairs join. */
  lemma OrderFreeIffPairsJoin(values: map<string, string>)
    ensures OrderFreeMap(values) <==> PairsJoin(values)
  {
    hide Enumerates, Render, Placeholder, Joins;
    if PairsJoin(values) {
      forall a, b, tmpl | Enumerates(a, values.Keys) && Enumerates(b, values.Keys)
        ensures Render(a, values, tmpl) == Render(b, values, tmpl)
      {
        JoinedRender(values, a, b, tmpl);
      }
    }
    if OrderFreeMap(values) {
      forall k1, k2, f1, f2 | k1 in values && k2 in values && k1 != k2 && Placeholder(f1, k1) <= Placeholder(f2, k2)
        ensures Joins(values, f1, k1, f2, k2)
      {
        FreeJoins(values, f1, k1, f2, k2);
      }
    }
  }

  // ---------------------------------------------------------------- keys without opening braces

  predicate NoOpenBraces(keys: set<string>) {
    forall k :: k in keys ==> '{' !in k
  }

  /** Where one pattern starts another, the longer one's value is the shorter one's value and the text
      that is left over. */
  ghost predicate LeftOversAgree(values: map<string, string>) {
    forall k1, k2, f1, f2 :: k1 in values && k2 in values && k1 != k2 && Placeholder(f1, k1) <= Placeholder(f2, k2) ==>
                               values[k2] == values[k1] + Placeholder(f2, k2)[|Placeholder(f1, k1)|..]
  }

  lemma PatternParts(f: Form, k: string)
    ensures Placeholder(f, k) == Open(f) + (Body(f, k) + Close(f)) && |Open(f)| <= 2
  {
    hide Body;
    Assoc(Open(f), Body(f, k), Close(f));
  }

  lemma BodyIsPlain(f: Form, k: string)
    requires '{' !in k
    ensures '{' !in Body(f, k) + Close(f)
  {
  }

  lemma LeftOverIsPlain(f1: Form, k1: string, f2: Form, k2: string)
    requires Placeholder(f1, k1) <= Placeholder(f2, k2) && '{' !in k2
    ensures '{' !in Placeholder(f2, k2)[|Placeholder(f1, k1)|..]
  {
    Lengths(k1);
    PatternParts(f2, k2);
    BodyIsPlain(f2, k2);
    hide *;
    assert f1 == Double || f1 == Single || f1 == Input || f1 == Args;
    var n := |Placeholder(f1, k1)|;
    DropMore(Open(f2), Body(f2, k2) + Close(f2), n);
  }

  lemma JoinsIff(values: map<string, string>, f1: Form, k1: string, f2: Form, k2: string)
    requires k1 in values && k2 in values && Placeholder(f1, k1) <= Placeholder(f2, k2) && '{' !in k2
    ensures Joins(values, f1, k1, f2, k2) <==> values[k2] == values[k1] + Placeholder(f2, k2)[|Placeholder(f1, k1)|..]
  {
    LeftOverIsPlain(f1, k1, f2, k2);
    var r := Placeholder(f2, k2)[|Placeholder(f1, k1)|..];
    assert Render([], map[], "") == "";
    hide Placeholder, Enumerates, RulesFor;
    if values[k2] == values[k1] + r {
      forall order, x | Enumerates(order, values.Keys)
        ensures values[k1] + Render(order, values, r + x) == values[k2] + Render(order, values, x)
      {
        RenderPlain(order, values, r, x);
        Assoc(values[k1], r, Render(order, values, x));
      }
    }
    if Joins(values, f1, k1, f2, k2) {
      var order := SomeOrder(values.Keys);
      RenderPlain(order, values, r, "");
      assert Render(order, values, "") == "" && r + "" == r && values[k2] + "" == values[k2];
    }
  }

  /** For keys without opening braces that is a condition on the values alone. */
  lemma OrderFreeIffLeftOversAgree(values: map<string, string>)
    requires NoOpenBraces(values.Keys)
    ensures OrderFreeMap(values) <==> LeftOversAgree(values)
  {
    hide Joins, Placeholder, OrderFreeMap;
    OrderFreeIffPairsJoin(values);
    forall k1, k2, f1, f2 | k1 in values && k2 in values && k1 != k2 && Placeholder(f1, k1) <= Placeholder(f2, k2)
      ensures Joins(values, f1, k1, f2, k2) <==> values[k2] == values[k1] + Placeholder(f2, k2)[|Placeholder(f1, k1)|..]
    {
      JoinsIff(values, f1, k1, f2, k2);
    }
  }
}

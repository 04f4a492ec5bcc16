/** How a template is cut into literal characters and placeholders, and which inputs it uses
    (`renderTemplateURL` and `appendUnusedInputAsQuery` in `internal/executor/http/executor.go`). */
module Segmentation {
  import opened Strings
  import opened Replacer
  import opened Template

  datatype Segment = Lit(c: char) | Sub(key: string, form: Form)

  function FormAt(k: string, s: string): (f: Option<Form>)
    ensures f.Some? ==> Placeholder(f.value, k) <= s
    ensures f.None? ==> forall g :: !(Placeholder(g, k) <= s)
  {
    if Placeholder(Double, k) <= s then Some(Double)
    else if Placeholder(Single, k) <= s then Some(Single)
    else if Placeholder(Input, k) <= s then Some(Input)
    else if Placeholder(Args, k) <= s then Some(Args)
    else None
  }

  function PlaceholderAt(order: seq<string>, s: string): (m: Option<Segment>)
    ensures m.Some? ==> m.value.Sub? && m.value.key in order && Placeholder(m.value.form, m.value.key) <= s
    ensures m.None? ==> forall k, g :: k in order ==> !(Placeholder(g, k) <= s)
  {
    if order == [] then None
    else
      match FormAt(order[0], s)
      case Some(f) => Some(Sub(order[0], f))
      case None => PlaceholderAt(order[1..], s)
  }

  /** The template text of a segment. */
  function Text(seg: Segment): (t: string)
    ensures t != ""
  {
    match seg
    case Lit(c) => [c]
    case Sub(k, f) => Placeholder(f, k)
  }

  function Head(order: seq<string>, s: string): (seg: Segment)
    requires s != ""
    ensures Text(seg) <= s
    ensures seg.Sub? ==> seg.key in order
    ensures seg.Lit? ==> forall k, g :: k in order ==> !(Placeholder(g, k) <= s)
  {
    match PlaceholderAt(order, s)
    case None => Lit(s[0])
    case Some(seg) => seg
  }

  /** The cut of `s`. It looks at the template and the keys only, never at a value. */
  function Segments(order: seq<string>, s: string): seq<Segment>
    decreases |s|
  {
    if s == "" then []
    else
      var seg := Head(order, s);
      [seg] + Segments(order, s[|Text(seg)|..])
  }

  function Fill(segs: seq<Segment>, values: map<string, string>): string
    requires forall seg :: seg in segs && seg.Sub? ==> seg.key in values
  {
    if segs == [] then ""
    else (if segs[0].Lit? then [segs[0].c] else values[segs[0].key]) + Fill(segs[1..], values)
  }

  /** The template text the segments were cut from. */
  function Source(segs: seq<Segment>): string {
    if segs == [] then "" else Text(segs[0]) + Source(segs[1..])
  }

  lemma {:induction false} SegmentKeys(order: seq<string>, s: string)
    ensures forall seg :: seg in Segments(order, s) && seg.Sub? ==> seg.key in order
    decreases |s|
  {
    hide Head, Text;
    if s == "" {
    } else {
      SegmentKeys(order, s[|Text(Head(order, s))|..]);
    }
  }

  /** Nothing of the template is lost or read twice: the segments spell it out. */
  lemma {:induction false} SegmentsSpellTemplate(order: seq<string>, s: string)
    ensures Source(Segments(order, s)) == s
    decreases |s|
  {
    hide Head, Text;
    if s == "" {
    } else {
      var t := Text(Head(order, s));
      SegmentsSpellTemplate(order, s[|t|..]);
      assert s == t + s[|t|..];
    }
  }

  lemma {:induction false} RuleOfPlaceholder(order: seq<string>, values: map<string, string>, s: string)
    requires forall k :: k in order ==> k in values
    ensures FirstMatch(RulesFor(order, values), s) ==
            match PlaceholderAt(order, s)
            case None => None
            case Some(seg) => Some(Rule(Placeholder(seg.form, seg.key), values[seg.key]))
  {
    hide RulesForKey, Placeholder, FormAt;
    if order == [] {
    } else {
      var k := order[0];
      FirstMatchConcat(RulesForKey(k, values[k]), RulesFor(order[1..], values), s);
      RuleOfPlaceholder(order[1..], values, s);
      RuleOfForm(k, values[k], s);
    }
  }

  lemma RuleOfForm(k: string, v: string, s: string)
    ensures FirstMatch(RulesForKey(k, v), s) ==
            match FormAt(k, s)
            case None => None
            case Some(f) => Some(Rule(Placeholder(f, k), v))
  {
    hide Placeholder;
    var a, b := Rule(Placeholder(Double, k), v), Rule(Placeholder(Single, k), v);
    var c, d := Rule(Placeholder(Input, k), v), Rule(Placeholder(Args, k), v);
    assert RulesForKey(k, v) == [a] + ([b] + ([c] + [d]));
    FirstMatchConcat([a], [b] + ([c] + [d]), s);
    FirstMatchConcat([b], [c] + [d], s);
    FirstMatchConcat([c], [d], s);
    FirstMatchOne(a, s); FirstMatchOne(b, s); FirstMatchOne(c, s); FirstMatchOne(d, s);
  }

  lemma FirstMatchOne(r: Rule, s: string)
    ensures FirstMatch([r], s) == if r.pattern <= s then Some(r) else None
  {
  }

  /** Rendering factors through the cut: each placeholder becomes its value, every other character
      stays. Since the cut ignores the values, text inside a value is never expanded. */
  lemma {:induction false} RenderIsFill(order: seq<string>, values: map<string, string>, s: string)
    requires forall k :: k in order ==> k in values
    ensures (forall seg :: seg in Segments(order, s) && seg.Sub? ==> seg.key in values)
    ensures Render(order, values, s) == Fill(Segments(order, s), values)
    decreases |s|
  {
    hide PlaceholderAt, Placeholder, RulesFor, FirstMatch;
    SegmentKeys(order, s);
    if s == "" {
    } else {
      RuleOfPlaceholder(order, values, s);
      RenderIsFill(order, values, s[|Text(Head(order, s))|..]);
    }
  }

  lemma StartsWithBrace(f: Form, k: string)
    ensures Placeholder(f, k)[0] == '{'
  {
  }

  lemma NothingMatches(order: seq<string>, values: map<string, string>, s: string)
    requires (forall k :: k in order ==> k in values) && s != "" && s[0] != '{'
    ensures FirstMatch(RulesFor(order, values), s).None?
  {
    hide Placeholder, PlaceholderAt, RulesFor, FirstMatch;
    RuleOfPlaceholder(order, values, s);
    forall f, k ensures !(Placeholder(f, k) <= s) { StartsWithBrace(f, k); }
  }

  /** Text without an opening brace passes through. */
  lemma {:induction false} RenderPlain(order: seq<string>, values: map<string, string>, p: string, x: string)
    requires (forall k :: k in order ==> k in values) && '{' !in p
    ensures Render(order, values, p + x) == p + Render(order, values, x)
  {
    hide RulesFor, FirstMatch;
    if p == "" {
      assert p + x == x && p + Render(order, values, x) == Render(order, values, x);
    } else {
      var s := p + x;
      assert p == [p[0]] + p[1..] && s[0] == p[0] && s[1..] == p[1..] + x;
      NothingMatches(order, values, s);
      RenderPlain(order, values, p[1..], x);
      Assoc([p[0]], p[1..], Render(order, values, x));
    }
  }

  // ---------------------------------------------------------------- clean key sets

  /** No key is another key's alias. */
  predicate Clean(keys: set<string>) {
    forall a, k :: a in keys && k in keys ==> !Alias(a, k)
  }

  lemma OnePlaceholder(keys: set<string>, f1: Form, k1: string, f2: Form, k2: string, s: string)
    requires BraceFreeKeys(keys) && Clean(keys) && k1 in keys && k2 in keys
    requires Placeholder(f1, k1) <= s && Placeholder(f2, k2) <= s
    ensures f1 == f2 && k1 == k2
  {
    hide Placeholder, BraceFree, Alias;
    if Placeholder(f1, k1) <= Placeholder(f2, k2) {
      PatternsMeet(f1, k1, f2, k2);
    } else {
      assert Placeholder(f2, k2) <= Placeholder(f1, k1);
      PatternsMeet(f2, k2, f1, k1);
    }
  }

  /** With clean brace-free keys the cut depends on the template and the key set alone. */
  lemma {:induction false} CutOrderFree(keys: set<string>, a: seq<string>, b: seq<string>, s: string)
    requires BraceFreeKeys(keys) && Clean(keys) && Enumerates(a, keys) && Enumerates(b, keys)
    ensures Segments(a, s) == Segments(b, s)
    decreases |s|
  {
    hide Head, Placeholder, BraceFreeKeys, Clean, Enumerates;
    if s == "" {
    } else {
      SameHead(keys, a, b, s);
      CutOrderFree(keys, a, b, s[|Text(Head(a, s))|..]);
    }
  }

  lemma SameHead(keys: set<string>, a: seq<string>, b: seq<string>, s: string)
    requires BraceFreeKeys(keys) && Clean(keys) && Enumerates(a, keys) && Enumerates(b, keys) && s != ""
    ensures Head(a, s) == Head(b, s)
  {
    hide Head, Placeholder, BraceFreeKeys, Clean, Enumerates;
    var m, n := Head(a, s), Head(b, s);
    assert m.Sub? ==> m.key in b;
    assert n.Sub? ==> n.key in a;
    assert m.Sub? <==> n.Sub?;
    if m.Sub? {
      OnePlaceholder(keys, m.form, m.key, n.form, n.key, s);
    } else {
      assert s[0] == Text(m)[0] == Text(n)[0];
    }
  }

  // ---------------------------------------------------------------- which inputs are used

  /** The three `strings.Contains` tests of `appendUnusedInputAsQuery`. */
  ghost predicate Used(tmpl: string, k: string) {
    || Contains(tmpl, Placeholder(Single, k))
    || Contains(tmpl, Placeholder(Double, k))
    || Contains(tmpl, Placeholder(Input, k))
  }

  lemma UsedWritten(tmpl: string, k: string)
    ensures Used(tmpl, k) <==>
            Contains(tmpl, "{" + k + "}") || Contains(tmpl, "{{" + k + "}}") || Contains(tmpl, "{{input." + k + "}}")
  {
    hide Contains, Placeholder;
    FormsWritten(k);
  }

  /** The scan really substitutes `k`, in a form other than `{{args.k}}`. */
  ghost predicate Substituted(segs: seq<Segment>, k: string) {
    exists f :: f != Args && Sub(k, f) in segs
  }

  lemma OccursLater(s: string, n: nat, sub: string)
    requires n <= |s| && Contains(s[n..], sub)
    ensures Contains(s, sub)
  {
    var i :| 0 <= i <= |s[n..]| && sub <= s[n..][i..];
    assert s[n..][i..] == s[n + i..];
  }

  lemma OccursHere(s: string, sub: string)
    requires sub <= s
    ensures Contains(s, sub)
  {
    assert sub <= s[0..];
  }

  lemma {:induction false} SubstitutedOccurs(order: seq<string>, s: string, k: string, f: Form)
    requires Sub(k, f) in Segments(order, s)
    ensures Contains(s, Placeholder(f, k))
    decreases |s|
  {
    hide Head, Placeholder, Contains;
    var seg := Head(order, s);
    var n := |Text(seg)|;
    if seg == Sub(k, f) {
      OccursHere(s, Placeholder(f, k));
    } else {
      assert Segments(order, s) == [seg] + Segments(order, s[n..]);
      SubstitutedOccurs(order, s[n..], k, f);
      OccursLater(s, n, Placeholder(f, k));
    }
  }

  /** Only the opening braces of a pattern are `{`. */
  lemma OpeningBrace(f: Form, k: string, i: nat)
    requires BraceFree(k) && i < |Placeholder(f, k)|
    ensures Placeholder(f, k)[i] == '{' <==> i < |Open(f)|
  {
    var n, b := |Open(f)|, Body(f, k);
    BodyBraceFree(f, k);
    assert forall j :: 0 <= j < |b| ==> b[j] in b;
    assert Placeholder(f, k)[i] == if i < n then '{' else if i < n + |b| then b[i - n] else '}';
  }

  /** A placeholder that an earlier match overlaps is the tail of that match: `{k}` inside `{{k}}`. */
  lemma OverlapIsTail(keys: set<string>, f: Form, k: string, g: Form, h: string, s: string, i: nat)
    requires BraceFreeKeys(keys) && Clean(keys) && k in keys && h in keys && g != Double
    requires Placeholder(f, h) <= s && 0 < i < |Placeholder(f, h)| && i <= |s| && Placeholder(g, k) <= s[i..]
    ensures i == 1 && g == Single && f == Double && h == k
  {
    hide Body, Placeholder;
    OverlapIsSecond(f, h, g, k, s, i);
    BodyBraceFree(f, h);
    SecondIsSingle(f, h, s);
    TailIsSingle(Body(f, h), g, k, s[1..]);
    WholeBody(f, h, k);
  }

  /** A pattern can start inside another only at its second opening brace. */
  lemma OverlapIsSecond(f: Form, h: string, g: Form, k: string, s: string, i: nat)
    requires BraceFree(h) && Placeholder(f, h) <= s
    requires 0 < i < |Placeholder(f, h)| && i <= |s| && Placeholder(g, k) <= s[i..]
    ensures i == 1 && f != Single
  {
    hide Body;
    var p, q := Placeholder(f, h), Placeholder(g, k);
    assert q[0] == '{';
    assert p[i] == s[i] == s[i..][0] == q[0];
    OpeningBrace(f, h, i);
  }

  lemma SecondIsSingle(f: Form, h: string, s: string)
    requires f != Single && Placeholder(f, h) <= s
    ensures |s| > 1 && "{" + Body(f, h) + "}" <= s[1..]
  {
    hide Body;
    var one := "{" + Body(f, h) + "}";
    assert Placeholder(f, h)[1..] == one + "}";
    assert Placeholder(f, h)[1..] <= s[1..];
    assert one <= s[1..];
  }

  lemma WholeBody(f: Form, h: string, k: string)
    ensures f == Double ==> Body(f, h) == h
    ensures (f == Input || f == Args) && Body(f, h) == k ==> Alias(k, h)
  {
  }

  lemma TailIsSingle(b: string, g: Form, k: string, t: string)
    requires BraceFree(b) && BraceFree(k) && g != Double
    requires "{" + b + "}" <= t && Placeholder(g, k) <= t
    ensures g == Single && b == k
  {
    var one, q := "{" + b + "}", Placeholder(g, k);
    assert one == Placeholder(Single, b);
    hide Placeholder, Body;
    assert |q| > 1 by { AtLeastTwo(g, k); }
    assert q[1] == t[1] == one[1];
    OpeningBrace(Single, b, 1);
    OpeningBrace(g, k, 1);
    if one <= q { PatternsMeet(Single, b, Single, k); } else { PatternsMeet(Single, k, Single, b); }
    WholeSingle(b, k);
  }

  lemma AtLeastTwo(g: Form, k: string)
    ensures |Placeholder(g, k)| > 1
  {
  }

  lemma WholeSingle(b: string, k: string)
    requires Body(Single, b) == Body(Single, k)
    ensures b == k
  {
  }

  /** No earlier match swallows an occurrence: a `{k}` or `{{input.k}}` anywhere in the rest of the
      template is substituted, as itself or as the inside of `{{k}}`. */
  lemma {:induction false} OccurrenceIsSubstituted(keys: set<string>, order: seq<string>, s: string, k: string,
      g: Form, i: nat)
    requires BraceFreeKeys(keys) && Clean(keys) && Enumerates(order, keys) && k in keys
    requires g == Single || g == Input
    requires i <= |s| && Placeholder(g, k) <= s[i..]
    ensures Substituted(Segments(order, s), k)
    decreases |s|
  {
    hide Head, Placeholder, BraceFreeKeys, Clean, Enumerates, Substituted, Segments;
    var seg := Head(order, s);
    var n := |Text(seg)|;
    SubstitutedHead(order, s);
    if i == 0 {
      assert s[0..] == s;
      HeadIsOccurrence(keys, order, s, k, g);
    } else if n <= i {
      assert s[n..][i - n..] == s[i..];
      OccurrenceIsSubstituted(keys, order, s[n..], k, g, i - n);
    } else {
      assert seg.Sub? && seg.key in keys;
      OverlapIsTail(keys, seg.form, k, g, seg.key, s, i);
    }
  }

  lemma SegmentsFromHead(order: seq<string>, s: string)
    requires s != ""
    ensures var seg := Head(order, s);
            && seg in Segments(order, s)
            && forall x :: x in Segments(order, s[|Text(seg)|..]) ==> x in Segments(order, s)
  {
    hide Head, Text;
    var seg := Head(order, s);
    assert Segments(order, s) == [seg] + Segments(order, s[|Text(seg)|..]);
  }

  lemma SubstitutedHead(order: seq<string>, s: string)
    requires s != ""
    ensures var seg := Head(order, s);
            && (forall k :: Substituted(Segments(order, s[|Text(seg)|..]), k) ==> Substituted(Segments(order, s), k))
            && (seg.Sub? && seg.form != Args ==> Substituted(Segments(order, s), seg.key))
  {
    hide Head, Text;
    var seg := Head(order, s);
    var rest := Segments(order, s[|Text(seg)|..]);
    var segs := Segments(order, s);
    assert segs == [seg] + rest;
    forall k | Substituted(rest, k) ensures Substituted(segs, k) {
      var f :| f != Args && Sub(k, f) in rest;
      assert Sub(k, f) in segs;
    }
    if seg.Sub? { assert Sub(seg.key, seg.form) in segs; }
  }

  lemma HeadIsOccurrence(keys: set<string>, order: seq<string>, s: string, k: string, g: Form)
    requires BraceFreeKeys(keys) && Clean(keys) && Enumerates(order, keys) && k in keys
    requires s != "" && Placeholder(g, k) <= s
    ensures Head(order, s) == Sub(k, g)
  {
    hide Head, Placeholder, BraceFreeKeys, Clean, Enumerates;
    var seg := Head(order, s);
    assert k in order && seg.Sub?;
    OnePlaceholder(keys, seg.form, seg.key, g, k, s);
  }

  lemma DoubleHoldsSingle(s: string, k: string, i: nat)
    requires i <= |s| && Placeholder(Double, k) <= s[i..]
    ensures i + 1 <= |s| && Placeholder(Single, k) <= s[i + 1..]
  {
    assert Placeholder(Double, k)[1..] == Placeholder(Single, k) + "}";
    assert s[i..][1..] == s[i + 1..];
  }

  /** The cheap test and the scanner agree on every input, template and iteration order. */
  lemma UsedIffSubstituted(keys: set<string>, order: seq<string>, tmpl: string, k: string)
    requires BraceFreeKeys(keys) && Clean(keys) && Enumerates(order, keys) && k in keys
    ensures Used(tmpl, k) <==> Substituted(Segments(order, tmpl), k)
  {
    hide Placeholder, BraceFreeKeys, Clean, Enumerates, Segments, Contains;
    if Substituted(Segments(order, tmpl), k) {
      var f :| f != Args && Sub(k, f) in Segments(order, tmpl);
      SubstitutedOccurs(order, tmpl, k, f);
    }
    if Contains(tmpl, Placeholder(Double, k)) { DoubleContainsSingle(tmpl, k); }
    if Contains(tmpl, Placeholder(Single, k)) { ContainedIsSubstituted(keys, order, tmpl, k, Single); }
    if Contains(tmpl, Placeholder(Input, k)) { ContainedIsSubstituted(keys, order, tmpl, k, Input); }
  }

  lemma ContainedIsSubstituted(keys: set<string>, order: seq<string>, tmpl: string, k: string, g: Form)
    requires BraceFreeKeys(keys) && Clean(keys) && Enumerates(order, keys) && k in keys
    requires (g == Single || g == Input) && Contains(tmpl, Placeholder(g, k))
    ensures Substituted(Segments(order, tmpl), k)
  {
    hide Placeholder, BraceFreeKeys, Clean, Enumerates, Segments, Substituted;
    var i :| 0 <= i <= |tmpl| && Placeholder(g, k) <= tmpl[i..];
    OccurrenceIsSubstituted(keys, order, tmpl, k, g, i);
  }

  lemma DoubleContainsSingle(s: string, k: string)
    requires Contains(s, Placeholder(Double, k))
    ensures Contains(s, Placeholder(Single, k))
  {
    var i :| 0 <= i <= |s| && Placeholder(Double, k) <= s[i..];
    DoubleHoldsSingle(s, k, i);
  }

  lemma WholePlaceholder(order: seq<string>, f: Form, k: string)
    requires order != [] && order[0] == k && BraceFree(k)
    ensures Segments(order, Placeholder(f, k)) == [Sub(k, f)]
  {
    hide Placeholder;
    var s := Placeholder(f, k);
    var g := FormAt(k, s).value;
    PatternsMeet(g, k, f, k);
    assert s[|s|..] == "";
  }

  /** The key condition cannot be relaxed: among brace-free keys the test agrees with the scanner for
      all templates, orders and keys exactly when no key is an alias of another. */
  lemma AgreementNeedsCleanKeys(keys: set<string>)
    requires BraceFreeKeys(keys)
    ensures (forall order, tmpl, k :: Enumerates(order, keys) && k in keys ==>
                (Used(tmpl, k) <==> Substituted(Segments(order, tmpl), k)))
            <==> Clean(keys)
  {
    hide Used, Substituted, Segments, Enumerates, BraceFreeKeys, Clean;
    if Clean(keys) {
      forall order, tmpl, k | Enumerates(order, keys) && k in keys
        ensures Used(tmpl, k) <==> Substituted(Segments(order, tmpl), k)
      {
        UsedIffSubstituted(keys, order, tmpl, k);
      }
    } else {
      var order, tmpl, a := AliasMisleads(keys);
    }
  }

  lemma AliasMisleads(keys: set<string>) returns (order: seq<string>, tmpl: string, a: string)
    requires BraceFreeKeys(keys) && !Clean(keys)
    ensures Enumerates(order, keys) && a in keys && Used(tmpl, a)
    ensures !Substituted(Segments(order, tmpl), a) && forall f :: Sub(a, f) !in Segments(order, tmpl)
  {
    hide Enumerates, Segments, Contains;
    var k;
    a, k :| a in keys && k in keys && Alias(a, k);
    var f := if a == Body(Input, k) then Input else Args;
    assert |a| > |k|;
    order := EnumerationStartingWith(k, keys);
    tmpl := Placeholder(f, k);
    assert tmpl == Placeholder(Double, a);
    WholePlaceholder(order, f, k);
    OccursHere(tmpl, Placeholder(Double, a));
  }

  // ---------------------------------------------------------------- any keys, any values

  /** The rendered text starts with the value of the placeholder at the head. */
  lemma RenderStarts(order: seq<string>, values: map<string, string>, s: string)
    requires (forall k :: k in order ==> k in values) && s != "" && Head(order, s).Sub?
    ensures Head(order, s).key in values && values[Head(order, s).key] <= Render(order, values, s)
  {
    hide Head, Text, Render;
    RenderIsFill(order, values, s);
    var segs := Segments(order, s);
    assert segs == [Head(order, s)] + Segments(order, s[|Text(Head(order, s))|..]);
    assert segs[0] == Head(order, s);
  }

  /** No pattern of one key starts a pattern of another. Keys may hold braces. */
  ghost predicate Unambiguous(keys: set<string>) {
    forall k1, k2, f1, f2 :: k1 in keys && k2 in keys && k1 != k2 ==> !(Placeholder(f1, k1) <= Placeholder(f2, k2))
  }

  /** Every map with these keys renders every template alike in all its orders. */
  ghost predicate OrderNeverMatters(keys: set<string>) {
    forall values: map<string, string>, a, b, tmpl ::
      values.Keys == keys && Enumerates(a, keys) && Enumerates(b, keys) ==>
        Render(a, values, tmpl) == Render(b, values, tmpl)
  }

  /** For every key set, braces or not, the iteration order never matters exactly when no pattern of
      one key starts a pattern of another. */
  lemma OrderNeverMattersIff(keys: set<string>)
    ensures OrderNeverMatters(keys) <==> Unambiguous(keys)
  {
    hide Enumerates, Render, Placeholder;
    if Unambiguous(keys) {
      forall values: map<string, string>, a, b, tmpl | values.Keys == keys && Enumerates(a, keys) && Enumerates(b, keys)
        ensures Render(a, values, tmpl) == Render(b, values, tmpl)
      {
        assert Compatible(values);
        OrderFree(values, a, b, tmpl);
      }
    } else {
      var k1, k2, f1, f2 :|
        k1 in keys && k2 in keys && k1 != k2 && Placeholder(f1, k1) <= Placeholder(f2, k2);
      var values, a, b := ClashingOrders(keys, k1, f1, k2, f2);
    }
  }

  /** Two orders that render a pattern another pattern starts in two ways. */
  lemma ClashingOrders(keys: set<string>, k1: string, f1: Form, k2: string, f2: Form)
    returns (values: map<string, string>, a: seq<string>, b: seq<string>)
    requires k1 in keys && k2 in keys && k1 != k2 && Placeholder(f1, k1) <= Placeholder(f2, k2)
    ensures values.Keys == keys && Enumerates(a, keys) && Enumerates(b, keys)
    ensures Render(a, values, Placeholder(f2, k2)) != Render(b, values, Placeholder(f2, k2))
  {
    hide Enumerates, Render, Placeholder;
    var s := Placeholder(f2, k2);
    values := map k | k in keys :: if k == k1 then "1" else "2";
    a := EnumerationStartingWith(k1, keys);
    b := EnumerationStartingWith(k2, keys);
    HeadOfFirst(a, f1, s);
    HeadOfFirst(b, f2, s);
    RenderStarts(a, values, s);
    RenderStarts(b, values, s);
    assert "1" <= Render(a, values, s) && "2" <= Render(b, values, s);
    assert "1"[0] != "2"[0];
  }

  /** The key ranged over first is tried first. */
  lemma HeadOfFirst(order: seq<string>, f: Form, s: string)
    requires order != [] && Placeholder(f, order[0]) <= s
    ensures s != "" && Head(order, s).Sub? && Head(order, s).key == order[0]
  {
    hide Placeholder;
  }

  /** Among brace-free keys the unambiguous key sets are the clean ones. */
  lemma UnambiguousIffClean(keys: set<string>)
    requires BraceFreeKeys(keys)
    ensures Unambiguous(keys) <==> Clean(keys)
  {
    if Clean(keys) {
      hide Placeholder, BraceFree, Alias;
      forall k1, k2, f1, f2 | k1 in keys && k2 in keys && k1 != k2
        ensures !(Placeholder(f1, k1) <= Placeholder(f2, k2))
      {
        if Placeholder(f1, k1) <= Placeholder(f2, k2) { PatternsMeet(f1, k1, f2, k2); }
      }
    } else {
      var a, k :| a in keys && k in keys && Alias(a, k);
      var f := if a == Body(Input, k) then Input else Args;
      assert |a| > |k|;
      assert Placeholder(Double, a) <= Placeholder(f, k);
    }
  }

  /** Among keys with braces the order can matter: with the keys `x` and `{x`, the template `{{x}}`
      renders in two ways. */
  lemma BracesInKeysMakeOrderMatter()
    ensures var values := map["x" := "1", "{x" := "2"];
            && Enumerates(["x", "{x"], values.Keys) && Enumerates(["{x", "x"], values.Keys)
            && Render(["x", "{x"], values, "{{x}}") != Render(["{x", "x"], values, "{{x}}")
  {
    var values := map["x" := "1", "{x" := "2"];
    var a, b := ["x", "{x"], ["{x", "x"];
    hide RulesFor, Replace, Enumerates, FirstMatch, Head;
    assert values.Keys == {"x", "{x"};
    TwoOrders("x", "{x");
    var s := "{{x}}";
    TwoHeads(a, b, s);
    RenderStarts(a, values, s);
    RenderStarts(b, values, s);
    assert "1" <= Render(a, values, s) && "2" <= Render(b, values, s);
    assert "1"[0] != "2"[0];
  }

  lemma TwoHeads(a: seq<string>, b: seq<string>, s: string)
    requires a == ["x", "{x"] && b == ["{x", "x"] && s == "{{x}}"
    ensures Head(a, s) == Sub("x", Double) && Head(b, s) == Sub("{x", Single)
  {
    assert Placeholder(Double, "x") == s;
    assert Placeholder(Double, "{x") == "{{{x}}" && Placeholder(Single, "{x") == "{{x}";
    hide Placeholder;
    assert s[2] == 'x' && "{{{x}}"[2] == '{';
    assert !(Placeholder(Double, "{x") <= s);
    assert Placeholder(Single, "{x") <= s;
    assert PlaceholderAt(a, s) == Some(Sub("x", Double));
    assert PlaceholderAt(b, s) == Some(Sub("{x", Single));
  }
}

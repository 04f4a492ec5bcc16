/** The URL of an HTTP tool call: `renderTemplateURL` followed by `appendUnusedInputAsQuery`, in the
    order of `Execute` (`internal/executor/http/executor.go`, lines 113-121). */
module HttpUrl {
  import opened Strings
  import opened Replacer
  import opened Template
  import opened Segmentation
  import opened QueryString

  type Inputs = map<string, string>

  predicate ByteInputs(input: Inputs) {
    forall k :: k in input ==> IsBytes(k) && IsBytes(input[k])
  }

  function Escaped(input: Inputs): map<string, string> {
    map k | k in input :: QueryEscape(input[k])
  }

  /** No order matters: brace-free keys, and aliases of each other hold the same text. */
  ghost predicate OrderFreeInputs(input: Inputs) {
    BraceFreeKeys(input.Keys) && AliasesAgree(input)
  }

  /** `renderTemplateURL`. */
  method RenderTemplateURL(tmpl: string, input: Inputs) returns (rendered: string)
    ensures exists order :: Enumerates(order, input.Keys) && rendered == Render(order, Escaped(input), tmpl)
    ensures OrderFreeInputs(input) ==>
              forall order :: Enumerates(order, input.Keys) ==> rendered == Render(order, Escaped(input), tmpl)
  {
    hide Enumerates, Render, Compatible;
    assert Escaped(input).Keys == input.Keys;
    ghost var order;
    rendered, order := RenderTemplate(tmpl, Escaped(input));
    if OrderFreeInputs(input) { AgreeingIsCompatible(Escaped(input)); }
  }

  /** The inputs that become query parameters: those that are not used and that the schema, if there is
      one, names. */
  ghost function Forwarded(tmpl: string, input: Inputs, allowed: Option<set<string>>): Inputs {
    map k | k in input && !Used(tmpl, k) && (allowed.Some? ==> k in allowed.value) :: input[k]
  }

  ghost function WithQuery(rendered: string, params: Inputs): string {
    if params == map[] then rendered
    else rendered + (if '?' in rendered then "&" else "?") + EncodeKeys(SortedKeys(params.Keys), params)
  }

  /** `Values.Encode`: the keys are collected in map order and sorted. */
  method Encode(params: Inputs) returns (s: string)
    ensures s == EncodeKeys(SortedKeys(params.Keys), params)
  {
    var rest := params.Keys;
    var keys: seq<string> := [];
    while rest != {}
      invariant rest <= params.Keys
      invariant Enumerates(keys, params.Keys - rest)
    {
      var k :| k in rest;
      EnumeratesNext(k, keys, rest, params.Keys);
      keys := keys + [k];
      rest := rest - {k};
    }
    assert params.Keys - rest == params.Keys;
    SortForgetsOrder(keys, params.Keys);
    s := EncodeKeys(SortStrings(keys), params);
  }

  method AppendUnusedInputAsQuery(rawTemplate: string, renderedURL: string, input: Inputs, allowed: Option<set<string>>)
    returns (url: string)
    ensures url == WithQuery(renderedURL, Forwarded(rawTemplate, input, allowed))
  {
    if |input| == 0 {
      assert Forwarded(rawTemplate, input, allowed) == map[];
      return renderedURL;
    }
    var used: set<string> := {};
    var rest := input.Keys;
    while rest != {}
      invariant rest <= input.Keys
      invariant forall k :: k in used <==> k in input.Keys - rest && Used(rawTemplate, k)
    {
      var k :| k in rest;
      var single := Find(rawTemplate, Placeholder(Single, k));
      var double := Find(rawTemplate, Placeholder(Double, k));
      var namespaced := Find(rawTemplate, Placeholder(Input, k));
      if single || double || namespaced { used := used + {k}; }
      rest := rest - {k};
    }
    var qv: Inputs := map[];
    rest := input.Keys;
    while rest != {}
      invariant rest <= input.Keys
      invariant forall k :: k in qv <==>
                              && k in input.Keys - rest && !Used(rawTemplate, k)
                              && (allowed.Some? ==> k in allowed.value)
      invariant forall k :: k in qv ==> qv[k] == input[k]
    {
      var k :| k in rest;
      rest := rest - {k};
      if k in used { continue; }
      if allowed.Some? && k !in allowed.value { continue; }
      qv := qv[k := input[k]];
    }
    assert qv == Forwarded(rawTemplate, input, allowed);
    if |qv| == 0 { return renderedURL; }
    var sep := if '?' in renderedURL then "&" else "?";
    var encoded := Encode(qv);
    url := renderedURL + sep + encoded;
  }

  ghost function FinalURL(verb: string, order: seq<string>, rawURL: string, input: Inputs,
      allowed: Option<set<string>>): string
    requires Enumerates(order, input.Keys)
  {
    var rendered := Render(order, Escaped(input), rawURL);
    if verb in {"GET", "DELETE", "HEAD"} then WithQuery(rendered, Forwarded(rawURL, input, allowed)) else rendered
  }

  /** `Execute`, lines 113-121; `verb` is the upper-cased method. */
  method BuildURL(verb: string, rawURL: string, input: Inputs, allowed: Option<set<string>>) returns (url: string)
    ensures exists order :: Enumerates(order, input.Keys) && url == FinalURL(verb, order, rawURL, input, allowed)
    ensures OrderFreeInputs(input) ==>
              forall order :: Enumerates(order, input.Keys) ==> url == FinalURL(verb, order, rawURL, input, allowed)
  {
    hide Enumerates, Render, OrderFreeInputs;
    url := RenderTemplateURL(rawURL, input);
    ghost var order :| Enumerates(order, input.Keys) && url == Render(order, Escaped(input), rawURL);
    if verb == "GET" || verb == "DELETE" || verb == "HEAD" {
      url := AppendUnusedInputAsQuery(rawURL, url, input, allowed);
    }
  }

  /** A schema is a filter: of what is forwarded without one, the keys it names stay, with their values. */
  lemma SchemaFilters(tmpl: string, input: Inputs, schema: set<string>)
    ensures Forwarded(tmpl, input, Some(schema)).Keys == Forwarded(tmpl, input, None).Keys * schema
    ensures Forwarded(tmpl, input, None).Keys == set k | k in input && !Used(tmpl, k)
    ensures forall k :: k in Forwarded(tmpl, input, Some(schema)) ==>
                          Forwarded(tmpl, input, Some(schema))[k] == Forwarded(tmpl, input, None)[k] == input[k]
  {
    hide Used;
  }

  /** Anything forwarded makes the URL longer. The rendered URL is final exactly when nothing is forwarded
      or the method is none of GET, DELETE and HEAD. */
  lemma RenderedIsFinalIff(verb: string, order: seq<string>, tmpl: string, input: Inputs,
      allowed: Option<set<string>>)
    requires Enumerates(order, input.Keys)
    ensures FinalURL(verb, order, tmpl, input, allowed) == Render(order, Escaped(input), tmpl)
            <==> Forwarded(tmpl, input, allowed) == map[] || (verb != "GET" && verb != "DELETE" && verb != "HEAD")
    ensures Render(order, Escaped(input), tmpl) <= FinalURL(verb, order, tmpl, input, allowed)
  {
    hide Render, Forwarded, EncodeKeys, Enumerates;
    var rendered, params := Render(order, Escaped(input), tmpl), Forwarded(tmpl, input, allowed);
    assert params != map[] ==> |WithQuery(rendered, params)| > |rendered|;
  }

  // ---------------------------------------------------------------- the query reads back

  lemma SortedParams(params: Inputs)
    ensures params == map[] <==> SortedKeys(params.Keys) == []
    ensures forall k :: k in SortedKeys(params.Keys) ==> k in params
  {
    var keys := SortedKeys(params.Keys);
    if keys != [] { assert keys[0] in params; }
    if params != map[] {
      var k :| k in params;
      assert k in SortedKeys(params.Keys);
    }
  }

  /** Reading the final URL gives the pairs of the rendered URL and then every forwarded input, in
      key order, with its original text, exactly when the rendered URL has no fragment or nothing is
      forwarded. With a fragment the parameters land behind the `#` and are lost. */
  lemma QueryRoundTrip(rendered: string, params: Inputs)
    requires ByteInputs(params)
    ensures ParseForm(QueryOf(WithQuery(rendered, params)))
            == ParseForm(QueryOf(rendered)) + Pairs(SortedKeys(params.Keys), params)
            <==> '#' !in rendered || params == map[]
  {
    SortedParams(params);
    if params != map[] {
      var keys := SortedKeys(params.Keys);
      ParseEncoded(keys, params);
      EncodedHasNoHash(keys, params);
      ReadExtended(rendered, EncodeKeys(keys, params));
    }
  }

  lemma ReadExtended(rendered: string, encoded: string)
    requires '#' !in encoded
    ensures ParseForm(QueryOf(rendered + (if '?' in rendered then "&" else "?") + encoded))
            == ParseForm(QueryOf(rendered)) + if '#' in rendered then [] else ParseForm(encoded)
  {
    if '#' in rendered {
      var sep := if '?' in rendered then "&" else "?";
      LostBehindFragment(rendered, sep + encoded);
      assert rendered + sep + encoded == rendered + (sep + encoded);
    } else {
      ReadAppended(rendered, encoded);
    }
  }

  lemma ReadAppended(rendered: string, encoded: string)
    requires '#' !in rendered && '#' !in encoded
    ensures ParseForm(QueryOf(rendered + (if '?' in rendered then "&" else "?") + encoded))
            == ParseForm(QueryOf(rendered)) + ParseForm(encoded)
  {
    hide Cut, ParseForm, Before, After;
    if '?' in rendered {
      AppendedQuery(rendered, encoded);
      ParseJoined(QueryOf(rendered), encoded);
    } else {
      FirstQuery(rendered, encoded);
      ParseNothing();
      assert [] + ParseForm(encoded) == ParseForm(encoded);
    }
  }

  /** Whether the rendered URL has a fragment is decided by the template: values never add a `#`. */
  lemma {:induction false} FragmentComesFromTemplate(segs: seq<Segment>, input: Inputs)
    requires forall seg :: seg in segs && seg.Sub? ==> seg.key in input
    ensures '#' in Fill(segs, Escaped(input)) <==> Lit('#') in segs
    ensures '#' in Fill(segs, Escaped(input)) ==> '#' in Source(segs)
  {
    if segs == [] {
    } else {
      FragmentComesFromTemplate(segs[1..], input);
      if segs[0].Sub? { EscapedIsSafe(input[segs[0].key]); }
    }
  }

  /** The promise about a GET call, from template and inputs to what a server parses. */
  lemma ForwardedInputsReachTheServer(order: seq<string>, tmpl: string, input: Inputs, allowed: Option<set<string>>)
    requires Enumerates(order, input.Keys) && ByteInputs(input)
    ensures var rendered := Render(order, Escaped(input), tmpl);
            var params := Forwarded(tmpl, input, allowed);
            && (ParseForm(QueryOf(WithQuery(rendered, params)))
                == ParseForm(QueryOf(rendered)) + Pairs(SortedKeys(params.Keys), params)
                <==> Lit('#') !in Segments(order, tmpl) || params == map[])
            && ('#' !in tmpl ==> Lit('#') !in Segments(order, tmpl))
  {
    RenderIsFill(order, Escaped(input), tmpl);
    FragmentComesFromTemplate(Segments(order, tmpl), input);
    SegmentsSpellTemplate(order, tmpl);
    QueryRoundTrip(Render(order, Escaped(input), tmpl), Forwarded(tmpl, input, allowed));
  }

  /** What becomes of one input of a GET call, for all keys: it is substituted, forwarded, both or
      neither. It is both only as `{{args.k}}`, and neither when the schema filters it or the use test
      sees a placeholder that the scan does not substitute. */
  lemma AnyInputFate(order: seq<string>, tmpl: string, input: Inputs, allowed: Option<set<string>>, k: string)
    requires Enumerates(order, input.Keys) && k in input
    ensures var segs := Segments(order, tmpl);
            var inPlace := exists f :: Sub(k, f) in segs;
            var forwarded := k in Forwarded(tmpl, input, allowed);
            var filtered := allowed.Some? && k !in allowed.value;
            && (Substituted(segs, k) ==> !forwarded)
            && (inPlace && forwarded <==> !filtered && Sub(k, Args) in segs && !Used(tmpl, k))
            && (!inPlace && !forwarded <==> !inPlace && (filtered || Used(tmpl, k)))
  {
    hide Segments, Contains, Placeholder;
    var segs := Segments(order, tmpl);
    forall f | Sub(k, f) in segs ensures Contains(tmpl, Placeholder(f, k)) {
      SubstitutedOccurs(order, tmpl, k, f);
    }
  }

  /** What becomes of one input of a GET call when no key is another key's alias. It is lost exactly
      when the schema filters it and no form of it occurs, and delivered twice exactly when it is allowed
      and the template names it only as `{{args.k}}`, which the renderer substitutes and the use test
      does not look for. */
  lemma InputFate(order: seq<string>, tmpl: string, input: Inputs, allowed: Option<set<string>>, k: string)
    requires BraceFreeKeys(input.Keys) && Clean(input.Keys) && Enumerates(order, input.Keys) && k in input
    ensures var segs := Segments(order, tmpl);
            var inPlace := exists f :: Sub(k, f) in segs;
            var forwarded := k in Forwarded(tmpl, input, allowed);
            var filtered := allowed.Some? && k !in allowed.value;
            && (Substituted(segs, k) ==> !forwarded)
            && (inPlace && forwarded <==> !filtered && Contains(tmpl, Placeholder(Args, k)) && !Used(tmpl, k))
            && (!inPlace && !forwarded <==> filtered && forall f :: !Contains(tmpl, Placeholder(f, k)))
  {
    var segs := Segments(order, tmpl);
    UsedIffSubstituted(input.Keys, order, tmpl, k);
    if Contains(tmpl, Placeholder(Args, k)) {
      var i :| 0 <= i <= |tmpl| && Placeholder(Args, k) <= tmpl[i..];
      ArgsOccurrence(input.Keys, order, tmpl, k, i);
    }
    forall f | Sub(k, f) in segs ensures Contains(tmpl, Placeholder(f, k)) {
      SubstitutedOccurs(order, tmpl, k, f);
    }
  }

  /** The input is substituted or, without a schema, forwarded. */
  ghost predicate Delivered(order: seq<string>, tmpl: string, input: Inputs, k: string) {
    (exists f :: Sub(k, f) in Segments(order, tmpl)) || k in Forwarded(tmpl, input, None)
  }

  /** Without a schema no input with one of these keys is ever lost. */
  ghost predicate NothingIsLost(keys: set<string>) {
    forall input: Inputs, order, tmpl, k :: input.Keys == keys && Enumerates(order, keys) && k in keys ==>
                                              Delivered(order, tmpl, input, k)
  }

  /** Among brace-free keys nothing is ever lost exactly when no key is an alias of another. */
  lemma NothingIsLostIff(keys: set<string>)
    requires BraceFreeKeys(keys)
    ensures NothingIsLost(keys) <==> Clean(keys)
  {
    hide Segments, Used, Enumerates, Clean, BraceFreeKeys;
    if Clean(keys) {
      forall input: Inputs, order, tmpl, k | input.Keys == keys && Enumerates(order, keys) && k in keys
        ensures Delivered(order, tmpl, input, k)
      {
        InputFate(order, tmpl, input, None, k);
      }
    } else {
      var order, tmpl, a := AliasMisleads(keys);
      var input: Inputs := map k | k in keys :: "";
      assert input.Keys == keys && !Delivered(order, tmpl, input, a);
    }
  }

  lemma {:induction false} ArgsOccurrence(keys: set<string>, order: seq<string>, s: string, k: string, i: nat)
    requires BraceFreeKeys(keys) && Clean(keys) && Enumerates(order, keys) && k in keys
    requires i <= |s| && Placeholder(Args, k) <= s[i..]
    ensures Sub(k, Args) in Segments(order, s)
    decreases |s|
  {
    hide Head, Placeholder, BraceFreeKeys, Clean, Enumerates, Segments;
    var seg := Head(order, s);
    var n := |Text(seg)|;
    SegmentsFromHead(order, s);
    if i == 0 {
      assert s[0..] == s;
      HeadIsOccurrence(keys, order, s, k, Args);
    } else {
      if i < n { OverlapIsTail(keys, seg.form, k, Args, seg.key, s, i); }
      assert s[n..][i - n..] == s[i..];
      ArgsOccurrence(keys, order, s[n..], k, i - n);
    }
  }

  // ---------------------------------------------------------------- instances that fail

  lemma OneKey(k: string)
    ensures Enumerates([k], {k}) && SortedKeys({k}) == [k]
  {
    assert multiset([k]) == multiset{k} == multiset({k});
    var keys := SortedKeys({k});
    assert |keys| == |multiset(keys)| == 1;
    assert keys[0] in keys;
  }

  /** A template without braces is its own rendering. */
  lemma PlainTemplate(order: seq<string>, values: map<string, string>, tmpl: string)
    requires (forall k :: k in order ==> k in values) && '{' !in tmpl
    ensures Render(order, values, tmpl) == tmpl
  {
    RenderPlain(order, values, tmpl, "");
    assert tmpl + "" == tmpl;
  }

  /** One input for a template without braces: it is forwarded, and with a fragment in the template it
      is not in the query. */
  lemma FragmentLosesInput(tmpl: string, k: string, v: string)
    requires '{' !in tmpl && '#' in tmpl
    ensures var input := map[k := v];
            && Enumerates([k], input.Keys) && Forwarded(tmpl, input, None) == input
            && QueryOf(FinalURL("GET", [k], tmpl, input, None)) == QueryOf(tmpl)
  {
    var input := map[k := v];
    assert input.Keys == {k};
    OneKey(k);
    forall f ensures !Contains(tmpl, Placeholder(f, k)) { NoBraceNoPlaceholder(tmpl, f, k); }
    assert Forwarded(tmpl, input, None) == input;
    PlainTemplate([k], Escaped(input), tmpl);
    hide QueryOf, Render, Placeholder, SortedKeys, Enumerates;
    Assoc(tmpl, if '?' in tmpl then "&" else "?", EncodeKeys(SortedKeys({k}), input));
    LostBehindFragment(tmpl, (if '?' in tmpl then "&" else "?") + EncodeKeys(SortedKeys({k}), input));
  }

  /** With a schema that names one input, a template without braces and query gets that one and no other. */
  lemma SchemaSendsOneInput(order: seq<string>, tmpl: string, input: Inputs, k: string)
    requires Enumerates(order, input.Keys) && k in input && '{' !in tmpl && '?' !in tmpl
    ensures FinalURL("GET", order, tmpl, input, Some({k})) == tmpl + "?" + EncodePair(k, input[k])
  {
    forall f, x ensures !Contains(tmpl, Placeholder(f, x)) { NoBraceNoPlaceholder(tmpl, f, x); }
    assert Forwarded(tmpl, input, Some({k})) == map[k := input[k]];
    OneKey(k);
    PlainTemplate(order, Escaped(input), tmpl);
    hide Render, Forwarded, Enumerates, SortedKeys;
    assert map[k := input[k]].Keys == {k} && EncodeKeys([k], map[k := input[k]]) == EncodePair(k, input[k]);
  }

  /** `/search` with a schema that names `q`: `state` is not sent. */
  lemma SchemaExample(order: seq<string>)
    requires Enumerates(order, {"q", "state"})
    ensures var input := map["q" := "x", "state" := "SP"];
            input.Keys == {"q", "state"} && FinalURL("GET", order, "/search", input, Some({"q"})) == "/search?q=x"
  {
    hide *;
    SchemaLiterals();
    var input := map["q" := "x", "state" := "SP"];
    SchemaSendsOneInput(order, "/search", input, "q");
  }

  lemma SchemaLiterals()
    ensures '{' !in "/search" && '?' !in "/search"
    ensures map["q" := "x", "state" := "SP"].Keys == {"q", "state"}
    ensures "/search" + "?" + EncodePair("q", "x") == "/search?q=x"
  {
    PlainByte('q');
    PlainByte('x');
  }

  lemma NoBraceNoPlaceholder(tmpl: string, f: Form, k: string)
    requires '{' !in tmpl
    ensures !Contains(tmpl, Placeholder(f, k))
  {
    hide Placeholder;
    var p := Placeholder(f, k);
    StartsWithBrace(f, k);
    forall i | 0 <= i <= |tmpl| ensures !(p <= tmpl[i..]) { PrefixChar(tmpl, i, p); }
  }

  lemma PrefixChar(t: string, i: nat, p: string)
    requires i <= |t| && p != ""
    ensures p <= t[i..] ==> p[0] in t
  {
    assert p <= t[i..] ==> t[i] == t[i..][0] == p[0];
  }

  /** The city for `/weather#today` does not reach the server. */
  lemma FragmentExample()
    ensures var input := map["city" := "Tokyo"];
            && Enumerates(["city"], input.Keys)
            && ParseForm(QueryOf(FinalURL("GET", ["city"], "/weather#today", input, None))) == []
  {
    hide *;
    FragmentLiterals();
    FragmentLosesInput("/weather#today", "city", "Tokyo");
    CutAt("/weather", "today", '#');
    NoQuery("/weather", "/weather#today");
    ParseNothing();
  }

  lemma FragmentLiterals()
    ensures var tmpl := "/weather#today";
            '{' !in tmpl && '#' in tmpl && "/weather" + ['#'] + "today" == tmpl
    ensures '#' !in "/weather" && '?' !in "/weather"
    ensures forall u :: Cut(u, '#').0 == Before(u, '#')
  {
    hide Cut;
    assert "/weather#today"[8] == '#';
  }

  lemma NoQuery(path: string, u: string)
    requires Before(u, '#') == path && '?' !in path
    ensures QueryOf(u) == ""
  {
    hide Cut;
    CutConcat(path, "", '?');
  }

  /** An input named only as `{{args.k}}` is substituted and forwarded as well. */
  lemma ArgsIsDeliveredTwice(k: string, v: string)
    requires BraceFree(k)
    ensures var input := map[k := v];
            && Enumerates([k], input.Keys)
            && FinalURL("GET", [k], Placeholder(Args, k), input, None) == QueryEscape(v) + "?" + EncodePair(k, v)
  {
    var input, tmpl := map[k := v], Placeholder(Args, k);
    assert input.Keys == {k};
    OneKey(k);
    assert Clean({k}) by { assert !Alias(k, k); }
    WholePlaceholder([k], Args, k);
    UsedIffSubstituted({k}, [k], tmpl, k);
    assert !Used(tmpl, k);
    assert Forwarded(tmpl, input, None) == input;
    FirstKeyWins([k], Escaped(input), Args, k);
    EscapedIsSafe(v);
    hide Render, Placeholder, SortedKeys, Enumerates;
    assert EncodeKeys([k], input) == EncodePair(k, v);
  }

  /** `{{args.q}}` with `q` = `1` becomes `1?q=1`. */
  lemma ArgsExample()
    ensures var input := map["q" := "1"];
            && Enumerates(["q"], input.Keys) && FinalURL("GET", ["q"], "{{args.q}}", input, None) == "1?q=1"
  {
    hide *;
    ArgsLiterals();
    ArgsIsDeliveredTwice("q", "1");
  }

  lemma ArgsLiterals()
    ensures BraceFree("q") && Placeholder(Args, "q") == "{{args.q}}"
    ensures QueryEscape("1") + "?" + EncodePair("q", "1") == "1?q=1"
  {
    PlainByte('1');
    PlainByte('q');
  }

  lemma PlainByte(c: char)
    requires Unreserved(c)
    ensures QueryEscape([c]) == [c]
  {
    assert [c][1..] == "" && QueryEscape("") == "" && [c] + "" == [c];
  }
}

/** `buildUrl` of `HttpToolExecutor.java`: path parameters are substituted one key after the other,
    each over the text the previous ones left, for the form `{key}` only. The one-pass replacer over
    all keys is the simultaneous substitution it is compared with. */
module JavaUrl {
  import opened Strings
  import opened Replacer
  import opened Template
  import opened QueryString

  /** `"{" + key + "}"` and the text that replaces it. */
  function PathRule(k: string, v: string): Rule {
    Rule(Placeholder(Single, k), v)
  }

  function PathRules(order: seq<string>, values: map<string, string>): (rules: seq<Rule>)
    requires forall k :: k in order ==> k in values
    ensures Usable(rules)
  {
    if order == [] then [] else [PathRule(order[0], values[order[0]])] + PathRules(order[1..], values)
  }

  /** One `String.replace` for each entry, for a map iterated in `order`. */
  function Sequential(order: seq<string>, values: map<string, string>, url: string): string
    requires forall k :: k in order ==> k in values
    decreases |order|
  {
    if order == [] then url
    else Sequential(order[1..], values, Replace([PathRule(order[0], values[order[0]])], url))
  }

  /** One pass over the template with all entries at once. */
  function Simultaneous(order: seq<string>, values: map<string, string>, url: string): string
    requires forall k :: k in order ==> k in values
  {
    Replace(PathRules(order, values), url)
  }

  lemma {:induction false} SequentialSnoc(order: seq<string>, k: string, values: map<string, string>, url: string)
    requires k in values && forall x :: x in order ==> x in values
    ensures Sequential(order + [k], values, url) == Replace([PathRule(k, values[k])], Sequential(order, values, url))
    decreases |order|
  {
    var longer := order + [k];
    if order == [] {
      assert longer[1..] == [] && longer[0] == k;
    } else {
      assert longer[0] == order[0] && longer[1..] == order[1..] + [k];
      SequentialSnoc(order[1..], k, values, Replace([PathRule(order[0], values[order[0]])], url));
    }
  }

  // ---------------------------------------------------------------- braces

  /** A `}` comes before any `{`. */
  predicate Closes(s: string) {
    s != "" && (s[0] == '}' || (s[0] != '{' && Closes(s[1..])))
  }

  /** What precedes that `}`. */
  function Word(s: string): (w: string)
    requires Closes(s)
    ensures BraceFree(w) && |w| < |s| && s == w + "}" + s[|w| + 1..]
  {
    if s[0] == '}' then "" else [s[0]] + Word(s[1..])
  }

  lemma {:induction false} WordAt(b: string, x: string)
    requires BraceFree(b)
    ensures Closes(b + "}" + x) && Word(b + "}" + x) == b
  {
    var s := b + "}" + x;
    if b == "" {
    } else {
      assert s[0] == b[0] && s[1..] == b[1..] + "}" + x;
      WordAt(b[1..], x);
    }
  }

  /** A `}` comes first once every innermost `{word}` on the way is skipped. */
  predicate ClosesOver(s: string)
    decreases |s|
  {
    s != "" &&
    (|| s[0] == '}'
     || if s[0] == '{' then Closes(s[1..]) && ClosesOver(s[1..][|Word(s[1..])| + 1..]) else ClosesOver(s[1..]))
  }

  /** No brace pair of the template encloses another one: whatever replaces the innermost `{word}`s, no
      new `{word}` comes into being. */
  predicate Flat(s: string) {
    s == "" || ((s[0] == '{' && ClosesOver(s[1..]) ==> Closes(s[1..])) && Flat(s[1..]))
  }

  // ---------------------------------------------------------------- substitution by words

  predicate KeyAhead(values: map<string, string>, s: string) {
    Closes(s) && Word(s) in values
  }

  /** The simultaneous substitution, read off the braces instead of the rules. */
  function Subst(values: map<string, string>, s: string): string
    decreases |s|
  {
    if s == "" then ""
    else if s[0] == '{' && KeyAhead(values, s[1..]) then
      values[Word(s[1..])] + Subst(values, s[1..][|Word(s[1..])| + 1..])
    else [s[0]] + Subst(values, s[1..])
  }

  ghost predicate Restricts(order: seq<string>, values: map<string, string>, sub: map<string, string>) {
    && (forall k :: k in order <==> k in sub)
    && forall k :: k in sub ==> k in values && values[k] == sub[k]
  }

  lemma {:induction false} RuleAtBrace(order: seq<string>, values: map<string, string>, s: string)
    requires forall k :: k in order ==> k in values && BraceFree(k)
    ensures var m := FirstMatch(PathRules(order, values), s);
            if s != "" && s[0] == '{' && Closes(s[1..]) && Word(s[1..]) in order
            then m == Some(PathRule(Word(s[1..]), values[Word(s[1..])])) else m.None?
  {
    if order == [] {
    } else {
      RuleAtBrace(order[1..], values, s);
      PatternStarts(order[0], s);
    }
  }

  lemma PatternStarts(k: string, s: string)
    requires BraceFree(k)
    ensures Placeholder(Single, k) <= s <==> s != "" && s[0] == '{' && Closes(s[1..]) && Word(s[1..]) == k
  {
    hide Closes, Word, Placeholder;
    if s != "" && s[0] == '{' && Closes(s[1..]) && Word(s[1..]) == k {
      var b, rest := Group(s);
      assert Placeholder(Single, k) + rest == s;
    }
    if Placeholder(Single, k) <= s { GroupHere(k, s[|Placeholder(Single, k)|..], s); }
  }

  lemma GroupHere(b: string, x: string, s: string)
    requires BraceFree(b) && s == Placeholder(Single, b) + x
    ensures s != "" && s[0] == '{' && s[1..] == b + "}" + x && Closes(s[1..]) && Word(s[1..]) == b
  {
    hide Closes, Word;
    assert s == "{" + (b + "}" + x);
    WordAt(b, x);
  }

  /** The innermost group at the front of `s`. */
  lemma Group(s: string) returns (b: string, rest: string)
    requires s != "" && s[0] == '{' && Closes(s[1..])
    ensures b == Word(s[1..]) && BraceFree(b) && s == Placeholder(Single, b) + rest && |rest| < |s|
    ensures rest == s[1..][|b| + 1..] == s[|b| + 2..]
  {
    hide Closes, Word;
    b := Word(s[1..]);
    rest := s[1..][|b| + 1..];
    assert s == ['{'] + s[1..];
    assert ['{'] + (b + "}" + rest) == Placeholder(Single, b) + rest;
  }

  lemma {:induction false} ReplaceIsSubst(order: seq<string>, values: map<string, string>, sub: map<string, string>,
      s: string)
    requires BraceFreeKeys(sub.Keys) && Restricts(order, values, sub)
    ensures Replace(PathRules(order, values), s) == Subst(sub, s)
    decreases |s|
  {
    if s == "" {
    } else {
      RuleAtBrace(order, values, s);
      if s[0] == '{' && KeyAhead(sub, s[1..]) {
        var w := Word(s[1..]);
        assert |Placeholder(Single, w)| == |w| + 2;
        assert s[|w| + 2..] == s[1..][|w| + 1..];
        ReplaceIsSubst(order, values, sub, s[|w| + 2..]);
      } else {
        ReplaceIsSubst(order, values, sub, s[1..]);
      }
    }
  }

  /** One `String.replace`. */
  lemma ReplaceOne(k: string, v: string, s: string)
    requires BraceFree(k)
    ensures Replace([PathRule(k, v)], s) == Subst(map[k := v], s)
  {
    var sub := map[k := v];
    assert [k][1..] == [];
    assert PathRules([k], sub) == [PathRule(k, v)];
    ReplaceIsSubst([k], sub, sub, s);
  }

  lemma SubstCons(values: map<string, string>, c: char, x: string)
    ensures Subst(values, [c] + x) ==
            if c == '{' && KeyAhead(values, x) then values[Word(x)] + Subst(values, x[|Word(x)| + 1..])
            else [c] + Subst(values, x)
  {
    assert ([c] + x)[0] == c && ([c] + x)[1..] == x;
  }

  lemma {:induction false} SubstPlain(values: map<string, string>, p: string, x: string)
    requires '{' !in p
    ensures Subst(values, p + x) == p + Subst(values, x)
  {
    hide Subst;
    if p == "" {
      assert p + x == x && p + Subst(values, x) == Subst(values, x);
    } else {
      assert p == [p[0]] + p[1..];
      Assoc([p[0]], p[1..], x);
      SubstCons(values, p[0], p[1..] + x);
      SubstPlain(values, p[1..], x);
      Assoc([p[0]], p[1..], Subst(values, x));
    }
  }

  lemma SubstGroup(values: map<string, string>, b: string, x: string)
    requires BraceFree(b)
    ensures Subst(values, Placeholder(Single, b) + x) ==
            (if b in values then values[b] else Placeholder(Single, b)) + Subst(values, x)
  {
    hide Subst;
    var tail := b + "}" + x;
    assert Placeholder(Single, b) + x == ['{'] + tail;
    WordAt(b, x);
    SubstCons(values, '{', tail);
    if b in values {
      assert tail[|b| + 1..] == x;
    } else {
      SubstPlain(values, b + "}", x);
      assert ['{'] + (b + "}" + Subst(values, x)) == Placeholder(Single, b) + Subst(values, x);
    }
  }

  // ---------------------------------------------------------------- one key at a time

  /** Substituting `v` for `k` brings no key of `values` into being. */
  predicate NoNewKey(values: map<string, string>, k: string, v: string, s: string) {
    s == "" ||
    (&& (s[0] == '{' && !Closes(s[1..]) ==> !KeyAhead(values, Subst(map[k := v], s[1..])))
     && NoNewKey(values, k, v, s[1..]))
  }

  lemma {:induction false} NoNewKeyDrop(values: map<string, string>, k: string, v: string, s: string, n: nat)
    requires NoNewKey(values, k, v, s) && n <= |s|
    ensures NoNewKey(values, k, v, s[n..])
  {
    if n > 0 {
      NoNewKeyDrop(values, k, v, s[1..], n - 1);
      assert s[1..][n - 1..] == s[n..];
    } else {
      assert s[0..] == s;
    }
  }

  /** Substituting one key first and the others after it is substituting all of them at once. */
  lemma {:induction false} KeyByKey(values: map<string, string>, k: string, v: string, s: string)
    requires BraceFree(v) && k !in values && NoNewKey(values, k, v, s)
    ensures Subst(values, Subst(map[k := v], s)) == Subst(values[k := v], s)
    decreases |s|
  {
    hide Subst, NoNewKey;
    var one, all := map[k := v], values[k := v];
    if s == "" {
      SubstEmpty(one); SubstEmpty(values); SubstEmpty(all);
    } else if s[0] == '{' && Closes(s[1..]) {
      var b, rest := Group(s);
      NoNewKeyDrop(values, k, v, s, |b| + 2);
      KeyByKey(values, k, v, rest);
      SubstGroup(one, b, rest);
      SubstGroup(all, b, rest);
      if b == k {
        SubstPlain(values, v, Subst(one, rest));
      } else {
        SubstGroup(values, b, Subst(one, rest));
      }
    } else {
      if s[0] == '{' { NoNewKeyHere(values, k, v, s); }
      NoNewKeyDrop(values, k, v, s, 1);
      KeyByKey(values, k, v, s[1..]);
      assert s == [s[0]] + s[1..];
      SubstCons(one, s[0], s[1..]);
      SubstCons(all, s[0], s[1..]);
      SubstCons(values, s[0], Subst(one, s[1..]));
    }
  }

  lemma SubstEmpty(values: map<string, string>)
    ensures Subst(values, "") == ""
  {
  }

  lemma NoNewKeyHere(values: map<string, string>, k: string, v: string, s: string)
    requires s != "" && s[0] == '{' && !Closes(s[1..]) && NoNewKey(values, k, v, s)
    ensures !KeyAhead(values, Subst(map[k := v], s[1..]))
  {
  }

  // ---------------------------------------------------------------- flat templates

  lemma {:induction false} ClosesClosesOver(s: string)
    requires Closes(s)
    ensures ClosesOver(s)
  {
    if s[0] == '}' {
    } else {
      ClosesClosesOver(s[1..]);
    }
  }

  lemma {:induction false} PlainFront(p: string, x: string)
    requires BraceFree(p)
    ensures ClosesOver(p + x) == ClosesOver(x) && Flat(p + x) == Flat(x)
  {
    if p == "" {
      assert p + x == x;
    } else {
      assert (p + x)[0] == p[0] && (p + x)[1..] == p[1..] + x;
      PlainFront(p[1..], x);
    }
  }

  lemma GroupFront(b: string, x: string)
    requires BraceFree(b)
    ensures ClosesOver(Placeholder(Single, b) + x) == ClosesOver(x) && Flat(Placeholder(Single, b) + x) == Flat(x)
  {
    var s := Placeholder(Single, b) + x;
    assert s[0] == '{' && s[1..] == b + "}" + x == b + ("}" + x);
    WordAt(b, x);
    assert (b + "}" + x)[|b| + 1..] == x;
    PlainFront(b, "}" + x);
    assert ("}" + x)[1..] == x;
  }

  /** Substituting brace-free text in a flat template leaves it flat. */
  lemma {:induction false} FlatStaysFlat(k: string, v: string, s: string)
    requires BraceFree(v) && Flat(s)
    ensures Flat(Subst(map[k := v], s)) && ClosesOver(Subst(map[k := v], s)) == ClosesOver(s)
    decreases |s|
  {
    hide Subst;
    var one := map[k := v];
    if s == "" {
      SubstEmpty(one);
    } else if s[0] == '{' && Closes(s[1..]) {
      var b, rest := Group(s);
      GroupFront(b, rest);
      FlatStaysFlat(k, v, rest);
      SubstGroup(one, b, rest);
      if b == k { PlainFront(v, Subst(one, rest)); } else { GroupFront(b, Subst(one, rest)); }
    } else {
      FlatStaysFlat(k, v, s[1..]);
      assert s == [s[0]] + s[1..];
      SubstCons(one, s[0], s[1..]);
      var t := Subst(one, s);
      assert t[0] == s[0] && t[1..] == Subst(one, s[1..]);
      if Closes(t[1..]) { ClosesClosesOver(t[1..]); }
    }
  }

  lemma {:induction false} FlatMakesNoKey(values: map<string, string>, k: string, v: string, s: string)
    requires BraceFree(v) && Flat(s)
    ensures NoNewKey(values, k, v, s)
  {
    hide Subst, Word;
    if s == "" {
    } else {
      FlatMakesNoKey(values, k, v, s[1..]);
      FlatStaysFlat(k, v, s[1..]);
      var t := Subst(map[k := v], s[1..]);
      if Closes(t) { ClosesClosesOver(t); }
    }
  }

  /** Keys and values that hold no brace. */
  predicate BraceFreeMap(values: map<string, string>) {
    forall k :: k in values ==> BraceFree(k) && BraceFree(values[k])
  }

  lemma {:induction false} SequentialIsSubst(order: seq<string>, values: map<string, string>,
                                              sub: map<string, string>, url: string)
    requires BraceFreeMap(sub) && Enumerates(order, sub.Keys) && Restricts(order, values, sub) && Flat(url)
    ensures Sequential(order, values, url) == Subst(sub, url)
    decreases |order|
  {
    hide Subst, Flat, NoNewKey, Enumerates;
    if order == [] {
      SubstNothing(url);
    } else {
      var k, v, rest := FirstKey(order, values, sub);
      FlatStaysFlat(k, v, url);
      SequentialIsSubst(order[1..], values, rest, Subst(map[k := v], url));
      FlatMakesNoKey(rest, k, v, url);
      SequentialStep(order, values, sub, url, k, v, rest);
    }
  }

  lemma SequentialStep(order: seq<string>, values: map<string, string>, sub: map<string, string>, url: string,
                       k: string, v: string, rest: map<string, string>)
    requires order != [] && (forall x :: x in order ==> x in values) && k == order[0] && v == values[k]
    requires BraceFree(k) && BraceFree(v) && k !in rest && rest[k := v] == sub && NoNewKey(rest, k, v, url)
    requires Sequential(order[1..], values, Subst(map[k := v], url)) == Subst(rest, Subst(map[k := v], url))
    ensures Sequential(order, values, url) == Subst(sub, url)
  {
    hide Subst, NoNewKey;
    ReplaceOne(k, v, url);
    KeyByKey(rest, k, v, url);
  }

  lemma FirstKey(order: seq<string>, values: map<string, string>, sub: map<string, string>)
    returns (k: string, v: string, rest: map<string, string>)
    requires order != [] && BraceFreeMap(sub) && Enumerates(order, sub.Keys) && Restricts(order, values, sub)
    ensures k == order[0] && k in values && v == values[k] && rest == sub - {k}
    ensures BraceFree(k) && BraceFree(v) && k !in rest && rest[k := v] == sub && BraceFreeMap(rest)
    ensures Enumerates(order[1..], rest.Keys) && Restricts(order[1..], values, rest)
  {
    hide Enumerates, BraceFree;
    k := order[0];
    assert k in order && k in sub && sub[k] == values[k];
    v, rest := values[k], sub - {k};
    assert rest[k := v] == sub;
    EnumeratesTail(order, sub.Keys);
    assert rest.Keys == sub.Keys - {k};
  }

  lemma {:induction false} SubstNothing(s: string)
    ensures forall sub: map<string, string> :: sub.Keys == {} ==> Subst(sub, s) == s
  {
    forall sub: map<string, string> | sub.Keys == {} ensures Subst(sub, s) == s {
      if s != "" {
        SubstNothing(s[1..]);
        assert s == [s[0]] + s[1..];
      }
    }
  }

  /** For a flat template with brace-free keys and values, every iteration order of the map gives the
      simultaneous substitution. */
  lemma SequentialIsSimultaneous(order: seq<string>, other: seq<string>, values: map<string, string>, url: string)
    requires BraceFreeMap(values) && Enumerates(order, values.Keys) && Enumerates(other, values.Keys) && Flat(url)
    ensures Sequential(order, values, url) == Simultaneous(other, values, url)
  {
    hide Subst, Flat, Enumerates, Sequential;
    SequentialIsSubst(order, values, values, url);
    ReplaceIsSubst(other, values, values, url);
  }

  // ---------------------------------------------------------------- templates that are not flat

  /** The words of the innermost groups. */
  function Groups(s: string): (words: set<string>)
    ensures forall w :: w in words ==> BraceFree(w) && |w| < |s|
  {
    if s == "" then {}
    else (if s[0] == '{' && Closes(s[1..]) then {Word(s[1..])} else {}) + Groups(s[1..])
  }

  lemma {:induction false} GroupsDrop(s: string, n: nat)
    requires n <= |s|
    ensures Groups(s[n..]) <= Groups(s)
  {
    if n > 0 {
      GroupsDrop(s[1..], n - 1);
      assert s[1..][n - 1..] == s[n..];
    } else {
      assert s[0..] == s;
    }
  }

  /** Long values replace at least the groups of `s`. */
  predicate Covers(values: map<string, string>, s: string, n: nat) {
    && Groups(s) <= values.Keys
    && forall k :: k in values ==> '{' !in values[k] && '}' !in values[k] && |values[k]| >= n
  }

  lemma CoversDrop(values: map<string, string>, s: string, n: nat, i: nat)
    requires Covers(values, s, n) && i <= |s|
    ensures Covers(values, s[i..], n)
  {
    hide Groups;
    GroupsDrop(s, i);
  }

  lemma CoveredGroup(values: map<string, string>, s: string, n: nat)
    requires Covers(values, s, n) && s != "" && s[0] == '{' && Closes(s[1..])
    ensures var b := Word(s[1..]); b in values && BraceFree(values[b]) && |values[b]| >= n
  {
    hide Closes, Word;
    assert Word(s[1..]) in Groups(s);
  }

  lemma ClosesOverUnfold(s: string)
    requires ClosesOver(s)
    ensures s != ""
    ensures s[0] == '{' ==> Closes(s[1..]) && ClosesOver(s[|Word(s[1..])| + 2..])
    ensures s[0] != '{' && s[0] != '}' ==> ClosesOver(s[1..])
    ensures Closes(s) <==> s[0] == '}' || (s[0] != '{' && Closes(s[1..]))
  {
    hide Word;
    if s[0] == '{' { assert s[1..][|Word(s[1..])| + 1..] == s[|Word(s[1..])| + 2..]; }
  }

  /** Where a pair encloses groups, replacing all of them makes a new word, and a long one. */
  lemma {:induction false} WordComesIntoBeing(values: map<string, string>, s: string, n: nat)
    requires Covers(values, s, n) && ClosesOver(s)
    ensures Closes(Subst(values, s))
    ensures !Closes(s) ==> |Word(Subst(values, s))| >= n
    decreases |s|
  {
    hide Subst, Closes, ClosesOver, Covers, Word;
    ClosesOverUnfold(s);
    if s[0] == '{' {
      var b, rest := Group(s);
      CoversDrop(values, s, n, |b| + 2);
      WordComesIntoBeing(values, rest, n);
      SubstGroup(values, b, rest);
      CoveredGroup(values, s, n);
      WordBehind(values[b], Subst(values, rest));
    } else {
      var x := Subst(values, s[1..]);
      assert s == [s[0]] + s[1..];
      SubstCons(values, s[0], s[1..]);
      WordCons(s[0], x);
      if s[0] != '}' {
        CoversDrop(values, s, n, 1);
        WordComesIntoBeing(values, s[1..], n);
      }
    }
  }

  lemma WordCons(c: char, x: string)
    ensures Closes([c] + x) <==> c == '}' || (c != '{' && Closes(x))
    ensures Closes([c] + x) ==> Word([c] + x) == if c == '}' then "" else [c] + Word(x)
  {
    assert ([c] + x)[0] == c && ([c] + x)[1..] == x;
  }

  lemma {:induction false} WordBehind(p: string, x: string)
    requires BraceFree(p)
    ensures Closes(p + x) == Closes(x)
    ensures Closes(x) ==> Word(p + x) == p + Word(x)
  {
    hide Closes, Word;
    if p == "" {
      assert p + x == x;
      if Closes(x) { assert p + Word(x) == Word(x); }
    } else {
      assert p == [p[0]] + p[1..];
      Assoc([p[0]], p[1..], x);
      WordBehind(p[1..], x);
      WordCons(p[0], p[1..] + x);
      if Closes(x) { Assoc([p[0]], p[1..], Word(x)); }
    }
  }

  /** The place of a pair that encloses another. */
  lemma {:induction false} EnclosingPair(s: string) returns (i: nat)
    requires !Flat(s)
    ensures i < |s| && s[i] == '{' && ClosesOver(s[i + 1..]) && !Closes(s[i + 1..])
  {
    if s[0] == '{' && ClosesOver(s[1..]) && !Closes(s[1..]) {
      i := 0;
    } else {
      var j := EnclosingPair(s[1..]);
      i := j + 1;
      assert s[1..][j + 1..] == s[i + 1..];
    }
  }

  /** No group straddles an opening brace. */
  lemma {:induction false} SubstSplits(values: map<string, string>, p: string, q: string)
    requires q != "" && q[0] == '{'
    ensures Subst(values, p + q) == Subst(values, p) + Subst(values, q)
    decreases |p|
  {
    hide Subst;
    if p == "" {
      SubstEmpty(values);
      assert p + q == q && "" + Subst(values, q) == Subst(values, q);
    } else if p[0] == '{' && Closes(p[1..]) {
      var b, rest := Group(p);
      SubstSplits(values, rest, q);
      Assoc(Placeholder(Single, b), rest, q);
      SubstGroup(values, b, rest);
      SubstGroup(values, b, rest + q);
      Assoc(if b in values then values[b] else Placeholder(Single, b), Subst(values, rest), Subst(values, q));
    } else {
      assert p == [p[0]] + p[1..];
      Assoc([p[0]], p[1..], q);
      StaysOpen(p[1..], q);
      SubstCons(values, p[0], p[1..]);
      SubstCons(values, p[0], p[1..] + q);
      SubstSplits(values, p[1..], q);
      Assoc([p[0]], Subst(values, p[1..]), Subst(values, q));
    }
  }

  lemma {:induction false} StaysOpen(p: string, q: string)
    requires q != "" && q[0] == '{'
    ensures Closes(p + q) == Closes(p)
  {
    if p == "" {
      assert p + q == q;
    } else {
      assert (p + q)[0] == p[0] && (p + q)[1..] == p[1..] + q;
      StaysOpen(p[1..], q);
    }
  }

  /** A key longer than the template is not in it. */
  lemma {:induction false} LongKeyUnused(values: map<string, string>, w: string, v: string, s: string)
    requires |w| >= |s|
    ensures Subst(values[w := v], s) == Subst(values, s)
    decreases |s|
  {
    if s == "" {
    } else {
      if s[0] == '{' && KeyAhead(values, s[1..]) {
        LongKeyUnused(values, w, v, s[1..][|Word(s[1..])| + 1..]);
      } else {
        LongKeyUnused(values, w, v, s[1..]);
      }
    }
  }

  /** Values longer than every key: what they make new is no key. */
  lemma {:induction false} LongValueMakesNoKey(values: map<string, string>, k: string, v: string, s: string)
    requires BraceFree(v) && forall x :: x in values ==> |x| < |v|
    ensures NoNewKey(values, k, v, s)
  {
    hide Subst, Word;
    if s == "" {
    } else {
      LongValueMakesNoKey(values, k, v, s[1..]);
      if !Closes(s[1..]) { NewWordIsLong(k, v, s[1..]); }
    }
  }

  lemma {:induction false} NewWordIsLong(k: string, v: string, s: string)
    requires BraceFree(v) && !Closes(s)
    ensures var t := Subst(map[k := v], s); Closes(t) ==> |Word(t)| >= |v|
    decreases |s|
  {
    hide Subst;
    var one := map[k := v];
    if s == "" {
      SubstEmpty(one);
    } else if s[0] == '{' && Closes(s[1..]) {
      var b, rest := Group(s);
      SubstGroup(one, b, rest);
      if b == k {
        WordBehind(v, Subst(one, rest));
      }
    } else {
      assert s == [s[0]] + s[1..];
      SubstCons(one, s[0], s[1..]);
      var t := Subst(one, s);
      assert t[0] == s[0] && t[1..] == Subst(one, s[1..]);
      if s[0] != '{' { NewWordIsLong(k, v, s[1..]); }
    }
  }

  lemma {:induction false} LongSequential(order: seq<string>, values: map<string, string>, sub: map<string, string>,
      url: string, n: nat)
    requires BraceFreeMap(sub) && Enumerates(order, sub.Keys) && Restricts(order, values, sub)
    requires forall k :: k in sub ==> |k| < n && |sub[k]| == n
    ensures Sequential(order, values, url) == Subst(sub, url)
    decreases |order|
  {
    hide Subst, NoNewKey, Enumerates;
    if order == [] {
      SubstNothing(url);
    } else {
      var k, v, rest := FirstKey(order, values, sub);
      LongSequential(order[1..], values, rest, Subst(map[k := v], url), n);
      LongValueMakesNoKey(rest, k, v, url);
      SequentialStep(order, values, sub, url, k, v, rest);
    }
  }

  lemma {:induction false} DroppingShrinks(w: string, s: string)
    ensures |Subst(map[w := ""], s)| <= |s|
    decreases |s|
  {
    if s == "" {
    } else {
      if s[0] == '{' && KeyAhead(map[w := ""], s[1..]) {
        DroppingShrinks(w, s[1..][|Word(s[1..])| + 1..]);
      } else {
        DroppingShrinks(w, s[1..]);
      }
    }
  }

  lemma DroppingShrinksMore(w: string, p: string, r: string)
    requires BraceFree(w)
    ensures |Subst(map[w := ""], p + (Placeholder(Single, w) + r))| < |p + (Placeholder(Single, w) + r)|
  {
    hide Subst;
    SubstSplits(map[w := ""], p, Placeholder(Single, w) + r);
    SubstGroup(map[w := ""], w, r);
    DroppingShrinks(w, p);
    DroppingShrinks(w, r);
  }

  lemma WordStands(base: map<string, string>, p: string, tail: string) returns (w: string, r: string)
    requires !Closes(tail) && Closes(Subst(base, tail))
    ensures w == Word(Subst(base, tail)) && BraceFree(w)
    ensures Subst(base, p + (['{'] + tail)) == Subst(base, p) + (Placeholder(Single, w) + r)
  {
    hide Subst, Closes, Word;
    var t := Subst(base, tail);
    w := Word(t);
    r := t[|w| + 1..];
    SubstSplits(base, p, ['{'] + tail);
    SubstCons(base, '{', tail);
    assert ['{'] + (w + "}" + r) == Placeholder(Single, w) + r;
  }

  /** All innermost groups of `url` become a text as long as the template; where a pair encloses some
      of them, a new word `w` stands afterwards. */
  lemma NewWord(url: string) returns (base: map<string, string>, w: string, p: string, r: string)
    requires !Flat(url)
    ensures BraceFreeMap(base) && (forall k :: k in base ==> |k| < |url| && |base[k]| == |url|)
    ensures BraceFree(w) && |w| >= |url| && Subst(base, url) == p + (Placeholder(Single, w) + r)
  {
    hide Subst, Flat, Closes, ClosesOver, Word, Groups, Covers, BraceFreeMap, Placeholder;
    base := LongMap(url);
    var i := EnclosingPair(url);
    var tail := url[i + 1..];
    CoversDrop(base, url, |url|, i + 1);
    WordComesIntoBeing(base, tail, |url|);
    assert url == url[..i] + (['{'] + tail);
    p := Subst(base, url[..i]);
    w, r := WordStands(base, url[..i], tail);
  }

  lemma LongMap(url: string) returns (values: map<string, string>)
    ensures BraceFreeMap(values) && Covers(values, url, |url|)
    ensures forall k :: k in values ==> |k| < |url| && |values[k]| == |url|
  {
    hide Groups;
    var long := seq(|url|, _ => 'x');
    assert '{' !in long && '}' !in long;
    values := map w | w in Groups(url) :: long;
  }

  lemma NotFlatDiffers(url: string) returns (values: map<string, string>, order: seq<string>)
    requires !Flat(url)
    ensures BraceFreeMap(values) && Enumerates(order, values.Keys)
    ensures Sequential(order, values, url) != Simultaneous(order, values, url)
  {
    hide Subst, Flat, Enumerates, Sequential;
    var base, w, p, r := NewWord(url);
    var first := SomeOrder(base.Keys);
    values, order := base[w := ""], first + [w];
    EnumeratesCons(w, first, base.Keys);
    assert values.Keys == base.Keys + {w};
    LongSequential(first, values, base, url, |url|);
    SequentialSnoc(first, w, values, url);
    ReplaceOne(w, "", Subst(base, url));
    DroppingShrinksMore(w, p, r);
    ReplaceIsSubst(order, values, values, url);
    LongKeyUnused(base, w, "", url);
  }

  /** For all brace-free maps and all their orders, key after key is all at once. */
  ghost predicate SubstitutesAtOnce(url: string) {
    forall order, other, values ::
      BraceFreeMap(values) && Enumerates(order, values.Keys) && Enumerates(other, values.Keys) ==>
        Sequential(order, values, url) == Simultaneous(other, values, url)
  }

  /** With brace-free keys and values, replacing one key after the other is the simultaneous
      substitution for all maps and all iteration orders exactly when the template is flat. */
  lemma SequentialIsSimultaneousIffFlat(url: string)
    ensures SubstitutesAtOnce(url) <==> Flat(url)
  {
    hide Flat, Enumerates, Sequential, Simultaneous, BraceFreeMap;
    if Flat(url) {
      forall order, other, values |
        BraceFreeMap(values) && Enumerates(order, values.Keys) && Enumerates(other, values.Keys)
        ensures Sequential(order, values, url) == Simultaneous(other, values, url)
      {
        SequentialIsSimultaneous(order, other, values, url);
      }
    } else {
      var values, order := NotFlatDiffers(url);
    }
  }

  // ---------------------------------------------------------------- query parameters

  /** Each entry with a `&` behind it. */
  function Terminated(entries: seq<string>): string {
    if entries == [] then "" else entries[0] + "&" + Terminated(entries[1..])
  }

  lemma {:induction false} TerminatedSnoc(entries: seq<string>, e: string)
    ensures Terminated(entries + [e]) == Terminated(entries) + (e + "&")
  {
    var longer := entries + [e];
    if entries == [] {
      assert longer[1..] == [] && longer[0] == e;
      assert e + "&" + "" == e + "&" && "" + (e + "&") == e + "&";
    } else {
      assert longer[0] == entries[0] && longer[1..] == entries[1..] + [e];
      TerminatedSnoc(entries[1..], e);
      Assoc(entries[0] + "&", Terminated(entries[1..]), e + "&");
    }
  }

  /** The entries joined by `&`. */
  function Joined(entries: seq<string>): string {
    if entries == [] then ""
    else if |entries| == 1 then entries[0]
    else entries[0] + "&" + Joined(entries[1..])
  }

  lemma {:induction false} TerminatedIsJoined(entries: seq<string>)
    requires entries != []
    ensures Terminated(entries) == Joined(entries) + "&"
  {
    if |entries| == 1 {
      assert entries[1..] == [];
      assert Terminated(entries) == entries[0] + "&" + "" == entries[0] + "&";
    } else {
      TerminatedIsJoined(entries[1..]);
      Assoc(entries[0] + "&", Joined(entries[1..]), "&");
    }
  }

  /** The URL with its query parameters. */
  function WithParams(url: string, order: seq<string>, params: map<string, string>): string
    requires forall k :: k in order ==> k in params
  {
    if order == [] then if '?' in url then url else url + "?"
    else url + (if '?' in url then "&" else "?") + Joined(Assignments(order, params))
  }

  /** No parameter leaves a lone `?`, or nothing behind a query; one is written behind `?` or `&`. */
  lemma FewParams(url: string, k: string, v: string)
    ensures WithParams(url, [], map[]) == url + if '?' in url then "" else "?"
    ensures WithParams(url, [k], map[k := v]) == url + (if '?' in url then "&" else "?") + (k + "=" + v)
  {
    assert url + "" == url && [k][1..] == [];
    assert Assignments([k], map[k := v]) == [k + "=" + v];
  }

  /** The template with its path parameters, for some iteration order of them. */
  ghost predicate PathOf(path: string, template: string, params: Option<map<string, string>>) {
    if params.None? then path == template
    else exists order :: Enumerates(order, params.value.Keys) && path == Sequential(order, params.value, template)
  }

  /** `buildUrl`. Java picks the iteration orders of the two maps. */
  method BuildUrl(template: string, pathParams: Option<map<string, string>>, queryParams: Option<map<string, string>>)
    returns (url: string)
    ensures queryParams.None? ==> PathOf(url, template, pathParams)
    ensures queryParams.Some? ==>
              exists path, order :: PathOf(path, template, pathParams) && Enumerates(order, queryParams.value.Keys)
                                    && url == WithParams(path, order, queryParams.value)
  {
    hide Enumerates, Sequential, WithParams;
    url := template;
    if pathParams.Some? { url := ReplacePathParams(template, pathParams.value); }
    assert PathOf(url, template, pathParams);
    if queryParams.Some? { url := AppendQueryParams(url, queryParams.value); }
  }

  /** The loop over the path parameters. On a flat template with brace-free entries it is the
      simultaneous substitution, whatever the order. */
  method ReplacePathParams(template: string, params: map<string, string>) returns (url: string)
    ensures exists order :: Enumerates(order, params.Keys) && url == Sequential(order, params, template)
    ensures BraceFreeMap(params) && Flat(template) ==>
              forall other :: Enumerates(other, params.Keys) ==> url == Simultaneous(other, params, template)
  {
    hide *;
    url := template;
    ghost var order := [];
    var rest := params.Keys;
    NothingReplaced(params, template);
    while rest != {}
      invariant rest <= params.Keys
      invariant Enumerates(order, params.Keys - rest)
      invariant url == Sequential(order, params, template)
    {
      var k :| k in rest;
      SequentialSnoc(order, k, params, template);
      EnumeratesNext(k, order, rest, params.Keys);
      OneRule(k, params[k]);
      url := Replace([PathRule(k, params[k])], url);
      order := order + [k];
      rest := rest - {k};
    }
    assert params.Keys - rest == params.Keys;
    if BraceFreeMap(params) && Flat(template) { EveryOrder(order, params, template); }
  }

  lemma EveryOrder(order: seq<string>, values: map<string, string>, url: string)
    requires BraceFreeMap(values) && Enumerates(order, values.Keys) && Flat(url)
    ensures forall other :: Enumerates(other, values.Keys) ==>
                              Sequential(order, values, url) == Simultaneous(other, values, url)
  {
    hide Flat, Sequential, Simultaneous, BraceFreeMap, Enumerates;
    forall other | Enumerates(other, values.Keys)
      ensures Sequential(order, values, url) == Simultaneous(other, values, url)
    {
      SequentialIsSimultaneous(order, other, values, url);
    }
  }

  lemma OneRule(k: string, v: string)
    ensures Usable([PathRule(k, v)])
  {
  }

  lemma NothingReplaced(values: map<string, string>, url: string)
    ensures Sequential([], values, url) == url
    ensures Enumerates([], values.Keys - values.Keys)
  {
    assert values.Keys - values.Keys == {};
  }

  /** The `StringBuilder` part: every entry is written with a `&` behind it, and the last `&` is cut
      off again. */
  method AppendQueryParams(path: string, params: map<string, string>) returns (url: string)
    ensures exists order :: Enumerates(order, params.Keys) && url == WithParams(path, order, params)
  {
    hide Joined, WithParams;
    url := path + (if '?' in path then "&" else "?");
    ghost var order, front := [], url;
    assert front + Terminated(Assignments([], params)) == front;
    var rest := params.Keys;
    while rest != {}
      invariant rest <= params.Keys
      invariant Enumerates(order, params.Keys - rest)
      invariant url == front + Terminated(Assignments(order, params))
    {
      hide *;
      var k :| k in rest;
      AssignmentsSnoc(order, k, params);
      TerminatedSnoc(Assignments(order, params), k + "=" + params[k]);
      EnumeratesNext(k, order, rest, params.Keys);
      Assoc(front, Terminated(Assignments(order, params)), k + "=" + params[k] + "&");
      url := url + (k + "=" + params[k] + "&");
      order := order + [k];
      rest := rest - {k};
    }
    assert params.Keys - rest == params.Keys;
    CutLast(front, path, order, params);
    if url[|url| - 1] == '&' { url := url[..|url| - 1]; }
  }

  lemma CutLast(front: string, path: string, order: seq<string>, params: map<string, string>)
    requires (forall k :: k in order ==> k in params) && front == path + (if '?' in path then "&" else "?")
    ensures var url := front + Terminated(Assignments(order, params));
            && url != ""
            && WithParams(path, order, params) == if url[|url| - 1] == '&' then url[..|url| - 1] else url
  {
    var entries := Assignments(order, params);
    var url := front + Terminated(entries);
    if order == [] {
      assert url == front + "" == front;
    } else {
      TerminatedIsJoined(entries);
      assert url == front + (Joined(entries) + "&") == (front + Joined(entries)) + "&";
    }
  }

  lemma {:induction false} SplitIsClean(s: string, sep: char)
    ensures forall part :: part in Split(s, sep) ==> sep !in part
  {
    if s == "" {
    } else {
      SplitIsClean(s[1..], sep);
      var rest := Split(s[1..], sep);
      assert rest[0] in rest && forall part :: part in rest[1..] ==> part in rest;
    }
  }

  lemma {:induction false} SplitJoinedEntries(entries: seq<string>)
    requires entries != [] && forall e :: e in entries ==> '&' !in e
    ensures Split(Joined(entries), '&') == entries
  {
    assert entries[0] in entries;
    SplitWhole(entries[0], '&');
    if |entries| > 1 {
      SplitJoined(entries[0], Joined(entries[1..]), '&');
      SplitJoinedEntries(entries[1..]);
      assert entries == [entries[0]] + entries[1..];
    } else {
      assert entries == [entries[0]];
    }
  }

  lemma {:induction false} PartsComeFromText(s: string, sep: char)
    ensures forall part, c :: part in Split(s, sep) && c in part ==> c in s
  {
    if s == "" {
    } else {
      PartsComeFromText(s[1..], sep);
      var rest := Split(s[1..], sep);
      assert rest[0] in rest && forall part :: part in rest[1..] ==> part in rest;
      assert forall c :: c in s[1..] ==> c in s;
    }
  }

  lemma {:induction false} JoinedChars(entries: seq<string>, c: char)
    requires c in Joined(entries) && c != '&'
    ensures exists e :: e in entries && c in e
  {
    if |entries| == 1 {
      assert entries[0] in entries;
    } else {
      assert entries[0] in entries && forall e :: e in entries[1..] ==> e in entries;
      if c !in entries[0] { JoinedChars(entries[1..], c); }
    }
  }

  /** What a receiver splits out of a query that starts with what `path` has of it. */
  lemma QueryOfParams(path: string, joined: string)
    requires '#' !in path
    ensures QueryOf(path + (if '?' in path then "&" else "?") + joined)
            == (if '?' in path then QueryOf(path) + "&" else "") + Before(joined, '#')
  {
    hide QueryOf, Cut, After;
    var sep := if '?' in path then "&" else "?";
    var kept := Before(joined, '#');
    CutOff(path + sep, joined);
    BeforeIsClean(joined, '#');
    if '?' in path { AppendedQuery(path, kept); } else { FirstQuery(path, kept); }
    assert "" + kept == kept;
  }

  /** A fragment of the appended text hides what follows it. */
  lemma CutOff(front: string, joined: string)
    requires '#' !in front
    ensures QueryOf(front + joined) == QueryOf(front + Before(joined, '#'))
  {
    hide Cut;
    BeforeIsClean(joined, '#');
    CutConcat(front, joined, '#');
    CutConcat(front, Before(joined, '#'), '#');
    CutConcat(Before(joined, '#'), "", '#');
  }

  lemma {:induction false} BeforeIsClean(s: string, sep: char)
    ensures sep !in Before(s, sep) && (sep !in s ==> Before(s, sep) == s)
    ensures forall c :: c in Before(s, sep) ==> c in s
  {
    if s == "" || s[0] == sep {
    } else {
      BeforeIsClean(s[1..], sep);
      assert s == [s[0]] + s[1..];
    }
  }

  /** An entry the receiver can tell apart. */
  predicate PlainEntries(entries: seq<string>) {
    forall e :: e in entries ==> '&' !in e && '#' !in e
  }

  /** Nothing is escaped. So the receiver splits off, behind what the path already had, exactly the
      entries written if and only if the path has no fragment and no entry holds a `&` or a `#`. */
  lemma PiecesArriveIff(path: string, order: seq<string>, params: map<string, string>)
    requires order != [] && forall k :: k in order ==> k in params
    ensures var entries := Assignments(order, params);
            Split(QueryOf(WithParams(path, order, params)), '&')
            == (if '?' in path then Split(QueryOf(path), '&') else []) + entries
            <==> '#' !in path && PlainEntries(entries)
  {
    var entries := Assignments(order, params);
    hide QueryOf, Joined, Before, PlainEntries;
    if '#' in path {
      LostParams(path, order, params);
    } else {
      var kept := Before(Joined(entries), '#');
      QueryOfParams(path, Joined(entries));
      if '?' in path {
        assert QueryOf(path) + "&" + kept == QueryOf(path) + ['&'] + kept;
        SplitJoined(QueryOf(path), kept, '&');
      } else {
        assert "" + kept == kept && [] + entries == entries;
      }
      var had := if '?' in path then Split(QueryOf(path), '&') else [];
      assert Split(QueryOf(WithParams(path, order, params)), '&') == had + Split(kept, '&');
      SameFront(had, Split(kept, '&'), entries);
      KeptSplitsIff(entries);
    }
  }

  lemma KeptSplitsIff(entries: seq<string>)
    requires entries != []
    ensures Split(Before(Joined(entries), '#'), '&') == entries <==> PlainEntries(entries)
  {
    hide Before, Joined;
    var joined := Joined(entries);
    var kept := Before(joined, '#');
    BeforeIsClean(joined, '#');
    if Split(kept, '&') == entries {
      SplitIsClean(kept, '&');
      PartsComeFromText(kept, '&');
    }
    if PlainEntries(entries) {
      if '#' in joined { JoinedChars(entries, '#'); }
      SplitJoinedEntries(entries);
    }
  }

  lemma LostParams(path: string, order: seq<string>, params: map<string, string>)
    requires '#' in path && order != [] && forall k :: k in order ==> k in params
    ensures Split(QueryOf(WithParams(path, order, params)), '&')
            != (if '?' in path then Split(QueryOf(path), '&') else []) + Assignments(order, params)
  {
    hide Joined, Before, After;
    var entries := Assignments(order, params);
    var suffix := (if '?' in path then "&" else "?") + Joined(entries);
    Assoc(path, if '?' in path then "&" else "?", Joined(entries));
    LostBehindFragment(path, suffix);
    if '?' !in path {
      BeforeIsClean(path, '#');
      NothingAfter(Before(path, '#'), '?');
      assert Split("", '&') == [""];
      assert entries[0] == order[0] + "=" + params[order[0]];
      assert ([] + entries)[0] != "";
    }
  }

  lemma NothingAfter(s: string, sep: char)
    requires sep !in s
    ensures After(s, sep) == ""
  {
    hide Cut;
    CutConcat(s, "", sep);
  }

  // ---------------------------------------------------------------- the names and values a receiver decodes

  /** An entry that arrives as it was given. */
  predicate Arrives(k: string, v: string) {
    && '&' !in k && '#' !in k && '=' !in k && Verbatim(k)
    && '&' !in v && '#' !in v && Verbatim(v)
  }

  predicate AllArrive(order: seq<string>, params: map<string, string>)
    requires forall k :: k in order ==> k in params
  {
    order == [] || (Arrives(order[0], params[order[0]]) && AllArrive(order[1..], params))
  }

  /** How a piece is read. */
  function Decoded(piece: string): (string, string) {
    (Unescape(Before(piece, '=')), Unescape(After(piece, '=')))
  }

  /** What a piece says is no longer than it is, its `=` not counted. */
  lemma DecodedIsShort(piece: string)
    ensures |Decoded(piece).0| + |Decoded(piece).1| <= |piece| - if '=' in piece then 1 else 0
  {
    CutSplits(piece, '=');
    hide Cut, Unescape;
    UnescapeShrinks(Before(piece, '='));
    UnescapeShrinks(After(piece, '='));
  }

  lemma DecodedIff(k: string, v: string)
    ensures Decoded(k + "=" + v) == (k, v) <==> '=' !in k && Verbatim(k) && Verbatim(v)
  {
    hide Cut, Unescape, Verbatim;
    var e := k + "=" + v;
    VerbatimIff(k);
    VerbatimIff(v);
    if '=' !in k { CutAt(k, v, '='); }
    if Decoded(e) == (k, v) {
      var a, b := Before(e, '='), After(e, '=');
      CutSplits(e, '=');
      UnescapeShrinks(a);
      UnescapeShrinks(b);
      assert e[|k|] == '=';
      assert |a| == |k|;
      assert a == (a + ['='] + b)[..|a|] == e[..|k|] == k;
    }
  }

  /** The first piece that is not empty. */
  function FirstPiece(q: string): string {
    if q == "" then "" else if q[0] == '&' then FirstPiece(q[1..]) else Before(q, '&')
  }

  lemma {:induction false} SplitHead(s: string, sep: char)
    ensures Split(s, sep)[0] == Before(s, sep)
  {
    if s == "" || s[0] == sep {
    } else {
      SplitHead(s[1..], sep);
    }
  }

  lemma {:induction false} FirstPair(q: string)
    ensures ParseForm(q) != [] ==> FirstPiece(q) != "" && ParseForm(q)[0] == Decoded(FirstPiece(q))
  {
    hide Unescape;
    SplitHead(q, '&');
    if q != "" && q[0] == '&' {
      FirstPair(q[1..]);
      assert Split(q, '&') == [""] + Split(q[1..], '&');
      assert Split(q, '&')[1..] == Split(q[1..], '&');
    }
  }

  /** What a receiver sees of `e`, up to the first `&` or `#`. */
  lemma {:induction false} FrontOf(e: string, y: string) returns (c: nat)
    requires '&' in e || '#' in e
    ensures c < |e| && (e[c] == '&' || e[c] == '#') && Before(Before(e + y, '#'), '&') == e[..c]
  {
    var t := e + y;
    assert t[0] == e[0] && t[1..] == e[1..] + y;
    if e[0] == '&' || e[0] == '#' {
      c := 0;
    } else {
      c := FrontOf(e[1..], y);
      var q := Before(t, '#');
      assert q[0] == e[0] && q[1..] == Before(e[1..] + y, '#');
      assert e[..c + 1] == [e[0]] + e[1..][..c];
      c := c + 1;
    }
  }

  /** An entry that holds a `&` or a `#` is read from a piece that is too short for it. */
  lemma {:induction false} FirstPieceIsShort(e: string, y: string)
    requires '=' in e && ('&' in e || '#' in e) && (y == "" || y[0] == '&')
    ensures var p := FirstPiece(Before(e + y, '#'));
            p == "" || |p| - (if '=' in p then 1 else 0) < |e| - 1
  {
    var q := Before(e + y, '#');
    assert (e + y)[0] == e[0] && (e + y)[1..] == e[1..] + y;
    if e[0] == '&' {
      assert q[0] == '&' && q[1..] == Before(e[1..] + y, '#');
      assert '=' in e[1..];
      if '&' in e[1..] || '#' in e[1..] { FirstPieceIsShort(e[1..], y); } else { WholePiece(e[1..], y); }
    } else if e[0] != '#' {
      assert q[0] == e[0];
      var c := FrontOf(e, y);
      hide Before;
      if c == |e| - 1 { assert '=' in e[..c]; }
    }
  }

  lemma WholePiece(e: string, y: string)
    requires e != "" && '&' !in e && '#' !in e && (y == "" || y[0] == '&')
    ensures FirstPiece(Before(e + y, '#')) == e
  {
    hide Cut;
    CutConcat(e, y, '#');
    var kept := Before(y, '#');
    assert kept == "" || kept[0] == '&' by { BeforeStarts(y); }
    if kept == "" {
      assert e + kept == e;
      CutConcat(e, "", '&');
    } else {
      assert e + kept == e + ['&'] + kept[1..];
      CutAt(e, kept[1..], '&');
    }
    assert (e + kept)[0] == e[0];
  }

  lemma BeforeStarts(y: string)
    requires y == "" || y[0] == '&'
    ensures Before(y, '#') == "" || Before(y, '#')[0] == '&'
  {
  }

  /** The entry at the front is read as given exactly when it arrives; then the rest is read behind it. */
  lemma FrontEntry(k: string, v: string, y: string, rest: string, more: seq<(string, string)>)
    requires y == if rest == "" then "" else "&" + rest
    ensures ParseForm(Before(k + "=" + v + y, '#')) == [(k, v)] + more
            <==> Arrives(k, v) && ParseForm(Before(rest, '#')) == more
  {
    hide Cut, Before, After, ParseForm, Verbatim, Unescape;
    var e := k + "=" + v;
    var q := Before(e + y, '#');
    assert e[|k|] == '=';
    if '&' in e || '#' in e {
      FirstPieceIsShort(e, y);
      FirstPair(q);
      DecodedIsShort(FirstPiece(q));
      assert ([(k, v)] + more)[0] == (k, v);
      assert ParseForm(q) != [(k, v)] + more;
      assert !Arrives(k, v) by { assert forall c :: c in e ==> c in k || c == '=' || c in v; }
    } else {
      assert forall c :: c in k || c in v ==> c in e;
      KeptBehind(e, y, rest);
      ParseOne(e);
      DecodedIff(k, v);
      HeadAndRest(Decoded(e), (k, v), ParseForm(Before(rest, '#')), more);
    }
  }

  lemma HeadAndRest<T>(a: T, b: T, s: seq<T>, t: seq<T>)
    ensures [a] + s == [b] + t <==> a == b && s == t
  {
    assert ([a] + s)[0] == a && ([b] + t)[0] == b && ([a] + s)[1..] == s && ([b] + t)[1..] == t;
  }

  lemma ParseOne(e: string)
    requires e != "" && '&' !in e
    ensures ParseForm(e) == [Decoded(e)]
  {
    hide Cut, Unescape;
    SplitWhole(e, '&');
    assert ParsePieces([e][1..]) == [];
  }

  lemma KeptBehind(e: string, y: string, rest: string)
    requires '#' !in e && y == if rest == "" then "" else "&" + rest
    ensures ParseForm(Before(e + y, '#')) == ParseForm(e) + ParseForm(Before(rest, '#'))
  {
    hide Cut, ParseForm;
    CutConcat(e, y, '#');
    if rest == "" {
      assert Before("", '#') == "" && e + "" == e by { BeforeIsClean("", '#'); }
      ParseNothing();
      assert ParseForm(e) + [] == ParseForm(e);
    } else {
      CutConcat("&", rest, '#');
      Assoc(e, "&", Before(rest, '#'));
      ParseJoined(e, Before(rest, '#'));
    }
  }

  lemma JoinedCons(e: string, rest: seq<string>)
    requires forall x :: x in rest ==> x != ""
    ensures Joined([e] + rest) == e + if Joined(rest) == "" then "" else "&" + Joined(rest)
  {
    var all := [e] + rest;
    assert all[0] == e && all[1..] == rest;
    if rest != [] {
      assert rest[0] in rest;
      Assoc(e, "&", Joined(rest));
    } else {
      assert e + "" == e;
    }
  }

  lemma {:induction false} EntriesNotEmpty(order: seq<string>, params: map<string, string>)
    requires forall k :: k in order ==> k in params
    ensures forall e :: e in Assignments(order, params) ==> e != ""
  {
    if order == [] {
    } else {
      EntriesNotEmpty(order[1..], params);
    }
  }

  lemma {:induction false} FormArrivesIff(order: seq<string>, params: map<string, string>)
    requires forall k :: k in order ==> k in params
    ensures ParseForm(Before(Joined(Assignments(order, params)), '#')) == Pairs(order, params)
            <==> AllArrive(order, params)
  {
    hide Before, ParseForm, Joined, Arrives;
    if order == [] {
      assert Joined([]) == "" by { JoinedNone(); }
      BeforeIsClean("", '#');
      ParseNothing();
    } else {
      var k, v := order[0], params[order[0]];
      var rest := Assignments(order[1..], params);
      EntriesNotEmpty(order[1..], params);
      JoinedCons(k + "=" + v, rest);
      FrontEntry(k, v, if Joined(rest) == "" then "" else "&" + Joined(rest), Joined(rest), Pairs(order[1..], params));
      FormArrivesIff(order[1..], params);
    }
  }

  lemma JoinedNone()
    ensures Joined([]) == ""
  {
  }

  /** Nothing is escaped. So the receiver decodes, behind what the path already had, exactly the names
      and values given if and only if there are none, or the path has no fragment and no name or value
      holds a `&`, a `#`, a `+` or a `%` with two hex digits, nor a name a `=`. */
  lemma ParamsArriveIff(path: string, order: seq<string>, params: map<string, string>)
    requires forall k :: k in order ==> k in params
    ensures ParseForm(QueryOf(WithParams(path, order, params))) == ParseForm(QueryOf(path)) + Pairs(order, params)
            <==> order == [] || ('#' !in path && AllArrive(order, params))
  {
    hide QueryOf, Joined, Before, ParseForm, AllArrive;
    var had := ParseForm(QueryOf(path));
    if order == [] {
      NoParams(path);
      assert had + [] == had;
    } else if '#' in path {
      var sep := if '?' in path then "&" else "?";
      Assoc(path, sep, Joined(Assignments(order, params)));
      LostBehindFragment(path, sep + Joined(Assignments(order, params)));
      assert |Pairs(order, params)| > 0;
    } else {
      var kept := Before(Joined(Assignments(order, params)), '#');
      QueryOfParams(path, Joined(Assignments(order, params)));
      if '?' in path {
        ParseJoined(QueryOf(path), kept);
      } else {
        FirstQuery(path, "");
        ParseNothing();
        assert "" + kept == kept && [] + ParseForm(kept) == ParseForm(kept);
      }
      SameFront(had, ParseForm(kept), Pairs(order, params));
      FormArrivesIff(order, params);
    }
  }

  lemma NoParams(path: string)
    ensures QueryOf(if '?' in path then path else path + "?") == QueryOf(path)
  {
    hide QueryOf;
    if '?' !in path {
      if '#' in path {
        LostBehindFragment(path, "?");
      } else {
        FirstQuery(path, "");
        assert path + "?" + "" == path + "?";
      }
    }
  }

  // ---------------------------------------------------------------- an instance that fails

  lemma {:induction false} NeverCloses(a: string)
    requires BraceFree(a)
    ensures !Closes(a)
  {
    if a == "" {
    } else {
      NeverCloses(a[1..]);
    }
  }

  lemma NestedSubst(values: map<string, string>, a: string, k: string)
    requires BraceFree(a) && BraceFree(k) && k in values
    ensures Subst(values, "{" + (a + (Placeholder(Single, k) + "}"))) == Placeholder(Single, a + values[k])
  {
    var q := Placeholder(Single, k) + "}";
    assert q[0] == '{';
    NeverCloses(a);
    JoinBraced(a, values[k]);
    assert "}" + "" == "}" && '{' !in "}" && '{' !in a;
    hide *;
    StaysOpen(a, q);
    SubstCons(values, '{', a + q);
    SubstPlain(values, a, q);
    SubstGroup(values, k, "}");
    SubstPlain(values, "}", "");
    SubstEmpty(values);
  }

  lemma JoinBraced(a: string, v: string)
    ensures "{" + (a + (v + "}")) == Placeholder(Single, a + v)
  {
  }

  lemma SequentialTwo(k: string, l: string, values: map<string, string>, url: string)
    requires k in values && l in values
    ensures Sequential([k, l], values, url) == Replace([PathRule(l, values[l])], Replace([PathRule(k, values[k])], url))
  {
    hide Replace, PathRule;
    assert [k, l] == [k] + [l] && [k] == [] + [k];
    SequentialSnoc([k], l, values, url);
    SequentialSnoc([], k, values, url);
    NothingReplaced(values, url);
  }

  /** In a nested template `{a{k}}` the value of `k` completes another name, and what stands for that
      name is put in its place; the simultaneous substitution leaves it alone. */
  lemma NestedExpands(a: string, k: string, v: string, x: string)
    requires BraceFree(a) && BraceFree(k) && BraceFree(v) && k != a + v
    ensures var order, values, url := [k, a + v], map[k := v, a + v := x], "{" + (a + (Placeholder(Single, k) + "}"));
            && Sequential(order, values, url) == x
            && Simultaneous(order, values, url) == Placeholder(Single, a + v)
  {
    var l, values, url := a + v, map[k := v, a + v := x], "{" + (a + (Placeholder(Single, k) + "}"));
    hide Subst, Replace, Placeholder, PathRules, Sequential;
    SequentialTwo(k, l, values, url);
    ReplaceOne(k, v, url);
    NestedSubst(map[k := v], a, k);
    ReplaceOne(l, x, Placeholder(Single, l));
    SubstGroup(map[l := x], l, "");
    SubstEmpty(map[l := x]);
    assert Placeholder(Single, l) + "" == Placeholder(Single, l) && x + "" == x;
    ReplaceIsSubst([k, l], values, values, url);
    NestedSubst(values, a, k);
  }

  /** `{a{k}}` with `k` = `b` and `ab` = `!`. */
  lemma NestedTemplateExample()
    ensures var order, values := ["k", "ab"], map["k" := "b", "ab" := "!"];
            Sequential(order, values, "{a{k}}") == "!" && Simultaneous(order, values, "{a{k}}") == "{ab}"
  {
    assert Placeholder(Single, "k") == "{k}" && Placeholder(Single, "ab") == "{ab}" && "a" + "b" == "ab";
    assert "{" + ("a" + ("{k}" + "}")) == "{a{k}}";
    hide *;
    NestedExpands("a", "k", "b", "!");
  }
}

/** Path parameters whose values hold braces (`buildUrl` of `HttpToolExecutor.java`, lines 135-140): the
    loop reads what earlier entries inserted, so a value can bring the placeholder of another entry into
    being. This module says exactly when no value does. */
module JavaValues {
  import opened Strings
  import opened Replacer
  import opened Template
  import opened JavaUrl

  // ---------------------------------------------------------------- when a value is harmless

  /** `{w}`. */
  function Braced(w: string): (p: string)
    ensures |p| == |w| + 2 && p[0] == '{' && p[|p| - 1] == '}' && p == Placeholder(Single, w)
    ensures p[1..] == w + "}"
  {
    Placeholder(Single, w)
  }

  /** No `{w}` lies in the text or begins in it. */
  predicate NoneBegins(v: string, w: string) {
    v == "" || (!(Braced(w) <= v) && !(v <= Braced(w)) && NoneBegins(v[1..], w))
  }

  /** No `{w}` ends in the text. */
  predicate NoneEnds(v: string, w: string) {
    forall n :: 0 <= n < |Braced(w)| ==> !(Braced(w)[n..] <= v)
  }

  /** Wherever the text stands, it has no part in a `{w}`. */
  predicate Harmless(v: string, w: string) {
    NoneBegins(v, w) && NoneEnds(v, w)
  }

  /** No value has a part in the placeholder of another entry, unless that entry stands for its own
      placeholder. */
  predicate HarmlessValues(values: map<string, string>) {
    forall k, w :: k in values && w in values && k != w ==> values[w] == Braced(w) || Harmless(values[k], w)
  }

  /** For all orders and all flat templates, key after key is all at once. */
  ghost predicate AllAtOnce(values: map<string, string>) {
    forall order, other, url ::
      Enumerates(order, values.Keys) && Enumerates(other, values.Keys) && Flat(url) ==>
        Sequential(order, values, url) == Simultaneous(other, values, url)
  }

  // ---------------------------------------------------------------- harmless values are never read

  lemma WordOfBraced(k: string, x: string)
    requires BraceFree(k)
    ensures Braced(k) <= ['{'] + x <==> Closes(x) && Word(x) == k
  {
    hide Closes, Word;
    PatternStarts(k, ['{'] + x);
    assert (['{'] + x)[1..] == x;
  }

  /** The loop passes over an inserted value. */
  lemma {:induction false} PassesOver(k: string, v: string, u: string, x: string)
    requires BraceFree(k) && NoneBegins(u, k)
    ensures Subst(map[k := v], u + x) == u + Subst(map[k := v], x)
  {
    hide Subst, Braced, Closes, Word;
    var one := map[k := v];
    if u == "" {
      assert u + x == x && u + Subst(one, x) == Subst(one, x);
    } else {
      assert u == [u[0]] + u[1..];
      PassesOver(k, v, u[1..], x);
      Assoc([u[0]], u[1..], x);
      Assoc([u[0]], u[1..], Subst(one, x));
      assert !(Braced(k) <= u + x) by { Comparable(Braced(k), u, x); }
      WordOfBraced(k, u[1..] + x);
      SubstCons(one, u[0], u[1..] + x);
    }
  }

  lemma Comparable(p: string, u: string, x: string)
    ensures p <= u + x ==> p <= u || u <= p
  {
    if p <= u + x { assert p == (u + x)[..|p|]; }
  }

  lemma RestBehind(q: string, u: string, x: string)
    ensures q <= u + x ==> q <= u || (|u| < |q| && u == q[..|u|] && q[|u|..] <= x)
  {
    if q <= u + x && |u| < |q| {
      assert u == (u + x)[..|u|] == q[..|u|];
      assert (u + x)[|u|..] == x;
    }
  }

  lemma TailBehind(q: string, c: char, x: string)
    requires q != ""
    ensures q <= [c] + x ==> q[0] == c && q[1..] <= x
  {
    assert ([c] + x)[1..] == x;
    assert q == [q[0]] + q[1..];
  }

  lemma BracedTail(k: string, n: nat)
    requires BraceFree(k) && 1 <= n < |Braced(k)|
    ensures Braced(k)[n..] != "" && Braced(k)[n] != '{' && '{' !in Braced(k)[n..]
    ensures Braced(k)[n] == '}' <==> n == |Braced(k)| - 1
  {
    assert Braced(k)[n..] == (k + "}")[n - 1..];
    assert forall i :: 0 <= i < |k| ==> k[i] in k;
    assert Braced(k)[n] == (k + "}")[n - 1];
  }

  /** A tail of `{k}` does not start a text whose front has no part in it. */
  lemma TailOverValue(k: string, n: nat, u: string, x: string)
    requires n < |Braced(k)| && !(Braced(k)[n..] <= u)
    requires n + |u| < |Braced(k)| ==> !(Braced(k)[n + |u|..] <= x)
    ensures !(Braced(k)[n..] <= u + x)
  {
    hide Braced;
    RestBehind(Braced(k)[n..], u, x);
    if n + |u| < |Braced(k)| { assert Braced(k)[n..][|u|..] == Braced(k)[n + |u|..]; }
  }

  lemma TailOverChar(k: string, n: nat, c: char, x: string)
    requires BraceFree(k) && 1 <= n < |Braced(k)|
    requires c == '{' || (c != '}' && (n + 1 < |Braced(k)| ==> !(Braced(k)[n + 1..] <= x)))
    ensures !(Braced(k)[n..] <= [c] + x)
  {
    BracedTail(k, n);
    hide Braced;
    TailBehind(Braced(k)[n..], c, x);
    assert Braced(k)[n..][1..] == Braced(k)[n + 1..];
  }

  /** Behind an open brace that the template does not close, no value closes a `{k}` either. */
  lemma {:induction false} NeverFormed(done: map<string, string>, k: string, n: nat, t: string)
    requires BraceFree(k) && (forall d :: d in done ==> NoneEnds(done[d], k))
    requires !ClosesOver(t) && 1 <= n < |Braced(k)|
    ensures !(Braced(k)[n..] <= Subst(done, t))
    decreases |t|
  {
    hide *;
    if t == "" {
      SubstEmpty(done);
    } else if t[0] == '{' && Closes(t[1..]) {
      var b, rest := Group(t);
      GroupFront(b, rest);
      SubstGroup(done, b, rest);
      if b in done {
        var u := done[b];
        NoneEndsAt(u, k, n);
        if n + |u| < |Braced(k)| { NeverFormed(done, k, n + |u|, rest); }
        TailOverValue(k, n, u, Subst(done, rest));
      } else {
        OpensWithBrace(b, Subst(done, rest));
        TailOverChar(k, n, '{', b + "}" + Subst(done, rest));
      }
    } else {
      assert t == [t[0]] + t[1..];
      if t[0] != '{' { StillOpen(t); }
      SubstCons(done, t[0], t[1..]);
      OpenIsNoKey(done, t);
      if t[0] != '{' && n + 1 < |Braced(k)| { NeverFormed(done, k, n + 1, t[1..]); }
      TailOverChar(k, n, t[0], Subst(done, t[1..]));
    }
  }

  lemma NoneEndsAt(u: string, k: string, n: nat)
    requires NoneEnds(u, k) && n < |Braced(k)|
    ensures !(Braced(k)[n..] <= u)
  {
  }

  lemma StillOpen(t: string)
    requires t != "" && !ClosesOver(t) && t[0] != '{'
    ensures t[0] != '}' && !ClosesOver(t[1..])
  {
  }

  lemma OpenIsNoKey(done: map<string, string>, t: string)
    requires t != "" && (t[0] != '{' || !Closes(t[1..]))
    ensures t[0] == '{' ==> !KeyAhead(done, t[1..])
  {
  }

  lemma OpensWithBrace(b: string, x: string)
    ensures Placeholder(Single, b) + x == ['{'] + (b + "}" + x)
  {
  }

  lemma NotFormedHere(done: map<string, string>, k: string, t: string)
    requires BraceFree(k) && (forall d :: d in done ==> NoneEnds(done[d], k)) && !ClosesOver(t)
    ensures !KeyAhead(map[k := ""], Subst(done, t)) && !(Braced(k) <= ['{'] + Subst(done, t))
  {
    hide Subst, Closes, Word, Braced, ClosesOver, NoneEnds;
    NeverFormed(done, k, 1, t);
    TailBehind(Braced(k), '{', Subst(done, t));
    WordOfBraced(k, Subst(done, t));
  }

  /** One more key behind those already substituted is one more key at once. */
  lemma {:induction false} KeyLast(done: map<string, string>, k: string, v: string, s: string)
    requires BraceFree(k) && k !in done && Flat(s) && forall d :: d in done ==> Harmless(done[d], k)
    ensures Subst(map[k := v], Subst(done, s)) == Subst(done[k := v], s)
    decreases |s|
  {
    hide Subst, Braced, NoneBegins, NoneEnds, Closes, Word;
    var one, all := map[k := v], done[k := v];
    if s == "" {
      SubstEmpty(one); SubstEmpty(done); SubstEmpty(all);
    } else if s[0] == '{' && Closes(s[1..]) {
      var b, rest := Group(s);
      GroupFront(b, rest);
      KeyLast(done, k, v, rest);
      SubstGroup(done, b, rest);
      SubstGroup(all, b, rest);
      if b in done {
        PassesOver(k, v, done[b], Subst(done, rest));
      } else {
        SubstGroup(one, b, Subst(done, rest));
      }
    } else {
      KeyLast(done, k, v, s[1..]);
      assert s == [s[0]] + s[1..];
      if s[0] == '{' { NotFormedHere(done, k, s[1..]); }
      SubstCons(done, s[0], s[1..]);
      SubstCons(all, s[0], s[1..]);
      SubstCons(one, s[0], Subst(done, s[1..]));
    }
  }

  /** An entry that stands for its own placeholder changes nothing. */
  lemma {:induction false} OwnPlaceholder(done: map<string, string>, k: string, s: string)
    requires k !in done
    ensures Subst(done[k := Braced(k)], s) == Subst(done, s)
    decreases |s|
  {
    hide Subst, Braced, Closes, Word;
    var all := done[k := Braced(k)];
    if s == "" {
      SubstEmpty(done); SubstEmpty(all);
    } else if s[0] == '{' && Closes(s[1..]) {
      var b, rest := Group(s);
      OwnPlaceholder(done, k, rest);
      SubstGroup(done, b, rest);
      SubstGroup(all, b, rest);
    } else {
      OwnPlaceholder(done, k, s[1..]);
      assert s == [s[0]] + s[1..];
      SubstCons(done, s[0], s[1..]);
      SubstCons(all, s[0], s[1..]);
    }
  }

  lemma StepIsSubst(done: map<string, string>, k: string, v: string, url: string)
    requires BraceFree(k) && k !in done && Flat(url)
    requires v == Braced(k) || forall d :: d in done ==> Harmless(done[d], k)
    ensures Subst(map[k := v], Subst(done, url)) == Subst(done[k := v], url)
  {
    hide Subst, Flat, Harmless, Braced;
    if v == Braced(k) {
      OwnPlaceholder(done, k, url);
      OwnPlaceholder(map[], k, Subst(done, url));
      SubstNothing(Subst(done, url));
      assert map[][k := v] == map[k := v];
    } else {
      KeyLast(done, k, v, url);
    }
  }

  lemma {:induction false} HarmlessIsSubst(order: seq<string>, values: map<string, string>,
                                            done: map<string, string>, url: string)
    requires BraceFreeKeys(values.Keys) && HarmlessValues(values) && Flat(url)
    requires Enumerates(order, done.Keys) && Restricts(order, values, done)
    ensures Sequential(order, values, url) == Subst(done, url)
  {
    hide Subst, Flat, Enumerates, Sequential, Harmless, Braced;
    if order == [] {
      assert done.Keys == {};
      NothingReplaced(values, url);
      SubstNothing(url);
    } else {
      var k, before := LastKey(order, values, done);
      var front := order[..|order| - 1];
      HarmlessIsSubst(front, values, before, url);
      assert order == front + [k];
      SequentialSnoc(front, k, values, url);
      ReplaceOne(k, values[k], Subst(before, url));
      StepIsSubst(before, k, values[k], url);
    }
  }

  lemma LastKey(order: seq<string>, values: map<string, string>, done: map<string, string>)
    returns (k: string, before: map<string, string>)
    requires order != [] && Enumerates(order, done.Keys) && Restricts(order, values, done)
    ensures k == order[|order| - 1] && k in values && before == done - {k} && before[k := values[k]] == done
    ensures Enumerates(order[..|order| - 1], before.Keys) && Restricts(order[..|order| - 1], values, before)
  {
    hide Enumerates;
    k := order[|order| - 1];
    before := done - {k};
    EnumeratesFront(order, done.Keys);
    assert before.Keys == done.Keys - {k};
    assert k in order && done[k] == values[k];
    assert before[k := values[k]] == done;
  }

  // ---------------------------------------------------------------- a value that is not harmless

  /** The template `front{k}back`, in which `{k}` is the only innermost group. */
  predicate Shape(front: string, back: string) {
    (front == "" || (front[0] == '{' && BraceFree(front[1..]))) && '{' !in back
  }

  lemma ShapeOpens(front: string, k: string, back: string)
    requires Shape(front, back) && front != ""
    ensures var t := front[1..] + (Placeholder(Single, k) + back);
            front + (Placeholder(Single, k) + back) == ['{'] + t && !Closes(t)
  {
    hide Closes;
    var q := Placeholder(Single, k) + back;
    assert q[0] == '{';
    NeverCloses(front[1..]);
    StaysOpen(front[1..], q);
    assert front == ['{'] + front[1..];
  }

  lemma ShapeSubst(sub: map<string, string>, front: string, k: string, back: string)
    requires Shape(front, back) && BraceFree(k)
    ensures Subst(sub, front + (Placeholder(Single, k) + back))
            == front + ((if k in sub then sub[k] else Placeholder(Single, k)) + back)
  {
    var q, x := Placeholder(Single, k) + back, if k in sub then sub[k] else Placeholder(Single, k);
    assert back + "" == back;
    if front != "" { ShapeOpens(front, k, back); }
    hide Subst, Placeholder, Closes, Word;
    SubstPlain(sub, back, "");
    SubstEmpty(sub);
    SubstGroup(sub, k, back);
    if front == "" {
      assert front + q == q && front + (x + back) == x + back;
    } else {
      SubstCons(sub, '{', front[1..] + q);
      SubstPlain(sub, front[1..], q);
      assert front == ['{'] + front[1..];
      Assoc(['{'], front[1..], x + back);
    }
  }

  lemma {:induction false} NoBraceIsFlat(s: string)
    requires '{' !in s
    ensures Flat(s)
  {
    if s == "" {
    } else {
      NoBraceIsFlat(s[1..]);
    }
  }

  lemma {:induction false} PlainIsOpen(s: string)
    requires BraceFree(s)
    ensures !ClosesOver(s)
  {
    if s == "" {
    } else {
      PlainIsOpen(s[1..]);
    }
  }

  lemma ShapeFlat(front: string, k: string, back: string)
    requires Shape(front, back) && BraceFree(k) && (front == "" || back == "")
    ensures Flat(front + (Placeholder(Single, k) + back))
  {
    NoBraceIsFlat(back);
    if front == "" {
      hide Flat, Placeholder;
      GroupFront(k, back);
      assert front + (Placeholder(Single, k) + back) == Placeholder(Single, k) + back;
    } else {
      var q := Placeholder(Single, k) + back;
      assert !ClosesOver("") && q == Placeholder(Single, k) + "";
      hide Placeholder;
      GroupFront(k, "");
      PlainFront(front[1..], q);
      assert front == ['{'] + front[1..];
      Assoc(['{'], front[1..], q);
      assert (front + q)[0] == '{' && (front + q)[1..] == front[1..] + q;
    }
  }

  /** Where the value of `k` has a part in `{w}`, some template `front{k}back` turns into a text that
      holds `{w}`. */
  lemma Clash(v: string, w: string) returns (front: string, back: string, x: string, z: string)
    requires BraceFree(w) && !Harmless(v, w)
    ensures Shape(front, back) && (front == "" || back == "")
    ensures front + (v + back) == x + (Braced(w) + z)
  {
    hide Shape, Braced;
    if !NoneEnds(v, w) {
      var n :| 0 <= n < |Braced(w)| && Braced(w)[n..] <= v;
      front, back, x, z := ClashInFront(v, w, n);
    } else {
      var i := Begins(v, w);
      front, back, x, z := ClashBehind(v, w, i);
    }
  }

  lemma ClashInFront(v: string, w: string, n: nat) returns (front: string, back: string, x: string, z: string)
    requires BraceFree(w) && n < |Braced(w)| && Braced(w)[n..] <= v
    ensures Shape(front, back) && back == "" && front + (v + back) == x + (Braced(w) + z)
  {
    FrontShape(w, n);
    hide *;
    var q := Braced(w)[n..];
    front, back, x, z := Braced(w)[..n], "", "", v[|q|..];
    assert v == q + z && Braced(w) == front + q;
    assert v + back == v;
    Assoc(front, q, z);
    assert x + (Braced(w) + z) == Braced(w) + z;
  }

  lemma ClashBehind(v: string, w: string, i: nat) returns (front: string, back: string, x: string, z: string)
    requires BraceFree(w) && i < |v| && (Braced(w) <= v[i..] || v[i..] <= Braced(w))
    ensures Shape(front, back) && front == "" && front + (v + back) == x + (Braced(w) + z)
  {
    front, x := "", v[..i];
    if Braced(w) <= v[i..] {
      back, z := "", v[i..][|Braced(w)|..];
    } else {
      back, z := Braced(w)[|v| - i..], "";
      BracedTailPlain(w, |v| - i);
    }
    assert Shape(front, back);
    hide *;
    assert v[i..] + back == Braced(w) + z;
    assert v == x + v[i..];
    Assoc(x, v[i..], back);
    assert front + (v + back) == v + back;
  }

  lemma FrontShape(w: string, n: nat)
    requires BraceFree(w) && n < |Braced(w)|
    ensures Shape(Braced(w)[..n], "")
  {
    if n > 0 { assert Braced(w)[..n][1..] == w[..n - 1]; }
  }

  lemma BracedTailPlain(w: string, n: nat)
    requires BraceFree(w) && 1 <= n <= |Braced(w)|
    ensures '{' !in Braced(w)[n..]
  {
    if n < |Braced(w)| { BracedTail(w, n); }
  }

  lemma {:induction false} Begins(v: string, w: string) returns (i: nat)
    requires !NoneBegins(v, w)
    ensures i < |v| && (Braced(w) <= v[i..] || v[i..] <= Braced(w))
  {
    hide Braced;
    if Braced(w) <= v || v <= Braced(w) {
      i := 0;
      assert v[0..] == v;
    } else {
      var j := Begins(v[1..], w);
      i := j + 1;
      assert v[1..][j..] == v[i..];
    }
  }

  lemma {:induction false} SubstLength(w: string, v: string, s: string)
    ensures |v| == |w| + 2 ==> |Subst(map[w := v], s)| == |s|
    ensures |v| > |w| + 2 ==> |Subst(map[w := v], s)| >= |s|
    ensures |v| < |w| + 2 ==> |Subst(map[w := v], s)| <= |s|
    decreases |s|
  {
    hide Closes, Word;
    if s == "" {
    } else if s[0] == '{' && KeyAhead(map[w := v], s[1..]) {
      SubstLength(w, v, s[1..][|Word(s[1..])| + 1..]);
    } else {
      SubstLength(w, v, s[1..]);
    }
  }

  /** Replacing `{w}` by something else changes a text that holds it. */
  lemma Changes(w: string, v: string, x: string, z: string)
    requires BraceFree(w) && v != Braced(w)
    ensures Subst(map[w := v], x + (Braced(w) + z)) != x + (Braced(w) + z)
  {
    hide Subst, Braced;
    var one := map[w := v];
    SubstSplits(one, x, Braced(w) + z);
    SubstGroup(one, w, z);
    SubstLength(w, v, x);
    SubstLength(w, v, z);
    var a, b := Subst(one, x), Subst(one, z);
    if |v| == |w| + 2 { SameMiddle(a, v, b, x, Braced(w), z); }
  }

  lemma SameMiddle(a: string, b: string, c: string, x: string, y: string, z: string)
    requires |a| == |x| && |b| == |y|
    ensures a + (b + c) == x + (y + z) ==> b == y
  {
    assert b == (a + (b + c))[|a|..|a| + |b|] && y == (x + (y + z))[|x|..|x| + |y|];
  }

  lemma {:induction false} OthersPassOver(others: seq<string>, values: map<string, string>,
                                           front: string, k: string, back: string)
    requires Shape(front, back) && BraceFree(k) && k !in others
    requires forall o :: o in others ==> o in values && BraceFree(o)
    ensures var url := front + (Placeholder(Single, k) + back); Sequential(others, values, url) == url
  {
    hide Placeholder, Shape, Subst, BraceFree, Replace;
    var url := front + (Placeholder(Single, k) + back);
    if others == [] {
    } else {
      assert others[0] in others;
      ReplaceOne(others[0], values[others[0]], url);
      ShapeSubst(map[others[0] := values[others[0]]], front, k, back);
      OthersPassOver(others[1..], values, front, k, back);
    }
  }

  /** An order in which `k` and then `w` come last. */
  lemma OrderEndingWith(k: string, w: string, keys: set<string>) returns (others: seq<string>)
    requires k in keys && w in keys && k != w
    ensures k !in others && Enumerates(others + [k] + [w], keys)
    ensures forall o :: o in others ==> o in keys
  {
    hide Enumerates;
    var rest := keys - {k, w};
    others := SomeOrder(rest);
    EnumeratesCons(k, others, rest);
    EnumeratesCons(w, others + [k], rest + {k});
    assert rest + {k} + {w} == keys;
  }

  lemma HarmfulDiffers(values: map<string, string>, k: string, w: string) returns (order: seq<string>, url: string)
    requires BraceFreeKeys(values.Keys) && k in values && w in values && k != w
    requires values[w] != Braced(w) && !Harmless(values[k], w)
    ensures Enumerates(order, values.Keys) && Flat(url)
    ensures Sequential(order, values, url) != Simultaneous(order, values, url)
  {
    var front, back, x, z := Clash(values[k], w);
    var others := OrderEndingWith(k, w, values.Keys);
    hide Subst, Flat, Shape, Enumerates, Sequential, Harmless, Placeholder, Braced;
    order, url := others + [k] + [w], front + (Placeholder(Single, k) + back);
    ShapeFlat(front, k, back);
    OthersPassOver(others, values, front, k, back);
    SequentialSnoc(others, k, values, url);
    ReplaceOne(k, values[k], url);
    ShapeSubst(map[k := values[k]], front, k, back);
    SequentialSnoc(others + [k], w, values, url);
    ReplaceOne(w, values[w], x + (Braced(w) + z));
    Changes(w, values[w], x, z);
    ReplaceIsSubst(order, values, values, url);
    ShapeSubst(values, front, k, back);
  }

  /** With brace-free keys and any values, replacing one key after the other is the simultaneous
      substitution for all orders and all flat templates exactly when no value has a part in the
      placeholder of another entry. */
  lemma SubstitutesAtOnceIff(values: map<string, string>)
    requires BraceFreeKeys(values.Keys)
    ensures AllAtOnce(values) <==> HarmlessValues(values)
  {
    hide Flat, Enumerates, Sequential, Replace, PathRules, Harmless, Braced;
    if HarmlessValues(values) {
      forall order, other, url | Enumerates(order, values.Keys) && Enumerates(other, values.Keys) && Flat(url)
        ensures Sequential(order, values, url) == Simultaneous(other, values, url)
      {
        HarmlessIsSubst(order, values, values, url);
        ReplaceIsSubst(other, values, values, url);
      }
    } else {
      var k, w :| k in values && w in values && k != w && values[w] != Braced(w) && !Harmless(values[k], w);
      var order, url := HarmfulDiffers(values, k, w);
    }
  }

  /** Values without braces are harmless. */
  lemma {:induction false} BraceFreeIsHarmless(v: string, w: string)
    requires BraceFree(v)
    ensures Harmless(v, w)
  {
    if v == "" {
    } else {
      BraceFreeIsHarmless(v[1..], w);
      assert v[0] in v;
    }
    forall n | 0 <= n < |Braced(w)| ensures !(Braced(w)[n..] <= v) { EndsInBrace(v, w, n); }
  }

  lemma BraceFreeMapIsHarmless(values: map<string, string>)
    requires BraceFreeMap(values)
    ensures HarmlessValues(values)
  {
    hide Harmless, Braced;
    forall k, w | k in values && w in values && k != w ensures Harmless(values[k], w) {
      BraceFreeIsHarmless(values[k], w);
    }
  }

  lemma EndsInBrace(v: string, w: string, n: nat)
    requires n < |Braced(w)| && '}' !in v
    ensures !(Braced(w)[n..] <= v)
  {
    var q := Braced(w)[n..];
    assert q[|q| - 1] == '}';
    LastOfPrefix(q, v);
  }

  lemma LastOfPrefix(q: string, v: string)
    requires q != ""
    ensures q <= v ==> q[|q| - 1] in v
  {
    assert q <= v ==> v[|q| - 1] == q[|q| - 1];
  }

  /** For all brace-free texts: the placeholder of `w`, inserted as the value of `k`, is expanded by the
      loop and left alone by the simultaneous substitution. */
  lemma ValueIsExpanded(k: string, w: string, x: string)
    requires BraceFree(k) && BraceFree(w) && k != w
    ensures var values := map[k := Braced(w), w := x];
            Sequential([k, w], values, Braced(k)) == x && Simultaneous([k, w], values, Braced(k)) == Braced(w)
  {
    hide Subst, Replace, Braced, PathRules, Sequential;
    var values := map[k := Braced(w), w := x];
    assert Braced(k) + "" == Braced(k) && Braced(w) + "" == Braced(w) && x + "" == x;
    SequentialTwo(k, w, values, Braced(k));
    ReplaceOne(k, Braced(w), Braced(k));
    ReplaceOne(w, x, Braced(w));
    SubstGroup(map[k := Braced(w)], k, "");
    SubstGroup(map[w := x], w, "");
    SubstGroup(values, k, "");
    SubstEmpty(map[k := Braced(w)]);
    SubstEmpty(map[w := x]);
    SubstEmpty(values);
    ReplaceIsSubst([k, w], values, values, Braced(k));
  }

  /** `{a}` with `a` = `{b}` and `b` = `1`. */
  lemma BracedValueExample()
    ensures var order, values := ["a", "b"], map["a" := "{b}", "b" := "1"];
            Sequential(order, values, "{a}") == "1" && Simultaneous(order, values, "{a}") == "{b}"
  {
    assert Braced("a") == "{a}" && Braced("b") == "{b}" && "a" != "b";
    assert BraceFree("a") && BraceFree("b");
    hide *;
    ValueIsExpanded("a", "b", "1");
  }
}

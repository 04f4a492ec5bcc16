/** `strings.NewReplacer(pairs...).Replace(s)` by its documented rule: replacements are made in
    the order they appear in `s`, without overlap, and at one position the patterns are tried in
    argument order. */
module Replacer {
  import opened Strings

  datatype Rule = Rule(pattern: string, value: string)

  predicate Usable(rules: seq<Rule>) {
    forall r :: r in rules ==> r.pattern != ""
  }

  /** The first rule, in argument order, whose pattern starts `s`. */
  function FirstMatch(rules: seq<Rule>, s: string): (m: Option<Rule>)
    ensures m.Some? ==> m.value in rules && m.value.pattern <= s
    ensures m.None? ==> forall r :: r in rules ==> !(r.pattern <= s)
  {
    if rules == [] then None
    else if rules[0].pattern <= s then Some(rules[0])
    else FirstMatch(rules[1..], s)
  }

  /** Rule `i` starts the text and no earlier one does. */
  predicate FirstAt(rules: seq<Rule>, s: string, i: int)
    requires 0 <= i < |rules|
  {
    rules[i].pattern <= s && forall j :: 0 <= j < i ==> !(rules[j].pattern <= s)
  }

  /** Argument order decides: the chosen rule is the first of those whose pattern starts the text. */
  lemma {:induction false} FirstMatchIsFirst(rules: seq<Rule>, s: string)
    ensures FirstMatch(rules, s) == None <==> forall j :: 0 <= j < |rules| ==> !(rules[j].pattern <= s)
    ensures forall i :: 0 <= i < |rules| && FirstAt(rules, s, i) ==> FirstMatch(rules, s) == Some(rules[i])
  {
    if rules == [] || rules[0].pattern <= s {
    } else {
      FirstMatchIsFirst(rules[1..], s);
      assert forall j :: 0 <= j < |rules| - 1 ==> rules[1..][j] == rules[j + 1];
      forall i | 0 <= i < |rules| && FirstAt(rules, s, i) ensures FirstMatch(rules, s) == Some(rules[i]) {
        assert rules[1..][i - 1] == rules[i] && FirstAt(rules[1..], s, i - 1);
      }
    }
  }

  function Replace(rules: seq<Rule>, s: string): string
    requires Usable(rules)
    decreases |s|
  {
    if s == "" then ""
    else
      match FirstMatch(rules, s)
      case None => [s[0]] + Replace(rules, s[1..])
      case Some(r) => r.value + Replace(rules, s[|r.pattern|..])
  }

  lemma {:induction false} FirstMatchConcat(a: seq<Rule>, b: seq<Rule>, s: string)
    ensures FirstMatch(a + b, s) == if FirstMatch(a, s).Some? then FirstMatch(a, s) else FirstMatch(b, s)
  {
    if a == [] {
      assert a + b == b;
    } else {
      assert (a + b)[1..] == a[1..] + b;
      FirstMatchConcat(a[1..], b, s);
    }
  }

  /** Rule lists that pick the same rule at every position give the same text. */
  lemma {:induction false} SameMatchesSameText(a: seq<Rule>, b: seq<Rule>, s: string)
    requires Usable(a) && Usable(b)
    requires forall t :: FirstMatch(a, t) == FirstMatch(b, t)
    ensures Replace(a, s) == Replace(b, s)
    decreases |s|
  {
    if s == "" {
    } else {
      match FirstMatch(a, s)
      case None => SameMatchesSameText(a, b, s[1..]);
      case Some(r) => SameMatchesSameText(a, b, s[|r.pattern|..]);
    }
  }
}

/** What the two regular expressions of `internal/executor/sql/executor.go` match at the start of a text,
    said in the characters of the match, and what becomes of a placeholder with quotes around it. */
module SqlPatterns {
  import opened Integers
  import opened Strings
  import opened SqlTemplate

  // ---------------------------------------------------------------- '?\{\{input\.([A-Za-z0-9_]+)\}\}'?

  /** `[A-Za-z0-9_]+`. */
  predicate WordText(s: string) {
    && s != ""
    && forall i :: 0 <= i < |s| ==>
                     'A' <= s[i] <= 'Z' || 'a' <= s[i] <= 'z' || '0' <= s[i] <= '9' || s[i] == '_'
  }

  /** The first `len` characters of `t` are a match that captures `key`: a quote on either side belongs to
      it whenever it is there. */
  predicate Matches(t: string, len: nat, key: string) {
    && WordText(key)
    && var core := "{{input." + key + "}}";
    if "'" + core + "'" <= t then len == |key| + 12
    else if "'" + core <= t || core + "'" <= t then len == |key| + 11
    else core <= t && len == |key| + 10
  }

  lemma {:induction false} WordRunThrough(w: string, x: string)
    requires (forall i :: 0 <= i < |w| ==> Word(w[i])) && (x == "" || !Word(x[0]))
    ensures WordRun(w + x) == |w|
  {
    if w == "" {
      assert w + x == x;
    } else {
      assert (w + x)[0] == w[0] && (w + x)[1..] == w[1..] + x;
      WordRunThrough(w[1..], x);
    }
  }

  lemma CoreSlices(key: string, x: string)
    ensures var s := "{{input." + key + "}}" + x;
            && "{{input." <= s && s[0] == '{' && |s| == 10 + |key| + |x|
            && s[8..] == key + ("}}" + x) && s[8..8 + |key|] == key && s[8 + |key|..] == "}}" + x
            && s[10 + |key|..] == x
  {
    var s := "{{input." + key + "}}" + x;
    assert s == "{{input." + (key + ("}}" + x));
  }

  lemma CoreAtExactly(s: string, key: string)
    requires WordText(key)
    ensures CoreAt(s) == Some(Match(10 + |key|, key)) <==> "{{input." + key + "}}" <= s
  {
    if "{{input." + key + "}}" <= s {
      var x := s[10 + |key|..];
      assert s == "{{input." + key + "}}" + x;
      CoreSlices(key, x);
      WordRunThrough(key, "}}" + x);
    }
    if CoreAt(s) == Some(Match(10 + |key|, key)) {
      assert s == s[..8] + (s[8..8 + |key|] + (s[8 + |key|..10 + |key|] + s[10 + |key|..]));
    }
  }

  lemma CoreAtIs(s: string)
    ensures var m := CoreAt(s); m.Some? ==> WordText(m.value.key) && m.value.len == 10 + |m.value.key|
  {
    var m := CoreAt(s);
    if m.Some? { WordTextOf(m.value.key); }
  }

  lemma WordTextOf(key: string)
    ensures WordText(key) <==> key != "" && forall i :: 0 <= i < |key| ==> Word(key[i])
  {
  }

  lemma PrefixOfRest(a: string, b: string, t: string)
    ensures a + b <= t <==> a <= t && b <= t[|a|..]
  {
    if a <= t && b <= t[|a|..] { assert t == a + (b + t[|a|..][|b|..]) == (a + b) + t[|a|..][|b|..]; }
    if a + b <= t { assert t == (a + b) + t[|a + b|..] == a + (b + t[|a + b|..]); }
  }

  lemma QuotesApart(t: string, core: string)
    requires core != "" && core[0] != '\''
    ensures core <= t ==> !("'" <= t)
    ensures "'" + core <= t <==> "'" <= t && core <= t[1..]
    ensures "'" + core + "'" <= t <==> "'" <= t && core <= t[1..] && "'" <= t[1..][|core|..]
    ensures core + "'" <= t <==> core <= t && "'" <= t[|core|..]
  {
    PrefixOfRest("'", core, t);
    PrefixOfRest("'", core + "'", t);
    Assoc("'", core, "'");
    if "'" <= t { PrefixOfRest(core, "'", t[1..]); }
    PrefixOfRest(core, "'", t);
    assert core <= t ==> t[0] == core[0];
  }

  lemma PlaceholderParts(t: string)
    ensures var s := t[QuoteAt(t)..];
            match CoreAt(s)
            case None => PlaceholderAt(t).None?
            case Some(m) =>
              && m.len <= |s|
              && PlaceholderAt(t) == Some(Match(QuoteAt(t) + m.len + QuoteAt(s[m.len..]), m.key))
  {
    hide CoreAt, QuoteAt;
    var s := t[QuoteAt(t)..];
    if CoreAt(s).Some? { assert t[QuoteAt(t) + CoreAt(s).value.len..] == s[CoreAt(s).value.len..]; }
  }

  lemma QuoteIs(s: string)
    ensures QuoteAt(s) == if "'" <= s then 1 else 0
  {
  }

  /** The expression matches a text at its start exactly as written: the placeholder, its key captured, with
      every quote next to it. */
  lemma PlaceholderExactly(t: string, len: nat, key: string)
    ensures PlaceholderAt(t) == Some(Match(len, key)) <==> Matches(t, len, key)
  {
    var core := "{{input." + key + "}}";
    hide CoreAt, WordText, QuoteAt, PlaceholderAt;
    PlaceholderParts(t);
    QuoteIs(t);
    var s := t[QuoteAt(t)..];
    CoreAtIs(s);
    if WordText(key) { CoreAtExactly(s, key); }
    QuotesApart(t, core);
    if core <= s { QuoteIs(s[|core|..]); }
  }

  // ---------------------------------------------------------------- \$([1-9][0-9]*)

  lemma {:induction false} RunCovers(s: string, n: nat)
    requires n <= |s| && forall i :: 0 <= i < n ==> Digit(s[i])
    ensures n <= DigitRun(s)
  {
    if n == 0 {
    } else {
      RunCovers(s[1..], n - 1);
    }
  }

  /** The run of digits is `ds` when `ds` stands there and no further digit follows. */
  lemma DigitRunIs(s: string, ds: string)
    requires forall i :: 0 <= i < |ds| ==> '0' <= ds[i] <= '9'
    ensures s[..DigitRun(s)] == ds <==> ds <= s && (|s| > |ds| ==> !('0' <= s[|ds|] <= '9'))
  {
    var n := DigitRun(s);
    hide DigitRun;
    if ds <= s {
      assert forall i :: 0 <= i < |ds| ==> s[i] == ds[i];
      RunCovers(s, |ds|);
      assert n > |ds| ==> Digit(s[|ds|]);
    }
  }

  /** The expression matches at the start of a query exactly a `$` and a number without a leading zero, read
      to its last digit. */
  lemma ParamExactly(q: string, ds: string)
    ensures ParamAt(q) == Some(ds) <==>
            && "$" + ds <= q && ds != "" && '1' <= ds[0] <= '9'
            && (forall i :: 0 <= i < |ds| ==> '0' <= ds[i] <= '9')
            && (|q| > |ds| + 1 ==> !('0' <= q[|ds| + 1] <= '9'))
  {
    PrefixOfRest("$", ds, q);
    if "$" <= q && forall i :: 0 <= i < |ds| ==> '0' <= ds[i] <= '9' {
      DigitRunIs(q[1..], ds);
      var n := DigitRun(q[1..]);
      hide DigitRun;
      assert q[1..1 + n] == q[1..][..n];
    }
  }

  /** `strconv.Itoa` writes the number, behind a `-` if it is negative. */
  lemma ItoaReads(n: int)
    ensures n >= 0 ==> Digits(Itoa(n)) && Value(Itoa(n)) == n
    ensures n < 0 ==> "-" <= Itoa(n) && Digits(Itoa(n)[1..]) && Value(Itoa(n)[1..]) == -n
  {
    if n < 0 { ValueDec(-n); } else { ValueDec(n); }
  }

  // ---------------------------------------------------------------- placeholders and their quotes

  /** The renderer's answer to a placeholder in front of `rest`. */
  lemma MatchIsReplaced<V>(t: string, len: nat, key: string, next: int, input: map<string, V>)
    requires Matches(t, len, key)
    ensures len <= |t| && Render(t, next) == "$" + Itoa(Inc64(next)) + Render(t[len..], Inc64(next))
    ensures ArgsOf(t, input) == [if key in input then Some(input[key]) else None] + ArgsOf(t[len..], input)
  {
    PlaceholderExactly(t, len, key);
    hide PlaceholderAt, Matches;
  }

  /** A character where nothing matches stays and is no argument. */
  lemma OtherTextStays<V>(t: string, next: int, input: map<string, V>)
    requires t != "" && forall len: nat, key :: !Matches(t, len, key)
    ensures Render(t, next) == [t[0]] + Render(t[1..], next) && ArgsOf(t, input) == ArgsOf(t[1..], input)
    ensures Render("", next) == "" && ArgsOf("", input) == []
  {
    hide Matches;
    var m := PlaceholderAt(t);
    if m.Some? { PlaceholderExactly(t, m.value.len, m.value.key); }
    hide PlaceholderAt;
  }

  /** Whatever follows it, a placeholder becomes the next parameter and its value one argument: nil where
      the input has no such key. The quotes on its sides, both or one, go with it. */
  lemma QuotesGoWithIt<V>(front: string, key: string, back: string, post: string, next: int, input: map<string, V>)
    requires WordText(key) && (front == "" || front == "'") && (back == "'" || (back == "" && !("'" <= post)))
    ensures var t := front + "{{input." + key + "}}" + back + post;
            && Render(t, next) == "$" + Itoa(Inc64(next)) + Render(post, Inc64(next))
            && ArgsOf(t, input) == [if key in input then Some(input[key]) else None] + ArgsOf(post, input)
  {
    hide Render, ArgsOf, WordText, Matches;
    QuotedMatches(front, key, back, post);
    MatchIsReplaced(front + "{{input." + key + "}}" + back + post, |front| + |key| + 10 + |back|, key, next, input);
  }

  lemma QuotedParts(front: string, core: string, back: string, post: string)
    requires core != "" && core[0] != '\''
    requires (front == "" || front == "'") && (back == "'" || (back == "" && !("'" <= post)))
    ensures var t := front + core + back + post;
            && |front| <= |t| && t[|front|..] == core + (back + post) && t[|front| + |core| + |back|..] == post
            && ("'" <= t <==> front == "'")
    ensures core <= core + (back + post) && ("'" <= (core + (back + post))[|core|..] <==> back == "'")
  {
    Assoc(front + core, back, post);
    Assoc(front, core, back + post);
    var s := core + (back + post);
    assert s[|core|..] == back + post && s[0] == core[0];
    assert s[|core| + |back|..] == post;
    assert front == "" ==> front + s == s;
    assert back == "" ==> back + post == post;
  }

  lemma QuotedMatches(front: string, key: string, back: string, post: string)
    requires WordText(key) && (front == "" || front == "'") && (back == "'" || (back == "" && !("'" <= post)))
    ensures var t := front + "{{input." + key + "}}" + back + post;
            Matches(t, |front| + |key| + 10 + |back|, key) && t[|front| + |key| + 10 + |back|..] == post
  {
    hide WordText;
    var core := "{{input." + key + "}}";
    var t := front + core + back + post;
    assert core[0] == '{' && front + core == front + "{{input." + key + "}}";
    QuotedParts(front, core, back, post);
    QuotesApart(t, core);
    assert front == "" ==> t[|front|..] == t;
  }
}

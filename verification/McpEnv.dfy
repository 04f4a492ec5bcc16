/** The environment of an MCP child process (`stdioEnvironment` in `internal/executor/mcp/executor.go`). */
module McpEnv {
  import opened Strings

  const DEFAULT_STDIO_COMMAND_PATH := "/usr/local/sbin:/usr/local/bin:/usr/sbin:/usr/bin:/sbin:/bin"

  predicate NameStart(c: char) { 'A' <= c <= 'Z' || 'a' <= c <= 'z' || c == '_' }

  /** A POSIX environment name: letters, digits and `_`, not starting with a digit. */
  predicate PosixName(name: string) {
    name != "" && forall i :: 0 <= i < |name| ==> NameStart(name[i]) || (i > 0 && '0' <= name[i] <= '9')
  }

  /** `isPOSIXEnvName`. */
  method IsPOSIXEnvName(name: string) returns (ok: bool)
    ensures ok == PosixName(name)
  {
    if name == "" { return false; }
    for index := 0 to |name|
      invariant forall i :: 0 <= i < index ==> NameStart(name[i]) || (i > 0 && '0' <= name[i] <= '9')
    {
      if NameStart(name[index]) { continue; }
      if index > 0 && '0' <= name[index] <= '9' { continue; }
      return false;
    }
    return true;
  }

  /** `strings.ToUpper` on the ASCII names that reach it. */
  function ToUpper(s: string): string {
    if s == "" then ""
    else [if 'a' <= s[0] <= 'z' then (s[0] as int - 32) as char else s[0]] + ToUpper(s[1..])
  }

  /** `isProtectedStdioEnvName`. */
  predicate Protected(name: string) {
    var n := ToUpper(name);
    || n == "PATH" || n == "ENV" || n == "BASH_ENV" || n == "NODE_OPTIONS" || n == "RUBYOPT"
    || n == "PERL5OPT" || n == "GODEBUG"
    || "LD_" <= n || "DYLD_" <= n || "PYTHON" <= n
  }

  /** `name` is `word`, an upper-case word, in capitals or small letters. */
  predicate AnyCase(name: string, word: string) {
    && |name| == |word|
    && forall i :: 0 <= i < |word| ==>
                     name[i] == word[i] || ('A' <= word[i] <= 'Z' && name[i] as int == word[i] as int + 32)
  }

  predicate StartsAnyCase(name: string, word: string) {
    |word| <= |name| && AnyCase(name[..|word|], word)
  }

  /** A name of letters, digits and `_` that does not start with a digit, names no variable and no family of
      variables that change what the shell, the loader or an interpreter runs, in any case, and a value
      without NUL. */
  predicate Acceptable(name: string, value: string) {
    && name != "" && !('0' <= name[0] <= '9')
    && (forall i :: 0 <= i < |name| ==>
                      'A' <= name[i] <= 'Z' || 'a' <= name[i] <= 'z' || '0' <= name[i] <= '9' || name[i] == '_')
    && !AnyCase(name, "PATH") && !AnyCase(name, "ENV") && !AnyCase(name, "BASH_ENV")
    && !AnyCase(name, "NODE_OPTIONS") && !AnyCase(name, "RUBYOPT") && !AnyCase(name, "PERL5OPT")
    && !AnyCase(name, "GODEBUG")
    && !StartsAnyCase(name, "LD_") && !StartsAnyCase(name, "DYLD_") && !StartsAnyCase(name, "PYTHON")
    && '\0' !in value
  }

  datatype Environment = Entries(entries: seq<string>) | BadKey(key: string)

  /** Accepted exactly when every entry is acceptable, and then PATH comes first and the rest in key order;
      otherwise the reported key is the least one whose entry is not. The map's iteration order plays no part. */
  ghost predicate Correct(values: map<string, string>, env: Environment) {
    match env
    case Entries(entries) =>
      && (forall k :: k in values ==> Acceptable(k, values[k]))
      && entries == ["PATH=" + DEFAULT_STDIO_COMMAND_PATH] + Assignments(SortedKeys(values.Keys), values)
    case BadKey(key) =>
      && key in values && !Acceptable(key, values[key])
      && forall k :: k in values && !Acceptable(k, values[k]) ==> Le(key, k)
  }

  /** Every entry before `i` is acceptable, and `entries` prints them. */
  ghost predicate Printed(keys: seq<string>, i: nat, values: map<string, string>, entries: seq<string>) {
    && i <= |keys| && (forall k :: k in keys ==> k in values)
    && (forall j :: 0 <= j < i ==> Acceptable(keys[j], values[keys[j]]))
    && entries == ["PATH=" + DEFAULT_STDIO_COMMAND_PATH] + Assignments(keys[..i], values)
  }

  method StdioEnvironment(values: map<string, string>) returns (env: Environment)
    ensures Correct(values, env)
    ensures env.Entries? <==> forall k :: k in values ==> Acceptable(k, values[k])
  {
    var keys := CollectKeys(values);
    keys := SortStrings(keys);
    hide *;
    var entries := ["PATH=" + DEFAULT_STDIO_COMMAND_PATH];
    PrintPath(keys, values);
    for i := 0 to |keys|
      invariant Printed(keys, i, values, entries)
    {
      var key := keys[i];
      var posix := IsPOSIXEnvName(key);
      if !posix || Protected(key) || '\0' in values[key] {
        AcceptableIff(key, values[key]);
        LeastNotAcceptable(values, keys, i, entries);
        AcceptedIff(values, BadKey(key));
        return BadKey(key);
      }
      AcceptableIff(key, values[key]);
      PrintOne(keys, i, values, entries);
      entries := entries + [key + "=" + values[key]];
    }
    AllPrinted(keys, values, entries);
    AcceptedIff(values, Entries(entries));
    env := Entries(entries);
  }

  lemma AcceptedIff(values: map<string, string>, env: Environment)
    requires Correct(values, env)
    ensures env.Entries? <==> forall k :: k in values ==> Acceptable(k, values[k])
  {
    hide Acceptable;
  }

  lemma PrintPath(keys: seq<string>, values: map<string, string>)
    requires Enumerates(keys, values.Keys)
    ensures Printed(keys, 0, values, ["PATH=" + DEFAULT_STDIO_COMMAND_PATH])
  {
    hide Acceptable, Enumerates;
    assert Assignments(keys[..0], values) == [];
  }

  lemma AllPrinted(keys: seq<string>, values: map<string, string>, entries: seq<string>)
    requires keys == SortedKeys(values.Keys) && Printed(keys, |keys|, values, entries)
    ensures Correct(values, Entries(entries))
  {
    hide Acceptable, Assignments, Enumerates;
    assert keys[..|keys|] == keys;
    forall k | k in values ensures Acceptable(k, values[k]) {
      assert k in keys;
    }
  }

  lemma PrintOne(keys: seq<string>, i: nat, values: map<string, string>, entries: seq<string>)
    requires i < |keys| && Printed(keys, i, values, entries) && Acceptable(keys[i], values[keys[i]])
    ensures Printed(keys, i + 1, values, entries + [keys[i] + "=" + values[keys[i]]])
  {
    hide Acceptable, Assignments;
    assert keys[..i + 1] == keys[..i] + [keys[i]];
    AssignmentsSnoc(keys[..i], keys[i], values);
  }

  lemma {:induction false} ToUpperAt(s: string, i: nat)
    requires i < |s|
    ensures |ToUpper(s)| == |s|
    ensures ToUpper(s)[i] == if 'a' <= s[i] <= 'z' then (s[i] as int - 32) as char else s[i]
  {
    if i > 0 {
      ToUpperAt(s[1..], i - 1);
    } else if |s| > 1 {
      ToUpperAt(s[1..], 0);
    }
  }

  lemma ToUpperChars(s: string)
    ensures |ToUpper(s)| == |s|
    ensures forall i :: 0 <= i < |s| ==>
                          ToUpper(s)[i] == if 'a' <= s[i] <= 'z' then (s[i] as int - 32) as char else s[i]
  {
    forall i | 0 <= i < |s|
      ensures |ToUpper(s)| == |s|
      ensures ToUpper(s)[i] == if 'a' <= s[i] <= 'z' then (s[i] as int - 32) as char else s[i]
    {
      ToUpperAt(s, i);
    }
    assert s == "" ==> ToUpper(s) == "";
  }

  /** Comparing the upper-cased name is comparing in any case. */
  lemma UpperIs(name: string, word: string)
    requires forall i :: 0 <= i < |word| ==> !('a' <= word[i] <= 'z')
    ensures ToUpper(name) == word <==> AnyCase(name, word)
  {
    hide ToUpper;
    ToUpperChars(name);
    if AnyCase(name, word) {
      assert forall i :: 0 <= i < |word| ==> ToUpper(name)[i] == word[i];
    }
  }

  lemma UpperStarts(name: string, word: string)
    requires forall i :: 0 <= i < |word| ==> !('a' <= word[i] <= 'z')
    ensures word <= ToUpper(name) <==> StartsAnyCase(name, word)
  {
    hide ToUpper, AnyCase;
    ToUpperChars(name);
    if |word| <= |name| {
      var front := name[..|word|];
      ToUpperChars(front);
      assert ToUpper(name)[..|word|] == ToUpper(front);
      UpperIs(front, word);
    }
  }

  lemma AcceptableIff(k: string, v: string)
    ensures Acceptable(k, v) <==> PosixName(k) && !Protected(k) && '\0' !in v
  {
    hide AnyCase, StartsAnyCase, ToUpper;
    UpperIs(k, "PATH");
    UpperIs(k, "ENV");
    UpperIs(k, "BASH_ENV");
    UpperIs(k, "NODE_OPTIONS");
    UpperIs(k, "RUBYOPT");
    UpperIs(k, "PERL5OPT");
    UpperIs(k, "GODEBUG");
    UpperStarts(k, "LD_");
    UpperStarts(k, "DYLD_");
    UpperStarts(k, "PYTHON");
  }

  lemma LeastNotAcceptable(values: map<string, string>, keys: seq<string>, i: nat, entries: seq<string>)
    requires keys == SortedKeys(values.Keys) && Sorted(keys) && i < |keys|
    requires Printed(keys, i, values, entries) && !Acceptable(keys[i], values[keys[i]])
    ensures Correct(values, BadKey(keys[i]))
  {
    hide Acceptable;
    forall k | k in values && !Acceptable(k, values[k]) ensures Le(keys[i], k) {
      assert k in keys;
      var j :| 0 <= j < |keys| && keys[j] == k;
      LeTotal(k, k);
    }
  }

  /** The loop over the map, in whatever order Go picks; sorting forgets that order. */
  method CollectKeys(values: map<string, string>) returns (keys: seq<string>)
    ensures Enumerates(keys, values.Keys)
    ensures SortStrings(keys) == SortedKeys(values.Keys) && Sorted(SortStrings(keys))
  {
    keys := [];
    var rest := values.Keys;
    while rest != {}
      invariant rest <= values.Keys
      invariant Enumerates(keys, values.Keys - rest)
    {
      var k :| k in rest;
      EnumeratesNext(k, keys, rest, values.Keys);
      keys := keys + [k];
      rest := rest - {k};
    }
    assert values.Keys - rest == values.Keys;
    SortForgetsOrder(keys, values.Keys);
  }

  // ---------------------------------------------------------------- reading the environment back

  /** An entry as the child reads it: split at the first `=`. */
  function ReadEnv(entries: seq<string>): seq<(string, string)> {
    if entries == [] then [] else [Cut(entries[0], '=')] + ReadEnv(entries[1..])
  }

  function Names(pairs: seq<(string, string)>): seq<string> {
    if pairs == [] then [] else [pairs[0].0] + Names(pairs[1..])
  }

  lemma NoEquals(name: string)
    requires PosixName(name)
    ensures '=' !in name
  {
    assert forall i :: 0 <= i < |name| ==> name[i] != '=';
  }

  lemma {:induction false} ReadAssignments(keys: seq<string>, values: map<string, string>)
    requires forall k :: k in keys ==> k in values && PosixName(k)
    ensures ReadEnv(Assignments(keys, values)) == Pairs(keys, values)
    ensures Names(Pairs(keys, values)) == keys
  {
    if keys == [] {
    } else {
      NoEquals(keys[0]);
      CutAt(keys[0], values[keys[0]], '=');
      ReadAssignments(keys[1..], values);
    }
  }

  /** The child sees exactly the configured variables and one PATH, which the configuration cannot
      override in any spelling; no name occurs twice. */
  lemma EnvironmentReadsBack(values: map<string, string>, entries: seq<string>)
    requires Correct(values, Entries(entries))
    ensures var path := "/usr/local/sbin:/usr/local/bin:/usr/sbin:/usr/bin:/sbin:/bin";
            ReadEnv(entries) == [("PATH", path)] + Pairs(SortedKeys(values.Keys), values)
    ensures Enumerates(Names(ReadEnv(entries)), values.Keys + {"PATH"})
    ensures forall k :: k in values ==> !AnyCase(k, "PATH")
  {
    var keys := SortedKeys(values.Keys);
    EntriesArePosix(values, entries);
    assert entries == ["PATH=" + DEFAULT_STDIO_COMMAND_PATH] + Assignments(keys, values);
    hide PosixName, AnyCase, Assignments, Enumerates, Correct;
    ReadAssignments(keys, values);
    ReadPathFirst(entries, Assignments(keys, values));
    NamesCons("PATH", DEFAULT_STDIO_COMMAND_PATH, Pairs(keys, values));
    EnumeratesCons("PATH", keys, values.Keys);
  }

  lemma EntriesArePosix(values: map<string, string>, entries: seq<string>)
    requires Correct(values, Entries(entries))
    ensures forall k :: k in values ==> PosixName(k) && !AnyCase(k, "PATH")
    ensures "PATH" !in values
  {
    forall k | k in values ensures PosixName(k) && !AnyCase(k, "PATH") && k != "PATH" {
      assert Acceptable(k, values[k]);
      AcceptableIff(k, values[k]);
    }
  }

  lemma ReadPathFirst(entries: seq<string>, lines: seq<string>)
    requires entries == ["PATH=" + DEFAULT_STDIO_COMMAND_PATH] + lines
    ensures ReadEnv(entries) == [("PATH", DEFAULT_STDIO_COMMAND_PATH)] + ReadEnv(lines)
  {
    assert entries[0] == "PATH" + "=" + DEFAULT_STDIO_COMMAND_PATH && entries[1..] == lines;
    CutAt("PATH", DEFAULT_STDIO_COMMAND_PATH, '=');
  }

  lemma NamesCons(name: string, value: string, pairs: seq<(string, string)>)
    ensures Names([(name, value)] + pairs) == [name] + Names(pairs)
  {
    var all := [(name, value)] + pairs;
    assert all[0] == (name, value) && all[1..] == pairs;
  }

  /** A configuration that preloads a library is refused. */
  lemma PreloadIsRefused(value: string, env: Environment)
    requires Correct(map["LD_PRELOAD" := value], env)
    ensures env == BadKey("LD_PRELOAD")
  {
    var values := map["LD_PRELOAD" := value];
    assert "LD_PRELOAD"[..3] == "LD_" && StartsAnyCase("LD_PRELOAD", "LD_");
    hide AnyCase, StartsAnyCase;
    assert "LD_PRELOAD" in values && !Acceptable("LD_PRELOAD", values["LD_PRELOAD"]);
  }

  /** Two runs on the same configuration print the same environment. */
  lemma EnvironmentIsDetermined(values: map<string, string>, a: Environment, b: Environment)
    requires Correct(values, a) && Correct(values, b)
    ensures a == b
  {
    if a.BadKey? && b.BadKey? { LeAntisymmetric(a.key, b.key); }
  }
}

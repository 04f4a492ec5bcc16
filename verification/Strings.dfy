/** Byte strings, the order Go's `sort.Strings` uses, and enumerations of a key set.

    A Go string is a sequence of bytes. A `string` here is one too: every character stands
    for one byte, and `IsBytes` says so where the range of a byte matters. */
module Strings {

  datatype Option<+T> = None | Some(value: T)

  predicate IsBytes(s: string) {
    forall i :: 0 <= i < |s| ==> s[i] as int < 256
  }

  lemma Assoc<T>(a: seq<T>, b: seq<T>, c: seq<T>)
    ensures (a + b) + c == a + (b + c)
  {
  }

  lemma SameFront<T>(a: seq<T>, b: seq<T>, c: seq<T>)
    ensures a + b == a + c <==> b == c
  {
    if a + b == a + c { assert b == (a + b)[|a|..] == (a + c)[|a|..] == c; }
  }

  /** `strings.Contains`. */
  ghost predicate Contains(s: string, sub: string) {
    exists i :: 0 <= i <= |s| && sub <= s[i..]
  }

  /** An executable `Contains`, for the loops that test it. */
  method Find(s: string, sub: string) returns (found: bool)
    ensures found <==> Contains(s, sub)
  {
    found := false;
    for i := 0 to |s| + 1
      invariant found <==> exists j :: 0 <= j < i && sub <= s[j..]
    {
      found := found || sub <= s[i..];
    }
  }

  /** Byte-wise lexicographic order, the `<=` of Go strings. */
  predicate Le(a: string, b: string) {
    a == "" || (b != "" && (a[0] < b[0] || (a[0] == b[0] && Le(a[1..], b[1..]))))
  }

  lemma {:induction false} LeTotal(a: string, b: string)
    ensures Le(a, b) || Le(b, a)
  {
    if a == "" || b == "" {
    } else {
      LeTotal(a[1..], b[1..]);
    }
  }

  lemma {:induction false} LeAntisymmetric(a: string, b: string)
    requires Le(a, b) && Le(b, a)
    ensures a == b
  {
    if a == "" {
    } else {
      LeAntisymmetric(a[1..], b[1..]);
      assert a == [a[0]] + a[1..] && b == [b[0]] + b[1..];
    }
  }

  lemma {:induction false} LeTransitive(a: string, b: string, c: string)
    requires Le(a, b) && Le(b, c)
    ensures Le(a, c)
  {
    if a != "" && a[0] == b[0] == c[0] { LeTransitive(a[1..], b[1..], c[1..]); }
  }

  /** `a` and `b` agree up to `i` and `a` has the smaller byte there. */
  predicate SmallerAt(a: string, b: string, i: int) {
    0 <= i < |a| && i < |b| && a[..i] == b[..i] && a[i] < b[i]
  }

  /** The order of a dictionary: a prefix comes first, and otherwise the first byte that differs decides. */
  lemma {:induction false} LeIff(a: string, b: string)
    ensures Le(a, b) <==> a <= b || exists i :: SmallerAt(a, b, i)
  {
    if a == "" || b == "" {
    } else {
      LeIff(a[1..], b[1..]);
      assert a <= b <==> a[0] == b[0] && a[1..] <= b[1..];
      forall i | i > 0 ensures SmallerAt(a, b, i) <==> a[0] == b[0] && SmallerAt(a[1..], b[1..], i - 1) {
        SmallerBehind(a, b, i);
      }
      if i :| SmallerAt(a[1..], b[1..], i) { SmallerBehind(a, b, i + 1); }
      assert a[0] < b[0] ==> SmallerAt(a, b, 0);
    }
  }

  lemma SmallerBehind(a: string, b: string, i: int)
    requires a != "" && b != "" && i > 0
    ensures SmallerAt(a, b, i) <==> a[0] == b[0] && SmallerAt(a[1..], b[1..], i - 1)
  {
    if i < |a| && i < |b| {
      var x, y := a[1..][..i - 1], b[1..][..i - 1];
      assert a[..i] == [a[0]] + x && b[..i] == [b[0]] + y && a[..i][0] == a[0] && b[..i][0] == b[0];
      if a[0] == b[0] { SameFront([a[0]], x, y); }
    }
  }

  ghost predicate Sorted(s: seq<string>) {
    forall i, j :: 0 <= i < j < |s| ==> Le(s[i], s[j])
  }

  function InsertSorted(x: string, s: seq<string>): (r: seq<string>)
    ensures multiset(r) == multiset(s) + multiset{x}
  {
    if s == [] then [x]
    else if Le(x, s[0]) then [x] + s
    else
      assert s == [s[0]] + s[1..];
      [s[0]] + InsertSorted(x, s[1..])
  }

  lemma {:induction false} InsertSortedSorts(x: string, s: seq<string>)
    requires Sorted(s)
    ensures Sorted(InsertSorted(x, s))
  {
    if s == [] {
    } else if Le(x, s[0]) {
      forall i | 0 <= i < |s| ensures Le(x, s[i]) {
        if i > 0 { LeTransitive(x, s[0], s[i]); }
      }
    } else {
      var r := InsertSorted(x, s[1..]);
      InsertSortedSorts(x, s[1..]);
      LeTotal(x, s[0]);
      forall i | 0 <= i < |r| ensures Le(s[0], r[i]) {
        assert r[i] in multiset(r);
        assert r[i] == x || r[i] in s[1..];
      }
    }
  }

  /** `sort.Strings`. */
  function SortStrings(s: seq<string>): (r: seq<string>)
    ensures multiset(r) == multiset(s)
  {
    if s == [] then []
    else
      assert s == [s[0]] + s[1..];
      InsertSorted(s[0], SortStrings(s[1..]))
  }

  lemma {:induction false} SortStringsSorts(s: seq<string>)
    ensures Sorted(SortStrings(s))
  {
    if s == [] {
    } else {
      SortStringsSorts(s[1..]);
      InsertSortedSorts(s[0], SortStrings(s[1..]));
    }
  }

  /** Two sorted sequences with the same elements are the same sequence. */
  lemma {:induction false} SortedUnique(a: seq<string>, b: seq<string>)
    requires Sorted(a) && Sorted(b) && multiset(a) == multiset(b)
    ensures a == b
  {
    if a == [] {
      if b != [] { SameLeast(b, a); }
    } else {
      SameLeast(a, b);
      SameLeast(b, a);
      LeAntisymmetric(a[0], b[0]);
      SplitHead(a);
      SplitHead(b);
      SortedUnique(a[1..], b[1..]);
    }
  }

  lemma SplitHead(a: seq<string>)
    requires a != []
    ensures a == [a[0]] + a[1..]
    ensures multiset(a[1..]) == multiset(a) - multiset{a[0]}
  {
    assert a == [a[0]] + a[1..];
  }

  lemma SameLeast(a: seq<string>, b: seq<string>)
    requires a != [] && Sorted(a) && multiset(a) == multiset(b)
    ensures b != [] && Le(a[0], b[0])
  {
    assert a[0] in multiset(b);
    assert b[0] in multiset(a);
    var j :| 0 <= j < |a| && a[j] == b[0];
    LeTotal(a[0], a[0]);
  }

  /** `order` lists `keys`, each key once: one of the orders in which Go may range over a map. */
  ghost predicate Enumerates(order: seq<string>, keys: set<string>)
    ensures Enumerates(order, keys) ==> forall k :: k in order <==> k in keys
  {
    assert forall k :: k in order <==> k in multiset(order);
    multiset(order) == multiset(keys)
  }

  lemma EnumeratesCons(k: string, order: seq<string>, keys: set<string>)
    requires Enumerates(order, keys) && k !in keys
    ensures Enumerates([k] + order, keys + {k})
    ensures Enumerates(order + [k], keys + {k})
  {
    assert multiset(keys + {k}) == multiset(keys) + multiset{k};
  }

  lemma TwoOrders(x: string, y: string)
    requires x != y
    ensures Enumerates([x, y], {x, y}) && Enumerates([y, x], {x, y})
  {
    assert multiset([x, y]) == multiset{x, y} == multiset([y, x]);
    assert multiset({x, y}) == multiset{x, y};
  }

  /** One step of a loop that ranges over `keys`: `k` is taken out of the keys still to come. */
  lemma EnumeratesNext(k: string, order: seq<string>, rest: set<string>, keys: set<string>)
    requires k in rest && rest <= keys && Enumerates(order, keys - rest)
    ensures Enumerates(order + [k], keys - (rest - {k}))
  {
    hide Enumerates;
    EnumeratesCons(k, order, keys - rest);
    assert keys - (rest - {k}) == keys - rest + {k};
  }

  lemma EnumeratesTail(order: seq<string>, keys: set<string>)
    requires order != [] && Enumerates(order, keys)
    ensures order[0] in keys && Enumerates(order[1..], keys - {order[0]})
  {
    var k := order[0];
    assert k in order;
    assert order == [k] + order[1..];
    assert multiset(order[1..]) == multiset(order) - multiset{k};
    assert multiset(keys - {k}) == multiset(keys) - multiset{k};
  }

  lemma EnumeratesFront(order: seq<string>, keys: set<string>)
    requires order != [] && Enumerates(order, keys)
    ensures var n := |order| - 1; order[n] in keys && Enumerates(order[..n], keys - {order[n]})
  {
    var n := |order| - 1;
    var k := order[n];
    assert k in order;
    assert order == order[..n] + [k];
    assert multiset(order[..n]) == multiset(order) - multiset{k};
    assert multiset(keys - {k}) == multiset(keys) - multiset{k};
  }

  ghost function SomeOrder(keys: set<string>): (order: seq<string>)
    ensures Enumerates(order, keys)
  {
    if keys == {} then []
    else
      var k :| k in keys;
      EnumeratesCons(k, SomeOrder(keys - {k}), keys - {k});
      assert keys - {k} + {k} == keys;
      [k] + SomeOrder(keys - {k})
  }

  lemma EnumerationStartingWith(k: string, keys: set<string>) returns (order: seq<string>)
    requires k in keys
    ensures Enumerates(order, keys) && order != [] && order[0] == k
  {
    EnumeratesCons(k, SomeOrder(keys - {k}), keys - {k});
    assert keys - {k} + {k} == keys;
    order := [k] + SomeOrder(keys - {k});
  }

  /** The keys in sorted order. */
  ghost function SortedKeys(keys: set<string>): (r: seq<string>)
    ensures Enumerates(r, keys)
  {
    SortStrings(SomeOrder(keys))
  }

  /** Sorting forgets the order in which the map was ranged over. */
  lemma SortForgetsOrder(order: seq<string>, keys: set<string>)
    requires Enumerates(order, keys)
    ensures SortStrings(order) == SortedKeys(keys)
    ensures Sorted(SortedKeys(keys))
  {
    SortStringsSorts(order);
    SortStringsSorts(SomeOrder(keys));
    SortedUnique(SortStrings(order), SortedKeys(keys));
  }

  /** The entries of a map, key by key. */
  function Pairs(keys: seq<string>, values: map<string, string>): seq<(string, string)>
    requires forall k :: k in keys ==> k in values
  {
    if keys == [] then [] else [(keys[0], values[keys[0]])] + Pairs(keys[1..], values)
  }

  /** The entries of a map written as `key=value`. */
  function Assignments(keys: seq<string>, values: map<string, string>): seq<string>
    requires forall k :: k in keys ==> k in values
  {
    if keys == [] then [] else [keys[0] + "=" + values[keys[0]]] + Assignments(keys[1..], values)
  }

  lemma {:induction false} AssignmentsSnoc(keys: seq<string>, k: string, values: map<string, string>)
    requires k in values && forall x :: x in keys ==> x in values
    ensures Assignments(keys + [k], values) == Assignments(keys, values) + [k + "=" + values[k]]
  {
    if keys == [] {
      assert keys + [k] == [k] && [k][1..] == [];
    } else {
      assert (keys + [k])[0] == keys[0] && (keys + [k])[1..] == keys[1..] + [k];
      AssignmentsSnoc(keys[1..], k, values);
    }
  }

  // ---------------------------------------------------------------- strings.Cut

  /** `strings.Cut`: what precedes and what follows the first `sep`; without one, the whole text. */
  function Cut(s: string, sep: char): (string, string) {
    if s == "" then ("", "")
    else if s[0] == sep then ("", s[1..])
    else ([s[0]] + Cut(s[1..], sep).0, Cut(s[1..], sep).1)
  }

  lemma {:induction false} CutAt(a: string, b: string, sep: char)
    requires sep !in a
    ensures Cut(a + [sep] + b, sep) == (a, b)
  {
    var s := a + [sep] + b;
    if a == "" {
      assert s[1..] == b;
    } else {
      assert s[0] == a[0] && s[1..] == a[1..] + [sep] + b;
      CutAt(a[1..], b, sep);
      assert a == [a[0]] + a[1..];
    }
  }

  lemma {:induction false} CutConcat(a: string, b: string, sep: char)
    ensures sep in a ==> Cut(a + b, sep) == (Cut(a, sep).0, Cut(a, sep).1 + b)
    ensures sep !in a ==> Cut(a + b, sep) == (a + Cut(b, sep).0, Cut(b, sep).1)
    ensures sep !in a ==> Cut(a, sep) == (a, "")
  {
    if a == "" {
      assert a + b == b && a + Cut(b, sep).0 == Cut(b, sep).0;
    } else {
      assert (a + b)[0] == a[0] && (a + b)[1..] == a[1..] + b;
      CutConcat(a[1..], b, sep);
      assert a == [a[0]] + a[1..];
      assert [a[0]] + (a[1..] + Cut(b, sep).0) == a + Cut(b, sep).0;
    }
  }

  lemma {:induction false} CutSplits(s: string, sep: char)
    ensures sep !in Cut(s, sep).0
    ensures s == if sep in s then Cut(s, sep).0 + [sep] + Cut(s, sep).1 else Cut(s, sep).0
    ensures sep !in s ==> Cut(s, sep).1 == ""
  {
    if s == "" {
    } else {
      assert s == [s[0]] + s[1..];
      if s[0] == sep {
        assert s == "" + [sep] + s[1..];
      } else {
        CutSplits(s[1..], sep);
        var (a, b) := Cut(s[1..], sep);
        if sep in s[1..] { assert [s[0]] + (a + [sep] + b) == [s[0]] + a + [sep] + b; }
      }
    }
  }
}

/** Query strings on bytes: Go's `url.QueryEscape` and `url.Values.Encode`, and the
    `application/x-www-form-urlencoded` parser of section 5.1 of the WHATWG URL Standard (without
    its last step, UTF-8 decoding), with percent-encoding as in section 2.1 of RFC 3986. */
module QueryString {
  import opened Strings

  // ---------------------------------------------------------------- escaping

  predicate Unreserved(c: char) {
    || 'a' <= c <= 'z' || 'A' <= c <= 'Z' || '0' <= c <= '9'
    || c == '-' || c == '_' || c == '.' || c == '~'
  }

  function HexDigit(n: nat): char
    requires n < 16
  {
    "0123456789ABCDEF"[n]
  }

  function EscapeByte(c: char): string {
    if Unreserved(c) then [c]
    else if c == ' ' then "+"
    else ['%', HexDigit(c as int / 16 % 16), HexDigit(c as int % 16)]
  }

  function QueryEscape(s: string): string {
    if s == "" then "" else EscapeByte(s[0]) + QueryEscape(s[1..])
  }

  function HexValue(c: char): (v: Option<nat>)
    ensures v.Some? ==> v.value < 16
  {
    if '0' <= c <= '9' then Some(c as int - '0' as int)
    else if 'A' <= c <= 'F' then Some(c as int - 'A' as int + 10)
    else if 'a' <= c <= 'f' then Some(c as int - 'a' as int + 10)
    else None
  }

  lemma HexDigitValue(n: nat)
    requires n < 16
    ensures HexValue(HexDigit(n)) == Some(n)
  {
  }

  /** `+` is a space, `%XX` a byte, and a `%` without two hex digits stays. */
  function Unescape(s: string): string {
    if s == "" then ""
    else if s[0] == '+' then " " + Unescape(s[1..])
    else if s[0] == '%' && |s| >= 3 && HexValue(s[1]).Some? && HexValue(s[2]).Some? then
      [(16 * HexValue(s[1]).value + HexValue(s[2]).value) as char] + Unescape(s[3..])
    else [s[0]] + Unescape(s[1..])
  }

  lemma UnescapeByte(c: char, t: string)
    requires c as int < 256
    ensures Unescape(EscapeByte(c) + t) == [c] + Unescape(t)
  {
    hide Unescape, HexDigit;
    if Unreserved(c) || c == ' ' {
      UnescapePlain(c, t);
    } else {
      Nibbles(c as int);
      UnescapeEscaped(c, c as int / 16 % 16, c as int % 16, t);
    }
  }

  lemma Nibbles(n: nat)
    requires n < 256
    ensures 16 * (n / 16 % 16) + n % 16 == n
  {
  }

  lemma UnescapeEscaped(c: char, hi: nat, lo: nat, t: string)
    requires hi < 16 && lo < 16 && 16 * hi + lo == c as int
    ensures Unescape(['%', HexDigit(hi), HexDigit(lo)] + t) == [c] + Unescape(t)
  {
    hide Unescape, HexDigit, HexValue;
    HexDigitValue(hi);
    HexDigitValue(lo);
    UnescapePercent(HexDigit(hi), HexDigit(lo), t);
  }

  lemma UnescapePlain(c: char, t: string)
    requires Unreserved(c) || c == ' '
    ensures Unescape(EscapeByte(c) + t) == [c] + Unescape(t)
  {
    hide HexValue;
    var s := EscapeByte(c) + t;
    assert s[0] == (if c == ' ' then '+' else c) && s[1..] == t;
  }

  lemma UnescapePercent(h: char, l: char, t: string)
    requires HexValue(h).Some? && HexValue(l).Some?
    ensures Unescape(['%', h, l] + t) == [(16 * HexValue(h).value + HexValue(l).value) as char] + Unescape(t)
  {
    var s := ['%', h, l] + t;
    assert s[0] == '%' && s[1] == h && s[2] == l && s[3..] == t;
  }

  /** What was escaped reads back as it was. */
  lemma {:induction false} UnescapeEscape(s: string)
    requires IsBytes(s)
    ensures Unescape(QueryEscape(s)) == s
  {
    if s == "" {
    } else {
      UnescapeByte(s[0], QueryEscape(s[1..]));
      UnescapeEscape(s[1..]);
    }
  }

  lemma {:induction false} UnescapeShrinks(s: string)
    ensures |Unescape(s)| <= |s|
  {
    if s == "" {
    } else if s[0] == '%' && |s| >= 3 && HexValue(s[1]).Some? && HexValue(s[2]).Some? {
      UnescapeShrinks(s[3..]);
    } else {
      UnescapeShrinks(s[1..]);
    }
  }

  /** The text has no `+` and no `%` with two hex digits behind it. */
  predicate Verbatim(s: string) {
    s == "" ||
    (&& s[0] != '+' && !(s[0] == '%' && |s| >= 3 && HexValue(s[1]).Some? && HexValue(s[2]).Some?)
     && Verbatim(s[1..]))
  }

  /** Unescaping leaves exactly such texts alone. */
  lemma {:induction false} VerbatimIff(s: string)
    ensures Unescape(s) == s <==> Verbatim(s)
  {
    hide HexValue;
    if s == "" {
    } else if s[0] == '%' && |s| >= 3 && HexValue(s[1]).Some? && HexValue(s[2]).Some? {
      UnescapeShrinks(s[3..]);
    } else {
      VerbatimIff(s[1..]);
      assert s == [s[0]] + s[1..];
      SameFront([s[0]], Unescape(s[1..]), s[1..]);
      assert s[0] == '+' ==> Unescape(s)[0] == ' ';
    }
  }

  /** An escaped text has none of the characters that structure a URL or a query. */
  predicate Safe(s: string) {
    '&' !in s && '=' !in s && '#' !in s && '?' !in s
  }

  lemma {:induction false} EscapedIsSafe(s: string)
    ensures Safe(QueryEscape(s))
  {
    if s == "" {
    } else {
      EscapedIsSafe(s[1..]);
      EscapedByteIsSafe(s[0]);
    }
  }

  lemma EscapedByteIsSafe(c: char)
    ensures Safe(EscapeByte(c))
  {
    if !Unreserved(c) && c != ' ' {
      HexDigitPlain(c as int / 16 % 16);
      HexDigitPlain(c as int % 16);
    }
  }

  lemma HexDigitPlain(n: nat)
    requires n < 16
    ensures '0' <= HexDigit(n) <= '9' || 'A' <= HexDigit(n) <= 'F'
  {
  }

  lemma {:induction false} EscapeConcat(a: string, b: string)
    ensures QueryEscape(a + b) == QueryEscape(a) + QueryEscape(b)
  {
    hide EscapeByte;
    if a == "" {
      assert a + b == b;
    } else {
      assert (a + b)[0] == a[0] && (a + b)[1..] == a[1..] + b;
      EscapeConcat(a[1..], b);
      Assoc(EscapeByte(a[0]), QueryEscape(a[1..]), QueryEscape(b));
    }
  }

  lemma EscapeOne(c: char, hi: nat, lo: nat)
    requires hi < 16 && lo < 16 && c as int == 16 * hi + lo
    ensures QueryEscape([c]) ==
            if 'a' <= c <= 'z' || 'A' <= c <= 'Z' || '0' <= c <= '9' || c == '-' || c == '_' || c == '.' || c == '~'
            then [c]
            else if c == ' ' then "+"
            else ['%', "0123456789ABCDEF"[hi], "0123456789ABCDEF"[lo]]
  {
    Digits16(c as int, hi, lo);
    assert [c][1..] == "" && QueryEscape("") == "" && EscapeByte(c) + "" == EscapeByte(c);
  }

  lemma Digits16(n: nat, hi: nat, lo: nat)
    requires hi < 16 && lo < 16 && n == 16 * hi + lo
    ensures n / 16 % 16 == hi && n % 16 == lo
  {
  }

  /** Byte by byte: letters, digits and `-_.~` stay, a space becomes `+`, and any other byte `%` and its two
      upper-case hex digits. */
  lemma EscapesEachByte(a: string, c: char, hi: nat, lo: nat, b: string)
    requires hi < 16 && lo < 16 && c as int == 16 * hi + lo
    ensures QueryEscape(a + [c] + b) ==
            QueryEscape(a)
            + (if 'a' <= c <= 'z' || 'A' <= c <= 'Z' || '0' <= c <= '9' || c == '-' || c == '_' || c == '.' || c == '~'
               then [c]
               else if c == ' ' then "+"
               else ['%', "0123456789ABCDEF"[hi], "0123456789ABCDEF"[lo]])
            + QueryEscape(b)
  {
    hide QueryEscape;
    EscapeOne(c, hi, lo);
    EscapeConcat(a + [c], b);
    EscapeConcat(a, [c]);
  }

  /** Nothing but letters, digits and `-_.~%+` is left, so no `/` brings a further path segment. */
  lemma {:induction false} EscapedAlphabet(s: string)
    ensures forall c :: c in QueryEscape(s) ==>
                          'a' <= c <= 'z' || 'A' <= c <= 'Z' || '0' <= c <= '9' || c in "-_.~%+"
    ensures '/' !in QueryEscape(s)
  {
    if s == "" {
    } else {
      EscapedAlphabet(s[1..]);
      HexDigitPlain(s[0] as int / 16 % 16);
      HexDigitPlain(s[0] as int % 16);
      assert forall c :: c in "-_.~%+" <==> c == '-' || c == '_' || c == '.' || c == '~' || c == '%' || c == '+';
    }
  }

  // ---------------------------------------------------------------- parsing

  /** `strings.Split` at one character. */
  function Split(s: string, sep: char): (parts: seq<string>)
    ensures parts != []
  {
    if s == "" then [""]
    else
      var rest := Split(s[1..], sep);
      if s[0] == sep then [""] + rest else [[s[0]] + rest[0]] + rest[1..]
  }

  function ParsePieces(pieces: seq<string>): seq<(string, string)> {
    if pieces == [] then []
    else if pieces[0] == "" then ParsePieces(pieces[1..])
    else
      var (name, value) := Cut(pieces[0], '=');
      [(Unescape(name), Unescape(value))] + ParsePieces(pieces[1..])
  }

  function ParseForm(q: string): seq<(string, string)> {
    ParsePieces(Split(q, '&'))
  }

  lemma {:induction false} SplitJoined(a: string, b: string, sep: char)
    ensures Split(a + [sep] + b, sep) == Split(a, sep) + Split(b, sep)
  {
    var s := a + [sep] + b;
    if a == "" {
      assert s[1..] == b;
    } else {
      assert s[0] == a[0] && s[1..] == a[1..] + [sep] + b;
      SplitJoined(a[1..], b, sep);
    }
  }

  lemma {:induction false} SplitWhole(s: string, sep: char)
    requires sep !in s
    ensures Split(s, sep) == [s]
  {
    if s == "" {
    } else {
      SplitWhole(s[1..], sep);
      assert s == [s[0]] + s[1..];
    }
  }

  lemma {:induction false} ParsePiecesConcat(a: seq<string>, b: seq<string>)
    ensures ParsePieces(a + b) == ParsePieces(a) + ParsePieces(b)
  {
    if a == [] {
      assert a + b == b;
    } else {
      assert (a + b)[1..] == a[1..] + b;
      ParsePiecesConcat(a[1..], b);
    }
  }

  lemma ParseJoined(a: string, b: string)
    ensures ParseForm(a + "&" + b) == ParseForm(a) + ParseForm(b)
  {
    SplitJoined(a, b, '&');
    ParsePiecesConcat(Split(a, '&'), Split(b, '&'));
  }

  // ---------------------------------------------------------------- Values.Encode

  function EncodePair(k: string, v: string): string {
    QueryEscape(k) + "=" + QueryEscape(v)
  }

  lemma ParseEncodedPair(k: string, v: string)
    requires IsBytes(k) && IsBytes(v)
    ensures ParseForm(EncodePair(k, v)) == [(k, v)]
  {
    var s := EncodePair(k, v);
    EscapedIsSafe(k);
    EscapedIsSafe(v);
    SplitWhole(s, '&');
    CutAt(QueryEscape(k), QueryEscape(v), '=');
    UnescapeEscape(k);
    UnescapeEscape(v);
    assert s[|QueryEscape(k)|] == '=';
    assert ParsePieces([s][1..]) == [];
  }

  /** `Values.Encode` for one value a key, over the keys in the order given. */
  function EncodeKeys(keys: seq<string>, values: map<string, string>): string
    requires forall k :: k in keys ==> k in values
  {
    if keys == [] then ""
    else if |keys| == 1 then EncodePair(keys[0], values[keys[0]])
    else EncodePair(keys[0], values[keys[0]]) + "&" + EncodeKeys(keys[1..], values)
  }

  /** Encoding a value map and parsing the query gives the map back, key by key. */
  lemma {:induction false} ParseEncoded(keys: seq<string>, values: map<string, string>)
    requires forall k :: k in keys ==> k in values && IsBytes(k) && IsBytes(values[k])
    ensures ParseForm(EncodeKeys(keys, values)) == Pairs(keys, values)
  {
    if keys == [] {
    } else {
      ParseEncodedPair(keys[0], values[keys[0]]);
      if |keys| > 1 {
        ParseJoined(EncodePair(keys[0], values[keys[0]]), EncodeKeys(keys[1..], values));
        ParseEncoded(keys[1..], values);
      }
    }
  }

  lemma {:induction false} EncodedHasNoHash(keys: seq<string>, values: map<string, string>)
    requires forall k :: k in keys ==> k in values
    ensures '#' !in EncodeKeys(keys, values) && '?' !in EncodeKeys(keys, values)
  {
    if keys == [] {
    } else {
      EscapedIsSafe(keys[0]);
      EscapedIsSafe(values[keys[0]]);
      EncodedHasNoHash(keys[1..], values);
    }
  }

  // ---------------------------------------------------------------- the query of a URL

  /** What comes before the first `sep`, and what comes after it. */
  function Before(s: string, sep: char): string { Cut(s, sep).0 }
  function After(s: string, sep: char): string { Cut(s, sep).1 }

  /** The query component: after the first `?` of what precedes the fragment. */
  function QueryOf(u: string): string {
    After(Before(u, '#'), '?')
  }

  lemma LostBehindFragment(rendered: string, suffix: string)
    requires '#' in rendered
    ensures QueryOf(rendered + suffix) == QueryOf(rendered)
  {
    CutConcat(rendered, suffix, '#');
  }

  lemma ParseNothing()
    ensures ParseForm("") == []
  {
  }

  lemma NoFragment(u: string)
    requires '#' !in u
    ensures QueryOf(u) == After(u, '?')
  {
    hide Cut;
    CutConcat(u, "", '#');
  }

  lemma AppendedQuery(rendered: string, encoded: string)
    requires '#' !in rendered && '#' !in encoded && '?' in rendered
    ensures QueryOf(rendered + "&" + encoded) == QueryOf(rendered) + "&" + encoded
  {
    hide Cut, QueryOf;
    NoFragment(rendered);
    NoFragment(rendered + "&" + encoded);
    Assoc(rendered, "&", encoded);
    CutConcat(rendered, "&" + encoded, '?');
    Assoc(After(rendered, '?'), "&", encoded);
  }

  lemma FirstQuery(rendered: string, encoded: string)
    requires '#' !in rendered && '#' !in encoded && '?' !in rendered
    ensures QueryOf(rendered + "?" + encoded) == encoded && QueryOf(rendered) == ""
  {
    hide Cut, QueryOf;
    NoFragment(rendered);
    NoFragment(rendered + "?" + encoded);
    CutAt(rendered, encoded, '?');
    CutConcat(rendered, "", '?');
  }
}

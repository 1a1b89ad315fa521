/**
 * The JavaScript string built-ins the plugin calls (`trim`, `replace` with a
 * global two-character pattern, `replace` with a global character class,
 * `split` on one character), stated over `string`, Dafny's `seq<char>`.
 */
module JsString {

  /** The WhiteSpace and LineTerminator characters of ECMAScript, which `String.prototype.trim` strips. */
  predicate IsWhitespace(c: char) {
    var n := c as int;
    n == 0x09 || n == 0x0A || n == 0x0B || n == 0x0C || n == 0x0D || n == 0x20
    || n == 0xA0 || n == 0x1680 || (0x2000 <= n <= 0x200A) || n == 0x2028
    || n == 0x2029 || n == 0x202F || n == 0x205F || n == 0x3000 || n == 0xFEFF
  }

  /** `s` with its leading whitespace removed. */
  function TrimStart(s: string): (r: string)
    ensures |r| <= |s|
  {
    if s != [] && IsWhitespace(s[0]) then TrimStart(s[1..]) else s
  }

  /** `TrimStart` drops a whitespace prefix and stops at the first other character. */
  lemma {:induction false} TrimStartShape(s: string)
    ensures var r := TrimStart(s);
            && r == s[|s| - |r|..]
            && (forall k :: 0 <= k < |s| - |r| ==> IsWhitespace(s[k]))
            && (r == [] || !IsWhitespace(r[0]))
  {
    if s != [] && IsWhitespace(s[0]) {
      TrimStartShape(s[1..]);
    }
  }

  /** `s` with its trailing whitespace removed. */
  function TrimEnd(s: string): (r: string)
    ensures |r| <= |s|
  {
    if s != [] && IsWhitespace(s[|s| - 1]) then TrimEnd(s[..|s| - 1]) else s
  }

  /** `TrimEnd` drops a whitespace suffix and stops at the last other character. */
  lemma {:induction false} TrimEndShape(s: string)
    ensures var r := TrimEnd(s);
            && r == s[..|r|]
            && (forall k :: |r| <= k < |s| ==> IsWhitespace(s[k]))
            && (r == [] || !IsWhitespace(r[|r| - 1]))
  {
    if s != [] && IsWhitespace(s[|s| - 1]) {
      TrimEndShape(s[..|s| - 1]);
      assert s[..|s| - 1][..|TrimEnd(s)|] == s[..|TrimEnd(s)|];
    }
  }

  /** `String.prototype.trim`: the infix of `s` left after stripping whitespace at both ends. */
  function Trim(s: string): (r: string)
    ensures |r| <= |s|
  {
    TrimEnd(TrimStart(s))
  }

  /**
   * What `Trim` leaves: an infix of `s` (what follows the leading
   * whitespace, cut before the trailing whitespace) that starts and ends
   * with a non-whitespace character, made of characters of `s`.
   */
  lemma TrimShape(s: string)
    ensures Trim(s) == [] || (!IsWhitespace(Trim(s)[0]) && !IsWhitespace(Trim(s)[|Trim(s)| - 1]))
    ensures |Trim(s)| <= |TrimStart(s)| && Trim(s) == TrimStart(s)[..|Trim(s)|]
    ensures forall c :: c in Trim(s) ==> c in s
  {
    var t := TrimStart(s);
    var r := Trim(s);
    TrimStartShape(s);
    TrimEndShape(t);
    if r != [] {
      assert r[0] == t[0];
    }
    forall c | c in r ensures c in s {
      var k :| 0 <= k < |r| && r[k] == c;
      assert t[k] == c && s[|s| - |t| + k] == c;
    }
  }

  /** What `Trim` drops, at either end, is whitespace. */
  lemma TrimDropsWhitespace(s: string)
    ensures forall k :: 0 <= k < |s| - |TrimStart(s)| ==> IsWhitespace(s[k])
    ensures forall k :: |s| - |TrimStart(s)| + |Trim(s)| <= k < |s| ==> IsWhitespace(s[k])
  {
    var t := TrimStart(s);
    var lead := |s| - |t|;
    TrimStartShape(s);
    TrimEndShape(t);
    TrimShape(s);
    forall k | lead + |Trim(s)| <= k < |s| ensures IsWhitespace(s[k]) {
      assert s[k] == t[k - lead];
    }
  }

  /** The key is empty after trimming exactly when every character of it was whitespace. */
  lemma TrimEmptyIff(s: string)
    ensures Trim(s) == [] <==> forall k :: 0 <= k < |s| ==> IsWhitespace(s[k])
  {
    TrimShape(s);
    if Trim(s) != [] {
      assert Trim(s)[0] in s;
    } else {
      TrimDropsWhitespace(s);
    }
  }

  /** A text with no whitespace at either end is its own trim. */
  lemma TrimUntrimmed(s: string)
    requires s == [] || (!IsWhitespace(s[0]) && !IsWhitespace(s[|s| - 1]))
    ensures Trim(s) == s
  {
  }

  /** Trimming twice is trimming once. */
  lemma TrimIdempotent(s: string)
    ensures Trim(Trim(s)) == Trim(s)
  {
    var t := Trim(s);
    TrimShape(s);
    assert TrimStart(t) == t;
    assert TrimEnd(t) == t;
  }

  /**
   * `s.replace(/\\q/g, q)`: every two-character sequence backslash-`q`, found
   * left to right without overlap, becomes `q` alone.
   */
  function UnescapeQuote(s: string, q: char): (r: string)
    ensures |r| <= |s|
  {
    if |s| >= 2 && s[0] == '\\' && s[1] == q then [q] + UnescapeQuote(s[2..], q)
    else if s == [] then []
    else [s[0]] + UnescapeQuote(s[1..], q)
  }

  /** Unescaping only drops backslashes: a text without one is unchanged, and no character is new. */
  lemma {:induction false} UnescapeQuoteShape(s: string, q: char)
    ensures (forall k :: 0 <= k < |s| ==> s[k] != '\\') ==> UnescapeQuote(s, q) == s
    ensures forall c :: c in UnescapeQuote(s, q) ==> c in s
  {
    if |s| >= 2 && s[0] == '\\' && s[1] == q {
      UnescapeQuoteShape(s[2..], q);
    } else if s != [] {
      UnescapeQuoteShape(s[1..], q);
      assert forall k :: 0 <= k < |s| - 1 ==> s[1..][k] == s[k + 1];
    }
  }

  /** The inverse direction: a backslash put before every `q`, as a quoted literal holds it. */
  function EscapeQuote(s: string, q: char): (r: string)
    ensures |r| == |s| + multiset(s)[q]
  {
    if s == [] then []
    else
      assert s == [s[0]] + s[1..];
      (if s[0] == q then ['\\', q] else [s[0]]) + EscapeQuote(s[1..], q)
  }

  /** Unescaping undoes escaping, for any quote character other than the backslash itself. */
  lemma {:induction false} UnescapeEscapeQuote(s: string, q: char)
    requires q != '\\'
    ensures UnescapeQuote(EscapeQuote(s, q), q) == s
  {
    if s != [] {
      var rest := EscapeQuote(s[1..], q);
      UnescapeEscapeQuote(s[1..], q);
      if s[0] == q {
        assert EscapeQuote(s, q) == ['\\', q] + rest;
        assert (['\\', q] + rest)[2..] == rest;
      } else {
        assert EscapeQuote(s, q) == [s[0]] + rest;
        EscapeQuoteHead(s[1..], q);
        assert ([s[0]] + rest)[1..] == rest;
      }
    }
  }

  /** An escaped text never starts with the quote itself. */
  lemma EscapeQuoteHead(s: string, q: char)
    requires q != '\\'
    ensures EscapeQuote(s, q) == [] || EscapeQuote(s, q)[0] != q
  {
  }

  /** Escaping keeps the ends of a text: it starts with a backslash or the first character, and ends with the last. */
  lemma {:induction false} EscapeQuoteEnds(s: string, q: char)
    requires s != []
    ensures var e := EscapeQuote(s, q); |e| >= |s| && (e[0] == '\\' || e[0] == s[0]) && e[|e| - 1] == s[|s| - 1]
  {
    if |s| > 1 {
      EscapeQuoteEnds(s[1..], q);
    }
  }

  /** Escaping the quotes of a key with no whitespace at either end keeps it untouched by `trim`. */
  lemma EscapeQuoteUntrimmed(s: string, q: char)
    requires s != [] && !IsWhitespace(s[0]) && !IsWhitespace(s[|s| - 1])
    ensures Trim(EscapeQuote(s, q)) == EscapeQuote(s, q)
  {
    EscapeQuoteEnds(s, q);
    assert !IsWhitespace('\\');
    TrimUntrimmed(EscapeQuote(s, q));
  }

  /** `s.replace(/[...]/g, '')`: every character of `cs` removed, the others kept in order. */
  function RemoveAll(s: string, cs: set<char>): (r: string)
    ensures |r| <= |s|
  {
    if s == [] then []
    else (if s[0] in cs then [] else [s[0]]) + RemoveAll(s[1..], cs)
  }

  /** What is left after removal: exactly the characters of `s` outside `cs`. */
  lemma {:induction false} RemoveAllChars(s: string, cs: set<char>)
    ensures forall c :: c in RemoveAll(s, cs) <==> c in s && c !in cs
  {
    if s != [] {
      RemoveAllChars(s[1..], cs);
      assert s == [s[0]] + s[1..];
    }
  }

  /** Removing characters that do not occur changes nothing. */
  lemma {:induction false} RemoveAllAbsent(s: string, cs: set<char>)
    requires forall c :: c in cs ==> c !in s
    ensures RemoveAll(s, cs) == s
  {
    if s != [] {
      assert s[0] in s;
      assert forall c :: c in s[1..] ==> c in s;
      RemoveAllAbsent(s[1..], cs);
      assert s == [s[0]] + s[1..];
    }
  }

  /** `parts.join(sep)`. */
  function Join(parts: seq<string>, sep: char): string {
    if parts == [] then []
    else if |parts| == 1 then parts[0]
    else parts[0] + [sep] + Join(parts[1..], sep)
  }

  /** Every character of a part occurs in the joined text. */
  lemma {:induction false} JoinHasParts(parts: seq<string>, sep: char, i: nat, c: char)
    requires i < |parts| && c in parts[i]
    ensures c in Join(parts, sep)
  {
    if |parts| > 1 {
      if i == 0 {
        assert c in parts[0] + [sep] + Join(parts[1..], sep);
      } else {
        JoinHasParts(parts[1..], sep, i - 1, c);
        assert c in parts[0] + [sep] + Join(parts[1..], sep);
      }
    }
  }

  /**
   * `s.split(sep)` for a one-character separator: the maximal pieces between
   * separators, one more piece than there are separators, `[""]` for `""`.
   */
  function Split(s: string, sep: char): (r: seq<string>)
    ensures |r| >= 1
  {
    if s == [] then [[]]
    else
      var t := Split(s[1..], sep);
      if s[0] == sep then [[]] + t else [[s[0]] + t[0]] + t[1..]
  }

  /** The pieces: one more than there are separators, none holding one, joined back into `s`. */
  lemma {:induction false} SplitShape(s: string, sep: char)
    ensures var r := Split(s, sep);
            |r| == multiset(s)[sep] + 1 && (forall i :: 0 <= i < |r| ==> sep !in r[i]) && Join(r, sep) == s
  {
    if s != [] {
      SplitShape(s[1..], sep);
      SplitStep(s, sep, Split(s[1..], sep));
    }
  }

  /** The inductive step of `Split`: one more character in front of the pieces of the rest. */
  lemma SplitStep(s: string, sep: char, t: seq<string>)
    requires s != []
    requires |t| == multiset(s[1..])[sep] + 1
    requires forall i :: 0 <= i < |t| ==> sep !in t[i]
    requires Join(t, sep) == s[1..]
    ensures var r := if s[0] == sep then [[]] + t else [[s[0]] + t[0]] + t[1..];
      |r| == multiset(s)[sep] + 1 && (forall i :: 0 <= i < |r| ==> sep !in r[i]) && Join(r, sep) == s
  {
    assert s == [s[0]] + s[1..];
    if s[0] == sep {
      var r := [[]] + t;
      assert r[1..] == t;
    } else {
      var r := [[s[0]] + t[0]] + t[1..];
      assert forall i :: 1 <= i < |r| ==> r[i] == t[i];
      JoinConsHead(s[0], t, sep);
    }
  }

  /** Prepending a character to the first piece prepends it to the joined text. */
  lemma JoinConsHead(c: char, t: seq<string>, sep: char)
    requires |t| >= 1
    ensures Join([[c] + t[0]] + t[1..], sep) == [c] + Join(t, sep)
  {
    var r := [[c] + t[0]] + t[1..];
    assert r[1..] == t[1..];
    if |t| > 1 {
      assert Join(r, sep) == r[0] + [sep] + Join(t[1..], sep);
    }
  }
}

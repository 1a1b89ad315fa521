/**
 * The pattern table: the seventeen built-in extraction patterns, in the order
 * the plugin runs them, with the configured interpolation delimiters
 * regex-escaped into the two filter patterns, followed by the caller's extra
 * patterns registered as `others_<index>`.
 */
module Patterns {

  /** The characters `escapeRegExp` puts a backslash in front of. */
  predicate IsRegExpSyntax(c: char) {
    c in "-[]/{}()*+?.\\^$|"
  }

  /** How many characters of `s` are regular-expression syntax. */
  function SyntaxCount(s: string): nat {
    if s == [] then 0 else (if IsRegExpSyntax(s[0]) then 1 else 0) + SyntaxCount(s[1..])
  }

  /** `escapeRegExp`: a backslash before every syntax character, every other character kept. */
  function EscapeRegExp(s: string): (r: string)
    ensures |r| == |s| + SyntaxCount(s)
  {
    if s == [] then []
    else (if IsRegExpSyntax(s[0]) then ['\\', s[0]] else [s[0]]) + EscapeRegExp(s[1..])
  }

  /** Reading a pattern back as literal text: a backslash stands for the character after it. */
  function UnescapeRegExp(p: string): string {
    if p == [] then []
    else if |p| >= 2 && p[0] == '\\' then [p[1]] + UnescapeRegExp(p[2..])
    else [p[0]] + UnescapeRegExp(p[1..])
  }

  /**
   * A pattern every syntax character of which is escaped: it matches exactly
   * its literal reading and nothing else.
   */
  predicate IsLiteralPattern(p: string) {
    if p == [] then true
    else if p[0] == '\\' then |p| >= 2 && IsRegExpSyntax(p[1]) && IsLiteralPattern(p[2..])
    else !IsRegExpSyntax(p[0]) && IsLiteralPattern(p[1..])
  }

  /** Escaping leaves no syntax character unescaped, and the pattern reads back as the delimiter. */
  lemma {:induction false} EscapeRegExpIsLiteral(s: string)
    ensures IsLiteralPattern(EscapeRegExp(s))
    ensures UnescapeRegExp(EscapeRegExp(s)) == s
  {
    if s != [] {
      var rest := EscapeRegExp(s[1..]);
      EscapeRegExpIsLiteral(s[1..]);
      if IsRegExpSyntax(s[0]) {
        assert EscapeRegExp(s) == ['\\', s[0]] + rest;
        assert (['\\', s[0]] + rest)[2..] == rest;
      } else {
        assert EscapeRegExp(s) == [s[0]] + rest;
        assert ([s[0]] + rest)[1..] == rest;
      }
    }
  }

  /** A delimiter without syntax characters is used verbatim. */
  lemma {:induction false} EscapeRegExpPlain(s: string)
    requires forall k :: 0 <= k < |s| ==> !IsRegExpSyntax(s[k])
    ensures EscapeRegExp(s) == s
  {
    if s != [] {
      EscapeRegExpPlain(s[1..]);
      assert s == [s[0]] + s[1..];
    }
  }

  /** The `interpolation` option: the delimiters around an Angular expression. */
  datatype Interpolation = Interpolation(startDelimiter: string, endDelimiter: string)

  /** Used when the `interpolation` option is not given. */
  const DefaultInterpolation := Interpolation("{{", "}}")

  /** The built-in patterns. */
  datatype Builtin =
      CommentSimpleQuote
    | CommentDoubleQuote
    | HtmlFilterSimpleQuote
    | HtmlFilterDoubleQuote
    | HtmlDirective
    | HtmlDirectiveStandalone
    | HtmlDirectivePluralLast
    | HtmlDirectivePluralFirst
    | HtmlNgBindHtml
    | JavascriptServiceSimpleQuote
    | JavascriptServiceDoubleQuote
    | JavascriptServiceArraySimpleQuote
    | JavascriptServiceArrayDoubleQuote
    | JavascriptServiceInstantSimpleQuote
    | JavascriptServiceInstantDoubleQuote
    | JavascriptFilterSimpleQuote
    | JavascriptFilterDoubleQuote

  /**
   * The name of a table entry: a built-in pattern, or the caller's extra
   * pattern at `index`. `NameText` is the property name the plugin uses.
   */
  datatype PatternName = Builtin(builtin: Builtin) | Custom(index: nat)

  /** The property names of the built-in patterns in the `regexs` object, in `BuiltinOrder`. */
  const BuiltinNames: seq<string> := [
    "commentSimpleQuote",
    "commentDoubleQuote",
    "HtmlFilterSimpleQuote",
    "HtmlFilterDoubleQuote",
    "HtmlDirective",
    "HtmlDirectiveStandalone",
    "HtmlDirectivePluralLast",
    "HtmlDirectivePluralFirst",
    "HtmlNgBindHtml",
    "JavascriptServiceSimpleQuote",
    "JavascriptServiceDoubleQuote",
    "JavascriptServiceArraySimpleQuote",
    "JavascriptServiceArrayDoubleQuote",
    "JavascriptServiceInstantSimpleQuote",
    "JavascriptServiceInstantDoubleQuote",
    "JavascriptFilterSimpleQuote",
    "JavascriptFilterDoubleQuote"]

  /** The position of a built-in pattern in the `regexs` object literal. */
  function BuiltinIndex(b: Builtin): (k: nat)
    ensures k < |BuiltinOrder| && BuiltinOrder[k] == b
  {
    match b
    case CommentSimpleQuote => 0
    case CommentDoubleQuote => 1
    case HtmlFilterSimpleQuote => 2
    case HtmlFilterDoubleQuote => 3
    case HtmlDirective => 4
    case HtmlDirectiveStandalone => 5
    case HtmlDirectivePluralLast => 6
    case HtmlDirectivePluralFirst => 7
    case HtmlNgBindHtml => 8
    case JavascriptServiceSimpleQuote => 9
    case JavascriptServiceDoubleQuote => 10
    case JavascriptServiceArraySimpleQuote => 11
    case JavascriptServiceArrayDoubleQuote => 12
    case JavascriptServiceInstantSimpleQuote => 13
    case JavascriptServiceInstantDoubleQuote => 14
    case JavascriptFilterSimpleQuote => 15
    case JavascriptFilterDoubleQuote => 16
  }

  /** The property name of a built-in pattern in the `regexs` object. */
  function BuiltinText(b: Builtin): string {
    BuiltinNames[BuiltinIndex(b)]
  }

  /** The property name a table entry is registered under: extra patterns get `others_<index>`. */
  function NameText(n: PatternName): string {
    match n
    case Builtin(b) => BuiltinText(b)
    case Custom(index) => CustomName(index)
  }

  /** The built-in patterns, in the order of the `regexs` object literal. */
  const BuiltinOrder: seq<Builtin> := [
    CommentSimpleQuote, CommentDoubleQuote, HtmlFilterSimpleQuote, HtmlFilterDoubleQuote,
    HtmlDirective, HtmlDirectiveStandalone, HtmlDirectivePluralLast, HtmlDirectivePluralFirst,
    HtmlNgBindHtml, JavascriptServiceSimpleQuote, JavascriptServiceDoubleQuote,
    JavascriptServiceArraySimpleQuote, JavascriptServiceArrayDoubleQuote,
    JavascriptServiceInstantSimpleQuote, JavascriptServiceInstantDoubleQuote,
    JavascriptFilterSimpleQuote, JavascriptFilterDoubleQuote]

  /** One entry of the pattern table: its name and the source text of its regular expression. */
  datatype Pattern = Pattern(name: PatternName, source: string)

  /** The body of the single-quoted interpolation-filter pattern, between the two delimiters. */
  const FilterSimpleQuoteBody := @"\s*'((?:\\.|[^'\\])*)'\s*\|\s*translate(:.*?)?\s*"
  /** The body of the double-quoted interpolation-filter pattern, between the two delimiters. */
  const FilterDoubleQuoteBody := @"\s*""((?:\\.|[^""\\])*)""\s*\|\s*translate(:.*?)?\s*"

  /** A filter pattern body placed between the regex-escaped interpolation delimiters. */
  function Delimited(i: Interpolation, body: string): (r: string)
    ensures var start, end := EscapeRegExp(i.startDelimiter), EscapeRegExp(i.endDelimiter);
            |r| == |start| + |body| + |end| && r[..|start|] == start && r[|start|..|start| + |body|] == body
            && r[|r| - |end|..] == end
  {
    EscapeRegExp(i.startDelimiter) + body + EscapeRegExp(i.endDelimiter)
  }

  /**
   * The part of a built-in pattern's source that does not depend on the
   * delimiters: the whole source, or for the two filter patterns the body
   * between the delimiters.
   */
  function SourceBody(b: Builtin): string {
    match b
    case CommentSimpleQuote => @"\/\*\s*i18nextract\s*\*\/'((?:\\.|[^'\\])*)'"
    case CommentDoubleQuote => @"\/\*\s*i18nextract\s*\*\/""((?:\\.|[^""\\])*)"""
    case HtmlFilterSimpleQuote => FilterSimpleQuoteBody
    case HtmlFilterDoubleQuote => FilterDoubleQuoteBody
    case HtmlDirective => @"<[^>]*translate[^{>]*>([^<]*)</[^>]*>"
    case HtmlDirectiveStandalone => @"translate=""((?:\\.|[^""\\])*)"""
    case HtmlDirectivePluralLast => @"translate=""((?:\\.|[^""\\])*)"".*angular-plural-extract=""((?:\\.|[^""\\])*)"""
    case HtmlDirectivePluralFirst => @"angular-plural-extract=""((?:\\.|[^""\\])*)"".*translate=""((?:\\.|[^""\\])*)"""
    case HtmlNgBindHtml => @"ng-bind-html=""\s*'((?:\\.|[^'\\])*)'\s*\|\s*translate(:.*?)?\s*"""
    case JavascriptServiceSimpleQuote => @"\$translate\(\s*'((?:\\.|[^'\\])*)'[^\)]*\)"
    case JavascriptServiceDoubleQuote => @"\$translate\(\s*""((?:\\.|[^""\\])*)""[^\)]*\)"
    case JavascriptServiceArraySimpleQuote => @"\$translate\((?:\s*(\[\s*(?:(?:'(?:(?:\.|[^.*'\\])*)')\s*,*\s*)+\s*\])\s*)\)"
    case JavascriptServiceArrayDoubleQuote => @"\$translate\((?:\s*(\[\s*(?:(?:""(?:(?:\.|[^.*'\\])*)"")\s*,*\s*)+\s*\])\s*)\)"
    case JavascriptServiceInstantSimpleQuote => @"\$translate\.instant\(\s*'((?:\\.|[^'\\])*)'[^\)]*\)"
    case JavascriptServiceInstantDoubleQuote => @"\$translate\.instant\(\s*""((?:\\.|[^""\\])*)""[^\)]*\)"
    case JavascriptFilterSimpleQuote => @"\$filter\(\s*'translate'\s*\)\s*\(\s*'((?:\\.|[^'\\])*)'[^\)]*\)"
    case JavascriptFilterDoubleQuote => @"\$filter\(\s*""translate""\s*\)\s*\(\s*""((?:\\.|[^""\\])*)""[^\)]*\)"
  }

  /** Whether the pattern is one of the two interpolation-filter patterns. */
  predicate IsFilterBuiltin(b: Builtin) {
    b == HtmlFilterSimpleQuote || b == HtmlFilterDoubleQuote
  }

  /**
   * The source of a built-in pattern, for the given delimiters: only the two
   * filter patterns splice in the delimiters, around their fixed body.
   */
  function BuiltinSource(b: Builtin, i: Interpolation): (r: string)
    ensures IsFilterBuiltin(b) ==> r == Delimited(i, SourceBody(b))
    ensures !IsFilterBuiltin(b) ==> r == SourceBody(b)
  {
    if IsFilterBuiltin(b) then Delimited(i, SourceBody(b)) else SourceBody(b)
  }

  /** The built-in patterns, in the order the `regexs` object literal lists them. */
  function BuiltinPatterns(i: Interpolation): (t: seq<Pattern>)
    ensures |t| == |BuiltinOrder|
    ensures forall k :: 0 <= k < |t| ==> t[k].name == Builtin(BuiltinOrder[k])
  {
    seq(|BuiltinOrder|, k requires 0 <= k < |BuiltinOrder| => Pattern(Builtin(BuiltinOrder[k]), BuiltinSource(BuiltinOrder[k], i)))
  }

  /**
   * Only the two interpolation-filter patterns depend on the delimiters, and
   * each is the escaped start delimiter, a fixed body, the escaped end delimiter.
   */
  lemma DelimitersOnlyInFilterPatterns(i: Interpolation, j: Interpolation)
    ensures forall b :: b != HtmlFilterSimpleQuote && b != HtmlFilterDoubleQuote ==> BuiltinSource(b, i) == BuiltinSource(b, j)
    ensures BuiltinSource(HtmlFilterSimpleQuote, i)
      == EscapeRegExp(i.startDelimiter) + FilterSimpleQuoteBody + EscapeRegExp(i.endDelimiter)
    ensures BuiltinSource(HtmlFilterDoubleQuote, i)
      == EscapeRegExp(i.startDelimiter) + FilterDoubleQuoteBody + EscapeRegExp(i.endDelimiter)
  {
  }

  /** The decimal digit for `d`. */
  function Digit(d: nat): char
    requires d < 10
  {
    "0123456789"[d]
  }

  /** The decimal representation JavaScript gives an array index converted to a string. */
  function DecimalString(n: nat): (r: string)
    ensures |r| >= 1 && (n >= 10 ==> |r| >= 2)
    ensures r[|r| - 1] == Digit(n % 10)
  {
    if n < 10 then [Digit(n)] else DecimalString(n / 10) + [Digit(n % 10)]
  }

  /** Different indexes have different decimal representations. */
  lemma {:induction false} DecimalStringInjective(a: nat, b: nat)
    requires DecimalString(a) == DecimalString(b)
    ensures a == b
  {
    var s := DecimalString(a);
    assert Digit(a % 10) == Digit(b % 10);
    assert a % 10 == b % 10;
    if a >= 10 && b >= 10 {
      assert DecimalString(a / 10) == s[..|s| - 1] == DecimalString(b / 10);
      DecimalStringInjective(a / 10, b / 10);
    }
  }

  /** The name the caller's extra pattern at `index` is registered under. */
  function CustomName(index: nat): (r: string)
    ensures |r| > 7 && r[..7] == "others_"
  {
    "others_" + DecimalString(index)
  }

  /** The caller's extra patterns, registered in order, each with its source unchanged. */
  function CustomPatterns(custom: seq<string>): (t: seq<Pattern>)
    ensures |t| == |custom|
    ensures forall k :: 0 <= k < |t| ==> t[k].name == Custom(k) && t[k].source == custom[k]
  {
    seq(|custom|, k requires 0 <= k < |custom| => Pattern(Custom(k), custom[k]))
  }

  /** No two entries of a table are registered under the same property name. */
  predicate DistinctNames(t: seq<Pattern>) {
    forall a, b :: 0 <= a < b < |t| ==> NameText(t[a].name) != NameText(t[b].name)
  }

  /**
   * Builds the table the extraction runs: the built-in patterns, then one
   * `others_<index>` entry per extra pattern, none of which replaces an
   * entry already there.
   */
  method BuildPatternTable(i: Interpolation, custom: seq<string>) returns (table: seq<Pattern>)
    ensures table == BuiltinPatterns(i) + CustomPatterns(custom)
    ensures DistinctNames(table)
  {
    table := BuiltinPatterns(i);
    BuiltinTextsDistinct(i);
    var k := 0;
    while k < |custom|
      invariant 0 <= k <= |custom|
      invariant table == BuiltinPatterns(i) + CustomPatterns(custom[..k])
      invariant DistinctNames(table)
    {
      var entry := Pattern(Custom(k), custom[k]);
      forall a | 0 <= a < |table| ensures NameText(table[a].name) != NameText(entry.name) {
        if NameText(table[a].name) == NameText(entry.name) {
          NameTextInjective(table[a].name, entry.name);
          assert false;
        }
      }
      assert CustomPatterns(custom[..k + 1]) == CustomPatterns(custom[..k]) + [entry];
      table := table + [entry];
      k := k + 1;
    }
    assert custom[..k] == custom;
  }

  /**
   * Tells a built-in name apart from the others by its length and its tenth
   * character from the end (`S`/`i` of `Simple`, `D`/`o` of `Double`).
   */
  function BuiltinFromSignature(len: int, c: char): Builtin {
    if len == 13 then HtmlDirective
    else if len == 14 then HtmlNgBindHtml
    else if len == 24 then HtmlDirectivePluralFirst
    else if len == 23 then (if c == 'S' then HtmlDirectiveStandalone else HtmlDirectivePluralLast)
    else if len == 18 then (if c == 'i' then CommentSimpleQuote else CommentDoubleQuote)
    else if len == 21 then (if c == 'i' then HtmlFilterSimpleQuote else HtmlFilterDoubleQuote)
    else if len == 27 then (if c == 'i' then JavascriptFilterSimpleQuote else JavascriptFilterDoubleQuote)
    else if len == 28 then (if c == 'i' then JavascriptServiceSimpleQuote else JavascriptServiceDoubleQuote)
    else if len == 33 then (if c == 'i' then JavascriptServiceArraySimpleQuote else JavascriptServiceArrayDoubleQuote)
    else if c == 'i' then JavascriptServiceInstantSimpleQuote else JavascriptServiceInstantDoubleQuote
  }

  /** Every built-in pattern is recovered from the signature of its name. */
  lemma BuiltinSignature(b: Builtin)
    ensures |BuiltinText(b)| >= 10
    ensures BuiltinFromSignature(|BuiltinText(b)|, BuiltinText(b)[|BuiltinText(b)| - 10]) == b
  {
    match b
    case CommentSimpleQuote =>
    case CommentDoubleQuote =>
    case HtmlFilterSimpleQuote =>
    case HtmlFilterDoubleQuote =>
    case HtmlDirective =>
    case HtmlDirectiveStandalone =>
    case HtmlDirectivePluralLast =>
    case HtmlDirectivePluralFirst =>
    case HtmlNgBindHtml =>
    case JavascriptServiceSimpleQuote =>
    case JavascriptServiceDoubleQuote =>
    case JavascriptServiceArraySimpleQuote =>
    case JavascriptServiceArrayDoubleQuote =>
    case JavascriptServiceInstantSimpleQuote =>
    case JavascriptServiceInstantDoubleQuote =>
    case JavascriptFilterSimpleQuote =>
    case JavascriptFilterDoubleQuote =>
  }

  /** Different built-in patterns have different names. */
  lemma BuiltinTextInjective(x: Builtin, y: Builtin)
    requires BuiltinText(x) == BuiltinText(y)
    ensures x == y
  {
    BuiltinSignature(x);
    BuiltinSignature(y);
  }

  /** `BuiltinOrder` lists every built-in pattern once, at its `BuiltinIndex`. */
  lemma BuiltinOrderIndex(k: nat)
    requires k < |BuiltinOrder|
    ensures BuiltinIndex(BuiltinOrder[k]) == k
  {
  }

  /** The built-in entries are registered under pairwise different names. */
  lemma BuiltinTextsDistinct(i: Interpolation)
    ensures DistinctNames(BuiltinPatterns(i))
  {
    var t := BuiltinPatterns(i);
    forall a, b | 0 <= a < b < |t| ensures NameText(t[a].name) != NameText(t[b].name) {
      if NameText(t[a].name) == NameText(t[b].name) {
        BuiltinTextInjective(BuiltinOrder[a], BuiltinOrder[b]);
        BuiltinOrderIndex(a);
        BuiltinOrderIndex(b);
      }
    }
  }

  /** No built-in name starts like the `others_` names of extra patterns. */
  lemma BuiltinTextInitial(b: Builtin)
    ensures BuiltinText(b) != [] && BuiltinText(b)[0] != 'o'
  {
    assert forall k :: 0 <= k < |BuiltinNames| ==> BuiltinNames[k] != [] && BuiltinNames[k][0] != 'o';
  }

  /** Different table entries have different property names: the plugin's switches on the name tell them apart. */
  lemma NameTextInjective(a: PatternName, b: PatternName)
    requires NameText(a) == NameText(b)
    ensures a == b
  {
    match (a, b)
    case (Builtin(x), Builtin(y)) =>
      BuiltinTextInjective(x, y);
    case (Builtin(x), Custom(n)) =>
      BuiltinTextInitial(x);
    case (Custom(n), Builtin(y)) =>
      BuiltinTextInitial(y);
    case (Custom(m), Custom(n)) =>
      assert CustomName(m)[7..] == DecimalString(m);
      assert CustomName(n)[7..] == DecimalString(n);
      DecimalStringInjective(m, n);
  }
}

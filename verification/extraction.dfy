/**
 * What `_extractTranslation` does with each match of a pattern, and what the
 * dispatch over the pattern table does with one file's content, stated as
 * specification functions over the accumulated `results` map (translation
 * key to default value). The imperative versions that run these steps in
 * place are the methods of `Plugin.TranslateExtractor`.
 *
 * Regular-expression matching itself is not modelled: a `RegexEngine` gives
 * the successive `exec` results of a pattern over a text, and an `Evaluator`
 * gives what `eval` makes of a plural hint.
 */
module Extraction {
  import opened Wrappers
  import opened JsString
  import opened Patterns

  /** One `exec` result: the matched text and the capture groups, in order. */
  datatype RegexMatch = RegexMatch(whole: string, groups: seq<string>) {
    /** The array `r` that `exec` returns: `r[0]` is the whole match, `r[1..]` the groups. */
    function Elements(): (r: seq<string>)
      ensures |r| == |groups| + 1 && r[0] == whole && r[1..] == groups
    {
      [whole] + groups
    }
  }

  /**
   * The regular-expression engine: the successive results of `exec` for the
   * pattern with the given source (flags `gi`) over a text, from `lastIndex` 0.
   */
  type RegexEngine = (string, string) -> seq<RegexMatch>

  /** `eval` of a plural hint: `Some(items)` when the text evaluates to an array, `None` otherwise. */
  type Evaluator = string -> Option<seq<string>>

  /** Whether `new RegExp(source, "gi")` accepts a pattern source; a source it rejects throws a `SyntaxError`. */
  type RegexSyntax = string -> bool

  /** The value of the function-scoped `translationKey` variable: it stays `undefined` until assigned. */
  datatype Key = Undefined | Defined(text: string)

  /** The property name a key becomes when used as `results[key]`. */
  function PropertyName(k: Key): string {
    match k
    case Undefined => "undefined"
    case Defined(s) => s
  }

  /** One write `results[key] = value`. */
  datatype Entry = Entry(key: string, value: string)

  /** What one match does: nothing (fewer than two elements), end the scan (empty key), or write entries. */
  datatype Step = Ignored | Stopped | Wrote(entries: seq<Entry>)

  /**
   * The quote a pattern's keys are unescaped for: `\'` becomes `'` for the
   * simple-quote family, `\"` becomes `"` for the double-quote family, and
   * keys of every other pattern are left as captured.
   */
  function KeyQuote(name: PatternName): (q: Option<char>)
    ensures q.Some? ==> (q.value == '\'' || q.value == '"') && name.Builtin? && !IsBatchPattern(name)
    ensures q.Some? ==> name != Builtin(HtmlDirectivePluralFirst) && name != Builtin(HtmlDirectivePluralLast)
  {
    match name
    case Custom(_) => None
    case Builtin(b) =>
      match b
      case CommentSimpleQuote | HtmlFilterSimpleQuote | JavascriptServiceSimpleQuote
        | JavascriptServiceInstantSimpleQuote | JavascriptFilterSimpleQuote | HtmlNgBindHtml => Some('\'')
      case CommentDoubleQuote | HtmlFilterDoubleQuote | JavascriptServiceDoubleQuote
        | JavascriptServiceInstantDoubleQuote | JavascriptFilterDoubleQuote => Some('"')
      case _ => None
  }

  /** The `$translate([...])` patterns, whose capture is a literal array of keys. */
  predicate IsBatchPattern(name: PatternName) {
    name == Builtin(JavascriptServiceArraySimpleQuote) || name == Builtin(JavascriptServiceArrayDoubleQuote)
  }

  /** The key as stored: quote-unescaped according to the pattern's family, otherwise unchanged. */
  function UnescapeKey(name: PatternName, key: string): string {
    match KeyQuote(name)
    case Some(q) => UnescapeQuote(key, q)
    case None => key
  }

  /** The quote character a batch pattern's array literal uses. */
  function BatchQuote(name: PatternName): char {
    if name == Builtin(JavascriptServiceArraySimpleQuote) then '\'' else '"'
  }

  /** The pieces of a batch capture: quotes of its family and brackets removed, then split on commas. */
  function BatchItems(name: PatternName, key: string): seq<string> {
    Split(RemoveAll(RemoveAll(key, {BatchQuote(name)}), {'[', ']'}), ',')
  }

  /** The key one batch piece is stored under: `\"` unescaped, then trimmed. */
  function BatchKey(item: string): string {
    Trim(UnescapeQuote(item, '"'))
  }

  /** The writes for the pieces of a batch capture: one per piece, in order, each with the given value. */
  function ItemEntries(items: seq<string>, value: string): (es: seq<Entry>)
    ensures |es| == |items|
  {
    seq(|items|, k requires 0 <= k < |items| => Entry(BatchKey(items[k]), value))
  }

  /** The writes of a batch capture. */
  function BatchEntries(name: PatternName, key: string, value: string): (es: seq<Entry>)
    ensures |es| == |BatchItems(name, key)|
    ensures forall k :: 0 <= k < |es| ==> es[k].key == BatchKey(BatchItems(name, key)[k]) && es[k].value == value
  {
    ItemEntries(BatchItems(name, key), value)
  }

  /**
   * The default value built from an evaluated plural hint with at least two
   * forms, as the code writes it: the third form, when present and non-empty,
   * is appended after a space, and no `}` closes the outer brace.
   */
  function PluralTemplate(forms: seq<string>): (t: string)
    requires |forms| >= 2
    ensures |t| >= 17 + |forms[0]| && t[..17] == "{NB, plural, one{" && t[17..17 + |forms[0]|] == forms[0]
  {
    "{NB, plural, one{" + forms[0] + "} other{" + forms[1] + "}"
    + (if |forms| > 2 && forms[2] != "" then " " + forms[2] else "")
  }

  /** The default value for the plural-last pattern: a template when the hint is an array of two or more forms. */
  function PluralDefault(hint: Option<seq<string>>): (v: string)
    ensures v == "" || (|v| >= 17 && v[..17] == "{NB, plural, one{")
  {
    if hint.Some? && |hint.value| >= 2 then PluralTemplate(hint.value) else ""
  }

  /** `eval(r[2])`, the hint of a plural-last match: an absent element evaluates to `undefined`, which is not an array. */
  function PluralHint(m: RegexMatch, evaluate: Evaluator): Option<seq<string>> {
    if |m.groups| > 1 then evaluate(m.groups[1]) else None
  }

  /** The writes for a trimmed, non-empty key `key` of the pattern called `name`. */
  function KeyEntries(name: PatternName, key: string, value: string): seq<Entry> {
    if IsBatchPattern(name) then BatchEntries(name, key, value)
    else [Entry(UnescapeKey(name, key), value)]
  }

  /** The default value a match starts from: the plural template for the plural-last pattern, `""` otherwise. */
  function MatchValue(name: PatternName, m: RegexMatch, evaluate: Evaluator): string {
    if name == Builtin(HtmlDirectivePluralLast) then PluralDefault(PluralHint(m, evaluate)) else ""
  }

  /** What a trimmed key does: an empty one ends the call, any other is written with `value`. */
  function KeyStepOf(name: PatternName, key: string, value: string): Step {
    if key == "" then Stopped else Wrote(KeyEntries(name, key, value))
  }

  /**
   * The effect of one match of the pattern called `name` inside
   * `_extractTranslation`; `r[1]` of the `exec` result is `m.groups[0]`.
   */
  function MatchStep(name: PatternName, m: RegexMatch, evaluate: Evaluator): (step: Step)
    ensures step.Ignored? <==> m.groups == []
    ensures step.Wrote? ==> step.entries != []
  {
    if m.groups == [] then Ignored
    // the plural-first branch only swaps r[1] and r[2]; the key stays undefined
    else if name == Builtin(HtmlDirectivePluralFirst) then Wrote([Entry(PropertyName(Undefined), "")])
    else KeyStepOf(name, Trim(m.groups[0]), MatchValue(name, m, evaluate))
  }

  /** The keys a sequence of writes touches. */
  function KeysOf(es: seq<Entry>): set<string> {
    set k | 0 <= k < |es| :: es[k].key
  }

  /** The value the last write to `key` stores. */
  function LastValue(es: seq<Entry>, key: string): string
    requires key in KeysOf(es)
  {
    var n := |es| - 1;
    if es[n].key == key then es[n].value
    else
      assert key in KeysOf(es[..n]) by {
        var k :| 0 <= k < |es| && es[k].key == key;
        assert es[..n][k].key == key;
      }
      LastValue(es[..n], key)
  }

  /** Performs the writes in order on `results`. */
  function Write(results: map<string, string>, es: seq<Entry>): (r: map<string, string>)
    ensures results.Keys <= r.Keys
    ensures es != [] ==> es[|es| - 1].key in r && r[es[|es| - 1].key] == es[|es| - 1].value
  {
    if es == [] then results
    else
      var n := |es| - 1;
      Write(results, es[..n])[es[n].key := es[n].value]
  }

  /** Writing overwrites: the last write to a key wins, and every other entry is untouched. */
  lemma {:induction false} WriteEffect(results: map<string, string>, es: seq<Entry>)
    ensures Write(results, es).Keys == results.Keys + KeysOf(es)
    ensures forall k :: k in KeysOf(es) ==> Write(results, es)[k] == LastValue(es, k)
    ensures forall k :: k in results && k !in KeysOf(es) ==> Write(results, es)[k] == results[k]
  {
    if es != [] {
      var n := |es| - 1;
      WriteEffect(results, es[..n]);
      KeysOfLast(es);
    }
  }

  /** The keys of a non-empty sequence of writes: those before the last, and the last one's. */
  lemma KeysOfLast(es: seq<Entry>)
    requires es != []
    ensures KeysOf(es) == KeysOf(es[..|es| - 1]) + {es[|es| - 1].key}
  {
    var n := |es| - 1;
    forall k | k in KeysOf(es) ensures k in KeysOf(es[..n]) + {es[n].key} {
      var i :| 0 <= i < |es| && es[i].key == k;
      if i < n { assert es[..n][i] == es[i]; }
    }
    forall k | k in KeysOf(es[..n]) ensures k in KeysOf(es) {
      var i :| 0 <= i < n && es[..n][i].key == k;
      assert es[i] == es[..n][i];
    }
  }

  /** The effect of each match of `ms`, in order. */
  function Steps(name: PatternName, ms: seq<RegexMatch>, evaluate: Evaluator): (steps: seq<Step>)
    ensures |steps| == |ms|
  {
    seq(|ms|, k requires 0 <= k < |ms| => MatchStep(name, ms[k], evaluate))
  }

  /** Performs the steps in order until the first `Stopped`, which ends the run. */
  function Run(results: map<string, string>, steps: seq<Step>): (r: map<string, string>)
    ensures results.Keys <= r.Keys
    decreases |steps|
  {
    if steps == [] then results
    else
      match steps[0]
      case Ignored => Run(results, steps[1..])
      case Stopped => results
      case Wrote(es) => Run(Write(results, es), steps[1..])
  }

  /**
   * The effect of one `_extractTranslation` call on `results`: matches are
   * processed in order, and the first empty key ends the call, keeping what
   * earlier matches wrote.
   */
  function Extracted(results: map<string, string>, name: PatternName, ms: seq<RegexMatch>, evaluate: Evaluator): (r: map<string, string>)
    ensures results.Keys <= r.Keys
  {
    Run(results, Steps(name, ms, evaluate))
  }

  /** The run from step `i` on: what step `i` does, then the run from step `i + 1`. */
  lemma RunAt(results: map<string, string>, steps: seq<Step>, i: nat)
    requires i < |steps|
    ensures Run(results, steps[i..]) == match steps[i]
                                        case Ignored => Run(results, steps[i + 1..])
                                        case Stopped => results
                                        case Wrote(es) => Run(Write(results, es), steps[i + 1..])
  {
    assert steps[i..][0] == steps[i] && steps[i..][1..] == steps[i + 1..];
  }

  /** A match stops the call exactly when it has a key group, the pattern is not plural-first, and that group is all whitespace. */
  lemma MatchStopsIff(name: PatternName, m: RegexMatch, evaluate: Evaluator)
    ensures MatchStep(name, m, evaluate) == Stopped
      <==> |m.groups| >= 1 && name != Builtin(HtmlDirectivePluralFirst)
           && forall k :: 0 <= k < |m.groups[0]| ==> IsWhitespace(m.groups[0][k])
    ensures MatchStep(name, m, evaluate) == Ignored <==> m.groups == []
  {
    if |m.groups| >= 1 {
      TrimEmptyIff(m.groups[0]);
    }
  }

  /** A stop ends a run: the steps after it have no effect, those before it keep theirs. */
  lemma {:induction false} RunStops(results: map<string, string>, steps: seq<Step>, i: nat)
    requires i < |steps| && steps[i] == Stopped
    ensures Run(results, steps) == Run(results, steps[..i])
    decreases |steps|
  {
    if i > 0 {
      assert steps[..i][0] == steps[0];
      assert steps[..i][1..] == steps[1..][..i - 1];
      match steps[0]
      case Ignored => RunStops(results, steps[1..], i - 1);
      case Stopped =>
      case Wrote(es) => RunStops(Write(results, es), steps[1..], i - 1);
    }
  }

  /** An empty key ends the call: the matches after it have no effect, those before it keep theirs. */
  lemma StopDiscardsRest(results: map<string, string>, name: PatternName, ms: seq<RegexMatch>, evaluate: Evaluator, i: nat)
    requires i < |ms| && MatchStep(name, ms[i], evaluate) == Stopped
    ensures Extracted(results, name, ms, evaluate) == Extracted(results, name, ms[..i], evaluate)
  {
    var steps := Steps(name, ms, evaluate);
    RunStops(results, steps, i);
    assert steps[..i] == Steps(name, ms[..i], evaluate);
  }

  /** The keys that some step would write, stop or no stop. */
  function StepKeys(steps: seq<Step>): set<string>
    decreases |steps|
  {
    if steps == [] then {}
    else (if steps[0].Wrote? then KeysOf(steps[0].entries) else {}) + StepKeys(steps[1..])
  }

  /** A run keeps every entry already in `results` and changes no entry outside the keys its steps write. */
  lemma {:induction false} RunFrame(results: map<string, string>, steps: seq<Step>)
    ensures results.Keys <= Run(results, steps).Keys <= results.Keys + StepKeys(steps)
    ensures forall k :: k in results && k !in StepKeys(steps) ==> Run(results, steps)[k] == results[k]
    decreases |steps|
  {
    if steps != [] {
      match steps[0]
      case Ignored => RunFrame(results, steps[1..]);
      case Stopped =>
      case Wrote(es) =>
        WriteEffect(results, es);
        RunFrame(Write(results, es), steps[1..]);
    }
  }

  /**
   * The patterns whose top-level matches are collected first, each non-empty
   * one then scanned by its own `_extractTranslation` call.
   */
  predicate IsFragmentPattern(name: PatternName)
    ensures IsFragmentPattern(name) ==> name.Builtin? && !IsBatchPattern(name)
  {
    match name
    case Custom(_) => false
    case Builtin(b) =>
      match b
      case HtmlFilterSimpleQuote | HtmlFilterDoubleQuote | HtmlDirective | HtmlDirectivePluralLast
        | HtmlDirectivePluralFirst | JavascriptFilterSimpleQuote | JavascriptFilterDoubleQuote => true
      case _ => false
  }

  /** `content.match(regex)` with the global flag: the matched text of every match. */
  function Fragments(ms: seq<RegexMatch>): (f: seq<string>)
    ensures |f| == |ms| && forall k :: 0 <= k < |ms| ==> f[k] == ms[k].whole
  {
    seq(|ms|, k requires 0 <= k < |ms| => ms[k].whole)
  }

  /** An empty fragment is skipped; any other gets its own `_extractTranslation` call on its own matches. */
  function ScanFragment(results: map<string, string>, p: Pattern, frag: string, engine: RegexEngine, evaluate: Evaluator): map<string, string> {
    if frag != "" then Extracted(results, p.name, engine(p.source, frag), evaluate) else results
  }

  /** The fragments scanned one after the other, in order. */
  function ScanFragments(results: map<string, string>, p: Pattern, frags: seq<string>, engine: RegexEngine, evaluate: Evaluator): (r: map<string, string>)
    ensures results.Keys <= r.Keys
    decreases |frags|
  {
    if frags == [] then results
    else ScanFragments(ScanFragment(results, p, frags[0], engine, evaluate), p, frags[1..], engine, evaluate)
  }

  /** What one pattern of the table does with a file's content. */
  function ScanPattern(results: map<string, string>, p: Pattern, content: string, engine: RegexEngine, evaluate: Evaluator): (r: map<string, string>)
    ensures results.Keys <= r.Keys
  {
    if IsFragmentPattern(p.name) then ScanFragments(results, p, Fragments(engine(p.source, content)), engine, evaluate)
    else Extracted(results, p.name, engine(p.source, content), evaluate)
  }

  /** What the whole table, pattern after pattern, does with a file's content. */
  function ScanTable(results: map<string, string>, table: seq<Pattern>, content: string, engine: RegexEngine, evaluate: Evaluator): (r: map<string, string>)
    ensures results.Keys <= r.Keys
    decreases |table|
  {
    if table == [] then results
    else ScanTable(ScanPattern(results, table[0], content, engine, evaluate), table[1..], content, engine, evaluate)
  }

  /** Scanning with two tables joined is scanning with the first, then with the second. */
  lemma {:induction false} ScanTableAppend(results: map<string, string>, a: seq<Pattern>, b: seq<Pattern>, content: string, engine: RegexEngine, evaluate: Evaluator)
    ensures ScanTable(results, a + b, content, engine, evaluate)
         == ScanTable(ScanTable(results, a, content, engine, evaluate), b, content, engine, evaluate)
    decreases |a|
  {
    if a == [] {
      assert a + b == b;
    } else {
      assert (a + b)[0] == a[0] && (a + b)[1..] == a[1..] + b;
      ScanTableAppend(ScanPattern(results, a[0], content, engine, evaluate), a[1..], b, content, engine, evaluate);
    }
  }

  /**
   * The position of the first pattern of the table whose source does not
   * compile, or the table's length when every source compiles: the loop
   * over the table compiles each pattern just before running it.
   */
  function FirstUncompiled(table: seq<Pattern>, compiles: RegexSyntax): (n: nat)
    ensures n <= |table|
    ensures forall k :: 0 <= k < n ==> compiles(table[k].source)
    ensures n < |table| ==> !compiles(table[n].source)
    decreases |table|
  {
    if table == [] || !compiles(table[0].source) then 0
    else 1 + FirstUncompiled(table[1..], compiles)
  }

  /** Scanning one more pattern of the table continues from where the shorter prefix left off. */
  lemma ScanTableSnoc(results: map<string, string>, table: seq<Pattern>, t: nat, content: string, engine: RegexEngine, evaluate: Evaluator)
    requires t < |table|
    ensures ScanTable(results, table[..t + 1], content, engine, evaluate)
         == ScanPattern(ScanTable(results, table[..t], content, engine, evaluate), table[t], content, engine, evaluate)
  {
    assert table[..t + 1] == table[..t] + [table[t]];
    ScanTableAppend(results, table[..t], [table[t]], content, engine, evaluate);
    assert [table[t]][1..] == [];
  }

  /**
   * A table whose first part compiles stops, if at all, in its second part,
   * after the whole first part has run.
   */
  lemma UncompiledAfterPrefix(a: seq<Pattern>, b: seq<Pattern>, compiles: RegexSyntax,
                              results: map<string, string>, content: string, engine: RegexEngine, evaluate: Evaluator)
    requires forall k :: 0 <= k < |a| ==> compiles(a[k].source)
    ensures var n := FirstUncompiled(a + b, compiles);
            && n >= |a|
            && ScanTable(results, (a + b)[..n], content, engine, evaluate)
               == ScanTable(ScanTable(results, a, content, engine, evaluate), b[..n - |a|], content, engine, evaluate)
  {
    var n := FirstUncompiled(a + b, compiles);
    if n < |a| {
      assert false;
    }
    assert (a + b)[..n] == a + b[..n - |a|];
    ScanTableAppend(results, a, b[..n - |a|], content, engine, evaluate);
  }

  /**
   * For a fragment pattern, an empty key ends only its own fragment: the
   * fragments are scanned one after the other, whatever happened in the earlier ones.
   */
  lemma {:induction false} FragmentsCompose(results: map<string, string>, p: Pattern, a: seq<string>, b: seq<string>, engine: RegexEngine, evaluate: Evaluator)
    ensures ScanFragments(results, p, a + b, engine, evaluate)
         == ScanFragments(ScanFragments(results, p, a, engine, evaluate), p, b, engine, evaluate)
    decreases |a|
  {
    if a == [] {
      assert a + b == b;
    } else {
      var next := ScanFragment(results, p, a[0], engine, evaluate);
      var ab := a + b;
      assert ab[0] == a[0] && ab[1..] == a[1..] + b;
      assert ScanFragments(results, p, ab, engine, evaluate) == ScanFragments(next, p, a[1..] + b, engine, evaluate);
      assert ScanFragments(results, p, a, engine, evaluate) == ScanFragments(next, p, a[1..], engine, evaluate);
      FragmentsCompose(next, p, a[1..], b, engine, evaluate);
    }
  }

  /**
   * For any other pattern, the first empty key ends the scan of the whole
   * file for that pattern: later matches have no effect.
   */
  lemma DirectStopEndsScan(results: map<string, string>, p: Pattern, content: string, engine: RegexEngine, evaluate: Evaluator, i: nat)
    requires !IsFragmentPattern(p.name)
    requires i < |engine(p.source, content)| && MatchStep(p.name, engine(p.source, content)[i], evaluate) == Stopped
    ensures ScanPattern(results, p, content, engine, evaluate)
         == Extracted(results, p.name, engine(p.source, content)[..i], evaluate)
  {
    StopDiscardsRest(results, p.name, engine(p.source, content), evaluate, i);
  }

  /** Outside the plural and batch patterns, a match writes its first group trimmed and family-unescaped. */
  lemma KeyStep(name: PatternName, c: string, w: string, rest: seq<string>, evaluate: Evaluator)
    requires !IsBatchPattern(name) && name != Builtin(HtmlDirectivePluralFirst) && name != Builtin(HtmlDirectivePluralLast)
    ensures MatchStep(name, RegexMatch(w, [c] + rest), evaluate)
         == if Trim(c) == "" then Stopped else Wrote([Entry(UnescapeKey(name, Trim(c)), "")])
  {
    assert ([c] + rest)[0] == c;
  }

  /** The quote families are neither batch nor plural patterns. */
  lemma QuoteFamilyIsKeyed(name: PatternName)
    requires KeyQuote(name).Some?
    ensures !IsBatchPattern(name) && name != Builtin(HtmlDirectivePluralFirst) && name != Builtin(HtmlDirectivePluralLast)
    ensures KeyQuote(name).value != '\\'
  {
  }

  /**
   * Quote families: a key captured from a quoted literal (every quote of the
   * family backslash-escaped) comes back as the literal's text, with no other change.
   */
  lemma QuotedKeyRoundTrip(name: PatternName, key: string, w: string, rest: seq<string>, evaluate: Evaluator)
    requires KeyQuote(name).Some?
    requires key != [] && !IsWhitespace(key[0]) && !IsWhitespace(key[|key| - 1])
    ensures MatchStep(name, RegexMatch(w, [EscapeQuote(key, KeyQuote(name).value)] + rest), evaluate) == Wrote([Entry(key, "")])
  {
    var q := KeyQuote(name).value;
    QuoteFamilyIsKeyed(name);
    var e := EscapeQuote(key, q);
    EscapeQuoteUntrimmed(key, q);
    UnescapeEscapeQuote(key, q);
    UnescapeKeyQuoted(name, e);
    KeyStep(name, e, w, rest, evaluate);
  }

  /** A pattern of a quote family un-escapes its key with the family's quote. */
  lemma UnescapeKeyQuoted(name: PatternName, s: string)
    requires KeyQuote(name).Some?
    ensures UnescapeKey(name, s) == UnescapeQuote(s, KeyQuote(name).value)
  {
  }

  /** Patterns outside the quote and batch families store the captured key trimmed and otherwise unchanged. */
  lemma PlainKeyOnlyTrimmed(name: PatternName, c: string, w: string, rest: seq<string>, evaluate: Evaluator)
    requires KeyQuote(name).None? && !IsBatchPattern(name)
    requires name != Builtin(HtmlDirectivePluralFirst) && name != Builtin(HtmlDirectivePluralLast)
    ensures MatchStep(name, RegexMatch(w, [c] + rest), evaluate)
         == if Trim(c) == "" then Stopped else Wrote([Entry(Trim(c), "")])
  {
    KeyStep(name, c, w, rest, evaluate);
  }

  /** The `others_<index>` names of extra patterns belong to no family: their keys are only trimmed. */
  lemma CustomPatternsArePlain(index: nat)
    ensures var n := Custom(index);
            KeyQuote(n).None? && !IsBatchPattern(n) && !IsFragmentPattern(n)
            && n != Builtin(HtmlDirectivePluralFirst) && n != Builtin(HtmlDirectivePluralLast)
  {
  }

  /**
   * Batch patterns: each comma-separated piece of the array text (quotes of
   * the family and brackets removed) becomes its own trimmed key with an
   * empty default, and the array text itself is never a key.
   */
  lemma BatchStep(name: PatternName, c: string, w: string, rest: seq<string>, evaluate: Evaluator)
    requires IsBatchPattern(name) && Trim(c) != ""
    ensures MatchStep(name, RegexMatch(w, [c] + rest), evaluate) == Wrote(BatchEntries(name, Trim(c), ""))
    ensures BatchEntriesWellFormed(name, Trim(c), BatchEntries(name, Trim(c), ""))
  {
    assert ([c] + rest)[0] == c;
    BatchEntriesProperties(name, Trim(c));
  }

  /**
   * What the writes of a batch capture `key` satisfy: one per comma-separated
   * piece of the capture with quotes and brackets removed, each trimmed, with
   * no comma, bracket or family quote, with an empty value, and none of them
   * the array text itself.
   */
  predicate BatchEntriesWellFormed(name: PatternName, key: string, es: seq<Entry>) {
    var stripped := RemoveAll(RemoveAll(key, {BatchQuote(name)}), {'[', ']'});
    && |es| == multiset(stripped)[','] + 1
    && |es| == |BatchItems(name, key)|
    && (forall i :: 0 <= i < |es| ==> es[i].key == BatchKey(BatchItems(name, key)[i]))
    && Join(BatchItems(name, key), ',') == stripped
    && (forall i :: 0 <= i < |es| ==> es[i].value == "" && Trim(es[i].key) == es[i].key)
    && (forall i :: 0 <= i < |es| ==> ',' !in es[i].key && '[' !in es[i].key && ']' !in es[i].key)
    && (forall i :: 0 <= i < |es| ==> BatchQuote(name) !in es[i].key)
    && ('[' in key ==> key !in KeysOf(es))
  }

  /** One piece of a batch capture, stored as a key: trimmed, with no comma, bracket or family quote. */
  lemma BatchKeyClean(name: PatternName, key: string, i: nat)
    requires i < |BatchItems(name, key)|
    ensures var k := BatchKey(BatchItems(name, key)[i]);
            Trim(k) == k && ',' !in k && '[' !in k && ']' !in k && BatchQuote(name) !in k
  {
    var unquoted := RemoveAll(key, {BatchQuote(name)});
    var stripped := RemoveAll(unquoted, {'[', ']'});
    var items := Split(stripped, ',');
    RemoveAllChars(key, {BatchQuote(name)});
    RemoveAllChars(unquoted, {'[', ']'});
    SplitShape(stripped, ',');
    var u := UnescapeQuote(items[i], '"');
    UnescapeQuoteShape(items[i], '"');
    TrimIdempotent(u);
    TrimShape(u);
    forall c | c in Trim(u) ensures c in items[i] && c in stripped {
      assert c in u;
      JoinHasParts(items, ',', i, c);
    }
  }

  /** The writes a batch capture produces are well formed. */
  lemma BatchEntriesProperties(name: PatternName, key: string)
    ensures BatchEntriesWellFormed(name, key, BatchEntries(name, key, ""))
  {
    var es := BatchEntries(name, key, "");
    var items := BatchItems(name, key);
    SplitShape(RemoveAll(RemoveAll(key, {BatchQuote(name)}), {'[', ']'}), ',');
    forall i | 0 <= i < |es|
      ensures es[i].value == "" && Trim(es[i].key) == es[i].key
      ensures ',' !in es[i].key && '[' !in es[i].key && ']' !in es[i].key && BatchQuote(name) !in es[i].key
    {
      BatchKeyClean(name, key, i);
      assert es[i] == Entry(BatchKey(items[i]), "");
    }
    if '[' in key {
      assert key !in KeysOf(es) by {
        forall i | 0 <= i < |es| ensures es[i].key != key {
          assert '[' !in es[i].key;
        }
      }
    }
  }

  /** The keys a sequence of writes touches, in order. */
  function KeySeq(es: seq<Entry>): (ks: seq<string>)
    ensures |ks| == |es| && forall i :: 0 <= i < |es| ==> ks[i] == es[i].key
  {
    seq(|es|, i requires 0 <= i < |es| => es[i].key)
  }

  /**
   * A batch capture whose pieces hold no whitespace and no backslash writes
   * exactly its pieces as keys, in order: joined with commas they give back
   * the capture without quotes and brackets.
   */
  lemma BatchPlainKeys(name: PatternName, key: string)
    requires forall c :: c in RemoveAll(RemoveAll(key, {BatchQuote(name)}), {'[', ']'}) ==> !IsWhitespace(c) && c != '\\'
    ensures KeySeq(BatchEntries(name, key, "")) == BatchItems(name, key)
    ensures Join(KeySeq(BatchEntries(name, key, "")), ',') == RemoveAll(RemoveAll(key, {BatchQuote(name)}), {'[', ']'})
  {
    var stripped := RemoveAll(RemoveAll(key, {BatchQuote(name)}), {'[', ']'});
    var items := BatchItems(name, key);
    var ks := KeySeq(BatchEntries(name, key, ""));
    SplitShape(stripped, ',');
    forall i | 0 <= i < |items| ensures ks[i] == items[i] {
      forall c | c in items[i] ensures c in stripped {
        JoinHasParts(items, ',', i, c);
      }
      PlainPieceIsKey(items[i]);
    }
  }

  /** A piece with no whitespace and no backslash is stored under itself. */
  lemma PlainPieceIsKey(item: string)
    requires forall c :: c in item ==> !IsWhitespace(c) && c != '\\'
    ensures BatchKey(item) == item
  {
    forall k | 0 <= k < |item| ensures item[k] != '\\' && !IsWhitespace(item[k]) {
      assert item[k] in item;
    }
    UnescapeQuoteShape(item, '"');
    TrimUntrimmed(item);
  }

  /**
   * A trailing comma inside the array, which the batch patterns' `,*`
   * accepts, leaves an empty last item, and the empty key is written: the
   * empty-key test only looks at the whole capture, never at the items.
   */
  lemma BatchTrailingCommaWritesEmptyKey(w: string, rest: seq<string>, evaluate: Evaluator)
    ensures MatchStep(Builtin(JavascriptServiceArraySimpleQuote), RegexMatch(w, ["['A',]"] + rest), evaluate)
         == Wrote([Entry("A", ""), Entry("", "")])
  {
    TrimUntrimmed("['A',]");
    BatchStep(Builtin(JavascriptServiceArraySimpleQuote), "['A',]", w, rest, evaluate);
    TrailingCommaItems();
    TrailingCommaEntries();
  }

  /** The items of `['A',]`: `A` and the empty piece after the comma. */
  lemma TrailingCommaItems()
    ensures BatchItems(Builtin(JavascriptServiceArraySimpleQuote), "['A',]") == ["A", ""]
  {
    assert BatchQuote(Builtin(JavascriptServiceArraySimpleQuote)) == '\'';
    TrailingCommaStripped();
    assert ","[1..] == "" && "A,"[1..] == ",";
    assert Split("", ',') == [[]];
    assert Split(",", ',') == [[], []];
    assert ['A'] + [] == "A";
    assert Split("A,", ',') == [['A'] + []] + [[]] == ["A", ""];
    assert BatchItems(Builtin(JavascriptServiceArraySimpleQuote), "['A',]") == Split("A,", ',');
  }

  /** Removing the quotes and the brackets from `['A',]` leaves `A,`. */
  lemma TrailingCommaStripped()
    ensures RemoveAll(RemoveAll("['A',]", {'\''}), {'[', ']'}) == "A,"
  {
    assert RemoveAll("['A',]", {'\''}) == "[A,]";
    assert RemoveAll("[A,]", {'[', ']'}) == "A,";
  }

  /** The entries of the items `A` and the empty piece. */
  lemma TrailingCommaEntries()
    ensures ItemEntries(["A", ""], "") == [Entry("A", ""), Entry("", "")]
  {
    TrimUntrimmed("A");
    TrimUntrimmed("");
    assert BatchKey("A") == "A" && BatchKey("") == "";
  }

  /**
   * The plural-last pattern: the key is the first group trimmed, and the
   * default value is the template built from the evaluated second group.
   */
  lemma PluralLastStep(c: string, hint: string, w: string, rest: seq<string>, evaluate: Evaluator)
    ensures MatchStep(Builtin(HtmlDirectivePluralLast), RegexMatch(w, [c, hint] + rest), evaluate)
         == if Trim(c) == "" then Stopped else Wrote([Entry(Trim(c), PluralDefault(evaluate(hint)))])
  {
    var m := RegexMatch(w, [c, hint] + rest);
    assert m.groups[0] == c && m.groups[1] == hint;
    assert PluralHint(m, evaluate) == evaluate(hint);
    assert UnescapeKey(Builtin(HtmlDirectivePluralLast), Trim(c)) == Trim(c);
  }

  /**
   * The plural template uses only the first three forms: any further forms
   * are ignored, and an empty third form adds nothing.
   */
  lemma PluralTemplateForms(forms: seq<string>)
    requires |forms| >= 2
    ensures |forms| > 3 ==> PluralTemplate(forms) == PluralTemplate(forms[..3])
    ensures (|forms| == 2 || forms[2] == "") ==> PluralTemplate(forms) == PluralTemplate(forms[..2])
    ensures |forms| > 2 && forms[2] != "" ==> PluralTemplate(forms) == PluralTemplate(forms[..2]) + " " + forms[2]
  {
  }

  /** A hint that is not an array of at least two forms leaves the default empty. */
  lemma PluralDefaultEmpty(hint: Option<seq<string>>)
    ensures PluralDefault(hint) == "" <==> hint.None? || |hint.value| < 2
  {
    if hint.Some? && |hint.value| >= 2 {
      assert PluralTemplate(hint.value)[0] == '{';
    }
  }

  /** As written, every plural-first match with a group writes the property `"undefined"`, whatever it captured. */
  lemma PluralFirstWritesUndefined(m: RegexMatch, evaluate: Evaluator)
    requires |m.groups| >= 1
    ensures MatchStep(Builtin(HtmlDirectivePluralFirst), m, evaluate) == Wrote([Entry("undefined", "")])
  {
  }

  // ---------------------------------------------------------------------------
  // Behaviour the code evidently intends, beside the behaviour as written.
  // ---------------------------------------------------------------------------

  /** The number of times `c` occurs in `s`. */
  function Occurrences(s: string, c: char): nat {
    if s == [] then 0 else (if s[0] == c then 1 else 0) + Occurrences(s[1..], c)
  }

  /** Occurrences add up over a concatenation. */
  lemma {:induction false} OccurrencesAppend(a: string, b: string, c: char)
    ensures Occurrences(a + b, c) == Occurrences(a, c) + Occurrences(b, c)
  {
    if a == [] {
      assert a + b == b;
    } else {
      assert (a + b)[0] == a[0] && (a + b)[1..] == a[1..] + b;
      OccurrencesAppend(a[1..], b, c);
    }
  }

  /** A character that does not occur is counted zero times. */
  lemma {:induction false} OccurrencesAbsent(s: string, c: char)
    requires c !in s
    ensures Occurrences(s, c) == 0
  {
    if s != [] {
      assert s == [s[0]] + s[1..];
      OccurrencesAbsent(s[1..], c);
    }
  }

  /** The braces of a text with no brace of its own appended after `t`. */
  lemma BracesAppendFree(t: string, f: string, opens: nat, closes: nat)
    requires Occurrences(t, '{') == opens && Occurrences(t, '}') == closes
    requires '{' !in f && '}' !in f
    ensures Occurrences(t + f, '{') == opens && Occurrences(t + f, '}') == closes
  {
    OccurrencesAppend(t, f, '{');
    OccurrencesAppend(t, f, '}');
    OccurrencesAbsent(f, '{');
    OccurrencesAbsent(f, '}');
  }

  /** A text shaped like a plural template, with brace-free pieces, has three `{` and two `}`. */
  lemma TemplateBraces(lead: string, f0: string, mid: string, f1: string, tail: string)
    requires '{' !in lead && '}' !in lead && '{' !in f0 && '}' !in f0 && '{' !in mid && '}' !in mid
    requires '{' !in f1 && '}' !in f1 && '{' !in tail && '}' !in tail
    ensures var t := "{" + lead + "{" + f0 + "}" + mid + "{" + f1 + "}" + tail;
            Occurrences(t, '{') == 3 && Occurrences(t, '}') == 2
  {
    var open, close := "{", "}";
    assert Occurrences(open, '{') == 1 && Occurrences(open, '}') == 0;
    assert Occurrences(close, '{') == 0 && Occurrences(close, '}') == 1;
    BracesAppendFree(open, lead, 1, 0);
    OccurrencesAppend(open + lead, open, '{');
    OccurrencesAppend(open + lead, open, '}');
    BracesAppendFree(open + lead + open, f0, 2, 0);
    OccurrencesAppend(open + lead + open + f0, close, '{');
    OccurrencesAppend(open + lead + open + f0, close, '}');
    BracesAppendFree(open + lead + open + f0 + close, mid, 2, 1);
    OccurrencesAppend(open + lead + open + f0 + close + mid, open, '{');
    OccurrencesAppend(open + lead + open + f0 + close + mid, open, '}');
    BracesAppendFree(open + lead + open + f0 + close + mid + open, f1, 3, 1);
    OccurrencesAppend(open + lead + open + f0 + close + mid + open + f1, close, '{');
    OccurrencesAppend(open + lead + open + f0 + close + mid + open + f1, close, '}');
    BracesAppendFree(open + lead + open + f0 + close + mid + open + f1 + close, tail, 3, 2);
  }

  /** The plural template cut at its braces. */
  lemma TemplatePieces(forms: seq<string>, tail: string)
    requires |forms| >= 2
    requires tail == if |forms| > 2 && forms[2] != "" then " " + forms[2] else ""
    ensures PluralTemplate(forms) == "{" + "NB, plural, one" + "{" + forms[0] + "}" + " other" + "{" + forms[1] + "}" + tail
  {
    assert "{NB, plural, one{" == "{" + "NB, plural, one" + "{";
    assert "} other{" == "}" + " other" + "{";
  }

  /** As written, a plural template built from brace-free forms opens one more `{` than it closes. */
  lemma PluralTemplateUnbalanced(forms: seq<string>)
    requires |forms| >= 2
    requires forall i :: 0 <= i < |forms| ==> '{' !in forms[i] && '}' !in forms[i]
    ensures Occurrences(PluralTemplate(forms), '{') == Occurrences(PluralTemplate(forms), '}') + 1
  {
    var tail := if |forms| > 2 && forms[2] != "" then " " + forms[2] else "";
    assert '{' !in tail && '}' !in tail by {
      if |forms| > 2 && forms[2] != "" {
        assert '{' !in forms[2] && '}' !in forms[2];
      }
    }
    assert '{' !in forms[0] && '}' !in forms[0] && '{' !in forms[1] && '}' !in forms[1];
    TemplatePieces(forms, tail);
    TemplateBraces("NB, plural, one", forms[0], " other", forms[1], tail);
  }

  /** The two-form hint of the plural-last pattern, as written: the outer brace is left open. */
  lemma PluralTemplateExample()
    ensures PluralTemplate(["one item", "many items"]) == "{NB, plural, one{one item} other{many items}"
  {
  }

  /** The plural template with the outer brace closed after everything else. */
  function PluralTemplateIntended(forms: seq<string>): (t: string)
    requires |forms| >= 2
    ensures |t| >= 1 && t[0] == '{' && t[|t| - 1] == '}'
  {
    PluralTemplate(forms) + "}"
  }

  /** With the closing brace, a template built from brace-free forms is balanced. */
  lemma PluralTemplateIntendedBalanced(forms: seq<string>)
    requires |forms| >= 2
    requires forall i :: 0 <= i < |forms| ==> '{' !in forms[i] && '}' !in forms[i]
    ensures Occurrences(PluralTemplateIntended(forms), '{') == Occurrences(PluralTemplateIntended(forms), '}')
  {
    PluralTemplateUnbalanced(forms);
    OccurrencesAppend(PluralTemplate(forms), "}", '{');
    OccurrencesAppend(PluralTemplate(forms), "}", '}');
    assert PluralTemplateIntended(forms) == PluralTemplate(forms) + "}";
  }

  /**
   * What one match evidently should do: the plural-first pattern, once its
   * two groups are swapped, is handled like the plural-last pattern. This
   * correction is independent of the unclosed plural template: the default
   * value is still built by `PluralTemplate`, whose own correction is
   * `PluralTemplateIntended`.
   */
  function MatchStepIntended(name: PatternName, m: RegexMatch, evaluate: Evaluator): (step: Step)
    ensures name != Builtin(HtmlDirectivePluralFirst) ==> step == MatchStep(name, m, evaluate)
    ensures step.Ignored? <==> m.groups == [] || (name == Builtin(HtmlDirectivePluralFirst) && |m.groups| < 2)
    ensures step.Wrote? ==> step.entries != []
  {
    if name != Builtin(HtmlDirectivePluralFirst) then MatchStep(name, m, evaluate)
    else if |m.groups| < 2 then Ignored
    else MatchStep(Builtin(HtmlDirectivePluralLast), RegexMatch(m.whole, [m.groups[1], m.groups[0]] + m.groups[2..]), evaluate)
  }

  /**
   * Intended: an element with the plural hint before `translate` yields the
   * same entry as one with the hint after it: the trimmed key, with the
   * template of the evaluated hint as default.
   */
  lemma PluralFirstIntendedMirrorsLast(hint: string, c: string, w: string, w': string, rest: seq<string>, evaluate: Evaluator)
    ensures MatchStepIntended(Builtin(HtmlDirectivePluralFirst), RegexMatch(w, [hint, c] + rest), evaluate)
         == MatchStep(Builtin(HtmlDirectivePluralLast), RegexMatch(w', [c, hint] + rest), evaluate)
    ensures MatchStepIntended(Builtin(HtmlDirectivePluralFirst), RegexMatch(w, [hint, c] + rest), evaluate)
         == if Trim(c) == "" then Stopped else Wrote([Entry(Trim(c), PluralDefault(evaluate(hint)))])
  {
    var g := [hint, c] + rest;
    assert g[0] == hint && g[1] == c && g[2..] == rest;
    assert [g[1], g[0]] + g[2..] == [c, hint] + rest;
    PluralLastStep(c, hint, w, rest, evaluate);
    PluralLastStep(c, hint, w', rest, evaluate);
  }

  /** As written, the key of a plural-first element is lost: `"undefined"` is written instead. */
  lemma PluralFirstLosesKey(w: string, evaluate: Evaluator)
    ensures var m := RegexMatch(w, ["['one item', 'many items']", "ITEM_COUNT"]);
            MatchStep(Builtin(HtmlDirectivePluralFirst), m, evaluate) == Wrote([Entry("undefined", "")])
            && MatchStepIntended(Builtin(HtmlDirectivePluralFirst), m, evaluate).Wrote?
            && MatchStepIntended(Builtin(HtmlDirectivePluralFirst), m, evaluate).entries[0].key == "ITEM_COUNT"
  {
    var key := "ITEM_COUNT";
    assert !IsWhitespace(key[0]) && !IsWhitespace(key[|key| - 1]);
    TrimUntrimmed(key);
    PluralFirstIntendedMirrorsLast("['one item', 'many items']", key, w, w, [], evaluate);
    assert ["['one item', 'many items']", key] + [] == ["['one item', 'many items']", "ITEM_COUNT"];
  }

  /** Performs the steps in order, skipping an empty key as it skips a match without groups. */
  function RunIntended(results: map<string, string>, steps: seq<Step>): (r: map<string, string>)
    ensures results.Keys <= r.Keys
    decreases |steps|
  {
    if steps == [] then results
    else
      match steps[0]
      case Wrote(es) => RunIntended(Write(results, es), steps[1..])
      case _ => RunIntended(results, steps[1..])
  }

  /** `_extractTranslation` with the empty key skipped instead of ending the call. */
  function ExtractedIntended(results: map<string, string>, name: PatternName, ms: seq<RegexMatch>, evaluate: Evaluator): (r: map<string, string>)
    ensures results.Keys <= r.Keys
  {
    RunIntended(results, Steps(name, ms, evaluate))
  }

  /** Intended runs compose: running two batches of steps is running them one after the other. */
  lemma {:induction false} RunIntendedCompose(results: map<string, string>, a: seq<Step>, b: seq<Step>)
    ensures RunIntended(results, a + b) == RunIntended(RunIntended(results, a), b)
    decreases |a|
  {
    if a == [] {
      assert a + b == b;
    } else {
      assert (a + b)[0] == a[0] && (a + b)[1..] == a[1..] + b;
      match a[0]
      case Wrote(es) => RunIntendedCompose(Write(results, es), a[1..], b);
      case _ => RunIntendedCompose(results, a[1..], b);
    }
  }

  /** Intended: every key some step writes ends up in `results`, and no other key is added. */
  lemma {:induction false} RunIntendedKeys(results: map<string, string>, steps: seq<Step>)
    ensures RunIntended(results, steps).Keys == results.Keys + StepKeys(steps)
    decreases |steps|
  {
    if steps != [] {
      match steps[0]
      case Wrote(es) =>
        WriteEffect(results, es);
        RunIntendedKeys(Write(results, es), steps[1..]);
      case _ => RunIntendedKeys(results, steps[1..]);
    }
  }

  /** Intended: matches split anywhere give the same result as processed together. */
  lemma ExtractedIntendedCompose(results: map<string, string>, name: PatternName, ms: seq<RegexMatch>, ms': seq<RegexMatch>, evaluate: Evaluator)
    ensures ExtractedIntended(results, name, ms + ms', evaluate)
         == ExtractedIntended(ExtractedIntended(results, name, ms, evaluate), name, ms', evaluate)
  {
    StepsAppend(name, ms, ms', evaluate);
    RunIntendedCompose(results, Steps(name, ms, evaluate), Steps(name, ms', evaluate));
  }

  /** The steps of two batches of matches are the steps of each, one after the other. */
  lemma StepsAppend(name: PatternName, ms: seq<RegexMatch>, ms': seq<RegexMatch>, evaluate: Evaluator)
    ensures Steps(name, ms + ms', evaluate) == Steps(name, ms, evaluate) + Steps(name, ms', evaluate)
  {
    var all, first, second := Steps(name, ms + ms', evaluate), Steps(name, ms, evaluate), Steps(name, ms', evaluate);
    forall k | 0 <= k < |all| ensures all[k] == (first + second)[k] {
      StepAt(name, ms + ms', evaluate, k);
      if k < |ms| {
        assert (ms + ms')[k] == ms[k];
        StepAt(name, ms, evaluate, k);
      } else {
        assert (ms + ms')[k] == ms'[k - |ms|];
        StepAt(name, ms', evaluate, k - |ms|);
      }
    }
  }

  /** The step of a match is the effect of that match. */
  lemma StepAt(name: PatternName, ms: seq<RegexMatch>, evaluate: Evaluator, k: nat)
    requires k < |ms|
    ensures Steps(name, ms, evaluate)[k] == MatchStep(name, ms[k], evaluate)
  {
  }

  /** The steps of an empty key followed by the key `B`, for the standalone directive. */
  lemma EmptyThenKeySteps(w0: string, w1: string, evaluate: Evaluator)
    ensures var steps := Steps(Builtin(HtmlDirectiveStandalone), [RegexMatch(w0, [""]), RegexMatch(w1, ["B"])], evaluate);
            |steps| == 2 && steps[0] == Stopped && steps[1] == Wrote([Entry("B", "")])
  {
    var name := Builtin(HtmlDirectiveStandalone);
    assert MatchStep(name, RegexMatch(w0, [""]), evaluate) == Stopped by {
      assert Trim("") == "";
      assert [""] + [] == [""];
      PlainKeyOnlyTrimmed(name, "", w0, [], evaluate);
    }
    assert MatchStep(name, RegexMatch(w1, ["B"]), evaluate) == Wrote([Entry("B", "")]) by {
      TrimUntrimmed("B");
      assert ["B"] + [] == ["B"];
      PlainKeyOnlyTrimmed(name, "B", w1, [], evaluate);
    }
  }

  /**
   * As written, an empty key (such as `translate=""`) before the key `B` in
   * the same content ends the call, and `B` is never extracted.
   */
  lemma EarlyReturnLosesKey(w0: string, w1: string, evaluate: Evaluator)
    ensures Extracted(map[], Builtin(HtmlDirectiveStandalone), [RegexMatch(w0, [""]), RegexMatch(w1, ["B"])], evaluate) == map[]
  {
    EmptyThenKeySteps(w0, w1, evaluate);
  }

  /** A single write. */
  lemma WriteOne(results: map<string, string>, e: Entry)
    ensures Write(results, [e]) == results[e.key := e.value]
  {
    assert [e][..0] == [];
  }

  /** An intended run of a stop then a write performs the write. */
  lemma SkipThenWrite(results: map<string, string>, steps: seq<Step>)
    requires |steps| == 2 && steps[0] == Stopped && steps[1].Wrote?
    ensures RunIntended(results, steps) == Write(results, steps[1].entries)
  {
    var tail := steps[1..];
    assert tail[0] == steps[1] && tail[1..] == [];
    assert RunIntended(results, steps) == RunIntended(results, tail);
    assert RunIntended(results, tail) == RunIntended(Write(results, steps[1].entries), tail[1..]);
  }

  /** With the empty key skipped, the key `B` after it is extracted. */
  lemma EmptyKeySkippedIntended(w0: string, w1: string, evaluate: Evaluator)
    ensures ExtractedIntended(map[], Builtin(HtmlDirectiveStandalone), [RegexMatch(w0, [""]), RegexMatch(w1, ["B"])], evaluate)
         == map["B" := ""]
  {
    EmptyThenKeySteps(w0, w1, evaluate);
    SkipThenWrite(map[], Steps(Builtin(HtmlDirectiveStandalone), [RegexMatch(w0, [""]), RegexMatch(w1, ["B"])], evaluate));
    WriteOne(map[], Entry("B", ""));
  }
}

/**
 * The gulp plugin object: the argument check made when the plugin is
 * created, the per-file transform that runs every pattern of the table over
 * a buffered file and accumulates what it extracts in `results`, and the
 * flush that emits one translation file per language.
 *
 * The stream plumbing is reduced to what decides the outcome: a file's
 * contents are null, a stream or a buffer, a thrown error is a `Failure`,
 * and a file handed on unchanged is a `Success` holding it.
 */
module Plugin {
  import opened Wrappers
  import opened JsString
  import opened Patterns
  import opened Extraction

  /**
   * The `fileName` argument as the creation check sees it: a falsy value
   * (`undefined`, `null`, `false`, `0`, `NaN`), a string, or any other
   * truthy value (an object, a non-zero number, `true`).
   */
  datatype Argument = Falsy | Text(text: string) | OtherTruthy

  /** JavaScript truthiness: the empty string is falsy, like the falsy values. */
  predicate Truthy(a: Argument) {
    match a
    case Falsy => false
    case Text(s) => s != ""
    case OtherTruthy => true
  }

  /**
   * The `interpolation` option: a falsy value, which selects the default
   * delimiters; an object with string delimiters; or any other truthy value,
   * which is used as given and has no string delimiters.
   */
  datatype InterpolationOption = NoInterpolation | Delimiters(delimiters: Interpolation) | Malformed

  /**
   * The options the core reads. `lang` and `customRegex` are `None` unless
   * they are arrays, which is what `_.isArray` tests; an omitted options
   * argument reads as all three falsy.
   */
  datatype Options = Options(lang: Option<seq<string>>, interpolation: InterpolationOption, customRegex: Option<seq<string>>)

  const NoOptions := Options(None, NoInterpolation, None)

  const FileNameRequired := "fileName required"
  const LangRequired := "Param lang required"
  const StreamingNotSupported := "Straming not supported."
  /** The `TypeError` that `escapeRegExp` throws on a delimiter that is not a string; its message depends on the value. */
  const DelimiterNotString := "TypeError"
  /** The `SyntaxError` that `new RegExp` throws on a pattern source it rejects; its message depends on the source. */
  const PatternNotCompiled := "SyntaxError"

  /**
   * The delimiters a buffered file is scanned with: the default ones for a
   * falsy option, the given ones for an object with string delimiters, and
   * none for anything else, on which `escapeRegExp` throws.
   */
  function ResolveInterpolation(opt: InterpolationOption): (r: Option<Interpolation>)
    ensures r.None? <==> opt.Malformed?
    ensures opt.NoInterpolation? ==> r == Some(DefaultInterpolation)
    ensures opt.Delimiters? ==> r == Some(opt.delimiters)
  {
    match opt
    case NoInterpolation => Some(DefaultInterpolation)
    case Delimiters(i) => Some(i)
    case Malformed => None
  }

  /** What a file passed down the stream holds. */
  datatype FileContents = NullContents | StreamContents | BufferContents(text: string)

  /** A file passed down the stream. */
  datatype VinylFile = VinylFile(cwd: string, base: string, path: string, contents: FileContents)

  /** A file the flush emits: its location and the translations it serialises. */
  datatype OutputFile = OutputFile(cwd: string, base: string, path: string, translations: map<string, string>)

  /**
   * The error raised when the plugin is created: the file name must be
   * truthy, of whatever type, then `lang` must be a non-empty array.
   */
  function CheckArguments(fileName: Argument, options: Options): (error: Option<string>)
    ensures error.None? <==> Truthy(fileName) && options.lang.Some? && options.lang.value != []
    ensures error == Some(FileNameRequired) <==> !Truthy(fileName)
    ensures error == Some(LangRequired) <==> Truthy(fileName) && (options.lang.None? || options.lang.value == [])
  {
    if !Truthy(fileName) then Some(FileNameRequired)
    else if options.lang.None? || options.lang.value == [] then Some(LangRequired)
    else None
  }

  /** `path.join(base, name)` for a plain file name: exactly one separator between the two. */
  function PathJoin(base: string, name: string): (p: string)
    ensures |p| >= |name| && p[|p| - |name|..] == name
  {
    if base == "" then name
    else if base[|base| - 1] == '/' then base + name
    else base + "/" + name
  }

  /** Files in one directory with different names have different paths. */
  lemma PathJoinInjective(base: string, a: string, b: string)
    requires PathJoin(base, a) == PathJoin(base, b)
    ensures a == b
  {
    var prefix := if base == "" then "" else if base[|base| - 1] == '/' then base else base + "/";
    assert PathJoin(base, a) == prefix + a && PathJoin(base, b) == prefix + b;
    assert a == (prefix + a)[|prefix|..];
    assert b == (prefix + b)[|prefix|..];
  }

  /** The name of the file emitted for one language. */
  function OutputName(lang: string): (name: string)
    ensures |name| == |lang| + 5 && name[..|lang|] == lang && name[|lang|..] == ".json"
  {
    lang + ".json"
  }

  /** The file the flush emits for language `lang`, after the first buffered file `first`. */
  function OutputFor(first: VinylFile, lang: string, results: map<string, string>): (out: OutputFile)
    ensures out.cwd == first.cwd && out.base == first.base && out.translations == results
    ensures |out.path| >= |lang| + 5 && out.path[|out.path| - |lang| - 5..] == lang + ".json"
  {
    OutputFile(first.cwd, first.base, PathJoin(first.base, OutputName(lang)), results)
  }

  /** Distinct languages give distinct output paths, all in the first file's base directory. */
  lemma OutputPathsDistinct(first: VinylFile, langs: seq<string>, results: map<string, string>, i: nat, j: nat)
    requires i < |langs| && j < |langs| && langs[i] != langs[j]
    ensures OutputFor(first, langs[i], results).path != OutputFor(first, langs[j], results).path
  {
    if OutputFor(first, langs[i], results).path == OutputFor(first, langs[j], results).path {
      PathJoinInjective(first.base, OutputName(langs[i]), OutputName(langs[j]));
    }
  }

  /**
   * The call in gulpfile.js passes the options object as the file name and
   * no options: the file name passes as truthy, and creation fails on `lang`.
   */
  lemma FixtureCallRefused()
    ensures CheckArguments(OtherTruthy, NoOptions) == Some(LangRequired)
  {
  }

  /** The same call with a file name first and the options second is accepted. */
  lemma FixtureCallIntended(fileName: string)
    requires fileName != ""
    ensures CheckArguments(Text(fileName), Options(Some(["fr_FR", "en_CA"]), NoInterpolation, None)) == None
  {
  }

  /** The pattern table a buffered file is scanned with. */
  function PatternTable(interpolation: Interpolation, customRegex: seq<string>): (t: seq<Pattern>)
    ensures |t| == |BuiltinOrder| + |customRegex|
    ensures forall k :: 0 <= k < |BuiltinOrder| ==> t[k].name == Builtin(BuiltinOrder[k])
    ensures forall k :: 0 <= k < |customRegex| ==> t[|BuiltinOrder| + k] == Pattern(Custom(k), customRegex[k])
  {
    BuiltinPatterns(interpolation) + CustomPatterns(customRegex)
  }

  /**
   * When the built-in sources compile, a custom source that does not is
   * reached only after every built-in pattern has run: the file's scan stops
   * there, keeping what the built-ins and the custom patterns before it wrote.
   */
  lemma UncompiledCustomAfterBuiltins(i: Interpolation, custom: seq<string>, compiles: RegexSyntax,
                                      results: map<string, string>, content: string, engine: RegexEngine, evaluate: Evaluator)
    requires forall k :: 0 <= k < |BuiltinOrder| ==> compiles(BuiltinPatterns(i)[k].source)
    ensures var table := PatternTable(i, custom);
            var n := FirstUncompiled(table, compiles);
            && n >= |BuiltinOrder|
            && ScanTable(results, table[..n], content, engine, evaluate)
               == ScanTable(ScanTable(results, BuiltinPatterns(i), content, engine, evaluate),
                            CustomPatterns(custom)[..n - |BuiltinOrder|], content, engine, evaluate)
  {
    UncompiledAfterPrefix(BuiltinPatterns(i), CustomPatterns(custom), compiles, results, content, engine, evaluate);
  }

  /** A match whose key trims to nothing, outside the plural-first pattern, stops the call. */
  lemma KeyStopped(name: PatternName, m: RegexMatch, evaluate: Evaluator)
    requires |m.groups| >= 1 && name != Builtin(HtmlDirectivePluralFirst) && Trim(m.groups[0]) == ""
    ensures MatchStep(name, m, evaluate) == Stopped
  {
  }

  /**
   * The writes of a match with property name `k` and default `value`, as
   * `_extractTranslation` computes them from `r`.
   */
  lemma KeyWritten(name: PatternName, m: RegexMatch, evaluate: Evaluator, k: string, value: string)
    requires |m.groups| >= 1
    requires name == Builtin(HtmlDirectivePluralFirst) ==> k == "undefined" && value == ""
    requires name != Builtin(HtmlDirectivePluralFirst) ==> k == Trim(m.groups[0]) != "" && value == MatchValue(name, m, evaluate)
    ensures MatchStep(name, m, evaluate) == Wrote(KeyEntries(name, k, value))
  {
    if name == Builtin(HtmlDirectivePluralFirst) {
      assert KeyEntries(name, k, value) == [Entry(k, value)];
    }
  }

  /** The plugin object: the options it was created with and the state it keeps across files. */
  class TranslateExtractor {
    const lang: seq<string>
    const interpolation: InterpolationOption
    const customRegex: seq<string>
    const engine: RegexEngine
    const compiles: RegexSyntax
    const evaluate: Evaluator
    /** The first non-null file seen; the emitted files take their location from it. */
    var firstFile: Option<VinylFile>
    /** Every translation key extracted so far, with its default value. */
    var results: map<string, string>

    constructor (lang: seq<string>, interpolation: InterpolationOption, customRegex: seq<string>,
                 engine: RegexEngine, compiles: RegexSyntax, evaluate: Evaluator)
      requires lang != []
      ensures this.lang == lang && this.interpolation == interpolation && this.customRegex == customRegex
      ensures this.engine == engine && this.compiles == compiles && this.evaluate == evaluate
      ensures firstFile == None && results == map[]
    {
      this.lang := lang;
      this.interpolation := interpolation;
      this.customRegex := customRegex;
      this.engine := engine;
      this.compiles := compiles;
      this.evaluate := evaluate;
      firstFile := None;
      results := map[];
    }

    /**
     * Creating the plugin: the argument check, then the options kept, with
     * no extra patterns unless `customRegex` is an array. The interpolation
     * option is resolved for each buffered file.
     */
    static method Create(fileName: Argument, options: Options, engine: RegexEngine, compiles: RegexSyntax, evaluate: Evaluator)
      returns (r: Result<TranslateExtractor>)
      ensures r.Failure? <==> CheckArguments(fileName, options).Some?
      ensures r.Failure? ==> r.error == CheckArguments(fileName, options).value
      ensures r.Success? ==> fresh(r.value) && options.lang.Some? && r.value.lang == options.lang.value
      ensures r.Success? ==> r.value.interpolation == options.interpolation
      ensures r.Success? ==> r.value.customRegex == (if options.customRegex.Some? then options.customRegex.value else [])
      ensures r.Success? ==> r.value.engine == engine && r.value.compiles == compiles && r.value.evaluate == evaluate
      ensures r.Success? ==> r.value.firstFile == None && r.value.results == map[]
    {
      if !Truthy(fileName) {
        return Failure(FileNameRequired);
      }
      if options.lang.None? || options.lang.value == [] {
        return Failure(LangRequired);
      }
      var customRegex := if options.customRegex.Some? then options.customRegex.value else [];
      var plugin := new TranslateExtractor(options.lang.value, options.interpolation, customRegex, engine, compiles, evaluate);
      return Success(plugin);
    }

    /**
     * `_extractTranslation`: every match of the pattern over `content`, in
     * order, until the first empty key. The key variable is function-scoped:
     * it keeps its value from one match to the next and the plural-first
     * branch never assigns it.
     */
    method ExtractTranslation(name: PatternName, source: string, content: string)
      modifies this`results
      ensures results == Extracted(old(results), name, engine(source, content), evaluate)
    {
      var ms := engine(source, content);
      ghost var steps := Steps(name, ms, evaluate);
      var key: Key := Undefined;
      var i := 0;
      while i < |ms|
        invariant 0 <= i <= |ms|
        invariant Run(old(results), steps) == Run(results, steps[i..])
        invariant name == Builtin(HtmlDirectivePluralFirst) ==> key == Undefined
      {
        RunAt(results, steps, i);
        var r := ms[i].Elements();
        if |r| >= 2 {
          var value := "";
          if name == Builtin(HtmlDirectivePluralFirst) {
            if |r| >= 3 {
              r := r[1 := r[2]][2 := r[1]];
            }
          } else if name == Builtin(HtmlDirectivePluralLast) {
            var hint := if |r| >= 3 then evaluate(r[2]) else None;
            if hint.Some? && |hint.value| >= 2 {
              value := PluralTemplate(hint.value);
            }
            assert hint == PluralHint(ms[i], evaluate);
            key := Defined(Trim(r[1]));
          } else {
            key := Defined(Trim(r[1]));
          }
          if key == Defined("") {
            KeyStopped(name, ms[i], evaluate);
            return;
          }
          var k := PropertyName(key);
          KeyWritten(name, ms[i], evaluate, k, value);
          if IsBatchPattern(name) {
            var stripped := RemoveAll(RemoveAll(k, {BatchQuote(name)}), {'[', ']'});
            var items := Split(stripped, ',');
            WriteItems(items, value);
          } else {
            ghost var before := results;
            results := results[UnescapeKey(name, k) := value];
            WriteOne(before, Entry(UnescapeKey(name, k), value));
          }
        } else {
          assert MatchStep(name, ms[i], evaluate) == Ignored;
        }
        i := i + 1;
      }
    }

    /** The `forEach` over the pieces of a batch capture: each piece's key gets `value`, in order. */
    method WriteItems(items: seq<string>, value: string)
      modifies this`results
      ensures results == Write(old(results), ItemEntries(items, value))
    {
      ghost var es := ItemEntries(items, value);
      var j := 0;
      while j < |items|
        invariant 0 <= j <= |items|
        invariant results == Write(old(results), es[..j])
      {
        results := results[BatchKey(items[j]) := value];
        assert es[..j + 1][..j] == es[..j];
        j := j + 1;
      }
      assert es[..|items|] == es;
    }
  
    /**
     * The loop over the pattern table for one file's content: each pattern is
     * compiled, and the loop stops with `ok` false at the first source that
     * does not compile; otherwise every pattern is run, in order.
     */
    method ScanContent(table: seq<Pattern>, content: string) returns (ok: bool)
      modifies this`results
      ensures ok <==> FirstUncompiled(table, compiles) == |table|
      ensures results == ScanTable(old(results), table[..FirstUncompiled(table, compiles)], content, engine, evaluate)
    {
      ghost var n := FirstUncompiled(table, compiles);
      var t := 0;
      while t < |table|
        invariant 0 <= t <= n
        invariant results == ScanTable(old(results), table[..t], content, engine, evaluate)
      {
        var p := table[t];
        if !compiles(p.source) {
          return false;
        }
        ghost var before := results;
        ScanTableSnoc(old(results), table, t, content, engine, evaluate);
        RunPattern(p, content);
        assert results == ScanPattern(before, p, content, engine, evaluate);
        t := t + 1;
      }
      assert table[..t] == table;
      return true;
    }

    /**
     * The `switch` on one pattern's name: for the seven fragment patterns,
     * each non-empty matched text gets its own `_extractTranslation` call;
     * any other pattern runs once on the content.
     */
    method RunPattern(p: Pattern, content: string)
      modifies this`results
      ensures results == ScanPattern(old(results), p, content, engine, evaluate)
    {
      if IsFragmentPattern(p.name) {
        var matches := Fragments(engine(p.source, content));
        var f := 0;
        while f < |matches|
          invariant 0 <= f <= |matches|
          invariant ScanFragments(old(results), p, matches, engine, evaluate) == ScanFragments(results, p, matches[f..], engine, evaluate)
        {
          assert matches[f..][0] == matches[f] && matches[f..][1..] == matches[f + 1..];
          if matches[f] != "" {
            ExtractTranslation(p.name, p.source, matches[f]);
          }
          f := f + 1;
        }
      } else {
        ExtractTranslation(p.name, p.source, content);
      }
    }

    /**
     * The transform applied to each file: a stream is refused, a null file
     * is passed on untouched, and a buffered file is remembered if it is the
     * first one, then scanned with the whole table and passed on. Building
     * the table throws when the interpolation option has no string
     * delimiters; the file has already been remembered by then. Compiling a
     * pattern whose source is not a regular expression throws during the
     * scan, after the patterns before it have written their keys.
     */
    method Transform(file: VinylFile) returns (r: Result<VinylFile>)
      modifies this`firstFile, this`results
      ensures file.contents.StreamContents? ==> r == Failure(StreamingNotSupported)
      ensures file.contents.NullContents? ==> r == Success(file)
      ensures file.contents.BufferContents? && interpolation.Malformed? ==> r == Failure(DelimiterNotString)
      ensures !file.contents.BufferContents? ==> firstFile == old(firstFile) && results == old(results)
      ensures file.contents.BufferContents? ==> firstFile == (if old(firstFile).None? then Some(file) else old(firstFile))
      ensures file.contents.BufferContents? && interpolation.Malformed? ==> results == old(results)
      ensures file.contents.BufferContents? && !interpolation.Malformed? ==>
                var table := PatternTable(ResolveInterpolation(interpolation).value, customRegex);
                var n := FirstUncompiled(table, compiles);
                && r == (if n == |table| then Success(file) else Failure(PatternNotCompiled))
                && results == ScanTable(old(results), table[..n], file.contents.text, engine, evaluate)
    {
      if file.contents.StreamContents? {
        return Failure(StreamingNotSupported);
      }
      if file.contents.NullContents? {
        return Success(file);
      }
      if firstFile.None? {
        firstFile := Some(file);
      }
      var delimiters := ResolveInterpolation(interpolation);
      if delimiters.None? {
        return Failure(DelimiterNotString);
      }
      var table := BuildPatternTable(delimiters.value, customRegex);
      var ok := ScanContent(table, file.contents.text);
      if !ok {
        return Failure(PatternNotCompiled);
      }
      return Success(file);
    }

    /**
     * The flush at the end of the stream: nothing when no file was seen,
     * otherwise one file per language, in order, named `<lang>.json` in the
     * first file's base directory, each holding all the translations.
     */
    method Flush() returns (out: seq<OutputFile>)
      ensures firstFile.None? ==> out == []
      ensures firstFile.Some? ==> |out| == |lang|
      ensures firstFile.Some? ==> forall i :: 0 <= i < |lang| ==> out[i] == OutputFor(firstFile.value, lang[i], results)
    {
      out := [];
      if firstFile.None? {
        return;
      }
      var first := firstFile.value;
      var i := 0;
      while i < |lang|
        invariant 0 <= i <= |lang| && |out| == i
        invariant forall j :: 0 <= j < i ==> out[j] == OutputFor(first, lang[j], results)
      {
        out := out + [OutputFile(first.cwd, first.base, PathJoin(first.base, OutputName(lang[i])), results)];
        i := i + 1;
      }
    }
  }
}

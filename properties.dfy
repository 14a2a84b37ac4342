/**
 * Properties of a whole parse: how lines compose, when a parse stops, what
 * order and values the settings end up with, what every stored setting
 * looks like, and which errors a parse can report.
 */
module Properties {
  import opened Wrappers
  import opened Scanner
  import opened Interpreter
  import opened IndexMaps
  import opened Config

  // ------------------------------------------------------------ sequencing

  /** Parsing `a + b` is parsing `a`, then parsing `b` from where `a` left off. */
  lemma {:induction false} ApplyLinesAppend(a: seq<string>, b: seq<string>, origin: Option<Path>,
                                            fs: FileSystem, depth: nat, settings: IndexMap)
    requires settings.Valid()
    ensures ApplyLines(a + b, origin, fs, depth, settings)
         == match ApplyLines(a, origin, fs, depth, settings)
            case Ok(c) => ApplyLines(b, origin, fs, depth, c.settings)
            case Err(e) => Err(e)
    decreases |a|
  {
    if a == [] {
      assert a + b == b;
    } else {
      assert (a + b)[0] == a[0] && (a + b)[1..] == a[1..] + b;
      match Step(a[0], origin, fs, depth, settings)
      case Ok(next) => ApplyLinesAppend(a[1..], b, origin, fs, depth, next);
      case Err(_) =>
    }
  }

  /**
   * The first line that fails ends the parse: its error is the result, and
   * nothing after it is looked at.
   */
  lemma FirstFailureStops(before: seq<string>, line: string, after: seq<string>,
                          origin: Option<Path>, fs: FileSystem, depth: nat, settings: IndexMap,
                          reached: IndexMap, e: ParseError)
    requires settings.Valid() && reached.Valid()
    requires ApplyLines(before, origin, fs, depth, settings) == Ok(NixConfig(reached))
    requires Step(line, origin, fs, depth, reached) == Err(e)
    ensures ApplyLines(before + ([line] + after), origin, fs, depth, settings) == Err(e)
  {
    ContinueAfter(before, [line] + after, origin, fs, depth, settings, reached);
    FailingFirstLine([line] + after, origin, fs, depth, reached, e);
  }

  lemma ContinueAfter(a: seq<string>, b: seq<string>, origin: Option<Path>, fs: FileSystem,
                      depth: nat, settings: IndexMap, after: IndexMap)
    requires settings.Valid() && after.Valid()
    requires ApplyLines(a, origin, fs, depth, settings) == Ok(NixConfig(after))
    ensures ApplyLines(a + b, origin, fs, depth, settings) == ApplyLines(b, origin, fs, depth, after)
  {
    ApplyLinesAppend(a, b, origin, fs, depth, settings);
  }

  lemma FailingFirstLine(lines: seq<string>, origin: Option<Path>, fs: FileSystem, depth: nat,
                         settings: IndexMap, e: ParseError)
    requires settings.Valid() && lines != []
    requires Step(lines[0], origin, fs, depth, settings) == Err(e)
    ensures ApplyLines(lines, origin, fs, depth, settings) == Err(e)
  {
  }

  // ---------------------------------------------------- blank-only input

  /** A line that holds nothing before its comment but whitespace. */
  predicate BlankLine(raw: string) {
    forall i :: 0 <= i < |StripComment(raw)| ==> IsWhitespace(StripComment(raw)[i])
  }

  /** Blank and comment-only lines leave the settings as they are. */
  lemma {:induction false} BlankLinesChangeNothing(lines: seq<string>, origin: Option<Path>,
                                                   fs: FileSystem, depth: nat, settings: IndexMap)
    requires settings.Valid()
    requires forall i :: 0 <= i < |lines| ==> BlankLine(lines[i])
    ensures ApplyLines(lines, origin, fs, depth, settings) == Ok(NixConfig(settings))
    decreases |lines|
  {
    if lines != [] {
      ClassifyBlank(lines[0]);
      BlankLinesChangeNothing(lines[1..], origin, fs, depth, settings);
    }
  }

  /** Text made only of blank and comment lines parses to no settings at all. */
  lemma BlankTextIsEmpty(contents: string, origin: Option<Path>, fs: FileSystem, depth: nat)
    requires forall line :: line in Lines(contents) ==> BlankLine(line)
    ensures StringOutcome(contents, origin, fs, depth) == Ok(New())
  {
    var lines := Lines(contents);
    assert forall i :: 0 <= i < |lines| ==> lines[i] in lines;
    BlankLinesChangeNothing(lines, origin, fs, depth, Empty());
  }

  // ------------------------------------------------------ settings order

  /** The `(key, value)` pairs of the assignment lines, in order. */
  function Assignments(lines: seq<string>): seq<(string, string)> {
    if lines == [] then []
    else
      (match Classify(lines[0])
       case Assign(k, v) => [(k, v)]
       case _ => [])
      + Assignments(lines[1..])
  }

  /** Every line is blank, a comment, or an assignment. */
  predicate SettingLines(lines: seq<string>) {
    forall i :: 0 <= i < |lines| ==> Classify(lines[i]).Blank? || Classify(lines[i]).Assign?
  }

  /** Without includes or errors, a parse inserts the assignments one after another. */
  lemma {:induction false} SettingLinesInsertAll(lines: seq<string>, origin: Option<Path>,
                                                 fs: FileSystem, depth: nat, settings: IndexMap)
    requires settings.Valid() && SettingLines(lines)
    ensures ApplyLines(lines, origin, fs, depth, settings)
         == Ok(NixConfig(settings.InsertAll(Assignments(lines))))
    decreases |lines|
  {
    if lines != [] {
      var rest := Assignments(lines[1..]);
      assert SettingLines(lines[1..]) by {
        assert forall i :: 0 <= i < |lines[1..]| ==> lines[1..][i] == lines[i + 1];
      }
      match Classify(lines[0])
      case Assign(k, v) =>
        var next := settings.Insert(k, v);
        SettingLinesInsertAll(lines[1..], origin, fs, depth, next);
        assert Assignments(lines) == [(k, v)] + rest;
        assert ([(k, v)] + rest)[0] == (k, v) && ([(k, v)] + rest)[1..] == rest;
      case Blank =>
        SettingLinesInsertAll(lines[1..], origin, fs, depth, settings);
        assert Assignments(lines) == [] + rest == rest;
    }
  }

  /**
   * A configuration of assignments only: the settings list each key once,
   * in the order of its first assignment, and hold its last value.
   */
  lemma SettingsInFirstAssignmentOrder(contents: string, origin: Option<Path>, fs: FileSystem,
                                       depth: nat)
    requires SettingLines(Lines(contents))
    ensures var r := StringOutcome(contents, origin, fs, depth);
            var assignments := Assignments(Lines(contents));
            && r.Ok?
            && r.value.settings.keys == FirstOccurrences(KeysOf(assignments), {})
            && r.value.settings.values == LastWins(assignments)
  {
    var assignments := Assignments(Lines(contents));
    SettingLinesInsertAll(Lines(contents), origin, fs, depth, Empty());
    assert Empty().values.Keys == {};
    assert Empty().values + LastWins(assignments) == LastWins(assignments);
    assert Empty().keys + FirstOccurrences(KeysOf(assignments), {})
        == FirstOccurrences(KeysOf(assignments), {});
  }

  /** With each key assigned once, the settings keep exactly the order of the lines. */
  lemma DistinctKeysKeepLineOrder(contents: string, origin: Option<Path>, fs: FileSystem,
                                  depth: nat)
    requires SettingLines(Lines(contents))
    requires var ks := KeysOf(Assignments(Lines(contents)));
             forall i, j :: 0 <= i < j < |ks| ==> ks[i] != ks[j]
    ensures var r := StringOutcome(contents, origin, fs, depth);
            r.Ok? && r.value.settings.keys == KeysOf(Assignments(Lines(contents)))
  {
    SettingsInFirstAssignmentOrder(contents, origin, fs, depth);
    FirstOccurrencesOfDistinct(KeysOf(Assignments(Lines(contents))), {});
  }

  // ------------------------------------------------- stored settings' shape

  /**
   * Every stored key is a single token that is not a directive and holds no
   * `#`; every stored value is in normal form and holds no `#`.
   */
  predicate WellFormedSettings(m: IndexMap) {
    forall k :: k in m.values ==> ValidKey(k) && ValidValue(m.values[k])
  }

  lemma {:induction false} FileSettingsWellFormed(fs: FileSystem, path: Path, depth: nat)
    ensures var r := FileOutcome(fs, path, depth);
            r.Ok? ==> WellFormedSettings(r.value.settings)
    decreases depth, 3
  {
    if path in fs && fs[path].Readable? {
      LinesSettingsWellFormed(Lines(fs[path].contents), Some(path), fs, depth, Empty());
    }
  }

  lemma {:induction false} LinesSettingsWellFormed(lines: seq<string>, origin: Option<Path>,
                                                   fs: FileSystem, depth: nat, settings: IndexMap)
    requires settings.Valid() && WellFormedSettings(settings)
    ensures var r := ApplyLines(lines, origin, fs, depth, settings);
            r.Ok? ==> WellFormedSettings(r.value.settings)
    decreases depth, 2, |lines|
  {
    if lines != [] {
      StepWellFormed(lines[0], origin, fs, depth, settings);
      match Step(lines[0], origin, fs, depth, settings)
      case Ok(next) => LinesSettingsWellFormed(lines[1..], origin, fs, depth, next);
      case Err(_) =>
    }
  }

  lemma {:induction false} StepWellFormed(line: string, origin: Option<Path>, fs: FileSystem,
                                          depth: nat, settings: IndexMap)
    requires settings.Valid() && WellFormedSettings(settings)
    ensures var r := Step(line, origin, fs, depth, settings);
            r.Ok? ==> WellFormedSettings(r.value)
    decreases depth, 1
  {
    ClassifiedWellFormed(line);
    match Classify(line)
    case Include(p, ignoreMissing) =>
      IncludeWellFormed(p, ignoreMissing, origin, fs, depth, settings);
    case Assign(k, v) =>
      InsertWellFormed(settings, k, v);
    case _ =>
  }

  lemma {:induction false} IncludeWellFormed(path: Path, ignoreMissing: bool, origin: Option<Path>,
                                             fs: FileSystem, depth: nat, settings: IndexMap)
    requires settings.Valid() && WellFormedSettings(settings)
    ensures var r := IncludeStep(path, ignoreMissing, origin, fs, depth, settings);
            r.Ok? ==> WellFormedSettings(r.value)
    decreases depth, 0
  {
    if depth > 0 {
      FileSettingsWellFormed(fs, path, depth - 1);
      MergeWellFormed(FileOutcome(fs, path, depth - 1), path, ignoreMissing, origin, settings);
    }
  }

  lemma MergeWellFormed(child: ParseResult, path: Path, ignoreMissing: bool, origin: Option<Path>,
                        settings: IndexMap)
    requires settings.Valid() && WellFormedSettings(settings)
    requires child.Ok? ==> child.value.settings.Valid() && WellFormedSettings(child.value.settings)
    ensures var r := MergeInclude(child, path, ignoreMissing, origin, settings);
            r.Ok? ==> WellFormedSettings(r.value)
  {
    if child.Ok? {
      ExtendWellFormed(settings, child.value.settings);
    }
  }

  lemma ExtendWellFormed(settings: IndexMap, other: IndexMap)
    requires settings.Valid() && other.Valid()
    requires WellFormedSettings(settings) && WellFormedSettings(other)
    ensures WellFormedSettings(settings.Extend(other))
  {
  }

  lemma InsertWellFormed(settings: IndexMap, k: string, v: string)
    requires settings.Valid() && WellFormedSettings(settings)
    requires ValidKey(k) && ValidValue(v)
    ensures WellFormedSettings(settings.Insert(k, v))
  {
    var r := settings.Insert(k, v);
    forall key | key in r.values
      ensures ValidKey(key) && ValidValue(r.values[key])
    {
      if key != k {
        assert r.Get(key) == settings.Get(key);
      } else {
        assert r.Get(key) == Some(v);
      }
    }
  }

  /** The settings a parse of text yields are all well formed. */
  lemma StringSettingsWellFormed(contents: string, origin: Option<Path>, fs: FileSystem, depth: nat)
    ensures var r := StringOutcome(contents, origin, fs, depth);
            r.Ok? ==> WellFormedSettings(r.value.settings)
  {
    LinesSettingsWellFormed(Lines(contents), origin, fs, depth, Empty());
  }

  // ---------------------------------------------------------------- errors

  /**
   * An error the parse of some text can report: a line of that text that is
   * illegal, or an `include` line of it whose file did not parse, both
   * naming the text's origin; or an `include` or `!include` line of it
   * whose nesting went past the bound.
   */
  predicate ReportedFrom(e: ParseError, lines: seq<string>, origin: Option<Path>) {
    match e
    case IllegalConfiguration(text, o) =>
      o == origin && exists line :: line in lines && Classify(line) == Illegal(text)
    case IncludedFileNotFound(path, o) =>
      o == origin && exists line :: line in lines && Classify(line) == Include(path, false)
    case IncludeDepthExceeded(_) => exists line :: line in lines && Classify(line).Include?
    case _ => false
  }

  /** The errors one line can stop the parse with. */
  predicate StepError(e: ParseError, line: string, origin: Option<Path>) {
    match e
    case IllegalConfiguration(text, o) => o == origin && Classify(line) == Illegal(text)
    case IncludedFileNotFound(path, o) => o == origin && Classify(line) == Include(path, false)
    case IncludeDepthExceeded(_) => Classify(line).Include?
    case _ => false
  }

  lemma StepErrorReported(line: string, origin: Option<Path>, fs: FileSystem, depth: nat,
                          settings: IndexMap)
    requires settings.Valid()
    ensures var r := Step(line, origin, fs, depth, settings);
            r.Err? ==> StepError(r.error, line, origin)
  {
    var kind := Classify(line);
    if kind.Include? {
      IncludeErrorReported(kind.path, kind.ignoreMissing, origin, fs, depth, settings);
    }
  }

  lemma IncludeErrorReported(path: Path, ignoreMissing: bool, origin: Option<Path>,
                             fs: FileSystem, depth: nat, settings: IndexMap)
    requires settings.Valid()
    ensures var r := IncludeStep(path, ignoreMissing, origin, fs, depth, settings);
            r.Err? ==> r.error.IncludeDepthExceeded?
                       || (r.error == IncludedFileNotFound(path, origin) && !ignoreMissing)
  {
    if depth > 0 {
      MergeErrorReported(FileOutcome(fs, path, depth - 1), path, ignoreMissing, origin, settings);
    }
  }

  lemma MergeErrorReported(child: ParseResult, path: Path, ignoreMissing: bool,
                           origin: Option<Path>, settings: IndexMap)
    requires settings.Valid() && (child.Ok? ==> child.value.settings.Valid())
    ensures var r := MergeInclude(child, path, ignoreMissing, origin, settings);
            r.Err? ==> r.error.IncludeDepthExceeded?
                       || (r.error == IncludedFileNotFound(path, origin) && !ignoreMissing)
  {
  }

  lemma {:induction false} LineErrorsReported(lines: seq<string>, origin: Option<Path>,
                                              fs: FileSystem, depth: nat, settings: IndexMap)
    requires settings.Valid()
    ensures var r := ApplyLines(lines, origin, fs, depth, settings);
            r.Err? ==> ReportedFrom(r.error, lines, origin)
    decreases |lines|
  {
    if lines != [] {
      var r := ApplyLines(lines, origin, fs, depth, settings);
      StepErrorReported(lines[0], origin, fs, depth, settings);
      match Step(lines[0], origin, fs, depth, settings)
      case Ok(next) =>
        LineErrorsReported(lines[1..], origin, fs, depth, next);
        if r.Err? {
          ReportedFromLonger(r.error, lines[1..], lines, origin);
        }
      case Err(e) =>
        StepErrorInLines(e, lines[0], lines, origin);
    }
  }

  lemma StepErrorInLines(e: ParseError, line: string, lines: seq<string>, origin: Option<Path>)
    requires StepError(e, line, origin) && line in lines
    ensures ReportedFrom(e, lines, origin)
  {
  }

  lemma ReportedFromLonger(e: ParseError, shorter: seq<string>, lines: seq<string>,
                           origin: Option<Path>)
    requires ReportedFrom(e, shorter, origin)
    requires forall line :: line in shorter ==> line in lines
    ensures ReportedFrom(e, lines, origin)
  {
  }

  /**
   * A file either is missing or unreadable, reported with its own path, or
   * fails with an error reported from one of its lines.
   */
  lemma FileErrorsReported(fs: FileSystem, path: Path, depth: nat)
    ensures var r := FileOutcome(fs, path, depth);
            && (r == Err(FileNotFound(path)) <==> path !in fs)
            && (r == Err(FailedToReadFile(path)) <==> path in fs && fs[path].Unreadable?)
            && (r.Err? && path in fs && fs[path].Readable? ==>
                  ReportedFrom(r.error, Lines(fs[path].contents), Some(path)))
  {
    if path in fs && fs[path].Readable? {
      LineErrorsReported(Lines(fs[path].contents), Some(path), fs, depth, Empty());
    }
  }

  // ---------------------------------------------------------------- the include bound

  /** A parse that stopped because includes nested past the bound. */
  predicate DepthCut<T>(r: Result<T, ParseError>) {
    r.Err? && r.error.IncludeDepthExceeded?
  }

  /**
   * The bound on include nesting only ever cuts a parse short: a parse of a
   * file that the bound did not stop comes out the same under any larger
   * bound, so it is the outcome of the unbounded parse.
   */
  lemma {:induction false} FileDepthMonotone(fs: FileSystem, path: Path, depth: nat)
    ensures !DepthCut(FileOutcome(fs, path, depth)) ==>
              FileOutcome(fs, path, depth + 1) == FileOutcome(fs, path, depth)
    decreases depth, 3
  {
    if path in fs && fs[path].Readable? {
      LinesDepthMonotone(Lines(fs[path].contents), Some(path), fs, depth, Empty());
    }
  }

  lemma {:induction false} LinesDepthMonotone(lines: seq<string>, origin: Option<Path>,
                                              fs: FileSystem, depth: nat, settings: IndexMap)
    requires settings.Valid()
    ensures !DepthCut(ApplyLines(lines, origin, fs, depth, settings)) ==>
              ApplyLines(lines, origin, fs, depth + 1, settings)
              == ApplyLines(lines, origin, fs, depth, settings)
    decreases depth, 2, |lines|
  {
    if lines != [] {
      StepDepthMonotone(lines[0], origin, fs, depth, settings);
      match Step(lines[0], origin, fs, depth, settings)
      case Ok(next) => LinesDepthMonotone(lines[1..], origin, fs, depth, next);
      case Err(_) =>
    }
  }

  lemma {:induction false} StepDepthMonotone(line: string, origin: Option<Path>, fs: FileSystem,
                                             depth: nat, settings: IndexMap)
    requires settings.Valid()
    ensures !DepthCut(Step(line, origin, fs, depth, settings)) ==>
              Step(line, origin, fs, depth + 1, settings) == Step(line, origin, fs, depth, settings)
    decreases depth, 1
  {
    var kind := Classify(line);
    if kind.Include? {
      IncludeDepthMonotone(kind.path, kind.ignoreMissing, origin, fs, depth, settings);
    }
  }

  lemma {:induction false} IncludeDepthMonotone(path: Path, ignoreMissing: bool,
                                                origin: Option<Path>, fs: FileSystem, depth: nat,
                                                settings: IndexMap)
    requires settings.Valid()
    ensures !DepthCut(IncludeStep(path, ignoreMissing, origin, fs, depth, settings)) ==>
              IncludeStep(path, ignoreMissing, origin, fs, depth + 1, settings)
              == IncludeStep(path, ignoreMissing, origin, fs, depth, settings)
    decreases depth, 0
  {
    if depth > 0 {
      FileDepthMonotone(fs, path, depth - 1);
      MergeDepthMonotone(FileOutcome(fs, path, depth - 1), FileOutcome(fs, path, depth), path,
                         ignoreMissing, origin, settings);
    }
  }

  lemma MergeDepthMonotone(child: ParseResult, deeper: ParseResult, path: Path, ignoreMissing: bool,
                           origin: Option<Path>, settings: IndexMap)
    requires settings.Valid()
    requires child.Ok? ==> child.value.settings.Valid()
    requires deeper.Ok? ==> deeper.value.settings.Valid()
    requires !DepthCut(child) ==> deeper == child
    ensures !DepthCut(MergeInclude(child, path, ignoreMissing, origin, settings)) ==>
              MergeInclude(deeper, path, ignoreMissing, origin, settings)
              == MergeInclude(child, path, ignoreMissing, origin, settings)
  {
  }
}

/**
 * `NixConfig` and its parse, as functions: what `parse_file` and
 * `parse_string` return for given inputs. The file system that `parse_file`
 * reads is a parameter (a map from paths to what reading them yields), and
 * `depth` bounds how deeply includes may nest.
 */
module Config {
  import opened Wrappers
  import opened Scanner
  import opened Interpreter
  import opened IndexMaps

  type Path = string

  datatype ParseError =
    | FileNotFound(path: Path)
    | FailedToReadFile(path: Path)
    | IncludedFileNotFound(path: Path, origin: Option<Path>)
    | IllegalConfiguration(line: string, origin: Option<Path>)
      /**
       * Not a variant of the library: the include nesting went deeper than
       * `depth` allows. It stands for the stack overflow that ends the
       * process on an include cycle, so it is passed up unchanged.
       */
    | IncludeDepthExceeded(path: Path)

  /** The parsed settings, in order of first assignment. */
  datatype NixConfig = NixConfig(settings: IndexMap)

  type ParseResult = Result<NixConfig, ParseError>

  /** `NixConfig::new`: no settings. */
  function New(): (c: NixConfig)
    ensures c.settings.Valid()
    ensures c.settings.keys == []
    ensures forall k :: c.settings.Get(k) == None
  {
    NixConfig(Empty())
  }

  /**
   * What reading a path yields: its text, or a failure to read it (a
   * directory, a permission denied, text that is not UTF-8).
   */
  datatype FileEntry = Readable(contents: string) | Unreadable

  /** The paths that exist, and what reading each of them yields. */
  type FileSystem = map<Path, FileEntry>

  /** `NixConfig::parse_file`. */
  function FileOutcome(fs: FileSystem, path: Path, depth: nat): (r: ParseResult)
    ensures r.Ok? ==> r.value.settings.Valid()
    decreases depth, 3, 0
  {
    if path !in fs then Err(FileNotFound(path))
    else match fs[path]
      case Unreadable => Err(FailedToReadFile(path))
      case Readable(contents) => StringOutcome(contents, Some(path), fs, depth)
  }

  /** `NixConfig::parse_string`. */
  function StringOutcome(contents: string, origin: Option<Path>, fs: FileSystem, depth: nat): (r: ParseResult)
    ensures r.Ok? ==> r.value.settings.Valid()
    decreases depth, 2, 0
  {
    ApplyLines(Lines(contents), origin, fs, depth, Empty())
  }

  /** The rest of the parse, once the lines before `lines` have built `settings`. */
  function ApplyLines(lines: seq<string>, origin: Option<Path>, fs: FileSystem, depth: nat,
                      settings: IndexMap): (r: ParseResult)
    requires settings.Valid()
    ensures r.Ok? ==> r.value.settings.Valid()
    decreases depth, 1, |lines|
  {
    if lines == [] then Ok(NixConfig(settings))
    else
      match Step(lines[0], origin, fs, depth, settings)
      case Ok(next) => ApplyLines(lines[1..], origin, fs, depth, next)
      case Err(e) => Err(e)
  }

  /** What one line does to the settings built so far: update them, or stop the parse. */
  function Step(line: string, origin: Option<Path>, fs: FileSystem, depth: nat,
                settings: IndexMap): (r: Result<IndexMap, ParseError>)
    requires settings.Valid()
    ensures r.Ok? ==> r.value.Valid()
    decreases depth, 0, 1
  {
    match Classify(line)
    case Blank => Ok(settings)
    case Illegal(text) => Err(IllegalConfiguration(text, origin))
    case Include(path, ignoreMissing) => IncludeStep(path, ignoreMissing, origin, fs, depth, settings)
    case Assign(key, value) => Ok(settings.Insert(key, value))
  }

  /** What an include line does: parse the named file, then cross the include boundary. */
  function IncludeStep(path: Path, ignoreMissing: bool, origin: Option<Path>, fs: FileSystem,
                       depth: nat, settings: IndexMap): (r: Result<IndexMap, ParseError>)
    requires settings.Valid()
    ensures r.Ok? ==> r.value.Valid()
    decreases depth, 0, 0
  {
    if depth == 0 then Err(IncludeDepthExceeded(path))
    else MergeInclude(FileOutcome(fs, path, depth - 1), path, ignoreMissing, origin, settings)
  }

  /**
   * The include boundary: a child parse that succeeded is merged in; one
   * that failed is ignored under `!include` and becomes
   * `IncludedFileNotFound` under `include`, whatever its own error was.
   */
  function MergeInclude(child: ParseResult, path: Path, ignoreMissing: bool, origin: Option<Path>,
                        settings: IndexMap): (r: Result<IndexMap, ParseError>)
    requires settings.Valid()
    requires child.Ok? ==> child.value.settings.Valid()
    ensures r.Ok? ==> r.value.Valid()
    // A child that parsed is merged in its own order, its values winning.
    ensures child.Ok? ==> && r.Ok?
                          && r.value.values == settings.values + child.value.settings.values
                          && r.value.keys
                             == settings.keys + FirstOccurrences(child.value.settings.keys, settings.values.Keys)
    // Any other failure of the child is ignored under `!include` and
    // reported as the include path, from this file, under `include`.
    ensures child.Err? && !child.error.IncludeDepthExceeded? ==>
              r == if ignoreMissing then Ok(settings) else Err(IncludedFileNotFound(path, origin))
    ensures child.Err? && child.error.IncludeDepthExceeded? ==> r == Err(child.error)
  {
    match child
    case Ok(conf) => Ok(settings.Extend(conf.settings))
    case Err(e) =>
      if e.IncludeDepthExceeded? then Err(e)
      else if ignoreMissing then Ok(settings)
      else Err(IncludedFileNotFound(path, origin))
  }

  /** ApplyLines from position `i` is one step, then ApplyLines from `i + 1`. */
  lemma ApplyLinesAt(lines: seq<string>, i: nat, origin: Option<Path>, fs: FileSystem, depth: nat,
                     settings: IndexMap)
    requires i < |lines| && settings.Valid()
    ensures ApplyLines(lines[i..], origin, fs, depth, settings)
         == match Step(lines[i], origin, fs, depth, settings)
            case Ok(next) => ApplyLines(lines[i + 1..], origin, fs, depth, next)
            case Err(e) => Err(e)
  {
    assert lines[i..][0] == lines[i] && lines[i..][1..] == lines[i + 1..];
  }
}

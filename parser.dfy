/**
 * `NixConfig::parse_file` and `NixConfig::parse_string` as the library runs
 * them: a loop over the lines that reassigns one settings value and
 * returns at the first failing line. Each is proved to compute the parse
 * that the `Config` module defines.
 */
module Parser {
  import opened Wrappers
  import opened Scanner
  import opened Interpreter
  import opened IndexMaps
  import opened Config

  /**
   * `parse_file`. The loop of `ParseString` reaches it again through
   * `ApplyInclude` for every included file, so the two methods recurse
   * into each other as `FileOutcome` and `IncludeStep` do.
   */
  method ParseFile(fs: FileSystem, path: Path, depth: nat) returns (r: ParseResult)
    ensures r == FileOutcome(fs, path, depth)
    decreases depth, 3
  {
    if path !in fs {
      return Err(FileNotFound(path));
    }
    match fs[path]
    case Unreadable =>
      return Err(FailedToReadFile(path));
    case Readable(contents) =>
      r := ParseString(contents, Some(path), fs, depth);
  }

  method ParseString(contents: string, origin: Option<Path>, fs: FileSystem, depth: nat)
    returns (r: ParseResult)
    ensures r == StringOutcome(contents, origin, fs, depth)
    decreases depth, 2
  {
    var settings := Empty();
    var lines := Lines(contents);
    var i := 0;
    while i < |lines|
      invariant i <= |lines|
      invariant settings.Valid()
      invariant ApplyLines(lines, origin, fs, depth, Empty())
             == ApplyLines(lines[i..], origin, fs, depth, settings)
    {
      ApplyLinesAt(lines, i, origin, fs, depth, settings);
      var step := ApplyLine(lines[i], origin, fs, depth, settings);
      if step.Err? {
        return Err(step.error);
      }
      settings := step.value;
      i := i + 1;
    }
    return Ok(NixConfig(settings));
  }

  /** The body of the loop of `parse_string`: what one line does to `settings`. */
  method ApplyLine(raw: string, origin: Option<Path>, fs: FileSystem, depth: nat,
                   settings: IndexMap)
    returns (r: Result<IndexMap, ParseError>)
    requires settings.Valid()
    ensures r == Step(raw, origin, fs, depth, settings)
    decreases depth, 1
  {
    var line := StripComment(raw);
    line := Trim(line);
    ghost var kind := ClassifyCleaned(line);
    assert Classify(raw) == kind;
    if line == [] {
      return Ok(settings);
    }
    var tokens := Tokens(line);
    // The library tests `tokens` for emptiness again here; after trimming
    // that test cannot succeed.
    TrimmedLineHasTokens(line);
    if |tokens| < 2 {
      return Err(IllegalConfiguration(line, origin));
    }
    var isInclude, ignoreMissing := false, false;
    if tokens[0] == "include" {
      isInclude := true;
    } else if tokens[0] == "!include" {
      isInclude := true;
      ignoreMissing := true;
    }
    if isInclude {
      if |tokens| != 2 {
          return Err(IllegalConfiguration(line, origin));
      }
      var includePath := tokens[1];
      assert kind == Include(includePath, ignoreMissing);
      r := ApplyInclude(includePath, ignoreMissing, origin, fs, depth, settings);
      return;
    }
    if tokens[1] != "=" {
      return Err(IllegalConfiguration(line, origin));
    }
    var name := tokens[0];
    var value := Join(tokens[2..]);
    assert kind == Assign(name, value);
    return Ok(settings.Insert(name, value));
  }

  /**
   * An include line: parse the named file with `ParseFile` one level
   * deeper, then merge or reclassify the outcome. This is the call by which
   * the loop of `ParseString` recurses into an included file.
   */
  method ApplyInclude(includePath: Path, ignoreMissing: bool, origin: Option<Path>, fs: FileSystem,
                      depth: nat, settings: IndexMap)
    returns (r: Result<IndexMap, ParseError>)
    requires settings.Valid()
    ensures r == IncludeStep(includePath, ignoreMissing, origin, fs, depth, settings)
    decreases depth, 0
  {
    if depth == 0 {
      return Err(IncludeDepthExceeded(includePath));
    }
    var child := ParseFile(fs, includePath, depth - 1);
    if child.Ok? {
      r := Ok(settings.Extend(child.value.settings));
    } else if child.error.IncludeDepthExceeded? {
      r := Err(child.error);
    } else if ignoreMissing {
      r := Ok(settings);
    } else {
      r := Err(IncludedFileNotFound(includePath, origin));
    }
  }
}

/**
 * The outcomes the library's own tests expect, derived from the model:
 * a line that is neither an assignment nor an include, an include of a
 * file that does not exist, and a file that is missing or unreadable.
 */
module Scenarios {
  import opened Wrappers
  import opened Scanner
  import opened Interpreter
  import opened IndexMaps
  import opened Config

  /** A text of one line does to the settings what that line does. */
  lemma OneLineOutcome(text: string, origin: Option<Path>, fs: FileSystem, depth: nat)
    requires text != [] && '\n' !in text
    ensures StringOutcome(text, origin, fs, depth)
         == match Step(text, origin, fs, depth, Empty())
            case Ok(settings) => Ok(NixConfig(settings))
            case Err(e) => Err(e)
  {
    OneLine(text);
    var lines := [text];
    assert lines[0] == text && lines[1..] == [];
    assert StringOutcome(text, origin, fs, depth) == ApplyLines(lines, origin, fs, depth, Empty());
  }

  /** Two tokens, the second not `=` and the first not a directive: an illegal line. */
  lemma TwoTokensIllegal(a: string, b: string)
    requires IsToken(a) && IsToken(b) && '#' !in a && '#' !in b
    requires !IsWhitespace(a[0]) && !IsWhitespace(b[|b| - 1])
    requires !IsDirective(a) && b != "="
    ensures Classify(a + " " + b) == Illegal(a + " " + b)
  {
    var line := a + " " + b;
    TokensOfTwo(a, b);
    assert line[0] == a[0] && line[|line| - 1] == b[|b| - 1];
    assert '#' !in line;
    CleanedUntouched(line);
  }

  /** `bad config` has two tokens, the second not `=`: the parse fails on it. */
  lemma BadConfigIsIllegal(text: string, fs: FileSystem, depth: nat)
    requires text == "bad config"
    ensures StringOutcome(text, None, fs, depth) == Err(IllegalConfiguration(text, None))
  {
    BadConfigWords();
    TwoTokensIllegal("bad", "config");
    OneLineOutcome(text, None, fs, depth);
  }

  lemma BadConfigWords()
    ensures IsToken("bad") && '#' !in "bad" && !IsWhitespace('b') && !IsDirective("bad")
    ensures IsToken("config") && '#' !in "config" && !IsWhitespace('g') && "config" != "="
    ensures "bad" + " " + "config" == "bad config"
    ensures "bad config" != [] && '\n' !in "bad config"
  {
    assert "bad" == ['b', 'a', 'd'];
    assert "config" == ['c', 'o', 'n', 'f', 'i', 'g'];
    assert "bad config" == ['b', 'a', 'd', ' ', 'c', 'o', 'n', 'f', 'i', 'g'];
  }

  /**
   * `include p` for a path that does not exist fails with
   * `IncludedFileNotFound(p, origin)`; `!include p` is skipped.
   */
  lemma MissingInclude(p: Path, origin: Option<Path>, fs: FileSystem, depth: nat)
    requires ValidPath(p) && p !in fs && depth > 0
    ensures StringOutcome("include " + p, origin, fs, depth) == Err(IncludedFileNotFound(p, origin))
    ensures StringOutcome("!include " + p, origin, fs, depth) == Ok(New())
  {
    MissingIncludeText(p, false, origin, fs, depth);
    MissingIncludeText(p, true, origin, fs, depth);
    RenderedInclude(p);
  }

  lemma RenderedInclude(p: Path)
    ensures Render(Include(p, false)) == "include " + p
    ensures Render(Include(p, true)) == "!include " + p
  {
  }

  lemma MissingIncludeText(p: Path, ignoreMissing: bool, origin: Option<Path>, fs: FileSystem,
                           depth: nat)
    requires ValidPath(p) && p !in fs && depth > 0
    ensures StringOutcome(Render(Include(p, ignoreMissing)), origin, fs, depth)
         == if ignoreMissing then Ok(New()) else Err(IncludedFileNotFound(p, origin))
  {
    var line := Render(Include(p, ignoreMissing));
    RenderRoundTrip(Include(p, ignoreMissing));
    MissingIncludeStep(line, p, ignoreMissing, origin, fs, depth, Empty());
    assert line != [] && '\n' !in line by {
      IncludeLineChars(p, ignoreMissing);
    }
    OneLineOutcome(line, origin, fs, depth);
  }

  lemma IncludeLineChars(p: Path, ignoreMissing: bool)
    requires ValidPath(p)
    ensures Render(Include(p, ignoreMissing)) != []
    ensures '\n' !in Render(Include(p, ignoreMissing))
  {
    var d := if ignoreMissing then "!include" else "include";
    assert Render(Include(p, ignoreMissing)) == d + " " + p;
    assert '\n' !in d;
    assert '\n' !in p by {
      assert forall i :: 0 <= i < |p| ==> p[i] != '\n';
    }
  }

  /** An include line naming a path that does not exist. */
  lemma MissingIncludeStep(line: string, p: Path, ignoreMissing: bool, origin: Option<Path>,
                           fs: FileSystem, depth: nat, settings: IndexMap)
    requires settings.Valid() && Classify(line) == Include(p, ignoreMissing)
    requires p !in fs && depth > 0
    ensures Step(line, origin, fs, depth, settings)
         == if ignoreMissing then Ok(settings) else Err(IncludedFileNotFound(p, origin))
  {
    assert FileOutcome(fs, p, depth - 1) == Err(FileNotFound(p));
  }

  /**
   * A path that does not exist fails with `FileNotFound`, one that cannot
   * be read with `FailedToReadFile`, both naming the path.
   */
  lemma UnavailableFile(fs: FileSystem, path: Path, depth: nat)
    ensures path !in fs ==> FileOutcome(fs, path, depth) == Err(FileNotFound(path))
    ensures path in fs && fs[path] == Unreadable ==>
              FileOutcome(fs, path, depth) == Err(FailedToReadFile(path))
  {
  }
}

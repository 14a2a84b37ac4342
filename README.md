# nix-config-parser in Dafny

A model of the `nix.conf` parser of `nix-config-parser`: `NixConfig::parse_string`,
`NixConfig::parse_file` as the source of included files, the insertion-ordered settings
map (`IndexMap<String, String>`) and the `ParseError` variants. The parser reads a text
line by line. For each line it:

1. cuts the line at its first `#`;
2. trims whitespace;
3. splits the line on space, tab, CR and LF, dropping empty pieces;
4. decides what the line is:
   - blank: ignored;
   - illegal: the parse fails with `IllegalConfiguration(line, origin)`;
   - `include p` / `!include p`: `p` is parsed and its settings merged in;
   - `key = v1 ... vn`: the value `v1 ... vn` (single spaces) is stored under `key`.

The first line that fails ends the parse.

Modules, one file each:

| file | module | what it holds |
|---|---|---|
| `wrappers.dfy` | `Wrappers` | `Option`, `Result` |
| `scanner.dfy` | `Scanner` | Rust's `str::lines`, `str::find`, `str::trim`, the split on separators with `retain`, and `join(" ")`, as functions |
| `index_map.dfy` | `IndexMaps` | `IndexMap` as a key sequence plus a map: `insert`, `extend`, and the fold of many inserts |
| `interpreter.dfy` | `Interpreter` | `Classify`: what a single raw line is. It is characterised both ways by lemmas and inverted by `Render` |
| `config.dfy` | `Config` | `ParseError`, `NixConfig`, the file system seen by `parse_file`, and the outcome of a parse as functions (`FileOutcome`, `StringOutcome`, `ApplyLines`, `Step`, `IncludeStep`, `MergeInclude`) |
| `parser.dfy` | `Parser` | `parse_file` and `parse_string` as methods. `ParseString` is the source's loop, with early returns, over a settings accumulator. Each method is proved equal to its function in `Config` |
| `properties.dfy` | `Properties` | whole-parse properties: sequencing, first failure, blank input, key order and last-value-wins, the shape of stored settings, error provenance |
| `scenarios.dfy` | `Scenarios` | what the library's tests expect, derived from the model |

The file system is a parameter `fs: map<Path, FileEntry>`. A path that is not in the map
does not exist. A path mapped to `Unreadable` exists but cannot be read as text.

Includes nest through `parse_file`, with no cycle check in the source. The model bounds
the nesting by a parameter `depth`. When it runs out, the parse returns
`IncludeDepthExceeded(path)`, an error the library does not have (see "Left out"). The bound
only ever cuts a parse short: an outcome that is not `IncludeDepthExceeded` stays the same
under a bound one larger, and so under every larger one (`Properties.FileDepthMonotone`).

Where the code and a plain reading of the format differ, the model follows the code:

- **Trimming.** `str::trim` removes every Unicode `White_Space` character (25 code points),
  not only space, tab and CR. `Scanner.IsWhitespace` lists them all. The separator set of
  the split is only space, tab, LF and CR. A line such as `a\u{A0}= b` therefore has the
  tokens `["a\u{A0}=", "b"]` and is illegal. As a result, a stored key or value never starts
  or ends with a separator, and a key starts and a value ends with a non-whitespace
  character, but a key can end, and a value start, with other Unicode whitespace:
  `a\u{A0} = b` stores the key `a\u{A0}`, and `k = \u{A0}x` stores the value `\u{A0}x`.
- **Error text.** The text carried by `IllegalConfiguration` is the line after comment
  stripping *and* trimming (lib.rs:117, 134, 157).
- **Dead check.** The second emptiness test (lib.rs:111-113) cannot succeed. The line is
  non-empty after trimming and starts with a non-whitespace character, so it has a token
  (`Scanner.TrimmedLineHasTokens`).

## Model

| member | source | states |
|---|---|---|
| Scanner.IsWhitespace | src/lib.rs:102 | the set `trim` removes: Rust's `char::is_whitespace`, the 25 Unicode `White_Space` code points; what it means for trimming is stated by `TrimStart`, `TrimEnd`, `Trim` and `TrimPadded` |
| Scanner.IndexOf | src/lib.rs:98 | the index found holds `#` and no earlier character is `#` (`str::find`) |
| Scanner.Lines | src/lib.rs:94 | no line of `contents.lines()` holds a newline; an empty text has no lines at all |
| Scanner.LinesAtNewline | src/lib.rs:94 | the first newline ends the first line, a `\r` just before it is dropped, and the text after it gives the remaining lines |
| Scanner.OneLine | src/lib.rs:94 | a non-empty text without a newline is a single line |
| Scanner.StripComment | src/lib.rs:97-100 | the kept part is a prefix of the line without `#`, and it stops exactly at the first `#` when there is one |
| Scanner.TrimStart | src/lib.rs:102 | the result is a suffix of the input; everything removed is whitespace; the result does not start with whitespace |
| Scanner.TrimEnd | src/lib.rs:102 | the result is a prefix of the input; everything removed is whitespace; the result does not end with whitespace |
| Scanner.Trim | src/lib.rs:102 | the trimmed line uses only characters of the input and neither starts nor ends with whitespace; it is empty exactly when the input is all whitespace |
| Scanner.TrimPadded | src/lib.rs:102 | the trimmed line is one contiguous part of the input, with only whitespace before and after it |
| Scanner.Split | src/lib.rs:108 | splitting on space/tab/LF/CR yields at least one piece; no piece holds a separator; a line that starts with a non-separator starts its first piece |
| Scanner.RetainNonEmpty | src/lib.rs:109 | `retain(!is_empty)` keeps only non-empty pieces, all taken from the input |
| Scanner.Tokens | src/lib.rs:108-109 | the split on space, tab, LF and CR followed by `retain(!is_empty)`; characterised by `TokensAreTokens`, `TokensKeepContent`, `TokensChars`, `TokensAtSeparator` and `CollapseSeparators` |
| Scanner.TokensAreTokens | src/lib.rs:108-109 | every token is non-empty and holds none of space, tab, CR, LF |
| Scanner.RetainAppend | src/lib.rs:109 | filtering a concatenation is concatenating the filtered parts |
| Scanner.SplitAtSeparator | src/lib.rs:108 | a separator cuts the line: the pieces of `x c y` are the pieces of `x` followed by those of `y` |
| Scanner.TokensAtSeparator | src/lib.rs:108-109 | the tokens of `x c y`, for a separator `c`, are the tokens of `x` followed by those of `y` |
| Scanner.CollapseSeparators | src/lib.rs:108-109 | a run of two separators yields the same tokens as one space, so runs of any length collapse |
| Scanner.SplitOfNoSeparator | src/lib.rs:108 | a piece without separators splits to itself |
| Scanner.Join | src/lib.rs:163 | `join(" ")` of the value tokens; inverted by `TokensOfJoin`, with its edges and characters stated by `JoinEdges` and `JoinChars` |
| Scanner.TokensOfJoin | src/lib.rs:163 | splitting the joined value again gives back exactly the tokens joined (`join(" ")` inverts the split) |
| Scanner.JoinEdges | src/lib.rs:163 | the joined value is empty exactly when there are no tokens, and never starts or ends with a separator |
| Scanner.JoinChars | src/lib.rs:163 | joining adds no character other than the single spaces |
| Scanner.TokensChars | src/lib.rs:108-109 | a character absent from the line is absent from every token |
| Scanner.TokensKeepContent | src/lib.rs:108-109 | the tokens, concatenated, are the line with its separators removed: no other character is lost |
| Scanner.TrimmedLineHasTokens | src/lib.rs:111-113 | a non-empty trimmed line always has a token, so the second emptiness test is never taken |
| IndexMaps.IndexMap.Get | src/lib.rs:201-204 | `IndexMap::get` as the tests call it: the stored value of a key, or none; what `Insert`, `Extend` and `Empty` do to it is stated in their contracts |
| IndexMaps.IndexMap.Entries | src/lib.rs:14 | iteration yields one entry per key, in key order, each with its stored value |
| IndexMaps.IndexMap.Insert | src/lib.rs:164 | `insert` stores the value under the key and leaves every other key alone; an existing key keeps its position, a new one is appended; keys stay unique |
| IndexMaps.IndexMap.InsertAll | src/lib.rs:164 | inserting entries one after another yields the old values overridden by the last value per key, and the old keys followed by the new keys in order of first occurrence |
| IndexMaps.IndexMap.Extend | src/lib.rs:141 | `extend` with another map: its values win, and its new keys are appended in its own order |
| IndexMaps.IndexMap.LastWinsOfEntries | src/lib.rs:141 | extending by a map's entries in order gives exactly that map's values |
| IndexMaps.Empty | src/lib.rs:20 | `IndexMap::new()` has no keys and no values |
| IndexMaps.FirstOccurrences | src/lib.rs:164 | every key of the list not yet seen appears exactly once, and nothing else appears |
| IndexMaps.EntriesOfKeys | src/lib.rs:141 | the keys of a map's entries are its keys, in order |
| IndexMaps.FirstOccurrencesOfDistinct | src/lib.rs:164 | keys assigned once each keep exactly their order |
| Interpreter.Classify | src/lib.rs:97-164 | the decision `parse_string` takes for one raw line: comment stripped, trimmed, then classified; characterised both ways by `ClassifyBlank`, `ClassifyIllegal`, `ClassifyInclude` and `ClassifyAssign`, and inverted by `Render` (`RenderRoundTrip`) |
| Interpreter.ClassifyCleaned | src/lib.rs:104-164 | the same decision on a line already stripped and trimmed: blank, too few tokens, directive with other than one path, second token not `=`, or an assignment, tested in the source's order; its outcomes are characterised through `Classify` by the four lemmas above, and assignments directly by `AssignCleaned` |
| Interpreter.ClassifyBlank | src/lib.rs:102-106 | a line is skipped exactly when everything before its `#` is whitespace |
| Interpreter.ClassifyIllegal | src/lib.rs:115-160 | a line is illegal exactly when it is not blank and its tokens are neither `directive path` nor `key = ...` with a non-directive key; the error text is the trimmed line |
| Interpreter.ClassifyInclude | src/lib.rs:122-139 | a line is `include p` / `!include p` exactly when its tokens are those two; `!` sets ignore-missing |
| Interpreter.ClassifyAssign | src/lib.rs:155-164 | a line assigns `v` to `k` exactly when its tokens are `k`, `=`, then the tokens of `v`, `k` is not a directive, and `v` is those tokens joined by single spaces |
| Interpreter.ClassifiedWellFormed | src/lib.rs:97-164 | every accepted key is one token with no `#` and is not a directive; every key starts with a non-whitespace character; every value has no `#`, no leading or trailing separator (space, tab, CR, LF), ends with a non-whitespace character, and is in single-space form; every include path is one token without `#` |
| Interpreter.AssignKeyWellFormed | src/lib.rs:162 | the key of an assignment is one token, with no `#`, not a directive |
| Interpreter.AssignValueWellFormed | src/lib.rs:163 | the value of an assignment has no `#`, is in single-space form, and has no trailing whitespace |
| Interpreter.CommentIgnored | src/lib.rs:97-100 | whatever follows a `#` does not change what a line is |
| Interpreter.LeadingWhitespaceIgnored | src/lib.rs:102 | leading whitespace does not change what a line is |
| Interpreter.StripCommentSkipsWhitespace | src/lib.rs:98-100 | leading whitespace passes through comment stripping unchanged |
| Interpreter.CollapseRun | src/lib.rs:108-109 | replacing two separators between tokens by one space gives the same decision: the same include or assignment |
| Interpreter.TrimInner | src/lib.rs:102 | trimming a line touches only its leading and trailing whitespace |
| Interpreter.TrimUntouched | src/lib.rs:102 | a line without whitespace at either end is its own trim |
| Interpreter.RenderRoundTrip | src/lib.rs:108-164 | every well-formed include or assignment, written out as a line, is read back as itself |
| Config.New | src/lib.rs:18-22 | a new configuration has no settings |
| Config.FileOutcome | src/lib.rs:59-68 | a successful `parse_file` returns settings with unique keys |
| Config.StringOutcome | src/lib.rs:91-168 | a successful `parse_string` returns settings with unique keys |
| Config.ApplyLines | src/lib.rs:94-167 | applying lines to a valid settings map leaves it valid |
| Config.Step | src/lib.rs:95-164 | one line applied to a valid settings map leaves it valid |
| Config.IncludeStep | src/lib.rs:131-153 | an include line leaves the settings valid |
| Config.MergeInclude | src/lib.rs:140-150 | a child that parsed is merged with its values winning and its new keys appended in its order; otherwise `!include` leaves the settings as they were and `include` fails with `IncludedFileNotFound(path, origin)`, whatever the child's error, except that the model's `IncludeDepthExceeded` is passed up unchanged under both |
| Config.ApplyLinesAt | src/lib.rs:94-165 | the loop at position `i` is one line's step followed by the loop from `i + 1`, or that step's error |
| Parser.ParseFile | src/lib.rs:59-68 | `parse_file` returns what `FileOutcome` prescribes |
| Parser.ParseString | src/lib.rs:91-168 | the loop over lines, with its early returns, returns what `StringOutcome` prescribes |
| Parser.ApplyLine | src/lib.rs:95-164 | the body of the loop does to the settings what `Step` prescribes for the line |
| Parser.ApplyInclude | src/lib.rs:131-153 | the include branch does what `IncludeStep` prescribes |
| Properties.ApplyLinesAppend | src/lib.rs:94-167 | parsing `a + b` is parsing `a`, then `b` from the settings `a` produced, unless `a` failed |
| Properties.FirstFailureStops | src/lib.rs:94-167 | the first line that fails ends the parse with its error, whatever follows |
| Properties.ContinueAfter | src/lib.rs:94-167 | lines that follow a successful prefix start from the settings it produced |
| Properties.FailingFirstLine | src/lib.rs:115-160 | a failing first line is the result of the parse |
| Properties.BlankLinesChangeNothing | src/lib.rs:102-106 | blank and comment-only lines leave the settings unchanged |
| Properties.BlankTextIsEmpty | src/lib.rs:92-106 | a text of only blank and comment lines parses to a configuration with no settings |
| Properties.SettingLinesInsertAll | src/lib.rs:162-164 | without includes or errors, a parse inserts the assignments in order |
| Properties.SettingsInFirstAssignmentOrder | src/lib.rs:162-164 | for a text of only blank and assignment lines, the settings list each key once, in order of first assignment, holding the last value assigned to it |
| Properties.DistinctKeysKeepLineOrder | src/lib.rs:290-323 | for a text of only blank and assignment lines, keys assigned once each come out in the order of their lines |
| Properties.FileSettingsWellFormed | src/lib.rs:59-68 | every setting of a parsed file, includes included, has a well-formed key and value |
| Properties.LinesSettingsWellFormed | src/lib.rs:94-167 | the loop keeps every stored key and value well formed |
| Properties.StepWellFormed | src/lib.rs:95-164 | one line keeps every stored key and value well formed |
| Properties.IncludeWellFormed | src/lib.rs:131-153 | an include keeps every stored key and value well formed |
| Properties.MergeWellFormed | src/lib.rs:140-150 | merging a well-formed child keeps every key and value well formed |
| Properties.ExtendWellFormed | src/lib.rs:141 | `extend` of two well-formed maps is well formed |
| Properties.InsertWellFormed | src/lib.rs:164 | `insert` of a well-formed setting keeps the map well formed |
| Properties.StringSettingsWellFormed | src/lib.rs:91-168 | no stored key or value of a parse holds a `#` or starts or ends with a separator (space, tab, CR, LF); keys are single non-directive tokens starting with a non-whitespace character; values are single-space joined and end with a non-whitespace character |
| Properties.StepErrorReported | src/lib.rs:115-160 | a line fails only with `IllegalConfiguration(its trimmed text, origin)` when it is illegal, `IncludedFileNotFound(path, origin)` when it is `include path`, or the model's `IncludeDepthExceeded` when it is an `include` or `!include` line whose nesting went past the bound |
| Properties.IncludeErrorReported | src/lib.rs:131-153 | an include line fails only with `IncludedFileNotFound(path, origin)`, and only under `include`, or with the model's `IncludeDepthExceeded` |
| Properties.MergeErrorReported | src/lib.rs:140-150 | the include boundary reports only `IncludedFileNotFound(path, origin)`, and only under `include`, or passes on the model's `IncludeDepthExceeded` from the child |
| Properties.LineErrorsReported | src/lib.rs:94-167 | a failed parse of lines reports an illegal line or an `include` line of those lines, with the given origin, or the model's `IncludeDepthExceeded` when one of those lines is an `include` or `!include` line |
| Properties.StepErrorInLines | src/lib.rs:94-167 | an error of one line is an error reported from any lines that contain it |
| Properties.ReportedFromLonger | src/lib.rs:94-167 | an error reported from some lines is reported from any lines that contain them |
| Properties.FileErrorsReported | src/lib.rs:59-68 | a file fails with `FileNotFound` exactly when it is missing, with `FailedToReadFile` exactly when it is unreadable, and otherwise only with an error from its own lines, with the file as origin |
| Properties.FileDepthMonotone | src/lib.rs:59-68 | a file parse that the include bound did not cut short has the same outcome under a larger bound, so the bound only ever replaces an outcome by `IncludeDepthExceeded` |
| Properties.LinesDepthMonotone | src/lib.rs:94-167 | the same for the loop over lines |
| Properties.StepDepthMonotone | src/lib.rs:95-164 | the same for one line |
| Properties.IncludeDepthMonotone | src/lib.rs:139-150 | the same for an include line, which parses its file one level deeper |
| Scenarios.OneLineOutcome | src/lib.rs:91-168 | a one-line text parses to what its line does to no settings |
| Scenarios.TwoTokensIllegal | src/lib.rs:155-160 | two tokens, the second not `=`, make an illegal line |
| Scenarios.BadConfigIsIllegal | src/lib.rs:239-245 | `bad config` fails with `IllegalConfiguration("bad config", None)` |
| Scenarios.MissingInclude | src/lib.rs:255-261 | `include p` for a missing `p` fails with `IncludedFileNotFound(p, origin)`; `!include p` yields no settings |
| Scenarios.MissingIncludeText | src/lib.rs:139-148 | the written-out include line of a missing path is skipped or reported according to `!` |
| Scenarios.MissingIncludeStep | src/lib.rs:139-148 | an include line naming a missing path is skipped or reported according to `!` |
| Scenarios.UnavailableFile | src/lib.rs:247-270 | a missing path fails with `FileNotFound(path)`, an unreadable one with `FailedToReadFile(path)` |

## Left out

- The accessors `settings`, `settings_mut` and `into_settings` (lib.rs:24-34) are not separate members. `NixConfig` is a datatype whose `settings` field is read directly. Mutable borrowing is not modelled.
- `parse_file` does real file-system I/O (`Path::exists`, `read_to_string`). It is replaced by the map `fs`. A directory, a permission error and non-UTF-8 contents are all the single entry `Unreadable`.
- The `std::io::Error` carried by `FailedToReadFile` is dropped, and so are the `Display` messages of `ParseError`.
- Include paths are compared as text. The model does not capture `PathBuf` normalisation, or a relative path being resolved against the process's working directory.
- Include cycles recurse without bound in the source until the stack overflows. The model bounds nesting by `depth`, and `IncludeDepthExceeded` stands for that overflow. The error is passed up unchanged, and the include boundary does not turn it into `IncludedFileNotFound`: the real process would not survive to do so.
- Rust strings are UTF-8 bytes. The model works on `seq<char>`: `find('#')`, slicing and `trim` are stated over characters, which gives the same results for valid UTF-8.
- The settings accumulator is a value that the loop in `Parser.ParseString` reassigns. The model does not capture update in place. `retain` is a pure filter (`Scanner.RetainNonEmpty`) rather than an in-place removal.
- Interpreter.ClassifyInclude: the include path is only the token as text. The model does not capture the conversion to `PathBuf` at lib.rs:139.
- The optional `serde` derive (lib.rs:12) is not modelled.
- The command-line wrappers `parse-file-cli.rs` (the repository's example program) and `src/main.rs` do argument handling and printing, and are not part of this model.

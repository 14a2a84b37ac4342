/**
 * The line interpreter: what one line of a nix.conf means. Each line is
 * comment-stripped, trimmed and tokenised, then read as blank, as an illegal
 * line, as an `include`/`!include` directive or as a `key = value...`
 * assignment, in that order of tests.
 */
module Interpreter {
  import opened Scanner

  datatype LineKind =
    | Blank
      /** `line` is the comment-stripped, trimmed line. */
    | Illegal(line: string)
    | Include(path: string, ignoreMissing: bool)
    | Assign(key: string, value: string)

  predicate IsDirective(token: string) {
    token == "include" || token == "!include"
  }

  /** The comment-stripped, trimmed form of a raw line. */
  function Cleaned(raw: string): string {
    Trim(StripComment(raw))
  }

  /** The decision `parse_string` takes for one line. */
  function Classify(raw: string): LineKind {
    ClassifyCleaned(Cleaned(raw))
  }

  /** The decision for a line already comment-stripped and trimmed. */
  function ClassifyCleaned(line: string): LineKind {
    if line == [] then Blank
    else
      var tokens := Tokens(line);
      if tokens == [] then Blank  // never taken: see TrimmedLineHasTokens
      else if |tokens| < 2 then Illegal(line)
      else if IsDirective(tokens[0]) then
        if |tokens| != 2 then Illegal(line)
        else Include(tokens[1], tokens[0] == "!include")
      else if tokens[1] != "=" then Illegal(line)
      else Assign(tokens[0], Join(tokens[2..]))
  }

  // ---------------------------------------------------- well-formed results

  /** What every stored setting name looks like. */
  predicate ValidKey(k: string) {
    IsToken(k) && '#' !in k && !IsWhitespace(k[0]) && !IsDirective(k)
  }

  /**
   * What every stored value looks like: no `#`, in normal form (re-tokenising
   * and re-joining it gives it back, so exactly one space between tokens and
   * no separator at either end), and no trailing whitespace.
   */
  predicate ValidValue(v: string) {
    '#' !in v && Join(Tokens(v)) == v && (v == [] || !IsWhitespace(v[|v| - 1]))
  }

  predicate ValidPath(p: string) {
    IsToken(p) && '#' !in p && !IsWhitespace(p[|p| - 1])
  }

  predicate WellFormedKind(kind: LineKind) {
    match kind
    case Blank => true
    case Illegal(_) => false
    case Include(p, _) => ValidPath(p)
    case Assign(k, v) => ValidKey(k) && ValidValue(v)
  }

  /** The canonical line for a decision. */
  function Render(kind: LineKind): string {
    match kind
    case Blank => ""
    case Illegal(line) => line
    case Include(p, ignoreMissing) => (if ignoreMissing then "!include" else "include") + " " + p
    case Assign(k, v) => if v == [] then k + " =" else k + " = " + v
  }

  /** Two decisions that agree, except that two illegal lines may differ in their text. */
  predicate SameMeaning(a: LineKind, b: LineKind) {
    a == b || (a.Illegal? && b.Illegal?)
  }

  // ------------------------------------------------------ characterisation

  /** A line is blank exactly when nothing but whitespace precedes its first `#`. */
  lemma ClassifyBlank(raw: string)
    ensures Classify(raw) == Blank <==>
              forall i :: 0 <= i < |StripComment(raw)| ==> IsWhitespace(StripComment(raw)[i])
  {
    var line := Cleaned(raw);
    if line != [] {
      TrimmedLineHasTokens(line);
    }
  }

  /** The line shapes the parser accepts. */
  predicate Accepted(tokens: seq<string>) {
    || (|tokens| == 2 && IsDirective(tokens[0]))
    || (|tokens| >= 2 && !IsDirective(tokens[0]) && tokens[1] == "=")
  }

  /**
   * A non-blank line whose tokens are not `directive path` or
   * `key = value...` is illegal, and the error carries the trimmed line.
   */
  lemma ClassifyIllegal(raw: string)
    ensures Classify(raw).Illegal? <==> Cleaned(raw) != [] && !Accepted(Tokens(Cleaned(raw)))
    ensures Classify(raw).Illegal? ==> Classify(raw).line == Cleaned(raw)
  {
    var line := Cleaned(raw);
    if line != [] {
      TrimmedLineHasTokens(line);
    }
  }

  /** Include directives are exactly the lines `include p` and `!include p`. */
  lemma ClassifyInclude(raw: string, p: string, ignoreMissing: bool)
    ensures Classify(raw) == Include(p, ignoreMissing) <==>
              Tokens(Cleaned(raw)) == [if ignoreMissing then "!include" else "include", p]
  {
  }

  /**
   * Assignments are exactly the lines `k = t1 ... tn` with `k` not a
   * directive; the value is the tokens after `=`, joined by single spaces.
   */
  lemma ClassifyAssign(raw: string, k: string, v: string)
    ensures Classify(raw) == Assign(k, v) <==>
              && Tokens(Cleaned(raw)) == [k, "="] + Tokens(v)
              && !IsDirective(k)
              && Join(Tokens(v)) == v
  {
    AssignCleaned(Cleaned(raw), k, v);
  }

  lemma AssignCleaned(line: string, k: string, v: string)
    ensures ClassifyCleaned(line) == Assign(k, v) <==>
              && Tokens(line) == [k, "="] + Tokens(v)
              && !IsDirective(k)
              && Join(Tokens(v)) == v
  {
    var tokens := Tokens(line);
    TokensAreTokens(line);
    if ClassifyCleaned(line) == Assign(k, v) {
      TokensOfJoin(tokens[2..]);
      assert tokens == [k, "="] + tokens[2..];
    }
    if tokens == [k, "="] + Tokens(v) && !IsDirective(k) && Join(Tokens(v)) == v {
      assert tokens[2..] == Tokens(v);
    }
  }

  /** Everything the interpreter accepts is well formed. */
  lemma ClassifiedWellFormed(raw: string)
    ensures !Classify(raw).Illegal? ==> WellFormedKind(Classify(raw))
  {
    var line := Cleaned(raw);
    if line != [] {
      match Classify(raw)
      case Blank =>
      case Illegal(_) =>
      case Include(p, _) =>
        TokensAreTokens(line);
        TokensChars(line, '#');
        LastTokenEnd(line);
      case Assign(k, v) =>
        AssignKeyWellFormed(line);
        AssignValueWellFormed(line);
    }
  }

  lemma AssignKeyWellFormed(line: string)
    requires line != [] && '#' !in line && !IsWhitespace(line[0])
    requires |Tokens(line)| >= 2 && !IsDirective(Tokens(line)[0])
    ensures ValidKey(Tokens(line)[0])
  {
    var tokens := Tokens(line);
    TokensAreTokens(line);
    TokensChars(line, '#');
    var pieces := Split(line);
    assert pieces[0] != [] && pieces[0][0] == line[0];
    assert pieces == [pieces[0]] + pieces[1..];
    assert tokens[0] == pieces[0];
  }

  lemma AssignValueWellFormed(line: string)
    requires line != [] && '#' !in line
    requires !IsWhitespace(line[0]) && !IsWhitespace(line[|line| - 1])
    requires |Tokens(line)| >= 2
    ensures ValidValue(Join(Tokens(line)[2..]))
  {
    var tokens := Tokens(line);
    TokensAreTokens(line);
    TokensChars(line, '#');
    var rest := tokens[2..];
    assert forall i :: 0 <= i < |rest| ==> IsToken(rest[i]) && '#' !in rest[i] by {
      forall i | 0 <= i < |rest| ensures IsToken(rest[i]) && '#' !in rest[i] {
        assert rest[i] == tokens[i + 2];
      }
    }
    TokensOfJoin(rest);
    JoinChars(rest, '#');
    if rest != [] {
      LastTokenEnd(line);
      JoinLast(rest);
      assert rest[|rest| - 1] == tokens[|tokens| - 1];
    }
  }

  /** The last token of a trimmed line ends with the line's last character. */
  lemma LastTokenEnd(line: string)
    requires line != [] && !IsWhitespace(line[0]) && !IsWhitespace(line[|line| - 1])
    ensures Tokens(line) != []
    ensures var t := Tokens(line)[|Tokens(line)| - 1]; t != [] && t[|t| - 1] == line[|line| - 1]
  {
    TrimmedLineHasTokens(line);
    var n := |line|;
    var x := line[..n - 1];
    var c := line[n - 1];
    SplitLastChar(x, c);
    assert line == x + [c];
    var pieces := Split(line);
    RetainLast(pieces);
  }

  lemma {:induction false} SplitLastChar(x: string, c: char)
    requires !IsSeparator(c)
    ensures var p := Split(x + [c]); p[|p| - 1] != [] && p[|p| - 1][|p[|p| - 1]| - 1] == c
  {
    if x == [] {
      assert x + [c] == [c];
      assert [c][1..] == [];
      assert Split([]) == [[]];
      assert [c] + Split([])[0] == [c];
    } else {
      assert (x + [c])[1..] == x[1..] + [c];
      SplitLastChar(x[1..], c);
    }
  }

  lemma {:induction false} RetainLast(pieces: seq<string>)
    requires pieces != [] && pieces[|pieces| - 1] != []
    ensures var r := RetainNonEmpty(pieces); r != [] && r[|r| - 1] == pieces[|pieces| - 1]
  {
    if |pieces| > 1 {
      RetainLast(pieces[1..]);
    }
  }

  /** The last character of joined tokens is the last character of the last token. */
  lemma {:induction false} JoinLast(tokens: seq<string>)
    requires forall i :: 0 <= i < |tokens| ==> IsToken(tokens[i])
    requires tokens != []
    ensures var j := Join(tokens); var t := tokens[|tokens| - 1];
              IsToken(t) && j != [] && j[|j| - 1] == t[|t| - 1]
  {
    assert IsToken(tokens[|tokens| - 1]);
    if |tokens| >= 2 {
      var rest := tokens[1..];
      assert forall i :: 0 <= i < |rest| ==> rest[i] == tokens[i + 1];
      JoinLast(rest);
      var j, jr := Join(tokens), Join(rest);
      assert j == tokens[0] + " " + jr;
      assert j[|j| - 1] == jr[|jr| - 1];
    }
  }

  // ------------------------------------------- what does not change a line

  /** Nothing after the first `#` of a line matters. */
  lemma CommentIgnored(a: string, b: string)
    requires '#' !in a
    ensures Classify(a + ['#'] + b) == Classify(a)
  {
    StripCommentUnique(a + ['#'] + b, a);
    StripCommentUnique(a, a);
  }

  /** Leading whitespace is not significant. */
  lemma LeadingWhitespaceIgnored(ws: string, raw: string)
    requires forall i :: 0 <= i < |ws| ==> IsWhitespace(ws[i])
    ensures Classify(ws + raw) == Classify(raw)
  {
    StripCommentSkipsWhitespace(ws, raw);
    TrimStartSkipsWhitespace(ws, StripComment(raw));
  }

  lemma StripCommentSkipsWhitespace(ws: string, raw: string)
    requires forall i :: 0 <= i < |ws| ==> IsWhitespace(ws[i])
    ensures StripComment(ws + raw) == ws + StripComment(raw)
  {
    var r := StripComment(raw);
    assert '#' !in ws;
    assert ws + r <= ws + raw;
    if |ws + r| < |ws + raw| {
      assert (ws + raw)[|ws + r|] == raw[|r|];
    }
    StripCommentUnique(ws + raw, ws + r);
  }

  /**
   * Inside a line, a run of two separators means what a single space means:
   * the two lines classify alike (an illegal line keeps its own text).
   */
  lemma CollapseRun(x: string, c: char, d: char, y: string)
    requires IsSeparator(c) && IsSeparator(d)
    requires '#' !in x && '#' !in y
    requires exists i :: 0 <= i < |x| && !IsWhitespace(x[i])
    requires exists i :: 0 <= i < |y| && !IsWhitespace(y[i])
    ensures SameMeaning(Classify(x + [c, d] + y), Classify(x + [' '] + y))
  {
    var long, short := x + [c, d] + y, x + [' '] + y;
    var tx, ty := TrimStart(x), TrimEnd(y);
    CleanedInner(x, [c, d], y);
    CleanedInner(x, [' '], y);
    CollapseSeparators(tx, c, d, ty);
    SameTokensSameMeaning(tx + [c, d] + ty, tx + [' '] + ty);
  }

  /** Apart from an illegal line's text, a cleaned line's decision depends only on its tokens. */
  lemma SameTokensSameMeaning(a: string, b: string)
    requires a != [] && b != [] && Tokens(a) == Tokens(b)
    ensures SameMeaning(ClassifyCleaned(a), ClassifyCleaned(b))
  {
  }

  lemma CleanedInner(x: string, m: string, y: string)
    requires '#' !in x && '#' !in m && '#' !in y
    requires exists i :: 0 <= i < |x| && !IsWhitespace(x[i])
    requires exists i :: 0 <= i < |y| && !IsWhitespace(y[i])
    ensures Cleaned(x + m + y) == TrimStart(x) + m + TrimEnd(y)
  {
    StripCommentUnique(x + m + y, x + m + y);
    TrimInner(x, m, y);
  }

  /** StripComment is the longest `#`-free prefix: any such prefix is it. */
  lemma StripCommentUnique(line: string, r: string)
    requires '#' !in r && r <= line && (|r| < |line| ==> line[|r|] == '#')
    ensures StripComment(line) == r
  {
  }

  lemma {:induction false} TrimStartSkipsWhitespace(ws: string, s: string)
    requires forall i :: 0 <= i < |ws| ==> IsWhitespace(ws[i])
    ensures TrimStart(ws + s) == TrimStart(s)
  {
    if ws != [] {
      assert (ws + s)[1..] == ws[1..] + s;
      TrimStartSkipsWhitespace(ws[1..], s);
    } else {
      assert ws + s == s;
    }
  }

  /** Trimming a line with non-whitespace on both sides of `m` leaves `m` alone. */
  lemma TrimInner(x: string, m: string, y: string)
    requires exists i :: 0 <= i < |x| && !IsWhitespace(x[i])
    requires exists i :: 0 <= i < |y| && !IsWhitespace(y[i])
    ensures Trim(x + m + y) == TrimStart(x) + m + TrimEnd(y)
  {
    TrimStartInner(x, m, y);
    TrimAfterStart(x + m + y, TrimStart(x) + m, y);
  }

  lemma TrimStartInner(x: string, m: string, y: string)
    requires exists i :: 0 <= i < |x| && !IsWhitespace(x[i])
    ensures TrimStart(x + m + y) == TrimStart(x) + m + y
  {
    Associative(x, m, y);
    Associative(TrimStart(x), m, y);
    TrimStartAppend(x, m + y);
  }

  /** Regrouping a concatenation; it models nothing and only steers the solver in `TrimStartInner`. */
  lemma Associative(a: string, b: string, c: string)
    ensures a + b + c == a + (b + c)
  {
  }

  lemma TrimAfterStart(s: string, t: string, y: string)
    requires TrimStart(s) == t + y
    requires exists i :: 0 <= i < |y| && !IsWhitespace(y[i])
    ensures Trim(s) == t + TrimEnd(y)
  {
    TrimEndPrepend(t, y);
  }

  lemma {:induction false} TrimStartAppend(x: string, z: string)
    requires exists i :: 0 <= i < |x| && !IsWhitespace(x[i])
    ensures TrimStart(x + z) == TrimStart(x) + z
  {
    var i :| 0 <= i < |x| && !IsWhitespace(x[i]);
    assert (x + z)[0] == x[0];
    if IsWhitespace(x[0]) {
      assert x[1..][i - 1] == x[i];
      assert (x + z)[1..] == x[1..] + z;
      TrimStartAppend(x[1..], z);
    }
  }

  lemma {:induction false} TrimEndPrepend(z: string, y: string)
    requires exists i :: 0 <= i < |y| && !IsWhitespace(y[i])
    ensures TrimEnd(z + y) == z + TrimEnd(y)
  {
    var i :| 0 <= i < |y| && !IsWhitespace(y[i]);
    var n := |y|;
    assert (z + y)[|z + y| - 1] == y[n - 1];
    if IsWhitespace(y[n - 1]) {
      var y' := y[..n - 1];
      assert y'[i] == y[i];
      assert (z + y)[..|z + y| - 1] == z + y';
      TrimEndPrepend(z, y');
    }
  }

  // ------------------------------------------------------------ round trip

  /** A string with no whitespace at either end trims to itself. */
  lemma TrimUntouched(s: string)
    requires s == [] || (!IsWhitespace(s[0]) && !IsWhitespace(s[|s| - 1]))
    ensures Trim(s) == s
  {
  }

  /** Rendering a well-formed decision and reading it back gives the decision. */
  lemma RenderRoundTrip(kind: LineKind)
    requires WellFormedKind(kind)
    ensures Classify(Render(kind)) == kind
  {
    match kind
    case Blank =>
    case Illegal(_) =>
    case Include(p, ignoreMissing) => RenderInclude(p, ignoreMissing);
    case Assign(k, v) =>
      if v == [] {
        RenderEmptyAssign(k);
      } else {
        RenderAssign(k, v);
      }
  }

  lemma RenderInclude(p: string, ignoreMissing: bool)
    requires ValidPath(p)
    ensures Classify(Render(Include(p, ignoreMissing))) == Include(p, ignoreMissing)
  {
    var d := if ignoreMissing then "!include" else "include";
    assert Render(Include(p, ignoreMissing)) == d + " " + p;
    DirectiveIsToken(d);
    CleanedDirective(d, p);
    TokensOfTwo(d, p);
    ClassifyDirective(d + " " + p, d, p);
    assert (d == "!include") == ignoreMissing;
  }

  lemma ClassifyDirective(line: string, d: string, p: string)
    requires IsDirective(d) && Cleaned(line) == line && line != [] && Tokens(line) == [d, p]
    ensures Classify(line) == Include(p, d == "!include")
  {
  }

  lemma DirectiveIsToken(d: string)
    requires IsDirective(d)
    ensures IsToken(d) && '#' !in d && !IsWhitespace(d[0])
  {
  }

  lemma CleanedDirective(d: string, p: string)
    requires IsDirective(d) && ValidPath(p)
    ensures Cleaned(d + " " + p) == d + " " + p
  {
    var line := d + " " + p;
    assert line[0] == d[0] && line[|line| - 1] == p[|p| - 1];
    assert '#' !in line;
    CleanedUntouched(line);
  }

  lemma RenderEmptyAssign(k: string)
    requires ValidKey(k)
    ensures Classify(Render(Assign(k, ""))) == Assign(k, "")
  {
    assert Render(Assign(k, "")) == k + " =" == k + " " + "=";
    CleanedUntouched(k + " =");
    TokensOfTwo(k, "=");
  }

  lemma RenderAssign(k: string, v: string)
    requires ValidKey(k) && ValidValue(v) && v != []
    ensures Classify(Render(Assign(k, v))) == Assign(k, v)
  {
    var line := k + " = " + v;
    CleanedUntouched(line);
    TokensOfAssign(k, v);
    ClassifyAssign(line, k, v);
  }

  /** A `#`-free line with no whitespace at either end is its own cleaned form. */
  lemma CleanedUntouched(line: string)
    requires '#' !in line && line != []
    requires !IsWhitespace(line[0]) && !IsWhitespace(line[|line| - 1])
    ensures Cleaned(line) == line
  {
    StripCommentUnique(line, line);
    TrimUntouched(line);
  }

  lemma TokensOfTwo(a: string, b: string)
    requires IsToken(a) && IsToken(b)
    ensures Tokens(a + " " + b) == [a, b]
  {
    SplitOfNoSeparator(a);
    SplitOfNoSeparator(b);
    assert a + " " + b == a + [' '] + b;
    TokensAtSeparator(a, ' ', b);
  }

  lemma TokensOfAssign(k: string, v: string)
    requires IsToken(k)
    ensures Tokens(k + " = " + v) == [k, "="] + Tokens(v)
  {
    SplitOfNoSeparator(k);
    SplitOfNoSeparator("=");
    assert k + " = " + v == k + [' '] + ("=" + [' '] + v);
    TokensAtSeparator("=", ' ', v);
    TokensAtSeparator(k, ' ', "=" + [' '] + v);
  }
}

/**
 * The token scanner: how `NixConfig::parse_string` cuts its input into lines
 * and a line into tokens (comment stripping, trimming, splitting on the four
 * separator characters, dropping empty pieces), and how the value tokens of
 * an assignment are joined back together.
 */
module Scanner {

  /** Unicode White_Space: the characters Rust's `str::trim` removes. */
  predicate IsWhitespace(c: char) {
    var n := c as int;
    (0x09 <= n <= 0x0D) || n == 0x20 || n == 0x85 || n == 0xA0 || n == 0x1680
    || (0x2000 <= n <= 0x200A) || n == 0x2028 || n == 0x2029 || n == 0x202F
    || n == 0x205F || n == 0x3000
  }

  /** The characters a trimmed line is split on. */
  predicate IsSeparator(c: char) {
    c == ' ' || c == '\t' || c == '\n' || c == '\r'
  }

  predicate NoSeparator(s: string) {
    forall i :: 0 <= i < |s| ==> !IsSeparator(s[i])
  }

  /** A token: a non-empty run of characters none of which is a separator. */
  predicate IsToken(t: string) {
    t != [] && NoSeparator(t)
  }

  /** The position of the first occurrence of `c` in `s` (Rust's `str::find`). */
  function IndexOf(s: string, c: char): (i: nat)
    requires c in s
    ensures i < |s| && s[i] == c
    ensures c !in s[..i]
  {
    if s[0] == c then 0
    else
      var j := IndexOf(s[1..], c);
      assert s[..1 + j] == [s[0]] + s[1..][..j];
      1 + j
  }

  // ---------------------------------------------------------------- lines

  /** Drops one carriage return that ends a line terminated by a newline. */
  function DropCarriageReturn(line: string): string {
    if line != [] && line[|line| - 1] == '\r' then line[..|line| - 1] else line
  }

  /**
   * Rust's `str::lines`: the pieces between newlines, a `\r` before each
   * newline removed, and no extra empty line after a final newline.
   */
  function Lines(text: string): (lines: seq<string>)
    ensures forall i :: 0 <= i < |lines| ==> '\n' !in lines[i]
    ensures text == [] <==> lines == []
    decreases |text|
  {
    if text == [] then []
    else if '\n' !in text then [text]
    else
      var i := IndexOf(text, '\n');
      assert '\n' !in DropCarriageReturn(text[..i]);
      [DropCarriageReturn(text[..i])] + Lines(text[i + 1..])
  }

  /** A text without a newline is one line. */
  lemma OneLine(text: string)
    requires text != [] && '\n' !in text
    ensures Lines(text) == [text]
  {
  }

  /**
   * The first newline ends the first line, which loses a `\r` just before
   * the newline; the rest of the text gives the remaining lines.
   */
  lemma LinesAtNewline(x: string, y: string)
    requires '\n' !in x
    ensures Lines(x + ['\n'] + y) == [DropCarriageReturn(x)] + Lines(y)
  {
    var text := x + ['\n'] + y;
    assert text[|x|] == '\n';
    var i := IndexOf(text, '\n');
    assert forall j :: 0 <= j < |x| ==> text[j] == x[j] && x[j] != '\n';
    assert i == |x|;
    assert text[..i] == x && text[i + 1..] == y;
  }

  // ------------------------------------------------------------- comments

  /** Everything before the first `#` of a line (the whole line if it has none). */
  function StripComment(line: string): (r: string)
    ensures '#' !in r
    ensures r <= line
    ensures |r| < |line| ==> line[|r|] == '#'
  {
    if '#' in line then line[..IndexOf(line, '#')] else line
  }

  // ------------------------------------------------------------- trimming

  function TrimStart(s: string): (r: string)
    ensures |r| <= |s| && r == s[|s| - |r|..]
    ensures forall i :: 0 <= i < |s| - |r| ==> IsWhitespace(s[i])
    ensures r == [] || !IsWhitespace(r[0])
  {
    if s != [] && IsWhitespace(s[0]) then
      var r := TrimStart(s[1..]);
      TrimStartStep(s, r);
      r
    else s
  }

  lemma TrimStartStep(s: string, r: string)
    requires s != [] && IsWhitespace(s[0])
    requires |r| <= |s| - 1 && r == s[1..][|s| - 1 - |r|..]
    requires forall i :: 0 <= i < |s| - 1 - |r| ==> IsWhitespace(s[1..][i])
    ensures r == s[|s| - |r|..]
    ensures forall i :: 0 <= i < |s| - |r| ==> IsWhitespace(s[i])
  {
    assert s[1..][|s| - 1 - |r|..] == s[|s| - |r|..];
    forall i | 0 <= i < |s| - |r|
      ensures IsWhitespace(s[i])
    {
      if i > 0 {
        assert s[1..][i - 1] == s[i];
      }
    }
  }

  function TrimEnd(s: string): (r: string)
    ensures |r| <= |s| && r == s[..|r|]
    ensures forall i :: |r| <= i < |s| ==> IsWhitespace(s[i])
    ensures r == [] || !IsWhitespace(r[|r| - 1])
  {
    if s != [] && IsWhitespace(s[|s| - 1]) then TrimEnd(s[..|s| - 1]) else s
  }

  predicate AllWhitespace(w: string) {
    forall i :: 0 <= i < |w| ==> IsWhitespace(w[i])
  }

  /** `s` is `r` with only whitespace before and after it: `r` is one contiguous part of `s`. */
  ghost predicate Padded(s: string, r: string) {
    exists lead, trail :: s == lead + r + trail && AllWhitespace(lead) && AllWhitespace(trail)
  }

  /** Rust's `str::trim`: leading and trailing Unicode whitespace removed. */
  function Trim(s: string): (r: string)
    ensures forall c :: c in r ==> c in s
    ensures r == [] || (!IsWhitespace(r[0]) && !IsWhitespace(r[|r| - 1]))
    ensures r == [] <==> forall i :: 0 <= i < |s| ==> IsWhitespace(s[i])
  {
    var t := TrimStart(s);
    var r := TrimEnd(t);
    TrimChars(s, t, r);
    TrimEmpty(s, t, r);
    r
  }

  /** What `trim` keeps is one contiguous part of the line, with only whitespace around it. */
  lemma TrimPadded(s: string)
    ensures Padded(s, Trim(s))
  {
    TrimSlice(s, TrimStart(s), Trim(s));
  }

  lemma TrimSlice(s: string, t: string, r: string)
    requires |t| <= |s| && t == s[|s| - |t|..] && forall i :: 0 <= i < |s| - |t| ==> IsWhitespace(s[i])
    requires |r| <= |t| && r == t[..|r|] && forall i :: |r| <= i < |t| ==> IsWhitespace(t[i])
    ensures Padded(s, r)
  {
    var lead, trail := s[..|s| - |t|], t[|r|..];
    assert s == lead + t && t == r + trail;
    assert s == lead + r + trail;
    assert AllWhitespace(trail) by {
      assert forall i :: 0 <= i < |trail| ==> trail[i] == t[|r| + i];
    }
  }

  lemma TrimChars(s: string, t: string, r: string)
    requires |t| <= |s| && t == s[|s| - |t|..] && |r| <= |t| && r == t[..|r|]
    ensures forall c :: c in r ==> c in s
  {
    forall c | c in r ensures c in s {
      var i :| 0 <= i < |r| && r[i] == c;
      assert t[i] == c;
      assert s[|s| - |t| + i] == c;
    }
  }

  lemma TrimEmpty(s: string, t: string, r: string)
    requires t == TrimStart(s) && r == TrimEnd(t)
    ensures r == [] || (!IsWhitespace(r[0]) && !IsWhitespace(r[|r| - 1]))
    ensures r == [] <==> forall i :: 0 <= i < |s| ==> IsWhitespace(s[i])
  {
    if r == [] {
      assert t == [];
    } else {
      assert r[0] == t[0];
      assert s[|s| - |t|] == t[0];
    }
  }

  // ------------------------------------------------------------- splitting

  /**
   * Rust's `str::split` on the separator set: the pieces between separators,
   * empty pieces included (so `"a  b"` gives `["a", "", "b"]`).
   */
  function Split(s: string): (pieces: seq<string>)
    ensures |pieces| >= 1
    ensures forall i :: 0 <= i < |pieces| ==> NoSeparator(pieces[i])
    ensures s != [] && !IsSeparator(s[0]) ==> pieces[0] != [] && pieces[0][0] == s[0]
  {
    if s == [] then [[]]
    else
      var rest := Split(s[1..]);
      if IsSeparator(s[0]) then [[]] + rest
      else [[s[0]] + rest[0]] + rest[1..]
  }

  /** `Vec::retain(|t| !t.is_empty())`: the non-empty pieces, in order. */
  function RetainNonEmpty(pieces: seq<string>): (r: seq<string>)
    ensures forall i :: 0 <= i < |r| ==> r[i] != [] && r[i] in pieces
    ensures |r| <= |pieces|
  {
    if pieces == [] then []
    else if pieces[0] == [] then RetainNonEmpty(pieces[1..])
    else [pieces[0]] + RetainNonEmpty(pieces[1..])
  }

  /** The tokens of a line: split on separators, empty pieces dropped. */
  function Tokens(line: string): (tokens: seq<string>)
  {
    RetainNonEmpty(Split(line))
  }

  /** `[T]::join(" ")`: the tokens with one space between neighbours. */
  function Join(tokens: seq<string>): string {
    if |tokens| == 0 then []
    else if |tokens| == 1 then tokens[0]
    else tokens[0] + " " + Join(tokens[1..])
  }

  /** All the pieces laid end to end. */
  function Concat(pieces: seq<string>): string {
    if pieces == [] then [] else pieces[0] + Concat(pieces[1..])
  }

  /** The characters of `s` that are not separators, in order. */
  function DropSeparators(s: string): string {
    if s == [] then []
    else if IsSeparator(s[0]) then DropSeparators(s[1..])
    else [s[0]] + DropSeparators(s[1..])
  }

  // ------------------------------------------------------ token properties

  /** Every token is non-empty and holds no separator. */
  lemma TokensAreTokens(line: string)
    ensures forall i :: 0 <= i < |Tokens(line)| ==> IsToken(Tokens(line)[i])
  {
    var pieces := Split(line);
    forall i | 0 <= i < |Tokens(line)| ensures IsToken(Tokens(line)[i]) {
      var t := Tokens(line)[i];
      assert t in pieces;
      var j :| 0 <= j < |pieces| && pieces[j] == t;
    }
  }

  lemma {:induction false} RetainAppend(a: seq<string>, b: seq<string>)
    ensures RetainNonEmpty(a + b) == RetainNonEmpty(a) + RetainNonEmpty(b)
  {
    if a == [] {
      assert a + b == b;
    } else {
      assert (a + b)[0] == a[0];
      assert (a + b)[1..] == a[1..] + b;
      RetainAppend(a[1..], b);
      if a[0] != [] {
        assert RetainNonEmpty(a + b) == [a[0]] + RetainNonEmpty(a[1..] + b);
      }
    }
  }

  /** Splitting at a separator splits the pieces: `split(x + c + y) == split(x) ++ split(y)`. */
  lemma {:induction false} SplitAtSeparator(x: string, c: char, y: string)
    requires IsSeparator(c)
    ensures Split(x + [c] + y) == Split(x) + Split(y)
  {
    if x == [] {
      assert x + [c] + y == [c] + y;
      assert ([c] + y)[1..] == y;
    } else {
      assert (x + [c] + y)[1..] == x[1..] + [c] + y;
      SplitAtSeparator(x[1..], c, y);
    }
  }

  /** The tokens on either side of a separator are tokenised independently. */
  lemma TokensAtSeparator(x: string, c: char, y: string)
    requires IsSeparator(c)
    ensures Tokens(x + [c] + y) == Tokens(x) + Tokens(y)
  {
    SplitAtSeparator(x, c, y);
    RetainAppend(Split(x), Split(y));
  }

  /** A run of separators tokenises like a single space: runs collapse. */
  lemma CollapseSeparators(x: string, c: char, d: char, y: string)
    requires IsSeparator(c) && IsSeparator(d)
    ensures Tokens(x + [c, d] + y) == Tokens(x + [' '] + y)
  {
    assert x + [c, d] + y == x + [c] + ([d] + y);
    TokensAtSeparator(x, c, [d] + y);
    assert [d] + y == [] + [d] + y;
    TokensAtSeparator([], d, y);
    TokensAtSeparator(x, ' ', y);
  }

  /** A separator-free string splits into itself. */
  lemma {:induction false} SplitOfNoSeparator(t: string)
    requires NoSeparator(t)
    ensures Split(t) == [t]
  {
    if t != [] {
      SplitOfNoSeparator(t[1..]);
      assert [t[0]] + t[1..] == t;
    }
  }

  /** Tokenising joined tokens gives the tokens back. */
  lemma {:induction false} TokensOfJoin(tokens: seq<string>)
    requires forall i :: 0 <= i < |tokens| ==> IsToken(tokens[i])
    ensures Tokens(Join(tokens)) == tokens
  {
    if |tokens| == 0 {
    } else if |tokens| == 1 {
      SplitOfNoSeparator(tokens[0]);
    } else {
      SplitOfNoSeparator(tokens[0]);
      TokensOfJoin(tokens[1..]);
      TokensAtSeparator(tokens[0], ' ', Join(tokens[1..]));
    }
  }

  /** Joined tokens are empty only for no tokens, and start and end with a non-separator. */
  lemma {:induction false} JoinEdges(tokens: seq<string>)
    requires forall i :: 0 <= i < |tokens| ==> IsToken(tokens[i])
    ensures Join(tokens) == [] <==> tokens == []
    ensures Join(tokens) != [] ==> !IsSeparator(Join(tokens)[0])
    ensures Join(tokens) != [] ==> !IsSeparator(Join(tokens)[|Join(tokens)| - 1])
  {
    if |tokens| == 1 {
      assert IsToken(tokens[0]);
    } else if |tokens| >= 2 {
      assert IsToken(tokens[0]);
      JoinEdges(tokens[1..]);
    }
  }

  /** No character of joined tokens comes from outside the tokens, apart from the spaces. */
  lemma {:induction false} JoinChars(tokens: seq<string>, c: char)
    requires c != ' '
    requires forall i :: 0 <= i < |tokens| ==> c !in tokens[i]
    ensures c !in Join(tokens)
  {
    if |tokens| >= 2 {
      JoinChars(tokens[1..], c);
    }
  }

  /** Tokens only hold characters of the line they come from. */
  lemma {:induction false} TokensChars(line: string, c: char)
    requires c !in line
    ensures forall i :: 0 <= i < |Tokens(line)| ==> c !in Tokens(line)[i]
  {
    SplitChars(line, c);
  }

  lemma {:induction false} SplitChars(s: string, c: char)
    requires c !in s
    ensures forall i :: 0 <= i < |Split(s)| ==> c !in Split(s)[i]
  {
    if s != [] {
      SplitChars(s[1..], c);
    }
  }

  /** No character is lost to tokenising except the separators. */
  lemma {:induction false} TokensKeepContent(line: string)
    ensures Concat(Tokens(line)) == DropSeparators(line)
  {
    SplitKeepsContent(line);
    RetainKeepsContent(Split(line));
  }

  lemma {:induction false} SplitKeepsContent(s: string)
    ensures Concat(Split(s)) == DropSeparators(s)
  {
    if s != [] {
      SplitKeepsContent(s[1..]);
      var rest := Split(s[1..]);
      if !IsSeparator(s[0]) {
        assert Concat(rest) == rest[0] + Concat(rest[1..]);
        assert Concat([[s[0]] + rest[0]] + rest[1..]) == [s[0]] + rest[0] + Concat(rest[1..]);
      }
    }
  }

  lemma {:induction false} RetainKeepsContent(pieces: seq<string>)
    ensures Concat(RetainNonEmpty(pieces)) == Concat(pieces)
  {
    if pieces != [] {
      RetainKeepsContent(pieces[1..]);
    }
  }

  /** A non-empty trimmed line has at least one token. */
  lemma TrimmedLineHasTokens(line: string)
    requires line != [] && !IsWhitespace(line[0])
    ensures Tokens(line) != []
  {
    var pieces := Split(line);
    assert pieces[0] != [];
    assert pieces == [pieces[0]] + pieces[1..];
  }
}

/** Reading a puzzle file (`src/parsing.rs`). A file is given here as the
    sequence of its lines: everything from a `#` to the end of a line is a
    comment, lines left empty are dropped, the first remaining line holds the
    side of the board and each later line one row of tiles. */
module Parsing {
  import opened Wrappers

  /** The source's `ParseIntError`; which kind of error it is (empty input,
      invalid digit, overflow) only shows in messages and is not kept. */
  datatype ParseError = ParseError

  type Matrix = seq<seq<nat>>

  /** The largest `u16`, the type of a tile. */
  const U16Max: nat := 0xFFFF
  /** The largest `usize` on a 64-bit target, the type of the side. */
  const UsizeMax: nat := 0xFFFF_FFFF_FFFF_FFFF

  // ---------------------------------------------------------------- sanitize_comments

  /** The text of `line` before its first `#` (all of it when there is none). */
  function BeforeHash(line: string): (r: string)
    ensures r <= line && '#' !in r
    ensures |r| < |line| ==> line[|r|] == '#'
  {
    if line == [] || line[0] == '#' then [] else [line[0]] + BeforeHash(line[1..])
  }

  /** `sanitize_comments`: each line cut at its first `#`, in order, dropping
      the lines that this leaves empty. A line of blanks is kept. */
  function SanitizeComments(lines: seq<string>): (r: seq<string>)
    ensures |r| <= |lines|
    ensures forall k :: 0 <= k < |r| ==> r[k] != [] && '#' !in r[k]
  {
    if lines == [] then []
    else
      var kept := BeforeHash(lines[0]);
      (if kept == [] then [] else [kept]) + SanitizeComments(lines[1..])
  }

  /** Sanitizing works line by line: the lines of two pieces of a file come out
      in the order of the pieces. */
  lemma {:induction false} SanitizeAppend(a: seq<string>, b: seq<string>)
    ensures SanitizeComments(a + b) == SanitizeComments(a) + SanitizeComments(b)
    decreases |a|
  {
    if a != [] {
      var kept := BeforeHash(a[0]);
      var first := if kept == [] then [] else [kept];
      assert (a + b)[0] == a[0];
      assert (a + b)[1..] == a[1..] + b;
      SanitizeAppend(a[1..], b);
      assert SanitizeComments(a + b) == first + SanitizeComments(a[1..] + b);
      assert SanitizeComments(a) == first + SanitizeComments(a[1..]);
    } else {
      assert a + b == b;
    }
  }

  /** Every line whose text before the comment is not empty survives. */
  lemma {:induction false} SanitizeKeeps(lines: seq<string>, i: nat)
    requires i < |lines| && BeforeHash(lines[i]) != []
    ensures BeforeHash(lines[i]) in SanitizeComments(lines)
    decreases i
  {
    if i > 0 {
      SanitizeKeeps(lines[1..], i - 1);
    }
  }

  /** Every surviving line is the uncommented text of a line of the input. */
  lemma {:induction false} SanitizeFrom(lines: seq<string>, j: nat)
    requires j < |SanitizeComments(lines)|
    ensures exists i :: 0 <= i < |lines| && SanitizeComments(lines)[j] == BeforeHash(lines[i])
    decreases |lines|
  {
    if BeforeHash(lines[0]) == [] {
      SanitizeFrom(lines[1..], j);
      var i :| 0 <= i < |lines[1..]| && SanitizeComments(lines[1..])[j] == BeforeHash(lines[1..][i]);
      assert SanitizeComments(lines)[j] == BeforeHash(lines[i + 1]);
    } else if j == 0 {
      assert SanitizeComments(lines)[j] == BeforeHash(lines[0]);
    } else {
      SanitizeFrom(lines[1..], j - 1);
      var i :| 0 <= i < |lines[1..]| && SanitizeComments(lines[1..])[j - 1] == BeforeHash(lines[1..][i]);
      assert SanitizeComments(lines)[j] == BeforeHash(lines[i + 1]);
    }
  }

  /** A line without `#` is its own uncommented text. */
  lemma {:induction false} BeforeHashClean(line: string)
    requires '#' !in line
    ensures BeforeHash(line) == line
    decreases |line|
  {
    if line != [] {
      assert '#' !in line[1..] by {
        forall k | 0 <= k < |line[1..]| ensures line[1..][k] != '#' {
          assert line[1..][k] == line[k + 1];
        }
      }
      BeforeHashClean(line[1..]);
    }
  }

  /** Lines that are neither empty nor hold a `#` pass through unchanged. */
  lemma {:induction false} SanitizeClean(lines: seq<string>)
    requires forall k :: 0 <= k < |lines| ==> lines[k] != [] && '#' !in lines[k]
    ensures SanitizeComments(lines) == lines
    decreases |lines|
  {
    if lines != [] {
      BeforeHashClean(lines[0]);
      SanitizeClean(lines[1..]);
    }
  }

  /** Sanitizing twice is sanitizing once. */
  lemma SanitizeIdempotent(lines: seq<string>)
    ensures SanitizeComments(SanitizeComments(lines)) == SanitizeComments(lines)
  {
    SanitizeClean(SanitizeComments(lines));
  }

  // ---------------------------------------------------------------- white space

  /** The characters with Unicode's White_Space property, which `trim` and
      `split_whitespace` remove. */
  const Spaces: set<char> := {
    '\t', '\n', '\U{B}', '\U{C}', '\r', ' ', '\U{85}', '\U{A0}', '\U{1680}',
    '\U{2000}', '\U{2001}', '\U{2002}', '\U{2003}', '\U{2004}', '\U{2005}',
    '\U{2006}', '\U{2007}', '\U{2008}', '\U{2009}', '\U{200A}',
    '\U{2028}', '\U{2029}', '\U{202F}', '\U{205F}', '\U{3000}'
  }

  predicate IsSpace(c: char) {
    c in Spaces
  }

  predicate AllSpace(s: string) {
    forall k :: 0 <= k < |s| ==> IsSpace(s[k])
  }

  predicate NoSpace(s: string) {
    forall k :: 0 <= k < |s| ==> !IsSpace(s[k])
  }

  /** How many characters of white space `s` starts with. */
  function LeadingSpaces(s: string): (n: nat)
    ensures n <= |s|
    ensures forall k :: 0 <= k < n ==> IsSpace(s[k])
    ensures n < |s| ==> !IsSpace(s[n])
  {
    if s != [] && IsSpace(s[0]) then 1 + LeadingSpaces(s[1..]) else 0
  }

  /** Where the text of `s` ends: only white space follows. */
  function TextEnd(s: string): (n: nat)
    ensures n <= |s|
    ensures forall k :: n <= k < |s| ==> IsSpace(s[k])
    ensures 0 < n ==> !IsSpace(s[n - 1])
  {
    if s != [] && IsSpace(s[|s| - 1]) then TextEnd(s[..|s| - 1]) else |s|
  }

  /** `s` without its leading white space. */
  function TrimStart(s: string): string
  {
    s[LeadingSpaces(s)..]
  }

  /** `s` without its trailing white space. */
  function TrimEnd(s: string): string
  {
    s[..TextEnd(s)]
  }

  /** `str::trim`. */
  function Trim(s: string): (r: string)
  {
    TrimStart(TrimEnd(s))
  }

  /** White space in front of text that starts with something else is all
      that `TrimStart` removes. */
  lemma TrimStartOf(a: string, t: string)
    requires AllSpace(a)
    requires t == [] || !IsSpace(t[0])
    ensures TrimStart(a + t) == t
  {
    var s := a + t;
    if t != [] {
      assert s[|a|] == t[0];
    }
    assert forall k :: 0 <= k < |a| ==> s[k] == a[k];
    assert LeadingSpaces(s) == |a|;
    assert s[|a|..] == t;
  }

  /** Text that ends in something else than white space, followed by white
      space: `TrimEnd` removes exactly that white space. */
  lemma TrimEndOf(t: string, b: string)
    requires AllSpace(b)
    requires t == [] || !IsSpace(t[|t| - 1])
    ensures TrimEnd(t + b) == t
  {
    var s := t + b;
    if t != [] {
      assert s[|t| - 1] == t[|t| - 1];
    }
    assert forall k :: |t| <= k < |s| ==> s[k] == b[k - |t|];
    assert TextEnd(s) == |t|;
    assert s[..|t|] == t;
  }

  /** `trim` removes the white space around the text and nothing else. */
  lemma TrimOf(a: string, t: string, b: string)
    requires AllSpace(a) && AllSpace(b)
    requires t == [] || (!IsSpace(t[0]) && !IsSpace(t[|t| - 1]))
    ensures Trim(a + t + b) == t
  {
    if t == [] {
      assert a + t + b == [] + (a + b);
      TrimEndOf([], a + b);
    } else {
      assert a + t + b == (a + t) + b;
      TrimEndOf(a + t, b);
      TrimStartOf(a, t);
    }
  }

  /** The longest prefix of `s` without white space. */
  function Word(s: string): (r: string)
    ensures r <= s && NoSpace(r)
    ensures |r| < |s| ==> IsSpace(s[|r|])
  {
    if s == [] || IsSpace(s[0]) then [] else [s[0]] + Word(s[1..])
  }

  /** `split_whitespace`: the maximal runs of characters other than white
      space, in order. */
  function SplitWhitespace(s: string): (r: seq<string>)
    ensures forall k :: 0 <= k < |r| ==> r[k] != [] && NoSpace(r[k])
    decreases |s|
  {
    var t := TrimStart(s);
    if t == [] then []
    else
      var w := Word(t);
      [w] + SplitWhitespace(t[|w|..])
  }

  /** The words of `ws` with `sep` between each two. */
  function Unwords(ws: seq<string>, sep: string): (r: string)
    decreases |ws|
  {
    if |ws| == 0 then []
    else if |ws| == 1 then ws[0]
    else ws[0] + sep + Unwords(ws[1..], sep)
  }

  /** Words that are not empty and hold no white space stand at both ends of
      their join. */
  lemma {:induction false} UnwordsEnds(ws: seq<string>, sep: string)
    requires forall k :: 0 <= k < |ws| ==> ws[k] != [] && NoSpace(ws[k])
    ensures ws != [] ==> Unwords(ws, sep) != [] && !IsSpace(Unwords(ws, sep)[0])
    ensures ws != [] ==> !IsSpace(Unwords(ws, sep)[|Unwords(ws, sep)| - 1])
    decreases |ws|
  {
    if |ws| > 1 {
      UnwordsEnds(ws[1..], sep);
      assert Unwords(ws, sep)[0] == ws[0][0];
    }
  }

  /** A word followed by white space is the first word. */
  lemma WordOf(w: string, rest: string)
    requires NoSpace(w)
    requires rest == [] || IsSpace(rest[0])
    ensures Word(w + rest) == w
  {
    var s, r := w + rest, Word(w + rest);
    if rest != [] {
      assert s[|w|] == rest[0];
    }
    assert forall k :: 0 <= k < |w| ==> s[k] == w[k];
    assert |r| == |w|;
    assert s[..|w|] == w;
  }

  /** White space in front of a line does not change its words. */
  lemma SplitAfterSpace(a: string, s: string)
    requires AllSpace(a) && s != [] && !IsSpace(s[0])
    ensures SplitWhitespace(a + s) == SplitWhitespace(s)
  {
    TrimStartOf(a, s);
    TrimStartOf([], s);
    assert [] + s == s;
  }

  /** A line that starts with a word and continues after white space splits
      into that word and the words of the rest. */
  lemma SplitFirst(w: string, rest: string)
    requires w != [] && NoSpace(w)
    requires rest == [] || IsSpace(rest[0])
    ensures SplitWhitespace(w + rest) == [w] + SplitWhitespace(rest)
  {
    var s := w + rest;
    TrimStartOf([], s);
    assert [] + s == s;
    WordOf(w, rest);
    assert s[|w|..] == rest;
  }

  /** The first of several joined words comes off first. */
  lemma SplitHead(ws: seq<string>, sep: string)
    requires |ws| > 1 && ws[0] != [] && NoSpace(ws[0])
    requires sep != [] && IsSpace(sep[0])
    ensures SplitWhitespace(Unwords(ws, sep)) == [ws[0]] + SplitWhitespace(sep + Unwords(ws[1..], sep))
  {
    var rest := Unwords(ws[1..], sep);
    assert Unwords(ws, sep) == ws[0] + (sep + rest);
    assert (sep + rest)[0] == sep[0];
    SplitFirst(ws[0], sep + rest);
  }

  /** Splitting words joined by white space gives the words back. */
  lemma {:induction false} SplitUnwords(ws: seq<string>, sep: string)
    requires sep != [] && AllSpace(sep)
    requires forall k :: 0 <= k < |ws| ==> ws[k] != [] && NoSpace(ws[k])
    ensures SplitWhitespace(Unwords(ws, sep)) == ws
    decreases |ws|
  {
    if |ws| == 1 {
      SplitFirst(ws[0], []);
      assert ws[0] + [] == ws[0];
      assert SplitWhitespace([]) == [];
    } else if |ws| > 1 {
      var rest := Unwords(ws[1..], sep);
      SplitUnwords(ws[1..], sep);
      UnwordsEnds(ws[1..], sep);
      SplitAfterSpace(sep, rest);
      SplitHead(ws, sep);
      assert ws == [ws[0]] + ws[1..];
    }
  }

  // ---------------------------------------------------------------- numbers

  predicate IsDigit(c: char) {
    '0' <= c <= '9'
  }

  predicate AllDigits(s: string) {
    forall k :: 0 <= k < |s| ==> IsDigit(s[k])
  }

  function DigitValue(c: char): (d: nat)
    requires IsDigit(c)
    ensures d < 10
  {
    c as nat - '0' as nat
  }

  /** The value of a string of decimal digits, most significant first. */
  function Decimal(ds: string): nat
    requires AllDigits(ds)
  {
    if ds == [] then 0 else 10 * Decimal(ds[..|ds| - 1]) + DigitValue(ds[|ds| - 1])
  }

  /** `str::parse` for an unsigned integer type whose largest value is `max`:
      at most one `+`, then one or more decimal digits, with a value no larger
      than `max`. Anything else, white space included, is an error. */
  function ParseUnsigned(s: string, max: nat): (r: Result<nat, ParseError>)
    ensures r.Ok? ==> r.value <= max
    ensures r.Ok? ==> s != [] && NoSpace(s)
  {
    var ds := if |s| > 1 && s[0] == '+' then s[1..] else s;
    if ds != [] && AllDigits(ds) && Decimal(ds) <= max then Ok(Decimal(ds)) else Err(ParseError)
  }

  /** The decimal notation of `v`, without leading zeros. */
  function Show(v: nat): (r: string)
  {
    var d := ['0' + (v % 10) as char];
    if v < 10 then d else Show(v / 10) + d
  }

  /** The notation `Show` writes is digits whose value is the number. */
  lemma {:induction false} ShowDecimal(v: nat)
    ensures Show(v) != [] && AllDigits(Show(v))
    ensures Decimal(Show(v)) == v
  {
    var s := Show(v);
    if v >= 10 {
      ShowDecimal(v / 10);
      assert s[..|s| - 1] == Show(v / 10);
    }
  }

  /** Printing a number in range and parsing it back gives the number. */
  lemma ParseShow(v: nat, max: nat)
    requires v <= max
    ensures ParseUnsigned(Show(v), max) == Ok(v)
  {
    ShowDecimal(v);
  }

  /** One leading `+` is allowed: `+v` reads as `v`. */
  lemma ParsePlus(v: nat, max: nat)
    requires v <= max
    ensures ParseUnsigned(['+'] + Show(v), max) == Ok(v)
  {
    ShowDecimal(v);
    assert (['+'] + Show(v))[1..] == Show(v);
  }

  /** An unsigned number takes no `-`, and a `+` alone is not a number. */
  lemma ParseSign(s: string, max: nat)
    ensures ParseUnsigned(['-'] + s, max).Err?
    ensures ParseUnsigned(['+'], max).Err?
  {
    assert (['-'] + s)[0] == '-';
  }

  /** No digit is white space or `#`. */
  lemma DigitPlain(c: char)
    requires IsDigit(c)
    ensures !IsSpace(c) && c != '#'
  {
  }

  /** A printed number is a word: not empty, no white space and no `#`. */
  lemma ShowPlain(v: nat)
    ensures Show(v) != [] && NoSpace(Show(v)) && '#' !in Show(v)
  {
    ShowDecimal(v);
    var s := Show(v);
    forall k | 0 <= k < |s| ensures !IsSpace(s[k]) && s[k] != '#' {
      DigitPlain(s[k]);
    }
  }

  // ---------------------------------------------------------------- parse_matrix_size and parse_matrix

  /** `parse_matrix_size`: the side, read from the line without its
      surrounding white space. */
  function ParseMatrixSize(line: string): (r: Result<nat, ParseError>)
    ensures r.Ok? ==> r.value <= UsizeMax
  {
    ParseUnsigned(Trim(line), UsizeMax)
  }

  /** A side written between white space reads back as itself. */
  lemma ParseSizeShow(a: string, v: nat, b: string)
    requires AllSpace(a) && AllSpace(b) && v <= UsizeMax
    ensures ParseMatrixSize(a + Show(v) + b) == Ok(v)
  {
    ShowPlain(v);
    TrimOf(a, Show(v), b);
    ParseShow(v, UsizeMax);
  }

  /** The tokens of a row parsed as tiles: an error as soon as one of them is
      not a `u16`. */
  function ParseNumbers(tokens: seq<string>): (r: Result<seq<nat>, ParseError>)
    ensures r.Ok? <==> forall k :: 0 <= k < |tokens| ==> ParseUnsigned(tokens[k], U16Max).Ok?
    ensures r.Ok? ==> |r.value| == |tokens|
    ensures r.Ok? ==> forall k :: 0 <= k < |tokens| ==> r.value[k] == ParseUnsigned(tokens[k], U16Max).value
  {
    if tokens == [] then Ok([])
    else
      match ParseUnsigned(tokens[0], U16Max)
      case Err(e) => Err(e)
      case Ok(v) =>
        match ParseNumbers(tokens[1..])
        case Err(e) => Err(e)
        case Ok(vs) => Ok([v] + vs)
  }

  /** One line of the matrix: its white-space separated tokens as tiles. */
  function ParseRow(line: string): (r: Result<seq<nat>, ParseError>)
  {
    ParseNumbers(SplitWhitespace(line))
  }

  /** `parse_matrix`: one row per line, an error as soon as one line has a bad
      token. Rows are not required to have the same length. */
  function ParseMatrix(lines: seq<string>): (r: Result<Matrix, ParseError>)
    ensures r.Ok? <==> forall k :: 0 <= k < |lines| ==> ParseRow(lines[k]).Ok?
    ensures r.Ok? ==> |r.value| == |lines|
    ensures r.Ok? ==> forall k :: 0 <= k < |lines| ==> r.value[k] == ParseRow(lines[k]).value
  {
    if lines == [] then Ok([])
    else
      match ParseRow(lines[0])
      case Err(e) => Err(e)
      case Ok(row) =>
        match ParseMatrix(lines[1..])
        case Err(e) => Err(e)
        case Ok(rows) => Ok([row] + rows)
  }

  /** Every tile read is a `u16`. */
  lemma ParseMatrixBound(lines: seq<string>, i: nat, j: nat)
    requires ParseMatrix(lines).Ok?
    requires i < |ParseMatrix(lines).value| && j < |ParseMatrix(lines).value[i]|
    ensures ParseMatrix(lines).value[i][j] <= U16Max
  {
    var tokens := SplitWhitespace(lines[i]);
    assert ParseUnsigned(tokens[j], U16Max).Ok?;
  }

  /** Each number of `row` printed. */
  function Shows(row: seq<nat>): (r: seq<string>)
  {
    if row == [] then [] else [Show(row[0])] + Shows(row[1..])
  }

  /** `Shows` prints each number in its place. */
  lemma {:induction false} ShowsAt(row: seq<nat>)
    ensures |Shows(row)| == |row|
    ensures forall k :: 0 <= k < |row| ==> Shows(row)[k] == Show(row[k])
  {
    if row != [] {
      ShowsAt(row[1..]);
    }
  }

  /** Printed numbers are words. */
  lemma ShowsPlain(row: seq<nat>)
    ensures |Shows(row)| == |row|
    ensures forall k :: 0 <= k < |row| ==> Shows(row)[k] != [] && NoSpace(Shows(row)[k]) && '#' !in Shows(row)[k]
  {
    ShowsAt(row);
    forall k | 0 <= k < |row| ensures Show(row[k]) != [] && NoSpace(Show(row[k])) && '#' !in Show(row[k]) {
      ShowPlain(row[k]);
    }
  }

  /** Printed `u16` numbers parse back to the numbers. */
  lemma ParseShows(row: seq<nat>)
    requires forall k :: 0 <= k < |row| ==> row[k] <= U16Max
    ensures ParseNumbers(Shows(row)) == Ok(row)
  {
    ShowsAt(row);
    forall k | 0 <= k < |row| ensures ParseUnsigned(Shows(row)[k], U16Max) == Ok(row[k]) {
      ParseShow(row[k], U16Max);
    }
    var r := ParseNumbers(Shows(row));
    assert r.Ok?;
    assert r.value == row;
  }

  /** A row written as its numbers between single spaces. */
  function RenderRow(row: seq<nat>): string
  {
    Unwords(Shows(row), " ")
  }

  /** Writing a row of `u16` tiles and reading the line back gives the row. */
  lemma ParseRenderRow(row: seq<nat>)
    requires forall k :: 0 <= k < |row| ==> row[k] <= U16Max
    ensures ParseRow(RenderRow(row)) == Ok(row)
  {
    ShowsPlain(row);
    SplitUnwords(Shows(row), " ");
    ParseShows(row);
  }

  /** Each row of `m` written as a line. */
  function Render(m: Matrix): (r: seq<string>)
  {
    if m == [] then [] else [RenderRow(m[0])] + Render(m[1..])
  }

  /** Writing every row of a matrix of `u16` tiles and reading the lines back
      gives the matrix. */
  lemma {:induction false} ParseRender(m: Matrix)
    requires forall i, j :: 0 <= i < |m| && 0 <= j < |m[i]| ==> m[i][j] <= U16Max
    ensures ParseMatrix(Render(m)) == Ok(m)
  {
    if m != [] {
      var lines := Render(m);
      assert lines[0] == RenderRow(m[0]) && lines[1..] == Render(m[1..]);
      ParseRenderRow(m[0]);
      ParseRender(m[1..]);
      assert m == [m[0]] + m[1..];
    }
  }

  /** A written row that is not empty is a line that survives sanitizing. */
  lemma RenderRowPlain(row: seq<nat>)
    requires row != []
    ensures RenderRow(row) != [] && '#' !in RenderRow(row)
  {
    ShowsPlain(row);
    UnwordsClean(Shows(row), " ");
  }

  /** The written rows of a matrix without empty rows survive sanitizing. */
  lemma {:induction false} RenderPlain(m: Matrix)
    requires forall i :: 0 <= i < |m| ==> m[i] != []
    ensures forall i :: 0 <= i < |Render(m)| ==> Render(m)[i] != [] && '#' !in Render(m)[i]
  {
    if m != [] {
      RenderRowPlain(m[0]);
      RenderPlain(m[1..]);
    }
  }

  /** Words that are not empty and hold no `#` join to a line of the same kind. */
  lemma {:induction false} UnwordsClean(ws: seq<string>, sep: string)
    requires ws != [] && '#' !in sep
    requires forall k :: 0 <= k < |ws| ==> ws[k] != [] && '#' !in ws[k]
    ensures Unwords(ws, sep) != [] && '#' !in Unwords(ws, sep)
    decreases |ws|
  {
    if |ws| > 1 {
      UnwordsClean(ws[1..], sep);
    }
  }

  // ---------------------------------------------------------------- parse_puzzle

  /** The pure part of `parse_puzzle`, from the lines of the file on: the side
      from the first line left after removing comments, the matrix from the
      others. The source indexes that first line without checking for it, so a
      file with no such line is outside what it handles. */
  function ParsePuzzle(fileLines: seq<string>): (r: Result<(nat, Matrix), ParseError>)
    requires SanitizeComments(fileLines) != []
    ensures r.Ok? ==> |r.value.1| == |SanitizeComments(fileLines)| - 1
    ensures r.Ok? ==> r.value.0 <= UsizeMax
    ensures ParseMatrixSize(SanitizeComments(fileLines)[0]).Err? ==> r.Err?
    ensures ParseMatrix(SanitizeComments(fileLines)[1..]).Err? ==> r.Err?
  {
    var lines := SanitizeComments(fileLines);
    match ParseMatrixSize(lines[0])
    case Err(e) => Err(e)
    case Ok(msize) =>
      match ParseMatrix(lines[1..])
      case Err(e) => Err(e)
      case Ok(matrix) => Ok((msize, matrix))
  }

  /** The text of a puzzle file: a comment line, the side, then each row. */
  function PuzzleText(comment: string, msize: nat, m: Matrix): seq<string>
  {
    [comment, Show(msize)] + Render(m)
  }

  /** A file written from a side and a matrix whose rows are not empty reads
      back as that side and matrix. (A row with no tile would be an empty line,
      which is dropped.) */
  lemma ParsePuzzleText(comment: string, msize: nat, m: Matrix)
    requires comment != [] && comment[0] == '#'
    requires msize <= UsizeMax
    requires forall i :: 0 <= i < |m| ==> m[i] != []
    requires forall i, j :: 0 <= i < |m| && 0 <= j < |m[i]| ==> m[i][j] <= U16Max
    ensures SanitizeComments(PuzzleText(comment, msize, m)) != []
    ensures ParsePuzzle(PuzzleText(comment, msize, m)) == Ok((msize, m))
  {
    var body := [Show(msize)] + Render(m);
    SanitizePuzzleText(comment, msize, m);
    ParseSizeShow([], msize, []);
    assert [] + Show(msize) + [] == Show(msize);
    assert body[1..] == Render(m);
    ParseRender(m);
  }

  /** The comment line goes, the other lines of a written file stay. */
  lemma SanitizePuzzleText(comment: string, msize: nat, m: Matrix)
    requires comment != [] && comment[0] == '#'
    requires forall i :: 0 <= i < |m| ==> m[i] != []
    ensures SanitizeComments(PuzzleText(comment, msize, m)) == [Show(msize)] + Render(m)
  {
    var body := [Show(msize)] + Render(m);
    assert PuzzleText(comment, msize, m) == [comment] + body;
    ShowPlain(msize);
    RenderPlain(m);
    SanitizeAppend([comment], body);
    assert SanitizeComments([comment]) == [];
    SanitizeClean(body);
    assert [] + body == body;
  }

  /** A number below ten prints as one digit. */
  lemma ShowDigit(d: nat)
    requires d < 10
    ensures Show(d) == ['0' + d as char]
  {
  }

  /** A row of three one-digit tiles, written. */
  lemma RenderDigits(a: nat, b: nat, c: nat)
    requires a < 10 && b < 10 && c < 10
    ensures RenderRow([a, b, c]) == ['0' + a as char, ' ', '0' + b as char, ' ', '0' + c as char]
  {
    assert Shows([c]) == [Show(c)] by {
      assert [c][1..] == [];
    }
    assert Shows([b, c]) == [Show(b)] + Shows([c]) by {
      assert [b, c][1..] == [c];
    }
    assert Shows([a, b, c]) == [Show(a)] + Shows([b, c]) by {
      assert [a, b, c][1..] == [b, c];
    }
    var ws := [Show(a), Show(b), Show(c)];
    assert Unwords(ws[1..], " ") == Show(b) + " " + Show(c) by {
      assert ws[1..][1..] == [Show(c)];
    }
    assert Shows([a, b, c]) == ws;
    assert Unwords(ws, " ") == Show(a) + " " + (Show(b) + " " + Show(c));
    ShowDigit(a);
    ShowDigit(b);
    ShowDigit(c);
  }

  /** Three rows, written. */
  lemma RenderThree(x: seq<nat>, y: seq<nat>, z: seq<nat>)
    ensures Render([x, y, z]) == [RenderRow(x), RenderRow(y), RenderRow(z)]
  {
    assert Render([z]) == [RenderRow(z)] by {
      assert [z][1..] == [];
    }
    assert Render([y, z]) == [RenderRow(y)] + Render([z]) by {
      assert [y, z][1..] == [z];
    }
    assert Render([x, y, z]) == [RenderRow(x)] + Render([y, z]) by {
      assert [x, y, z][1..] == [y, z];
    }
  }

  /** The rows of the source's first test, written. */
  lemma SubjectOneRows(m: Matrix)
    requires m == [[3, 2, 6], [1, 4, 0], [8, 7, 5]]
    ensures Render(m) == ["3 2 6", "1 4 0", "8 7 5"]
  {
    RenderDigits(3, 2, 6);
    RenderDigits(1, 4, 0);
    RenderDigits(8, 7, 5);
    RenderThree(m[0], m[1], m[2]);
    assert m == [m[0], m[1], m[2]];
  }

  /** The file of the source's first test: a comment, the side 3 and three
      rows. */
  lemma ParseSubjectOne(file: seq<string>)
    requires file == ["# This puzzle is solvable", "3", "3 2 6", "1 4 0", "8 7 5"]
    ensures SanitizeComments(file) != []
    ensures ParsePuzzle(file) == Ok((3, [[3, 2, 6], [1, 4, 0], [8, 7, 5]]))
  {
    var m: Matrix := [[3, 2, 6], [1, 4, 0], [8, 7, 5]];
    assert PuzzleText(file[0], 3, m) == file by {
      ShowDigit(3);
      SubjectOneRows(m);
      assert file == [file[0], "3"] + ["3 2 6", "1 4 0", "8 7 5"];
    }
    ParsePuzzleText(file[0], 3, m);
  }
}

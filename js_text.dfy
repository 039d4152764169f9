/**
 * The few JavaScript string built-ins that the editor and the note page
 * rely on, written out over `seq<char>`:
 *   - the white-space class shared by `String.prototype.trim` and the
 *     regular-expression escape `\s`;
 *   - `trim()`;
 *   - `split(/\s+/)` and `split("\n")`;
 *   - the splice `s.substring(0, i) + t + s.substring(j)`;
 *   - `Number.parseInt` on a run of decimal digits and its inverse, the
 *     decimal rendering of a natural number in a template literal.
 */
module JsText {

  /** ECMAScript WhiteSpace and LineTerminator code points: the set that both
      `trim()` strips and `\s` matches. */
  predicate IsSpace(c: char) {
    || c == '\t' || c == '\n' || c == '\U{000B}' || c == '\U{000C}' || c == '\r'
    || c == ' ' || c == '\U{00A0}' || c == '\U{1680}'
    || ('\U{2000}' <= c <= '\U{200A}')
    || c == '\U{2028}' || c == '\U{2029}' || c == '\U{202F}' || c == '\U{205F}'
    || c == '\U{3000}' || c == '\U{FEFF}'
  }

  predicate AllSpace(s: string) {
    forall k :: 0 <= k < |s| ==> IsSpace(s[k])
  }

  predicate NoSpace(s: string) {
    forall k :: 0 <= k < |s| ==> !IsSpace(s[k])
  }

  /** `\d` in a JavaScript regular expression: ASCII digits only. */
  predicate IsDigit(c: char) {
    '0' <= c <= '9'
  }

  predicate AllDigits(s: string) {
    forall k :: 0 <= k < |s| ==> IsDigit(s[k])
  }

  // ---------------------------------------------------------------------
  // Leading and trailing runs

  /** Length of the run of white space at the front of `s`. */
  function LeadingSpaces(s: string): (n: nat)
    ensures n <= |s|
    ensures AllSpace(s[..n])
    ensures n < |s| ==> !IsSpace(s[n])
  {
    if s != [] && IsSpace(s[0]) then 1 + LeadingSpaces(s[1..]) else 0
  }

  /** Length of the run of white space at the back of `s`. */
  function TrailingSpaces(s: string): (n: nat)
    ensures n <= |s|
    ensures AllSpace(s[|s| - n..])
    ensures n < |s| ==> !IsSpace(s[|s| - 1 - n])
  {
    if s != [] && IsSpace(s[|s| - 1]) then 1 + TrailingSpaces(s[..|s| - 1]) else 0
  }

  /** The front run of white space is unique: it ends at the first
      character that is not white space. */
  lemma {:induction false} LeadingSpacesExact(s: string, k: nat)
    requires k <= |s| && AllSpace(s[..k]) && (k < |s| ==> !IsSpace(s[k]))
    ensures LeadingSpaces(s) == k
  {
    if k > 0 {
      assert IsSpace(s[0]) by { assert s[..k][0] == s[0]; }
      assert s[1..][..k - 1] == s[..k][1..];
      LeadingSpacesExact(s[1..], k - 1);
    }
  }

  /** Index of the first white-space character of `s`, or `|s|` if none. */
  function FirstSpace(s: string): (i: nat)
    ensures i <= |s|
    ensures NoSpace(s[..i])
    ensures i < |s| ==> IsSpace(s[i])
  {
    if s == [] || IsSpace(s[0]) then 0 else 1 + FirstSpace(s[1..])
  }

  /** Length of the run of ASCII digits at the front of `s`. */
  function LeadingDigits(s: string): (n: nat)
    ensures n <= |s|
    ensures AllDigits(s[..n])
    ensures n < |s| ==> !IsDigit(s[n])
  {
    if s != [] && IsDigit(s[0]) then 1 + LeadingDigits(s[1..]) else 0
  }

  /** The front run of digits is unique in the same way. */
  lemma {:induction false} LeadingDigitsExact(s: string, m: nat)
    requires m <= |s| && AllDigits(s[..m]) && (m < |s| ==> !IsDigit(s[m]))
    ensures LeadingDigits(s) == m
  {
    if m > 0 {
      assert IsDigit(s[0]) by { assert s[..m][0] == s[0]; }
      assert s[1..][..m - 1] == s[..m][1..];
      LeadingDigitsExact(s[1..], m - 1);
    }
  }

  // ---------------------------------------------------------------------
  // String.prototype.trim

  /** `s.trim()`: the leading and the trailing white space removed. The
      result is the unique slice of `s` that starts right after the leading
      white space, is followed only by white space, and neither starts nor
      ends with white space. */
  function Trim(s: string): (r: string)
    ensures LeadingSpaces(s) + |r| <= |s|
    ensures r == s[LeadingSpaces(s)..LeadingSpaces(s) + |r|]
    ensures AllSpace(s[LeadingSpaces(s) + |r|..])
    ensures r != [] ==> !IsSpace(r[0]) && !IsSpace(r[|r| - 1])
    ensures r == [] <==> AllSpace(s)
  {
    var i := LeadingSpaces(s);
    var n := TrailingSpaces(s[i..]);
    assert s[i..][|s| - i - n..] == s[|s| - n..];
    assert n < |s| - i ==> s[i..][|s| - i - 1 - n] == s[|s| - 1 - n];
    assert i < |s| ==> s[i..][0] == s[i];
    AllSpaceSplit(s, i);
    s[i..|s| - n]
  }

  /** White space before and from index `i` makes all of `s` white space. */
  lemma AllSpaceSplit(s: string, i: nat)
    requires i <= |s|
    ensures AllSpace(s[..i]) && AllSpace(s[i..]) ==> AllSpace(s)
  {
    if AllSpace(s[..i]) && AllSpace(s[i..]) {
      forall k | 0 <= k < |s|
        ensures IsSpace(s[k])
      {
        if k < i {
          assert s[k] == s[..i][k];
        } else {
          assert s[k] == s[i..][k - i];
        }
      }
    }
  }

  lemma TrimIdempotent(s: string)
    ensures Trim(Trim(s)) == Trim(s)
  {
    var t := Trim(s);
    assert LeadingSpaces(t) == 0;
  }

  // ---------------------------------------------------------------------
  // String.prototype.split(/\s+/)

  /** `s.split(/\s+/)`: the pieces between the maximal runs of white space,
      including an empty first piece when `s` starts with white space and an
      empty last piece when it ends with it; `"".split(/\s+/)` is `[""]`. */
  function SplitOnSpaceRuns(s: string): (parts: seq<string>)
    ensures |parts| >= 1
    ensures forall k :: 0 <= k < |parts| ==> NoSpace(parts[k])
    decreases |s|
  {
    var i := FirstSpace(s);
    if i == |s| then [s]
    else
      var j := i + LeadingSpaces(s[i..]);
      assert s[i..][0] == s[i];
      [s[..i]] + SplitOnSpaceRuns(s[j..])
  }

  /** Number of maximal non-white-space runs, scanned left to right;
      `afterSpace` says whether the character before `s` was white space
      (or `s` begins the text). This is an independent definition of the
      number of words in a text. */
  function WordRuns(s: string, afterSpace: bool): nat
  {
    if s == [] then 0
    else (if afterSpace && !IsSpace(s[0]) then 1 else 0) + WordRuns(s[1..], IsSpace(s[0]))
  }

  lemma {:induction false} WordRunsConcat(a: string, b: string, afterSpace: bool)
    ensures WordRuns(a + b, afterSpace)
         == WordRuns(a, afterSpace) + WordRuns(b, if a == [] then afterSpace else IsSpace(a[|a| - 1]))
  {
    if a == [] {
      assert a + b == b;
    } else {
      var head := if afterSpace && !IsSpace(a[0]) then 1 else 0;
      assert (a + b)[0] == a[0];
      assert (a + b)[1..] == a[1..] + b;
      assert WordRuns(a + b, afterSpace) == head + WordRuns(a[1..] + b, IsSpace(a[0]));
      assert WordRuns(a, afterSpace) == head + WordRuns(a[1..], IsSpace(a[0]));
      WordRunsConcat(a[1..], b, IsSpace(a[0]));
      if a[1..] != [] {
        assert a[1..][|a[1..]| - 1] == a[|a| - 1];
      }
    }
  }

  lemma {:induction false} WordRunsOfSpaces(s: string, afterSpace: bool)
    requires AllSpace(s)
    ensures WordRuns(s, afterSpace) == 0
  {
    if s != [] {
      WordRunsOfSpaces(s[1..], true);
    }
  }

  lemma {:induction false} WordRunsOfWord(s: string, afterSpace: bool)
    requires s != [] && NoSpace(s)
    ensures WordRuns(s, afterSpace) == if afterSpace then 1 else 0
  {
    if |s| > 1 {
      WordRunsOfWord(s[1..], false);
    }
  }

  /** A word followed by white space contributes exactly one word. */
  lemma WordThenSpaces(w: string, sp: string, rest: string)
    requires w != [] && NoSpace(w) && sp != [] && AllSpace(sp)
    ensures WordRuns(w + sp + rest, true) == 1 + WordRuns(rest, true)
  {
    assert w + sp + rest == w + (sp + rest);
    WordRunsConcat(w, sp + rest, true);
    WordRunsOfWord(w, true);
    WordRunsConcat(sp, rest, false);
    WordRunsOfSpaces(sp, false);
  }

  /** For a text with no white space at either end, `split(/\s+/)` yields
      exactly one piece per word. */
  lemma {:induction false} SplitCountsWords(s: string)
    requires s != [] && !IsSpace(s[0]) && !IsSpace(s[|s| - 1])
    ensures |SplitOnSpaceRuns(s)| == WordRuns(s, true)
    decreases |s|
  {
    var i := FirstSpace(s);
    if i == |s| {
      assert s[..i] == s;
      WordRunsOfWord(s, true);
    } else {
      var n := LeadingSpaces(s[i..]);
      var j := i + n;
      assert s[i..][0] == s[i];
      assert j < |s|;
      var rest := s[j..];
      assert rest[0] == s[i..][n];
      assert rest[|rest| - 1] == s[|s| - 1];
      assert s[i..j] == s[i..][..n];
      assert s == s[..i] + s[i..j] + rest;
      WordThenSpaces(s[..i], s[i..j], rest);
      SplitCountsWords(rest);
    }
  }

  /** White space around a text adds no word to it. */
  lemma WordsBetweenSpaces(a: string, b: string, c: string)
    requires AllSpace(a) && AllSpace(c)
    ensures WordRuns(a + b + c, true) == WordRuns(b, true)
  {
    assert a + b + c == a + (b + c);
    WordRunsConcat(a, b + c, true);
    WordRunsOfSpaces(a, true);
    assert a != [] ==> IsSpace(a[|a| - 1]);
    WordRunsConcat(b, c, true);
    WordRunsOfSpaces(c, if b == [] then true else IsSpace(b[|b| - 1]));
  }

  /** The words of `s` are those of any slice `s[i..j]` with only white
      space outside it. */
  lemma WordsOfInnerSlice(s: string, i: nat, j: nat)
    requires i <= j <= |s| && AllSpace(s[..i]) && AllSpace(s[j..])
    ensures WordRuns(s[i..j], true) == WordRuns(s, true)
  {
    assert s[..i] + s[i..j] + s[j..] == s;
    WordsBetweenSpaces(s[..i], s[i..j], s[j..]);
  }

  /** Trimming removes no word: the words of `s` are the words of `trim(s)`. */
  lemma TrimKeepsWords(s: string)
    ensures WordRuns(Trim(s), true) == WordRuns(s, true)
  {
    var i := LeadingSpaces(s);
    WordsOfInnerSlice(s, i, i + |Trim(s)|);
  }

  // ---------------------------------------------------------------------
  // String.prototype.split("\n")

  /** `s.indexOf(c)`, with `|s|` standing for -1: the first position of
      `c` in `s`. */
  function Find(s: string, c: char): (i: nat)
    ensures i <= |s| && c !in s[..i]
    ensures i < |s| ==> s[i] == c
  {
    if s == [] || s[0] == c then 0
    else
      var j := Find(s[1..], c);
      assert s[..j + 1] == [s[0]] + s[1..][..j];
      1 + j
  }

  /** `s.split("\n")`: the lines of `s`, always at least one. */
  function SplitLines(s: string): (lines: seq<string>)
    ensures |lines| >= 1
    decreases |s|
  {
    var i := Find(s, '\n');
    if i == |s| then [s]
    else [s[..i]] + SplitLines(s[i + 1..])
  }

  /** No piece of `s.split("\n")` holds a newline. */
  lemma {:induction false} SplitLinesHaveNoNewline(s: string)
    ensures forall k :: 0 <= k < |SplitLines(s)| ==> '\n' !in SplitLines(s)[k]
    decreases |s|
  {
    var i := Find(s, '\n');
    if i < |s| {
      SplitLinesHaveNoNewline(s[i + 1..]);
      assert SplitLines(s) == [s[..i]] + SplitLines(s[i + 1..]);
    } else {
      assert s[..i] == s;
    }
  }

  /** Lines joined back with `"\n"`. */
  function JoinLines(lines: seq<string>): string
    requires |lines| >= 1
  {
    if |lines| == 1 then lines[0] else lines[0] + "\n" + JoinLines(lines[1..])
  }

  /** Splitting on `"\n"` loses nothing: joining the pieces gives the text back. */
  lemma {:induction false} SplitLinesJoin(s: string)
    ensures JoinLines(SplitLines(s)) == s
    decreases |s|
  {
    var i := Find(s, '\n');
    if i < |s| {
      SplitLinesJoin(s[i + 1..]);
      SplitLinesJoinStep(s, i);
    } else {
      SingleLine(s);
    }
  }

  /** One step of `SplitLinesJoin`: the first piece, a newline, and the
      rest joined back. */
  lemma SplitLinesJoinStep(s: string, i: nat)
    requires i == Find(s, '\n') < |s|
    requires JoinLines(SplitLines(s[i + 1..])) == s[i + 1..]
    ensures JoinLines(SplitLines(s)) == s
  {
    SplitLinesCons(s, i);
    JoinLinesCons(s[..i], SplitLines(s[i + 1..]));
    assert [s[i]] == "\n";
    CutAt(s, i);
  }

  /** Past its first newline, `split("\n")` goes on with the rest. */
  lemma SplitLinesCons(s: string, i: nat)
    requires i == Find(s, '\n') < |s|
    ensures SplitLines(s) == [s[..i]] + SplitLines(s[i + 1..])
  {
  }

  lemma JoinLinesCons(first: string, rest: seq<string>)
    requires |rest| >= 1
    ensures JoinLines([first] + rest) == first + "\n" + JoinLines(rest)
  {
    assert ([first] + rest)[1..] == rest;
  }

  /** `s` is the text before `i`, the character at `i` and the text after. */
  lemma CutAt(s: string, i: nat)
    requires i < |s|
    ensures s == s[..i] + [s[i]] + s[i + 1..]
  {
    assert s[i..] == [s[i]] + s[i + 1..];
    assert s == s[..i] + s[i..];
  }

  /** Where the last line of `s` starts: just after its last newline, or 0
      when it has none. */
  function LastLineStart(s: string): (j: nat)
    ensures j <= |s|
    ensures j > 0 ==> s[j - 1] == '\n'
  {
    if s == [] then 0
    else if s[|s| - 1] == '\n' then |s|
    else LastLineStart(s[..|s| - 1])
  }

  /** Past any newline at `i`, the last line starts where it starts in
      `s[i + 1..]`. */
  lemma {:induction false} LastLineStartAfter(s: string, i: nat)
    requires i < |s| && s[i] == '\n'
    ensures LastLineStart(s) == i + 1 + LastLineStart(s[i + 1..])
    ensures s[i + 1..][LastLineStart(s[i + 1..])..] == s[LastLineStart(s)..]
    decreases |s|
  {
    var u := s[i + 1..];
    if s[|s| - 1] != '\n' {
      var t := s[..|s| - 1];
      assert u != [] && u[|u| - 1] == s[|s| - 1];
      assert u[..|u| - 1] == t[i + 1..];
      LastLineStartAfter(t, i);
    } else if u != [] {
      assert u[|u| - 1] == s[|s| - 1];
    }
  }

  /** Without a newline, the last line is the whole text. */
  lemma {:induction false} LastLineStartNone(s: string)
    requires '\n' !in s
    ensures LastLineStart(s) == 0
  {
    if s != [] {
      assert s[|s| - 1] in s;
      var t := s[..|s| - 1];
      assert '\n' !in t;
      LastLineStartNone(t);
    }
  }

  /** A text without a newline is one line. */
  lemma SingleLine(s: string)
    requires Find(s, '\n') == |s|
    ensures SplitLines(s) == [s] && LastLineStart(s) == 0
  {
    assert s[..|s|] == s;
    LastLineStartNone(s);
  }

  /** One step of `LastLineIsTail`: past the first newline, the last line
      of the rest is the last line of the whole. */
  lemma LastLineStep(s: string, i: nat)
    requires i == Find(s, '\n') < |s|
    ensures var rest := SplitLines(s[i + 1..]);
            SplitLines(s)[|SplitLines(s)| - 1] == rest[|rest| - 1]
  {
    var rest := SplitLines(s[i + 1..]);
    var lines := [s[..i]] + rest;
    assert SplitLines(s) == lines;
    assert lines[|lines| - 1] == rest[|rest| - 1];
  }

  /** The last piece of `s.split("\n")` is the text after the last newline. */
  lemma {:induction false} LastLineIsTail(s: string)
    ensures SplitLines(s)[|SplitLines(s)| - 1] == s[LastLineStart(s)..]
    decreases |s|
  {
    var i := Find(s, '\n');
    if i < |s| {
      LastLineIsTail(s[i + 1..]);
      LastLineStep(s, i);
      LastLineStartAfter(s, i);
    } else {
      SingleLine(s);
    }
  }

  // ---------------------------------------------------------------------
  // Splicing

  /** `s.substring(0, start) + ins + s.substring(end)` for a valid range: the
      text before `start` and the text from `end` on are kept, and `ins`
      stands in place of `s[start..end]`. */
  function Splice(s: string, start: nat, end: nat, ins: string): (r: string)
    requires start <= end <= |s|
    ensures |r| == |s| - (end - start) + |ins|
    ensures r[..start] == s[..start]
    ensures r[start..start + |ins|] == ins
    ensures r[start + |ins|..] == s[end..]
  {
    s[..start] + ins + s[end..]
  }

  /** The three parts that `Splice` promises determine its result. */
  lemma SpliceUnique(s: string, start: nat, end: nat, ins: string, r: string)
    requires start <= end <= |s|
    requires |r| == start + |ins| + (|s| - end)
    requires r[..start] == s[..start] && r[start..start + |ins|] == ins && r[start + |ins|..] == s[end..]
    ensures r == Splice(s, start, end, ins)
  {
    assert r == r[..start] + r[start..start + |ins|] + r[start + |ins|..];
  }

  /** Where the three pieces of a spliced `before + middle + after` land. */
  lemma SpliceThree(s: string, start: nat, end: nat, before: string, middle: string, after: string)
    requires start <= end <= |s|
    ensures var r := Splice(s, start, end, before + middle + after);
            var i := start + |before|;
            var j := i + |middle|;
            && r[start..i] == before
            && r[i..j] == middle
            && r[j..j + |after|] == after
            && r[j + |after|..] == s[end..]
  {
    var ins := before + middle + after;
    var r := Splice(s, start, end, ins);
    var i := start + |before|;
    var j := i + |middle|;
    assert r[start..start + |ins|] == ins;
    assert r[start..i] == ins[..|before|];
    assert r[i..j] == ins[|before|..|before| + |middle|];
    assert r[j..j + |after|] == ins[|before| + |middle|..];
  }

  /** Inserting `p` at `i` shifts every later position by `|p|`. */
  lemma InsertShifts(s: string, i: nat, j: nat, p: string)
    requires i <= j <= |s|
    ensures (s[..i] + p + s[i..])[..j + |p|] == s[..i] + p + s[i..j]
    ensures (s[..i] + p + s[i..])[j + |p|..] == s[j..]
  {
    assert s[i..] == s[i..j] + s[j..];
    assert s[..i] + p + s[i..] == (s[..i] + p + s[i..j]) + s[j..];
  }

  // ---------------------------------------------------------------------
  // Decimal numbers

  /** `Number.parseInt(d)` for a non-empty run of ASCII digits (leading zeros
      allowed). */
  function DecimalValue(d: string): nat
    requires AllDigits(d)
  {
    if d == [] then 0
    else 10 * DecimalValue(d[..|d| - 1]) + (d[|d| - 1] as int - '0' as int)
  }

  /** `${n}` for a natural number: its decimal digits, without leading zeros. */
  function Decimal(n: nat): (d: string)
    ensures d != [] && AllDigits(d)
    ensures |d| > 1 ==> d[0] != '0'
  {
    if n < 10 then [('0' as int + n) as char]
    else Decimal(n / 10) + [('0' as int + n % 10) as char]
  }

  lemma {:induction false} DecimalRoundTrip(n: nat)
    ensures DecimalValue(Decimal(n)) == n
  {
    if n >= 10 {
      var d := Decimal(n);
      assert d[..|d| - 1] == Decimal(n / 10);
      DecimalRoundTrip(n / 10);
    }
  }

  /** Repeating a string `n` times: `"#".repeat(n)`. */
  function Repeat(c: char, n: nat): (r: string)
    ensures |r| == n
    ensures forall k :: 0 <= k < n ==> r[k] == c
  {
    if n == 0 then [] else [c] + Repeat(c, n - 1)
  }

}

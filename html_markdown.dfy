/**
 * The last stages of the note page's `convertHtmlToMarkdown`, which run
 * after the tag rewrites: six entity decodings in a fixed order, removal of
 * anything shaped `<...>`, collapsing of runs of blank lines, and trimming.
 */
module HtmlMarkdown {
  import opened JsText

  // ---------------------------------------------------------------------
  // Entity decoding: `.replace(/&lt;/gi, "<")` and its five siblings

  /** ASCII lower case. For the all-ASCII entity patterns this is what the
      `i` flag compares: no non-ASCII character folds onto an ASCII one. */
  function LowerAscii(c: char): char {
    if 'A' <= c <= 'Z' then (c as int + 32) as char else c
  }

  /** `s` begins with `pattern`, ignoring ASCII case. */
  predicate StartsWithIgnoreCase(s: string, pattern: string) {
    && |pattern| <= |s|
    && forall k :: 0 <= k < |pattern| ==> LowerAscii(s[k]) == LowerAscii(pattern[k])
  }

  /** `s.replace(/pattern/gi, replacement)` for a literal pattern: the
      occurrences are found left to right, do not overlap, and the inserted
      replacement is not searched again. */
  function ReplaceAllIgnoreCase(s: string, pattern: string, replacement: string): (r: string)
    requires pattern != []
    decreases |s|
  {
    if s == [] then []
    else if StartsWithIgnoreCase(s, pattern) then replacement + ReplaceAllIgnoreCase(s[|pattern|..], pattern, replacement)
    else [s[0]] + ReplaceAllIgnoreCase(s[1..], pattern, replacement)
  }

  /** Text in which the pattern's first character (in either case) does not
      occur is left alone. */
  lemma {:induction false} ReplaceWithoutLead(s: string, pattern: string, replacement: string)
    requires pattern != []
    requires forall k :: 0 <= k < |s| ==> LowerAscii(s[k]) != LowerAscii(pattern[0])
    ensures ReplaceAllIgnoreCase(s, pattern, replacement) == s
    decreases |s|
  {
    if s != [] {
      assert LowerAscii(s[0]) != LowerAscii(pattern[0]);
      assert !StartsWithIgnoreCase(s, pattern);
      assert forall k :: 0 <= k < |s[1..]| ==> s[1..][k] == s[k + 1];
      ReplaceWithoutLead(s[1..], pattern, replacement);
    }
  }

  /** Lines 40-45, in their order: `&amp;` is decoded after `&nbsp;`,
      `&lt;` and `&gt;` but before `&quot;` and `&#39;`. */
  function DecodeEntities(s: string): string {
    var s1 := ReplaceAllIgnoreCase(s, "&nbsp;", " ");
    var s2 := ReplaceAllIgnoreCase(s1, "&lt;", "<");
    var s3 := ReplaceAllIgnoreCase(s2, "&gt;", ">");
    var s4 := ReplaceAllIgnoreCase(s3, "&amp;", "&");
    var s5 := ReplaceAllIgnoreCase(s4, "&quot;", "\"");
    ReplaceAllIgnoreCase(s5, "&#39;", "'")
  }

  /** `ReplaceWithoutLead` for the suffix of `s` from index `from`. */
  lemma ReplaceWithoutLeadFrom(s: string, from: nat, pattern: string, replacement: string)
    requires pattern != [] && from <= |s|
    requires forall k :: from <= k < |s| ==> LowerAscii(s[k]) != LowerAscii(pattern[0])
    ensures ReplaceAllIgnoreCase(s[from..], pattern, replacement) == s[from..]
  {
    var t := s[from..];
    forall k | 0 <= k < |t|
      ensures LowerAscii(t[k]) != LowerAscii(pattern[0])
    {
      assert t[k] == s[from + k];
    }
    ReplaceWithoutLead(t, pattern, replacement);
  }

  /** When the pattern's first character can only match at the front, at
      most that one occurrence is replaced. */
  lemma ReplaceAtFrontOnly(s: string, pattern: string, replacement: string)
    requires s != [] && pattern != []
    requires forall k :: 1 <= k < |s| ==> LowerAscii(s[k]) != LowerAscii(pattern[0])
    ensures ReplaceAllIgnoreCase(s, pattern, replacement)
         == if StartsWithIgnoreCase(s, pattern) then replacement + s[|pattern|..] else s
  {
    if StartsWithIgnoreCase(s, pattern) {
      assert ReplaceAllIgnoreCase(s, pattern, replacement)
          == replacement + ReplaceAllIgnoreCase(s[|pattern|..], pattern, replacement);
      ReplaceWithoutLeadFrom(s, |pattern|, pattern, replacement);
    } else {
      assert ReplaceAllIgnoreCase(s, pattern, replacement)
          == [s[0]] + ReplaceAllIgnoreCase(s[1..], pattern, replacement);
      ReplaceWithoutLeadFrom(s, 1, pattern, replacement);
      assert [s[0]] + s[1..] == s;
    }
  }

  /** An escaped ampersand is not the start of any other entity. */
  lemma OtherEntityAtEscapedAmpersand(y: string, pattern: string, replacement: string)
    requires '&' !in y
    requires |pattern| >= 2 && pattern[0] == '&' && LowerAscii(pattern[1]) != 'a'
    ensures ReplaceAllIgnoreCase("&amp;" + y, pattern, replacement) == "&amp;" + y
  {
    var s := "&amp;" + y;
    forall i | 1 <= i < |s| ensures s[i] != '&' {
      if i >= 5 { assert s[i] == y[i - 5]; }
    }
    assert LowerAscii(s[1]) == 'a';
    ReplaceAtFrontOnly(s, pattern, replacement);
  }

  /** `&amp;` at the front of text without `&` is decoded, and nothing else. */
  lemma EscapedAmpersandStep(y: string)
    requires '&' !in y
    ensures ReplaceAllIgnoreCase("&amp;" + y, "&amp;", "&") == "&" + y
  {
    var s := "&amp;" + y;
    forall i | 1 <= i < |s| ensures s[i] != '&' {
      if i >= 5 { assert s[i] == y[i - 5]; }
    }
    assert s[..5] == "&amp;";
    assert StartsWithIgnoreCase(s, "&amp;");
    ReplaceAtFrontOnly(s, "&amp;", "&");
    assert s[5..] == y;
  }

  /** A leading `&quot;` followed by text without `&` is the only one decoded. */
  lemma QuoteStep(x: string)
    requires '&' !in x
    ensures ReplaceAllIgnoreCase("&quot;" + x, "&quot;", "\"") == "\"" + x
  {
    var t := "&quot;" + x;
    forall i | 1 <= i < |t| ensures t[i] != '&' {
      if i >= 6 { assert t[i] == x[i - 6]; }
    }
    assert t[..6] == "&quot;";
    assert StartsWithIgnoreCase(t, "&quot;");
    ReplaceAtFrontOnly(t, "&quot;", "\"");
    assert t[6..] == x;
  }

  /** The first four decodings as written turn an escaped ampersand into
      a plain one. */
  lemma EscapedAmpersandFirstFour(y: string)
    requires '&' !in y
    ensures var s1 := ReplaceAllIgnoreCase("&amp;" + y, "&nbsp;", " ");
            var s2 := ReplaceAllIgnoreCase(s1, "&lt;", "<");
            var s3 := ReplaceAllIgnoreCase(s2, "&gt;", ">");
            ReplaceAllIgnoreCase(s3, "&amp;", "&") == "&" + y
  {
    OtherEntityAtEscapedAmpersand(y, "&nbsp;", " ");
    OtherEntityAtEscapedAmpersand(y, "&lt;", "<");
    OtherEntityAtEscapedAmpersand(y, "&gt;", ">");
    EscapedAmpersandStep(y);
  }

  /** An ampersand at the front of text with no other `&` starts no
      entity whose second character differs from the text's. */
  lemma OtherEntityAtAmpersand(s: string, pattern: string, replacement: string)
    requires s != [] && forall k :: 1 <= k < |s| ==> s[k] != '&'
    requires |pattern| >= 2 && pattern[0] == '&'
    requires |s| < 2 || LowerAscii(s[1]) != LowerAscii(pattern[1])
    ensures ReplaceAllIgnoreCase(s, pattern, replacement) == s
  {
    ReplaceAtFrontOnly(s, pattern, replacement);
  }

  /** `&amp;` is decoded after `&lt;`, so an escaped ampersand comes out as
      one literal `&` and what follows it is not decoded again: `&amp;lt;`
      becomes `&lt;`, not `<`. This holds unless the text after the
      ampersand reads `quot;` or `#39;` (in any case), which are decoded later. */
  lemma {:induction false} EscapedAmpersandDecodedOnce(x: string)
    requires '&' !in x
    requires !StartsWithIgnoreCase(x, "quot;") && !StartsWithIgnoreCase(x, "#39;")
    ensures DecodeEntities("&amp;" + x) == "&" + x
  {
    EscapedAmpersandFirstFour(x);
    var t := "&" + x;
    AmpersandOnlyInFront("&", x);
    StartsAfterAmpersand(x, "&quot;");
    assert "&quot;"[1..] == "quot;";
    ReplaceAtFrontOnly(t, "&quot;", "\"");
    StartsAfterAmpersand(x, "&#39;");
    assert "&#39;"[1..] == "#39;";
    ReplaceAtFrontOnly(t, "&#39;", "'");
  }

  /** An ampersand followed by `x` starts an entity only if `x` starts with
      the rest of it. */
  lemma StartsAfterAmpersand(x: string, pattern: string)
    requires pattern != [] && pattern[0] == '&'
    ensures StartsWithIgnoreCase("&" + x, pattern) ==> StartsWithIgnoreCase(x, pattern[1..])
  {
    if StartsWithIgnoreCase("&" + x, pattern) {
      forall k | 0 <= k < |pattern[1..]|
        ensures LowerAscii(x[k]) == LowerAscii(pattern[1..][k])
      {
        assert ("&" + x)[k + 1] == x[k];
      }
    }
  }

  /** The instance named by the order of the decodings. */
  lemma NoDoubleDecoding()
    ensures DecodeEntities("&amp;lt;") == "&lt;"
  {
    assert "&amp;lt;" == "&amp;" + "lt;";
    assert "&lt;" == "&" + "lt;";
    EscapedAmpersandDecodedOnce("lt;");
  }

  /** The exception: `&quot;` is decoded after `&amp;`, so `&amp;quot;`
      comes out as a double quote rather than as the text `&quot;`. */
  lemma {:induction false} EscapedQuoteDecodedTwice(x: string)
    requires '&' !in x
    ensures DecodeEntities("&amp;quot;" + x) == "\"" + x
  {
    var y := "quot;" + x;
    assert '&' !in y by {
      forall i | 0 <= i < |y| ensures y[i] != '&' { if i >= 5 { assert y[i] == x[i - 5]; } }
    }
    assert "&amp;quot;" + x == "&amp;" + y;
    assert "&" + y == "&quot;" + x;
    EscapedAmpersandFirstFour(y);
    QuoteStep(x);
    var u := "\"" + x;
    assert '&' !in u by {
      forall i | 0 <= i < |u| ensures u[i] != '&' { if i > 0 { assert u[i] == x[i - 1]; } }
    }
    DecodeWithoutLeadAmpersand(u, "&#39;", "'");
  }

  lemma DecodeWithoutLeadAmpersand(s: string, pattern: string, replacement: string)
    requires '&' !in s && pattern != [] && pattern[0] == '&'
    ensures ReplaceAllIgnoreCase(s, pattern, replacement) == s
  {
    ReplaceWithoutLead(s, pattern, replacement);
  }

  /** Text without an ampersand has no entity to decode. */
  lemma DecodeWithoutAmpersand(s: string)
    requires '&' !in s
    ensures DecodeEntities(s) == s
  {
    assert forall k :: 0 <= k < |s| ==> LowerAscii(s[k]) != '&';
    ReplaceWithoutLead(s, "&nbsp;", " ");
    ReplaceWithoutLead(s, "&lt;", "<");
    ReplaceWithoutLead(s, "&gt;", ">");
    ReplaceWithoutLead(s, "&amp;", "&");
    ReplaceWithoutLead(s, "&quot;", "\"");
    ReplaceWithoutLead(s, "&#39;", "'");
  }

  /** In an entity followed by text without `&`, the only ampersand is the
      first character. */
  lemma AmpersandOnlyInFront(e: string, x: string)
    requires e != [] && forall k :: 1 <= k < |e| ==> e[k] != '&'
    requires '&' !in x
    ensures forall k :: 1 <= k < |e + x| ==> (e + x)[k] != '&'
  {
    forall k | 1 <= k < |e + x| ensures (e + x)[k] != '&' {
      if k >= |e| { assert (e + x)[k] == x[k - |e|]; } else { assert (e + x)[k] == e[k]; }
    }
  }

  /** A leading entity followed by text without `&` is decoded by its own
      replace, and nothing after it is touched. */
  lemma EntityAtFront(e: string, r: string, x: string)
    requires |e| >= 2 && e[0] == '&' && forall k :: 1 <= k < |e| ==> e[k] != '&'
    requires '&' !in x
    ensures ReplaceAllIgnoreCase(e + x, e, r) == r + x
  {
    var s := e + x;
    AmpersandOnlyInFront(e, x);
    assert s[..|e|] == e;
    assert StartsWithIgnoreCase(s, e);
    ReplaceAtFrontOnly(s, e, r);
    assert s[|e|..] == x;
  }

  /** The replaces are global: text without `&` in front of the rest is
      kept, and the replace goes on in the rest. */
  lemma {:induction false} ReplaceKeepsPlainPrefix(a: string, b: string, pattern: string, replacement: string)
    requires pattern != [] && pattern[0] == '&' && '&' !in a
    ensures ReplaceAllIgnoreCase(a + b, pattern, replacement) == a + ReplaceAllIgnoreCase(b, pattern, replacement)
    decreases |a|
  {
    if a == [] {
      assert a + b == b;
    } else {
      var t := a + b;
      assert t[0] == a[0] && t[1..] == a[1..] + b;
      assert LowerAscii(t[0]) != LowerAscii(pattern[0]);
      assert ReplaceAllIgnoreCase(t, pattern, replacement)
          == [t[0]] + ReplaceAllIgnoreCase(t[1..], pattern, replacement);
      assert '&' !in a[1..];
      ReplaceKeepsPlainPrefix(a[1..], b, pattern, replacement);
      var c := ReplaceAllIgnoreCase(b, pattern, replacement);
      assert [a[0]] + (a[1..] + c) == ([a[0]] + a[1..]) + c;
      assert [a[0]] + a[1..] == a;
    }
  }

  /** The six decodings leave text without `&` in front of the rest alone
      and decode the rest: an entity is decoded wherever it occurs. */
  lemma DecodeKeepsPlainPrefix(a: string, b: string)
    requires '&' !in a
    ensures DecodeEntities(a + b) == a + DecodeEntities(b)
  {
    var b1 := ReplaceAllIgnoreCase(b, "&nbsp;", " ");
    var b2 := ReplaceAllIgnoreCase(b1, "&lt;", "<");
    var b3 := ReplaceAllIgnoreCase(b2, "&gt;", ">");
    var b4 := ReplaceAllIgnoreCase(b3, "&amp;", "&");
    var b5 := ReplaceAllIgnoreCase(b4, "&quot;", "\"");
    ReplaceKeepsPlainPrefix(a, b, "&nbsp;", " ");
    ReplaceKeepsPlainPrefix(a, b1, "&lt;", "<");
    ReplaceKeepsPlainPrefix(a, b2, "&gt;", ">");
    ReplaceKeepsPlainPrefix(a, b3, "&amp;", "&");
    ReplaceKeepsPlainPrefix(a, b4, "&quot;", "\"");
    ReplaceKeepsPlainPrefix(a, b5, "&#39;", "'");
  }

  /** A leading occurrence of the pattern is replaced, and the replace goes
      on after it. */
  lemma EntityStep(e: string, x: string, replacement: string)
    requires e != []
    ensures ReplaceAllIgnoreCase(e + x, e, replacement) == replacement + ReplaceAllIgnoreCase(x, e, replacement)
  {
    var t := e + x;
    assert t[..|e|] == e;
    assert StartsWithIgnoreCase(t, e);
    assert t[|e|..] == x;
  }

  /** A leading entity is not the start of an entity with a different
      second character: its `&` is kept, and the replace goes on after it. */
  lemma OtherEntityStep(e: string, x: string, pattern: string, replacement: string)
    requires |e| >= 2 && e[0] == '&' && '&' !in e[1..]
    requires |pattern| >= 2 && pattern[0] == '&' && LowerAscii(e[1]) != LowerAscii(pattern[1])
    ensures ReplaceAllIgnoreCase(e + x, pattern, replacement) == e + ReplaceAllIgnoreCase(x, pattern, replacement)
  {
    var t := e + x;
    assert t[0] == e[0] && t[1] == e[1] && t[1..] == e[1..] + x;
    assert !StartsWithIgnoreCase(t, pattern);
    assert ReplaceAllIgnoreCase(t, pattern, replacement)
        == [t[0]] + ReplaceAllIgnoreCase(t[1..], pattern, replacement);
    ReplaceKeepsPlainPrefix(e[1..], x, pattern, replacement);
    var c := ReplaceAllIgnoreCase(x, pattern, replacement);
    assert [e[0]] + (e[1..] + c) == ([e[0]] + e[1..]) + c;
    assert [e[0]] + e[1..] == e;
  }

  /** `&nbsp;` becomes a space wherever it stands: in front of any text it is
      decoded, and the text after it is decoded in turn. */
  lemma {:induction false} NbspDecoded(x: string)
    ensures DecodeEntities("&nbsp;" + x) == " " + DecodeEntities(x)
  {
    var x1 := ReplaceAllIgnoreCase(x, "&nbsp;", " ");
    var x2 := ReplaceAllIgnoreCase(x1, "&lt;", "<");
    var x3 := ReplaceAllIgnoreCase(x2, "&gt;", ">");
    var x4 := ReplaceAllIgnoreCase(x3, "&amp;", "&");
    var x5 := ReplaceAllIgnoreCase(x4, "&quot;", "\"");
    EntityStep("&nbsp;", x, " ");
    ReplaceKeepsPlainPrefix(" ", x1, "&lt;", "<");
    ReplaceKeepsPlainPrefix(" ", x2, "&gt;", ">");
    ReplaceKeepsPlainPrefix(" ", x3, "&amp;", "&");
    ReplaceKeepsPlainPrefix(" ", x4, "&quot;", "\"");
    ReplaceKeepsPlainPrefix(" ", x5, "&#39;", "'");
  }

  /** `&lt;` becomes `<`, and the text after it is decoded in turn. */
  lemma {:induction false} LtDecoded(x: string)
    ensures DecodeEntities("&lt;" + x) == "<" + DecodeEntities(x)
  {
    var x1 := ReplaceAllIgnoreCase(x, "&nbsp;", " ");
    var x2 := ReplaceAllIgnoreCase(x1, "&lt;", "<");
    var x3 := ReplaceAllIgnoreCase(x2, "&gt;", ">");
    var x4 := ReplaceAllIgnoreCase(x3, "&amp;", "&");
    var x5 := ReplaceAllIgnoreCase(x4, "&quot;", "\"");
    OtherEntityStep("&lt;", x, "&nbsp;", " ");
    EntityStep("&lt;", x1, "<");
    ReplaceKeepsPlainPrefix("<", x2, "&gt;", ">");
    ReplaceKeepsPlainPrefix("<", x3, "&amp;", "&");
    ReplaceKeepsPlainPrefix("<", x4, "&quot;", "\"");
    ReplaceKeepsPlainPrefix("<", x5, "&#39;", "'");
  }

  /** `&gt;` becomes `>`, and the text after it is decoded in turn. */
  lemma {:induction false} GtDecoded(x: string)
    ensures DecodeEntities("&gt;" + x) == ">" + DecodeEntities(x)
  {
    var x1 := ReplaceAllIgnoreCase(x, "&nbsp;", " ");
    var x2 := ReplaceAllIgnoreCase(x1, "&lt;", "<");
    var x3 := ReplaceAllIgnoreCase(x2, "&gt;", ">");
    var x4 := ReplaceAllIgnoreCase(x3, "&amp;", "&");
    var x5 := ReplaceAllIgnoreCase(x4, "&quot;", "\"");
    OtherEntityStep("&gt;", x, "&nbsp;", " ");
    OtherEntityStep("&gt;", x1, "&lt;", "<");
    EntityStep("&gt;", x2, ">");
    ReplaceKeepsPlainPrefix(">", x3, "&amp;", "&");
    ReplaceKeepsPlainPrefix(">", x4, "&quot;", "\"");
    ReplaceKeepsPlainPrefix(">", x5, "&#39;", "'");
  }

  /** `&quot;` becomes a double quote, and the text after it is decoded in
      turn. */
  lemma {:induction false} QuotDecoded(x: string)
    ensures DecodeEntities("&quot;" + x) == "\"" + DecodeEntities(x)
  {
    var x1 := ReplaceAllIgnoreCase(x, "&nbsp;", " ");
    var x2 := ReplaceAllIgnoreCase(x1, "&lt;", "<");
    var x3 := ReplaceAllIgnoreCase(x2, "&gt;", ">");
    var x4 := ReplaceAllIgnoreCase(x3, "&amp;", "&");
    var x5 := ReplaceAllIgnoreCase(x4, "&quot;", "\"");
    OtherEntityStep("&quot;", x, "&nbsp;", " ");
    OtherEntityStep("&quot;", x1, "&lt;", "<");
    OtherEntityStep("&quot;", x2, "&gt;", ">");
    OtherEntityStep("&quot;", x3, "&amp;", "&");
    EntityStep("&quot;", x4, "\"");
    ReplaceKeepsPlainPrefix("\"", x5, "&#39;", "'");
  }

  /** `&#39;` becomes an apostrophe, and the text after it is decoded in turn. */
  lemma {:induction false} AposDecoded(x: string)
    ensures DecodeEntities("&#39;" + x) == "'" + DecodeEntities(x)
  {
    var x1 := ReplaceAllIgnoreCase(x, "&nbsp;", " ");
    var x2 := ReplaceAllIgnoreCase(x1, "&lt;", "<");
    var x3 := ReplaceAllIgnoreCase(x2, "&gt;", ">");
    var x4 := ReplaceAllIgnoreCase(x3, "&amp;", "&");
    var x5 := ReplaceAllIgnoreCase(x4, "&quot;", "\"");
    OtherEntityStep("&#39;", x, "&nbsp;", " ");
    OtherEntityStep("&#39;", x1, "&lt;", "<");
    OtherEntityStep("&#39;", x2, "&gt;", ">");
    OtherEntityStep("&#39;", x3, "&amp;", "&");
    OtherEntityStep("&#39;", x4, "&quot;", "\"");
    EntityStep("&#39;", x5, "'");
  }

  /** The other exception: `&#39;` is decoded after `&amp;`, so `&amp;#39;`
      comes out as an apostrophe rather than as the text `&#39;`. */
  lemma {:induction false} EscapedAposDecodedTwice(x: string)
    requires '&' !in x
    ensures DecodeEntities("&amp;#39;" + x) == "'" + x
  {
    var y := "#39;" + x;
    assert '&' !in y by {
      forall i | 0 <= i < |y| ensures y[i] != '&' { if i >= 4 { assert y[i] == x[i - 4]; } }
    }
    assert "&amp;#39;" + x == "&amp;" + y;
    assert "&" + y == "&#39;" + x;
    EscapedAmpersandFirstFour(y);
    AmpersandOnlyInFront("&#39;", x);
    OtherEntityAtAmpersand("&#39;" + x, "&quot;", "\"");
    EntityAtFront("&#39;", "'", x);
  }

  // ---------------------------------------------------------------------
  // Tag removal: `.replace(/<[^>]*>/g, "")`

  /** No `<` is followed, anywhere later, by a `>`: nothing is left that
      `/<[^>]*>/` could match. */
  predicate NoTagShape(s: string) {
    forall i, j :: 0 <= i < j < |s| && s[i] == '<' ==> s[j] != '>'
  }

  /** Each `<` that has a `>` somewhere after it is removed together with
      everything up to and including the first such `>`; a `<` without a
      later `>` stays. */
  function StripTags(s: string): (r: string)
    ensures forall k :: 0 <= k < |r| ==> r[k] in s
    ensures NoTagShape(r)
    decreases |s|
  {
    if s == [] then []
    else if s[0] == '<' && '>' in s[1..] then
      StripTags(s[1 + Find(s[1..], '>') + 1..])
    else
      var rest := StripTags(s[1..]);
      assert s[0] == '<' ==> '>' !in rest;
      NoTagShapeCons(s[0], rest);
      [s[0]] + rest
  }

  lemma NoTagShapeCons(c: char, s: string)
    requires NoTagShape(s)
    requires c == '<' ==> '>' !in s
    ensures NoTagShape([c] + s)
  {
    var t := [c] + s;
    forall i, j | 0 <= i < j < |t| && t[i] == '<'
      ensures t[j] != '>'
    {
      if i == 0 {
        assert t[j] == s[j - 1];
      } else {
        assert t[i] == s[i - 1] && t[j] == s[j - 1];
      }
    }
  }

  /** Text without `<` passes through unchanged. */
  lemma {:induction false} StripTagsWithoutTags(s: string)
    requires '<' !in s
    ensures StripTags(s) == s
    decreases |s|
  {
    if s != [] {
      StripTagsWithoutTags(s[1..]);
    }
  }

  /** A `<` with no `>` after it is kept: text without `>` passes through
      unchanged. */
  lemma {:induction false} StripTagsWithoutClose(s: string)
    requires '>' !in s
    ensures StripTags(s) == s
    decreases |s|
  {
    if s != [] {
      assert '>' !in s[1..];
      StripTagsWithoutClose(s[1..]);
    }
  }

  /** Text before the first `<` is kept as it is. */
  lemma {:induction false} StripTagsAppendPlain(a: string, b: string)
    requires '<' !in a
    ensures StripTags(a + b) == a + StripTags(b)
    decreases |a|
  {
    if a != [] {
      assert (a + b)[0] == a[0] && (a + b)[1..] == a[1..] + b;
      StripTagsAppendPlain(a[1..], b);
      assert a == [a[0]] + a[1..];
    } else {
      assert a + b == b;
    }
  }

  /** A tag `<...>` whose inside holds no `>` is removed whole, and the
      removal goes on after it. */
  lemma StripTagsDropsTag(t: string, b: string)
    requires '>' !in t
    ensures StripTags("<" + t + ">" + b) == StripTags(b)
  {
    var s := "<" + t + ">" + b;
    var u := s[1..];
    assert u == t + ">" + b;
    assert u[..|t|] == t && u[|t|] == '>';
    var i := Find(u, '>');
    assert forall k :: 0 <= k < |t| ==> u[k] != '>' by {
      forall k | 0 <= k < |t| ensures u[k] != '>' { assert u[k] == t[k]; }
    }
    assert forall k :: 0 <= k < i ==> u[k] != '>' by {
      forall k | 0 <= k < i ensures u[k] != '>' { assert u[k] == u[..i][k]; }
    }
    assert i == |t|;
    assert s[1 + i + 1..] == b;
  }

  lemma NoTagShapeSlice(s: string, i: nat, j: nat)
    requires NoTagShape(s) && i <= j <= |s|
    ensures NoTagShape(s[i..j])
  {
    var t := s[i..j];
    forall a, b | 0 <= a < b < |t| && t[a] == '<'
      ensures t[b] != '>'
    {
      assert t[a] == s[i + a] && t[b] == s[i + b];
    }
  }

  lemma NoTagShapeDrop(s: string, i: nat)
    requires NoTagShape(s) && i <= |s|
    ensures NoTagShape(s[i..])
  {
    var t := s[i..];
    forall a, b | 0 <= a < b < |t| && t[a] == '<'
      ensures t[b] != '>'
    {
      assert t[a] == s[i + a] && t[b] == s[i + b];
    }
  }

  // ---------------------------------------------------------------------
  // Blank-line collapsing: `.replace(/\n\s*\n\s*\n/g, "\n\n")`

  function NewlineCount(s: string): nat {
    if s == [] then 0 else (if s[0] == '\n' then 1 else 0) + NewlineCount(s[1..])
  }

  function LastNewline(s: string): (i: nat)
    requires '\n' in s
    ensures i < |s| && s[i] == '\n' && '\n' !in s[i + 1..]
    decreases |s|
  {
    if '\n' in s[1..] then
      var j := LastNewline(s[1..]);
      assert s[1..][j + 1..] == s[j + 2..];
      1 + j
    else 0
  }

  /** Where a newline starts a run of white space holding at least three
      newlines, the run up to its last newline becomes a single blank line
      (`"\n\n"`); the white space after that last newline stays. This is the
      match the greedy `\n\s*\n\s*\n` finds at that position. */
  function CollapseBlankLines(s: string): (r: string)
    ensures forall k :: 0 <= k < |r| ==> r[k] in s || r[k] == '\n'
    decreases |s|
  {
    if s == [] then []
    else
      var run := s[..LeadingSpaces(s)];
      if s[0] == '\n' && NewlineCount(run) >= 3 then
        var last := LastNewline(run);
        var rest := CollapseBlankLines(s[last + 1..]);
        assert forall k :: 0 <= k < |rest| ==> rest[k] in s || rest[k] == '\n' by {
          forall k | 0 <= k < |rest| && rest[k] !in s ensures rest[k] == '\n' {
            assert rest[k] !in s[last + 1..];
          }
        }
        "\n\n" + rest
      else
        [s[0]] + CollapseBlankLines(s[1..])
  }

  /** No run of white space holds three newlines; `nl` is the number of
      newlines already seen in the run the text starts in. */
  predicate BlankRunFree(s: string, nl: nat) {
    if s == [] then true
    else if s[0] == '\n' then nl + 1 < 3 && BlankRunFree(s[1..], nl + 1)
    else if IsSpace(s[0]) then BlankRunFree(s[1..], nl)
    else BlankRunFree(s[1..], 0)
  }

  lemma {:induction false} NewlineCountNone(s: string)
    requires '\n' !in s
    ensures NewlineCount(s) == 0
  {
    if s != [] {
      NewlineCountNone(s[1..]);
    }
  }

  /** The white-space run of `s[1..]` is that of `s` minus its first character. */
  lemma RunTail(s: string)
    requires s != [] && IsSpace(s[0])
    ensures LeadingSpaces(s[1..]) == LeadingSpaces(s) - 1
    ensures s[1..][..LeadingSpaces(s[1..])] == s[..LeadingSpaces(s)][1..]
  {
  }

  /** The white-space run after the last newline of a run is what is left of it. */
  lemma RunAfterLastNewline(s: string)
    requires s != [] && s[0] == '\n'
    requires '\n' in s[..LeadingSpaces(s)]
    ensures var n := LeadingSpaces(s);
            var last := LastNewline(s[..n]);
            NewlineCount(s[last + 1..][..LeadingSpaces(s[last + 1..])]) == 0
  {
    var n := LeadingSpaces(s);
    var run := s[..n];
    var last := LastNewline(run);
    var rest := s[last + 1..];
    var k := n - last - 1;
    var after := run[last + 1..];
    assert rest[..k] == after;
    assert AllSpace(after) by {
      forall i | 0 <= i < |after| ensures IsSpace(after[i]) {
        assert after[i] == run[last + 1 + i];
      }
    }
    assert k < |rest| ==> rest[k] == s[n];
    LeadingSpacesExact(rest, k);
    NewlineCountNone(after);
  }

  /** The collapsed text has no run of white space with three newlines. The
      counter `nl` is the number of newlines of the output's current run;
      whenever it is positive, the input's run continues that same run. */
  lemma {:induction false} CollapseLeavesNoBlankRun(s: string, nl: nat)
    requires nl <= 2
    requires nl == 0 || nl + NewlineCount(s[..LeadingSpaces(s)]) <= 2
    ensures BlankRunFree(CollapseBlankLines(s), nl)
    decreases |s|
  {
    if s != [] {
      var run := s[..LeadingSpaces(s)];
      if s[0] == '\n' && NewlineCount(run) >= 3 {
        var last := LastNewline(run);
        RunAfterLastNewline(s);
        CollapseLeavesNoBlankRun(s[last + 1..], 2);
        LeavesRunStep(s, nl);
      } else {
        var nl' := if s[0] == '\n' then nl + 1 else if IsSpace(s[0]) then nl else 0;
        if IsSpace(s[0]) {
          RunTail(s);
        }
        CollapseLeavesNoBlankRun(s[1..], nl');
        LeavesCharStep(s, nl);
      }
    }
  }

  lemma LeavesRunStep(s: string, nl: nat)
    requires s != [] && s[0] == '\n' && NewlineCount(s[..LeadingSpaces(s)]) >= 3
    requires nl == 0 || nl + NewlineCount(s[..LeadingSpaces(s)]) <= 2
    requires BlankRunFree(CollapseBlankLines(s[LastNewline(s[..LeadingSpaces(s)]) + 1..]), 2)
    ensures BlankRunFree(CollapseBlankLines(s), nl)
  {
    assert nl == 0;
    var rest := CollapseBlankLines(s[LastNewline(s[..LeadingSpaces(s)]) + 1..]);
    var t := "\n" + rest;
    assert t[0] == '\n' && t[1..] == rest;
    assert BlankRunFree(t, 1);
    var u := "\n" + t;
    assert u[0] == '\n' && u[1..] == t;
    assert BlankRunFree(u, 0);
    assert CollapseBlankLines(s) == u;
  }

  lemma LeavesCharStep(s: string, nl: nat)
    requires s != [] && !(s[0] == '\n' && NewlineCount(s[..LeadingSpaces(s)]) >= 3)
    requires nl <= 2
    requires BlankRunFree(CollapseBlankLines(s[1..]), if s[0] == '\n' then nl + 1 else if IsSpace(s[0]) then nl else 0)
    requires s[0] == '\n' ==> nl + 1 < 3
    ensures BlankRunFree(CollapseBlankLines(s), nl)
  {
    var rest := CollapseBlankLines(s[1..]);
    assert CollapseBlankLines(s) == [s[0]] + rest;
    assert ([s[0]] + rest)[1..] == rest;
  }

  lemma {:induction false} BlankRunFreeBound(s: string, nl: nat)
    requires nl <= 2 && BlankRunFree(s, nl)
    ensures nl + NewlineCount(s[..LeadingSpaces(s)]) <= 2
    decreases |s|
  {
    if s != [] && IsSpace(s[0]) {
      RunTail(s);
      BlankRunFreeBound(s[1..], if s[0] == '\n' then nl + 1 else nl);
    }
  }

  /** Text with no such run is left unchanged. */
  lemma {:induction false} CollapseFixesFree(s: string, nl: nat)
    requires nl <= 2 && BlankRunFree(s, nl)
    ensures CollapseBlankLines(s) == s
    decreases |s|
  {
    if s != [] {
      BlankRunFreeBound(s, nl);
      var nl' := if s[0] == '\n' then nl + 1 else if IsSpace(s[0]) then nl else 0;
      CollapseFixesFree(s[1..], nl');
    }
  }

  lemma CollapseIdempotent(s: string)
    ensures CollapseBlankLines(CollapseBlankLines(s)) == CollapseBlankLines(s)
  {
    CollapseLeavesNoBlankRun(s, 0);
    CollapseFixesFree(CollapseBlankLines(s), 0);
  }

  /** The collapse introduces no `<...>` shape. */
  lemma {:induction false} CollapseKeepsNoTagShape(s: string)
    requires NoTagShape(s)
    ensures NoTagShape(CollapseBlankLines(s))
    decreases |s|
  {
    if s != [] {
      var run := s[..LeadingSpaces(s)];
      if s[0] == '\n' && NewlineCount(run) >= 3 {
        var last := LastNewline(run);
        NoTagShapeDrop(s, last + 1);
        CollapseKeepsNoTagShape(s[last + 1..]);
        CollapseRunStep(s);
      } else {
        NoTagShapeDrop(s, 1);
        CollapseKeepsNoTagShape(s[1..]);
        CollapseCharStep(s);
      }
    }
  }

  lemma CollapseRunStep(s: string)
    requires s != [] && s[0] == '\n' && NewlineCount(s[..LeadingSpaces(s)]) >= 3
    requires NoTagShape(CollapseBlankLines(s[LastNewline(s[..LeadingSpaces(s)]) + 1..]))
    ensures NoTagShape(CollapseBlankLines(s))
  {
    var rest := CollapseBlankLines(s[LastNewline(s[..LeadingSpaces(s)]) + 1..]);
    assert CollapseBlankLines(s) == ['\n'] + (['\n'] + rest);
    NoTagShapeCons('\n', rest);
    NoTagShapeCons('\n', ['\n'] + rest);
  }

  lemma CollapseCharStep(s: string)
    requires s != [] && !(s[0] == '\n' && NewlineCount(s[..LeadingSpaces(s)]) >= 3)
    requires NoTagShape(s) && NoTagShape(CollapseBlankLines(s[1..]))
    ensures NoTagShape(CollapseBlankLines(s))
  {
    var rest := CollapseBlankLines(s[1..]);
    assert CollapseBlankLines(s) == [s[0]] + rest;
    if s[0] == '<' {
      assert '>' !in s[1..] by {
        forall j | 0 <= j < |s[1..]| ensures s[1..][j] != '>' { assert s[1..][j] == s[j + 1]; }
      }
    }
    NoTagShapeCons(s[0], rest);
  }

  /** A run of white space that starts with a newline and holds at least
      three newlines becomes one blank line, `"\n\n"`, followed by the run's
      white space after its last newline; the collapse then goes on after
      the run. */
  lemma CollapseBlankRun(w: string, b: string)
    requires AllSpace(w) && NewlineCount(w) >= 2
    requires b == [] || !IsSpace(b[0])
    ensures '\n' in w
    ensures CollapseBlankLines("\n" + w + b) == "\n\n" + w[LastNewline(w) + 1..] + CollapseBlankLines(b)
  {
    NewlineInCount(w);
    var l := LastNewline(w);
    RunAtFront(w, b);
    CollapseAtRun("\n" + w + b, l + 1, w[l + 1..], b);
  }

  /** The collapse sees the run `"\n" + w` at the front, up to the last
      newline of `w`. */
  lemma RunAtFront(w: string, b: string)
    requires AllSpace(w) && NewlineCount(w) >= 2 && '\n' in w
    requires b == [] || !IsSpace(b[0])
    ensures var s := "\n" + w + b;
            var l := LastNewline(w);
            && NewlineCount(s[..LeadingSpaces(s)]) >= 3
            && l + 1 == LastNewline(s[..LeadingSpaces(s)])
            && s[l + 2..] == w[l + 1..] + b
  {
    BlankRunFacts(w, b);
    LastNewlineCons(w);
    AfterLastNewline(w, b, LastNewline(w));
  }

  lemma CollapseAtRun(s: string, last: nat, u: string, b: string)
    requires s != [] && s[0] == '\n' && NewlineCount(s[..LeadingSpaces(s)]) >= 3
    requires last == LastNewline(s[..LeadingSpaces(s)])
    requires s[last + 1..] == u + b && '\n' !in u
    ensures CollapseBlankLines(s) == "\n\n" + u + CollapseBlankLines(b)
  {
    CollapseRunUnfold(s, CollapseBlankLines(u + b));
    CollapseWithoutNewline(u, b);
  }

  lemma LastNewlineCons(w: string)
    requires '\n' in w
    ensures LastNewline("\n" + w) == 1 + LastNewline(w)
  {
    assert ("\n" + w)[1..] == w;
  }

  lemma AfterLastNewline(w: string, b: string, l: nat)
    requires l < |w|
    ensures ("\n" + w + b)[l + 2..] == w[l + 1..] + b
  {
  }

  lemma {:induction false} NewlineInCount(w: string)
    requires NewlineCount(w) > 0
    ensures '\n' in w
    decreases |w|
  {
    if w[0] != '\n' {
      NewlineInCount(w[1..]);
      assert w[1..][Find(w[1..], '\n')] == w[1 + Find(w[1..], '\n')];
    }
  }

  /** The white-space run at the front of `"\n" + w + b` is `"\n" + w`. */
  lemma BlankRunFacts(w: string, b: string)
    requires AllSpace(w) && NewlineCount(w) >= 2
    requires b == [] || !IsSpace(b[0])
    ensures var s := "\n" + w + b;
            && s[..LeadingSpaces(s)] == "\n" + w
            && NewlineCount("\n" + w) >= 3
  {
    var s := "\n" + w + b;
    var k := 1 + |w|;
    assert s[..k] == "\n" + w;
    assert AllSpace(s[..k]) by {
      forall i | 0 <= i < k ensures IsSpace(s[..k][i]) {
        if i > 0 { assert s[..k][i] == w[i - 1]; }
      }
    }
    assert k < |s| ==> s[k] == b[0];
    LeadingSpacesExact(s, k);
    assert ("\n" + w)[1..] == w;
  }

  lemma CollapseRunUnfold(s: string, rest: string)
    requires s != [] && s[0] == '\n' && NewlineCount(s[..LeadingSpaces(s)]) >= 3
    requires rest == CollapseBlankLines(s[LastNewline(s[..LeadingSpaces(s)]) + 1..])
    ensures CollapseBlankLines(s) == "\n\n" + rest
  {
  }

  lemma CollapseCharUnfold(t: string)
    requires t != [] && t[0] != '\n'
    ensures CollapseBlankLines(t) == [t[0]] + CollapseBlankLines(t[1..])
  {
  }

  /** A newline whose white-space run holds fewer than three newlines opens
      no blank line: it is kept, and the collapse goes on after it. */
  lemma ShortRunKept(s: string)
    requires s != [] && s[0] == '\n' && NewlineCount(s[..LeadingSpaces(s)]) < 3
    ensures CollapseBlankLines(s) == [s[0]] + CollapseBlankLines(s[1..])
  {
  }

  /** Text without a newline opens no blank-line run and is kept as it is. */
  lemma {:induction false} CollapseWithoutNewline(u: string, b: string)
    requires '\n' !in u
    ensures CollapseBlankLines(u + b) == u + CollapseBlankLines(b)
    decreases |u|
  {
    if u == [] {
      assert u + b == b;
    } else {
      var t := u + b;
      assert t[0] == u[0] && t[1..] == u[1..] + b;
      CollapseCharUnfold(t);
      assert '\n' !in u[1..];
      CollapseWithoutNewline(u[1..], b);
      var c := CollapseBlankLines(b);
      assert [u[0]] + (u[1..] + c) == ([u[0]] + u[1..]) + c;
      assert [u[0]] + u[1..] == u;
    }
  }

  /** The non-white-space characters of `s`, in order. */
  function NonSpace(s: string): string {
    if s == [] then []
    else (if IsSpace(s[0]) then [] else [s[0]]) + NonSpace(s[1..])
  }

  lemma {:induction false} NonSpaceAppend(a: string, b: string)
    ensures NonSpace(a + b) == NonSpace(a) + NonSpace(b)
    decreases |a|
  {
    if a != [] {
      var head := if IsSpace(a[0]) then [] else [a[0]];
      assert (a + b)[0] == a[0] && (a + b)[1..] == a[1..] + b;
      assert NonSpace(a + b) == head + NonSpace(a[1..] + b);
      NonSpaceAppend(a[1..], b);
      assert NonSpace(a) == head + NonSpace(a[1..]);
    } else {
      assert a + b == b;
    }
  }

  lemma {:induction false} NonSpaceOfSpaces(s: string)
    requires AllSpace(s)
    ensures NonSpace(s) == []
    decreases |s|
  {
    if s != [] {
      assert AllSpace(s[1..]);
      NonSpaceOfSpaces(s[1..]);
    }
  }

  lemma AllSpacePrefix(s: string, j: nat)
    requires AllSpace(s) && j <= |s|
    ensures AllSpace(s[..j])
  {
    forall k | 0 <= k < j ensures IsSpace(s[..j][k]) {
      assert s[..j][k] == s[k];
    }
  }

  /** The collapse only rewrites white space: every other character is
      kept, in order. */
  lemma {:induction false} CollapseKeepsNonSpace(s: string)
    ensures NonSpace(CollapseBlankLines(s)) == NonSpace(s)
    decreases |s|
  {
    if s != [] {
      var run := s[..LeadingSpaces(s)];
      if s[0] == '\n' && NewlineCount(run) >= 3 {
        var last := LastNewline(run);
        CollapseKeepsNonSpace(s[last + 1..]);
        assert s[..last + 1] == run[..last + 1];
        AllSpacePrefix(run, last + 1);
        NonSpaceRunStep(s, last, CollapseBlankLines(s[last + 1..]));
      } else {
        CollapseKeepsNonSpace(s[1..]);
        assert CollapseBlankLines(s) == [s[0]] + CollapseBlankLines(s[1..]);
        NonSpaceAppend([s[0]], CollapseBlankLines(s[1..]));
        NonSpaceAppend([s[0]], s[1..]);
        assert [s[0]] + s[1..] == s;
      }
    }
  }

  lemma NonSpaceRunStep(s: string, last: nat, rest: string)
    requires last < |s| && AllSpace(s[..last + 1])
    requires NonSpace(rest) == NonSpace(s[last + 1..])
    ensures NonSpace("\n\n" + rest) == NonSpace(s)
  {
    NonSpaceAppend("\n\n", rest);
    assert NonSpace("\n\n") == [];
    NonSpaceOfSpaces(s[..last + 1]);
    NonSpaceAppend(s[..last + 1], s[last + 1..]);
    assert s[..last + 1] + s[last + 1..] == s;
  }

  lemma {:induction false} BlankRunFreeWeaken(s: string, a: nat, b: nat)
    requires a <= b && BlankRunFree(s, b)
    ensures BlankRunFree(s, a)
    decreases |s|
  {
    if s != [] {
      if s[0] == '\n' {
        BlankRunFreeWeaken(s[1..], a + 1, b + 1);
      } else if IsSpace(s[0]) {
        BlankRunFreeWeaken(s[1..], a, b);
      }
    }
  }

  lemma {:induction false} BlankRunFreeDrop(s: string, k: nat)
    requires k <= |s| && BlankRunFree(s, 0)
    ensures BlankRunFree(s[k..], 0)
    decreases k
  {
    if k > 0 {
      var nl := if s[0] == '\n' then 1 else 0;
      BlankRunFreeWeaken(s[1..], 0, nl);
      BlankRunFreeDrop(s[1..], k - 1);
      assert s[1..][k - 1..] == s[k..];
    }
  }

  lemma {:induction false} BlankRunFreeTake(s: string, k: nat, nl: nat)
    requires k <= |s| && BlankRunFree(s, nl)
    ensures BlankRunFree(s[..k], nl)
    decreases k
  {
    if k > 0 {
      var nl' := if s[0] == '\n' then nl + 1 else if IsSpace(s[0]) then nl else 0;
      BlankRunFreeTake(s[1..], k - 1, nl');
      assert s[..k][1..] == s[1..][..k - 1];
    }
  }

  // ---------------------------------------------------------------------
  // The whole tail

  /** Lines 40-48 of the conversion. Whatever went in, what comes out has no
      `<...>` left, no run of white space with three newlines, and no white
      space at either end. */
  function MarkdownTail(s: string): (r: string)
    ensures NoTagShape(r)
    ensures BlankRunFree(r, 0)
    ensures r != [] ==> !IsSpace(r[0]) && !IsSpace(r[|r| - 1])
  {
    var r := CollapseAndTrim(StripTags(DecodeEntities(s)));
    assert NoTagShape(r);
    assert BlankRunFree(r, 0);
    assert r != [] ==> !IsSpace(r[0]) && !IsSpace(r[|r| - 1]);
    r
  }

  /** Lines 47-48. On text without tags, no blank-line run and no white
      space at either end are left, and no tag shape appears. */
  function CollapseAndTrim(s: string): (r: string)
    requires NoTagShape(s)
    ensures NoTagShape(r)
    ensures BlankRunFree(r, 0)
    ensures r != [] ==> !IsSpace(r[0]) && !IsSpace(r[|r| - 1])
  {
    var collapsed := CollapseBlankLines(s);
    CollapseKeepsNoTagShape(s);
    CollapseLeavesNoBlankRun(s, 0);
    TrimKeepsShape(collapsed);
    Trim(collapsed)
  }

  /** Trimming keeps a text free of tags and of blank-line runs. */
  lemma TrimKeepsShape(s: string)
    requires NoTagShape(s) && BlankRunFree(s, 0)
    ensures NoTagShape(Trim(s)) && BlankRunFree(Trim(s), 0)
  {
    var i := LeadingSpaces(s);
    var j := i + |Trim(s)|;
    NoTagShapeSlice(s, i, j);
    BlankRunFreeSlice(s, i, j);
  }

  /** Any slice of a text free of blank-line runs is free of them. */
  lemma BlankRunFreeSlice(s: string, i: nat, j: nat)
    requires i <= j <= |s| && BlankRunFree(s, 0)
    ensures BlankRunFree(s[i..j], 0)
  {
    BlankRunFreeDrop(s, i);
    BlankRunFreeTake(s[i..], j - i, 0);
    assert s[i..][..j - i] == s[i..j];
  }

  /** Text with no entity, no `<`, no run of three blank lines and no white
      space at either end comes through unchanged. */
  lemma {:induction false} MarkdownTailKeepsPlainText(s: string)
    requires '&' !in s && '<' !in s && BlankRunFree(s, 0) && Trim(s) == s
    ensures MarkdownTail(s) == s
  {
    DecodeWithoutAmpersand(s);
    StripTagsWithoutTags(s);
    CollapseFixesFree(s, 0);
  }

}

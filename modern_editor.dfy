/**
 * The markdown editor component: its word count, its two text operations
 * (`insertText`, `insertAtLineStart`) and its key handler.
 *
 * The handlers read the textarea's value and selection and leave a new
 * value and a new selection behind. That effect is stated once, as pure
 * functions over a `TextArea` value; the `Editor` class holds the same
 * state in fields and its methods are tied to those functions.
 */
module ModernEditor {
  import opened Wrappers
  import opened JsText

  // ---------------------------------------------------------------------
  // Word count

  /** `value.trim() ? value.trim().split(/\s+/).length : 0`: zero exactly for
      an all-white-space value, otherwise the number of maximal runs of
      non-white-space characters. */
  function WordCount(value: string): (n: nat)
    ensures n == 0 <==> AllSpace(value)
    ensures n == WordRuns(value, true)
  {
    var t := Trim(value);
    TrimKeepsWords(value);
    if t != [] then
      SplitCountsWords(t);
      |SplitOnSpaceRuns(t)|
    else
      WordRunsOfSpaces(value, true);
      0
  }

  // ---------------------------------------------------------------------
  // The textarea

  /** The textarea's value with its selection `[selStart, selEnd)`. */
  datatype TextArea = TextArea(value: string, selStart: nat, selEnd: nat) {
    predicate Valid() {
      selStart <= selEnd <= |value|
    }

    function Selected(): string
      requires Valid()
    {
      value[selStart..selEnd]
    }
  }

  /** `selectedText || placeholder`: the selected text unless it is empty. */
  function Insertion(selected: string, placeholder: string): string {
    if selected != [] then selected else placeholder
  }

  /** `insertText(before, after, placeholder)`: the selection is replaced by
      `before`, the selected text (or the placeholder when nothing is
      selected) and `after`; the new selection covers exactly the text that
      was kept or put in, right after `before`. */
  function InsertTextResult(t: TextArea, before: string, after: string, placeholder: string): (r: TextArea)
    requires t.Valid()
    ensures r.Valid()
    ensures var ins := Insertion(t.Selected(), placeholder);
            && r.value == Splice(t.value, t.selStart, t.selEnd, before + ins + after)
            && |r.value| == |t.value| - (t.selEnd - t.selStart) + |before| + |ins| + |after|
            && r.selStart == t.selStart + |before|
            && r.Selected() == ins
            && r.value[t.selStart..r.selStart] == before
            && r.value[r.selEnd..r.selEnd + |after|] == after
            && r.value[r.selEnd + |after|..] == t.value[t.selEnd..]
  {
    var start := t.selStart;
    var end := t.selEnd;
    var selectedText := t.value[start..end];
    var textToInsert := Insertion(selectedText, placeholder);
    var newValue := Splice(t.value, start, end, before + textToInsert + after);
    SpliceThree(t.value, start, end, before, textToInsert, after);
    var newEnd :=
      if selectedText == [] && placeholder != [] then start + |before| + |placeholder|
      else start + |before| + |textToInsert|;
    assert newEnd == start + |before| + |textToInsert|;
    TextArea(newValue, start + |before|, newEnd)
  }

  /** With nothing selected, a wrapping shortcut selects its placeholder. */
  lemma InsertSelectsPlaceholder(t: TextArea, before: string, after: string, placeholder: string)
    requires t.Valid() && t.selStart == t.selEnd
    ensures InsertTextResult(t, before, after, placeholder).Selected() == placeholder
    ensures InsertTextResult(t, before, after, placeholder).value
         == t.value[..t.selStart] + before + placeholder + after + t.value[t.selStart..]
  {
  }

  // ---------------------------------------------------------------------
  // The caret's line

  /** `value.substring(0, caret).split("\n")`'s last piece: the text of the
      caret's line up to the caret. */
  function CurrentLine(value: string, caret: nat): (line: string)
    requires caret <= |value|
    ensures |line| <= caret
    ensures line == value[caret - |line|..caret]
    ensures '\n' !in line
    ensures |line| < caret ==> value[caret - |line| - 1] == '\n'
  {
    var lines := SplitLines(value[..caret]);
    LastLineIsTail(value[..caret]);
    SplitLinesHaveNoNewline(value[..caret]);
    var line := lines[|lines| - 1];
    var j := LastLineStart(value[..caret]);
    assert line == value[j..caret];
    assert j > 0 ==> value[j - 1] == value[..caret][j - 1];
    line
  }

  /** `start - lines[lines.length - 1].length`: the index just after the last
      newline before the caret, or 0 when there is none. */
  function CurrentLineStart(value: string, caret: nat): (i: nat)
    requires caret <= |value|
    ensures i <= caret
    ensures '\n' !in value[i..caret]
    ensures i == 0 || value[i - 1] == '\n'
  {
    caret - |CurrentLine(value, caret)|
  }

  /** `insertAtLineStart(prefix)`: the prefix goes in at the start of the
      caret's line and the selection collapses to a caret just past the
      text that preceded the old `selStart`, now shifted by the prefix. */
  function InsertAtLineStartResult(t: TextArea, prefix: string): (r: TextArea)
    requires t.Valid()
    ensures r.Valid()
    ensures var ls := CurrentLineStart(t.value, t.selStart);
            && r.value == Splice(t.value, ls, ls, prefix)
            && r.selStart == r.selEnd == t.selStart + |prefix|
            && r.value[..r.selStart] == t.value[..ls] + prefix + t.value[ls..t.selStart]
            && r.value[r.selStart..] == t.value[t.selStart..]
  {
    var start := t.selStart;
    var currentLineStart := start - |CurrentLine(t.value, start)|;
    var newValue := t.value[..currentLineStart] + prefix + t.value[currentLineStart..];
    assert newValue == Splice(t.value, currentLineStart, currentLineStart, prefix);
    InsertShifts(t.value, currentLineStart, start, prefix);
    TextArea(newValue, start + |prefix|, start + |prefix|)
  }

  // ---------------------------------------------------------------------
  // List continuation

  const Bullets: string := "-*+"

  /** The line begins with `indent bullet space`, the indent being `line[..k]`
      (what `/^(\s*)([-*+])\s/` looks for). */
  predicate IsBulletAt(line: string, k: nat) {
    && k + 1 < |line|
    && AllSpace(line[..k])
    && line[k] in Bullets
    && IsSpace(line[k + 1])
  }

  /** The line begins with `indent digits "." space`, the indent being
      `line[..k]` and the number `line[k..k + m]` (what
      `/^(\s*)(\d+)\.\s/` looks for). */
  predicate IsNumberedAt(line: string, k: nat, m: nat) {
    && 0 < m
    && k + m + 1 < |line|
    && AllSpace(line[..k])
    && AllDigits(line[k..k + m])
    && line[k + m] == '.'
    && IsSpace(line[k + m + 1])
  }

  /** `line.match(/^(\s*)([-*+])\s/)`: indent and bullet, or no match. The
      greedy `\s*` takes the whole front run of white space, and no shorter
      run can succeed since a bullet is not white space. */
  function UnorderedMatch(line: string): (m: Option<(string, char)>)
    ensures m.Some? ==> IsBulletAt(line, |m.value.0|) && m.value == (line[..|m.value.0|], line[|m.value.0|])
  {
    var n := LeadingSpaces(line);
    if n + 1 < |line| && line[n] in Bullets && IsSpace(line[n + 1]) then Some((line[..n], line[n])) else None
  }

  /** `line.match(/^(\s*)(\d+)\.\s/)`: indent and digits, or no match. */
  function OrderedMatch(line: string): (m: Option<(string, string)>)
    ensures m.Some? ==>
      && IsNumberedAt(line, |m.value.0|, |m.value.1|)
      && m.value == (line[..|m.value.0|], line[|m.value.0|..|m.value.0| + |m.value.1|])
  {
    var n := LeadingSpaces(line);
    var d := LeadingDigits(line[n..]);
    assert line[n..][..d] == line[n..n + d];
    if 0 < d && n + d + 1 < |line| && line[n + d] == '.' && IsSpace(line[n + d + 1]) then
      Some((line[..n], line[n..n + d]))
    else None
  }

  /** Whatever indent the line has, the regular expression finds it. */
  lemma UnorderedMatchFinds(line: string, k: nat)
    requires IsBulletAt(line, k)
    ensures UnorderedMatch(line) == Some((line[..k], line[k]))
  {
    LeadingSpacesExact(line, k);
  }

  lemma OrderedMatchFinds(line: string, k: nat, m: nat)
    requires IsNumberedAt(line, k, m)
    ensures OrderedMatch(line) == Some((line[..k], line[k..k + m]))
  {
    assert !IsSpace(line[k]) by { assert line[k] == line[k..k + m][0]; }
    LeadingSpacesExact(line, k);
    assert line[k..][..m] == line[k..k + m];
    LeadingDigitsExact(line[k..], m);
  }

  /** A bulleted line and a numbered line are never the same line, so the
      order of the two checks does not matter. */
  lemma NotBothListKinds(line: string, k: nat, k': nat, m: nat)
    ensures !(IsBulletAt(line, k) && IsNumberedAt(line, k', m))
  {
  }

  /** `Number.parseInt(number) + 1`, printed: the decimal digits of the
      number one higher, read with leading zeros ignored. */
  function NextNumber(number: string): (d: string)
    requires AllDigits(number)
    ensures AllDigits(d) && d != []
    ensures DecimalValue(d) == DecimalValue(number) + 1
    ensures |d| > 1 ==> d[0] != '0'
  {
    DecimalRoundTrip(DecimalValue(number) + 1);
    Decimal(DecimalValue(number) + 1)
  }

  /** The text Enter inserts on the caret's line: `\n${indent}${bullet} ` for a
      bulleted line (this check comes first), `\n${indent}${number + 1}. ` for
      a numbered one, and nothing otherwise. */
  function ListContinuation(line: string): (r: Option<string>)
    ensures r.Some? ==> |r.value| >= 3 && r.value[0] == '\n' && r.value[|r.value| - 1] == ' '
  {
    match UnorderedMatch(line)
    case Some((indent, bullet)) => Some("\n" + indent + [bullet] + " ")
    case None =>
      match OrderedMatch(line)
      case Some((indent, number)) => Some("\n" + indent + NextNumber(number) + ". ")
      case None => None
  }

  lemma ContinuesBullet(line: string, k: nat)
    requires IsBulletAt(line, k)
    ensures ListContinuation(line) == Some("\n" + line[..k] + [line[k]] + " ")
  {
    UnorderedMatchFinds(line, k);
  }

  /** On a numbered line the next number is one more than the line's, read
      with leading zeros ignored. */
  lemma ContinuesNumber(line: string, k: nat, m: nat)
    requires IsNumberedAt(line, k, m)
    ensures ListContinuation(line) == Some("\n" + line[..k] + NextNumber(line[k..k + m]) + ". ")
  {
    if UnorderedMatch(line).Some? {
      NotBothListKinds(line, |UnorderedMatch(line).value.0|, k, m);
      assert false;
    }
    OrderedMatchFinds(line, k, m);
  }

  lemma NoContinuation(line: string)
    requires forall k: nat :: !IsBulletAt(line, k)
    requires forall k: nat, m: nat :: !IsNumberedAt(line, k, m)
    ensures ListContinuation(line) == None
  {
  }

  // ---------------------------------------------------------------------
  // Keys

  /** The parts of a keyboard event the handler reads. */
  datatype KeyEvent = KeyEvent(key: string, ctrlKey: bool, metaKey: bool)

  /** `Number.parseInt(key)` for the keys "1" to "6". */
  function HeadingLevel(key: string): (r: Option<nat>)
    ensures r.Some? ==> 1 <= r.value <= 6 && key == Decimal(r.value) && DecimalValue(key) == r.value
  {
    if |key| == 1 && '1' <= key[0] <= '6' then Some(key[0] as int - '0' as int) else None
  }

  /** `"#".repeat(level) + " "`. */
  function HeadingPrefix(level: nat): string {
    Repeat('#', level) + " "
  }

  /** What a key press leaves behind: the textarea, whether the preview is
      shown, and whether the browser's default action was prevented. */
  datatype KeyOutcome = KeyOutcome(area: TextArea, showPreview: bool, prevented: bool)

  /** `insertText` and `insertAtLineStart` return at once when the textarea
      is not mounted, which is the case while the preview is shown. */
  function InsertIfMounted(t: TextArea, preview: bool, before: string, after: string, placeholder: string): (r: TextArea)
    requires t.Valid()
    ensures r.Valid()
  {
    if preview then t else InsertTextResult(t, before, after, placeholder)
  }

  function PrefixIfMounted(t: TextArea, preview: bool, prefix: string): (r: TextArea)
    requires t.Valid()
    ensures r.Valid()
  {
    if preview then t else InsertAtLineStartResult(t, prefix)
  }

  /** What the Tab and Enter checks hand to `insertText` (as `before`, with
      no `after` and no placeholder): two spaces for Tab, the list
      continuation of the caret's line for Enter. */
  function TabOrEnterInsert(t: TextArea, key: string): (r: Option<string>)
    requires t.Valid()
    ensures r.Some? ==> key in {"Tab", "Enter"}
  {
    if key == "Tab" then Some("  ")
    else if key == "Enter" then ListContinuation(CurrentLine(t.value, t.selStart))
    else None
  }

  /** The Ctrl/Meta shortcuts. */
  datatype Shortcut =
    | Wrap(before: string, after: string, placeholder: string)
    | PreviewToggle
    | Heading(level: nat)

  function ShortcutFor(key: string): (r: Option<Shortcut>)
    ensures r.Some? <==> key in {"b", "i", "k", "`", "Enter"} || HeadingLevel(key).Some?
    ensures r == Some(PreviewToggle) <==> key == "Enter"
    ensures r.Some? && r.value.Heading? ==> HeadingLevel(key) == Some(r.value.level)
  {
    if key == "b" then Some(Wrap("**", "**", "bold text"))
    else if key == "i" then Some(Wrap("*", "*", "italic text"))
    else if key == "k" then Some(Wrap("[", "](url)", "link text"))
    else if key == "`" then Some(Wrap("`", "`", "code"))
    else if key == "Enter" then Some(PreviewToggle)
    else match HeadingLevel(key)
      case Some(level) => Some(Heading(level))
      case None => None
  }

  /** `handleKeyDown`, with its independent checks in source order: Tab and
      Enter first, then the Ctrl/Meta shortcuts. */
  function KeyDown(t: TextArea, preview: bool, e: KeyEvent): (r: KeyOutcome)
    requires t.Valid()
    ensures r.area.Valid()
  {
    var ins := TabOrEnterInsert(t, e.key);
    var t1 := if ins.Some? then InsertIfMounted(t, preview, ins.value, "", "") else t;
    var shortcut := if e.ctrlKey || e.metaKey then ShortcutFor(e.key) else None;
    match shortcut
    case None => KeyOutcome(t1, preview, ins.Some?)
    case Some(Wrap(before, after, placeholder)) =>
      KeyOutcome(InsertIfMounted(t1, preview, before, after, placeholder), preview, true)
    case Some(PreviewToggle) => KeyOutcome(t1, !preview, true)
    case Some(Heading(level)) => KeyOutcome(PrefixIfMounted(t1, preview, HeadingPrefix(level)), preview, true)
  }

  /** Tab puts two spaces in front of the selection and keeps the selected
      text, selected, right after them. */
  lemma TabIndents(t: TextArea, e: KeyEvent)
    requires t.Valid() && e.key == "Tab"
    ensures var r := KeyDown(t, false, e);
            && r.prevented && !r.showPreview
            && r.area.value == t.value[..t.selStart] + "  " + t.Selected() + t.value[t.selEnd..]
            && r.area.selStart == t.selStart + 2
            && r.area.selEnd == t.selEnd + 2
  {
    var r := InsertTextResult(t, "  ", "", "");
    assert TabOrEnterInsert(t, e.key) == Some("  ");
    assert HeadingLevel(e.key) == None;
    assert ShortcutFor(e.key) == None;
    assert KeyDown(t, false, e) == KeyOutcome(r, false, true);
    assert Insertion(t.Selected(), "") == t.Selected();
    assert "  " + t.Selected() + "" == "  " + t.Selected();
  }

  /** Enter on a line with a list continuation inserts it at the selection;
      with Ctrl or Meta held the preview is toggled as well. */
  lemma EnterInsertsContinuation(t: TextArea, e: KeyEvent)
    requires t.Valid() && e.key == "Enter"
    requires ListContinuation(CurrentLine(t.value, t.selStart)).Some?
    ensures var r := KeyDown(t, false, e);
            && r.prevented
            && r.area == InsertTextResult(t, ListContinuation(CurrentLine(t.value, t.selStart)).value, "", "")
            && r.showPreview == (e.ctrlKey || e.metaKey)
  {
    assert ShortcutFor(e.key) == Some(PreviewToggle);
  }

  /** Enter on a bulleted line starts the next item with the same indent and
      bullet; with Ctrl or Meta held the preview is toggled as well. */
  lemma EnterContinuesBullet(t: TextArea, e: KeyEvent, k: nat)
    requires t.Valid() && e.key == "Enter"
    requires IsBulletAt(CurrentLine(t.value, t.selStart), k)
    ensures var line := CurrentLine(t.value, t.selStart);
            var r := KeyDown(t, false, e);
            && r.prevented
            && r.area == InsertTextResult(t, "\n" + line[..k] + [line[k]] + " ", "", "")
            && r.showPreview == (e.ctrlKey || e.metaKey)
  {
    ContinuesBullet(CurrentLine(t.value, t.selStart), k);
    EnterInsertsContinuation(t, e);
  }

  /** Enter on a numbered line starts the item numbered one higher. */
  lemma EnterContinuesNumber(t: TextArea, e: KeyEvent, k: nat, m: nat)
    requires t.Valid() && e.key == "Enter"
    requires IsNumberedAt(CurrentLine(t.value, t.selStart), k, m)
    ensures var line := CurrentLine(t.value, t.selStart);
            var r := KeyDown(t, false, e);
            && r.prevented
            && r.area == InsertTextResult(t, "\n" + line[..k] + NextNumber(line[k..k + m]) + ". ", "", "")
            && r.showPreview == (e.ctrlKey || e.metaKey)
  {
    ContinuesNumber(CurrentLine(t.value, t.selStart), k, m);
    EnterInsertsContinuation(t, e);
  }

  /** Enter elsewhere is left to the browser. */
  lemma EnterOnPlainLine(t: TextArea, e: KeyEvent)
    requires t.Valid() && e.key == "Enter" && !e.ctrlKey && !e.metaKey
    requires forall k: nat :: !IsBulletAt(CurrentLine(t.value, t.selStart), k)
    requires forall k: nat, m: nat :: !IsNumberedAt(CurrentLine(t.value, t.selStart), k, m)
    ensures KeyDown(t, false, e) == KeyOutcome(t, false, false)
  {
    NoContinuation(CurrentLine(t.value, t.selStart));
  }

  /** Ctrl+1 to Ctrl+6 put that many `#` and a space at the start of the
      caret's line. */
  lemma HeadingShortcut(t: TextArea, e: KeyEvent, n: nat)
    requires t.Valid() && 1 <= n <= 6
    requires e.key == [('0' as int + n) as char] && (e.ctrlKey || e.metaKey)
    ensures var ls := CurrentLineStart(t.value, t.selStart);
            var r := KeyDown(t, false, e);
            && r.prevented && !r.showPreview
            && r.area.value == t.value[..ls] + Repeat('#', n) + " " + t.value[ls..]
            && r.area.selStart == r.area.selEnd == t.selStart + n + 1
  {
    HeadingKeyDown(t, e, n);
    HeadingArea(t, n);
  }

  lemma HeadingArea(t: TextArea, n: nat)
    requires t.Valid()
    ensures var ls := CurrentLineStart(t.value, t.selStart);
            var r := InsertAtLineStartResult(t, HeadingPrefix(n));
            && r.value == t.value[..ls] + Repeat('#', n) + " " + t.value[ls..]
            && r.selStart == r.selEnd == t.selStart + n + 1
  {
    var prefix := HeadingPrefix(n);
    assert prefix == Repeat('#', n) + " ";
  }

  lemma HeadingKeyDown(t: TextArea, e: KeyEvent, n: nat)
    requires t.Valid() && 1 <= n <= 6
    requires e.key == [('0' as int + n) as char] && (e.ctrlKey || e.metaKey)
    ensures KeyDown(t, false, e) == KeyOutcome(InsertAtLineStartResult(t, HeadingPrefix(n)), false, true)
  {
    assert HeadingLevel(e.key) == Some(n);
    assert TabOrEnterInsert(t, e.key) == None;
    assert ShortcutFor(e.key) == Some(Heading(n));
  }

  /** Ctrl+B, Ctrl+I, Ctrl+K and Ctrl+` wrap the selection (or a placeholder)
      in bold, italic, link or code markers. */
  lemma WrapShortcuts(t: TextArea, e: KeyEvent)
    requires t.Valid() && (e.ctrlKey || e.metaKey)
    ensures e.key == "b" ==> KeyDown(t, false, e) == KeyOutcome(InsertTextResult(t, "**", "**", "bold text"), false, true)
    ensures e.key == "i" ==> KeyDown(t, false, e) == KeyOutcome(InsertTextResult(t, "*", "*", "italic text"), false, true)
    ensures e.key == "k" ==> KeyDown(t, false, e) == KeyOutcome(InsertTextResult(t, "[", "](url)", "link text"), false, true)
    ensures e.key == "`" ==> KeyDown(t, false, e) == KeyOutcome(InsertTextResult(t, "`", "`", "code"), false, true)
  {
    if e.key in {"b", "i", "k", "`"} {
      assert TabOrEnterInsert(t, e.key) == None;
    }
  }

  /** Ctrl+Enter flips the preview. */
  lemma CtrlEnterTogglesPreview(t: TextArea, preview: bool, e: KeyEvent)
    requires t.Valid() && e.key == "Enter" && (e.ctrlKey || e.metaKey)
    ensures KeyDown(t, preview, e).showPreview == !preview
    ensures KeyDown(t, preview, e).prevented
    ensures ListContinuation(CurrentLine(t.value, t.selStart)).None? ==> KeyDown(t, preview, e).area == t
  {
  }

  /** Any other key changes nothing and is left to the browser. */
  lemma OtherKeysIgnored(t: TextArea, preview: bool, e: KeyEvent)
    requires t.Valid() && e.key != "Tab" && e.key != "Enter"
    requires !(e.ctrlKey || e.metaKey) || (e.key !in {"b", "i", "k", "`"} && HeadingLevel(e.key).None?)
    ensures KeyDown(t, preview, e) == KeyOutcome(t, preview, false)
  {
  }

  // ---------------------------------------------------------------------
  // The component's state

  class Editor {
    var value: string
    var selStart: nat
    var selEnd: nat
    var showPreview: bool

    predicate Valid()
      reads this
    {
      Area().Valid()
    }

    function Area(): TextArea
      reads this
    {
      TextArea(value, selStart, selEnd)
    }

    /** The preview starts hidden. */
    constructor (value: string, selStart: nat, selEnd: nat)
      requires selStart <= selEnd <= |value|
      ensures Valid() && Area() == TextArea(value, selStart, selEnd) && !showPreview
    {
      this.value := value;
      this.selStart := selStart;
      this.selEnd := selEnd;
      showPreview := false;
    }

    method InsertText(before: string, after: string, placeholder: string)
      requires Valid()
      modifies this
      ensures Valid() && showPreview == old(showPreview)
      ensures Area() == InsertIfMounted(old(Area()), showPreview, before, after, placeholder)
    {
      if showPreview {
        return;
      }
      var start := selStart;
      var end := selEnd;
      var selectedText := value[start..end];
      var textToInsert := if selectedText != [] then selectedText else placeholder;
      value := Splice(value, start, end, before + textToInsert + after);
      if selectedText == [] && placeholder != [] {
        selStart := start + |before|;
        selEnd := start + |before| + |placeholder|;
      } else {
        selStart := start + |before|;
        selEnd := start + |before| + |textToInsert|;
      }
    }

    method InsertAtLineStart(prefix: string)
      requires Valid()
      modifies this
      ensures Valid() && showPreview == old(showPreview)
      ensures Area() == PrefixIfMounted(old(Area()), showPreview, prefix)
    {
      if showPreview {
        return;
      }
      var start := selStart;
      var lines := SplitLines(value[..start]);
      assert lines[|lines| - 1] == CurrentLine(value, start);
      var currentLineStart := start - |lines[|lines| - 1]|;
      assert currentLineStart == CurrentLineStart(value, start);
      value := value[..currentLineStart] + prefix + value[currentLineStart..];
      selEnd := start + |prefix|;
      selStart := selEnd;
    }

    /** `setShowPreview(!showPreview)`: the preview button and Ctrl+Enter. */
    method TogglePreview()
      modifies this
      ensures showPreview == !old(showPreview)
      ensures Area() == old(Area())
    {
      showPreview := !showPreview;
    }

    /** The Enter check of `handleKeyDown`: continue a bulleted or numbered
      list, or leave the key to the browser. */
    method ContinueList() returns (prevented: bool)
      requires Valid()
      modifies this
      ensures Valid() && showPreview == old(showPreview)
      ensures var ins := ListContinuation(CurrentLine(old(value), old(selStart)));
              && prevented == ins.Some?
              && Area() == if ins.Some? then InsertIfMounted(old(Area()), showPreview, ins.value, "", "") else old(Area())
    {
      var text := ListContinuation(CurrentLine(value, selStart));
      prevented := text.Some?;
      if text.Some? {
        InsertText(text.value, "", "");
      }
    }

    /** The Ctrl/Meta shortcut switch of `handleKeyDown`. */
    method ApplyShortcut(key: string) returns (prevented: bool)
      requires Valid()
      modifies this
      ensures Valid()
      ensures prevented == ShortcutFor(key).Some?
      ensures match ShortcutFor(key)
              case None => Area() == old(Area()) && showPreview == old(showPreview)
              case Some(Wrap(before, after, placeholder)) =>
                Area() == InsertIfMounted(old(Area()), showPreview, before, after, placeholder) && showPreview == old(showPreview)
              case Some(PreviewToggle) => Area() == old(Area()) && showPreview == !old(showPreview)
              case Some(Heading(level)) =>
                Area() == PrefixIfMounted(old(Area()), showPreview, HeadingPrefix(level)) && showPreview == old(showPreview)
    {
      prevented := false;
      match ShortcutFor(key)
      case None =>
      case Some(Wrap(before, after, placeholder)) =>
        prevented := true;
        InsertText(before, after, placeholder);
      case Some(PreviewToggle) =>
        prevented := true;
        TogglePreview();
      case Some(Heading(level)) =>
        prevented := true;
        InsertAtLineStart(HeadingPrefix(level));
    }

    method HandleKeyDown(e: KeyEvent) returns (prevented: bool)
      requires Valid()
      modifies this
      ensures Valid()
      ensures KeyOutcome(Area(), showPreview, prevented) == KeyDown(old(Area()), old(showPreview), e)
    {
      prevented := false;
      if e.key == "Tab" {
        prevented := true;
        InsertText("  ", "", "");
      }
      if e.key == "Enter" {
        prevented := ContinueList();
      }
      if e.ctrlKey || e.metaKey {
        var byShortcut := ApplyShortcut(e.key);
        prevented := prevented || byShortcut;
      }
    }
  }

}

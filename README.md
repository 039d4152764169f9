# notes: the editor's text operations and the new-note page's state, in Dafny

This project models the two parts of the `notes` web app that hold real logic.

- **Markdown editor** (`components/modern-editor.tsx`). It covers:
  - the word count;
  - `insertText`, which wraps or replaces the selection;
  - `insertAtLineStart`, which adds a prefix to the caret's line;
  - the key handler: Tab indents, Enter continues bulleted and numbered lists, Ctrl/Meta+B/I/K/` wrap the selection, Ctrl/Meta+1..6 add a heading, and Ctrl/Meta+Enter toggles the preview.
- **New-note page** (`app/note/new/page.tsx`). It covers:
  - the "unsaved changes" flag and the autosave gate;
  - `saveNote`, a state machine that inserts the note on the first save and updates it afterwards;
  - the paste handler, which splices converted markdown into the content;
  - the last stages of the HTML-to-markdown conversion: entity decoding, tag removal, blank-line collapsing and trimming.

Modules:

- `Wrappers`: `Option`, the model of JavaScript's `null`.
- `JsText`: the JavaScript string built-ins the code relies on:
  - the white-space class shared by `\s` and `trim()`;
  - `trim()`;
  - `split(/\s+/)` and `split("\n")`;
  - `substring` splices;
  - decimal digits for `parseInt`.
- `ModernEditor`: the editor.
  - Each operation is a pure function over a `TextArea` value: the text plus the selection `[selStart, selEnd)`.
  - The `Editor` class holds the same state in fields. Each of its methods is proved to leave exactly the state its function gives.
- `HtmlMarkdown`: lines 40-48 of `convertHtmlToMarkdown`.
- `NotePage`: the page state, as a `Page` value with pure functions and as the `NewNotePage` class whose methods are tied to them.

`KeyDown` runs the handler's independent checks in source order, so one key press can trigger more than one action. In particular, Ctrl+Enter on a list line both continues the list and toggles the preview.

The entity decoding follows the order of the six replaces. An escaped ampersand therefore yields one literal `&`: `&amp;lt;` comes out as `&lt;` (`EscapedAmpersandDecodedOnce`). The exceptions are `&amp;quot;` and `&amp;#39;`. Those two entities are decoded after `&amp;`, so `&amp;quot;` comes out as a double quote (`EscapedQuoteDecodedTwice`) and `&amp;#39;` as an apostrophe (`EscapedAposDecodedTwice`).

## Model

| member | source | states |
|---|---|---|
| JsText.LeadingSpaces | components/modern-editor.tsx:91-92 | the length of the front run of white space that a greedy `^\s*` takes: all of it is white space, and the next character is not |
| JsText.Trim | components/modern-editor.tsx:22 | `trim()` is the middle of the string between its white-space ends; it is empty exactly when the string is all white space, and otherwise starts and ends with non-white-space |
| JsText.TrimIdempotent | app/note/new/page.tsx:95-96 | trimming twice is trimming once |
| JsText.SplitOnSpaceRuns | components/modern-editor.tsx:22 | `split(/\s+/)` yields at least one piece, and no piece holds white space |
| JsText.SplitCountsWords | components/modern-editor.tsx:22 | on a string with non-white-space ends, `split(/\s+/)` yields as many pieces as the string has maximal non-white-space runs |
| JsText.WordsOfInnerSlice | components/modern-editor.tsx:22 | cutting white space off both ends of a string does not change its number of non-white-space runs |
| JsText.TrimKeepsWords | components/modern-editor.tsx:22 | trimming does not change the number of non-white-space runs |
| JsText.SplitLines | components/modern-editor.tsx:64 | `split("\n")` yields at least one piece |
| JsText.SplitLinesHaveNoNewline | components/modern-editor.tsx:64 | no piece of `split("\n")` holds a newline |
| JsText.SplitLinesJoin | components/modern-editor.tsx:64 | joining the pieces of `split("\n")` with newlines gives back the string |
| JsText.LastLineStart | components/modern-editor.tsx:65 | where the last line starts: an index within the string, preceded by a newline unless it is 0 |
| JsText.LastLineStartNone | components/modern-editor.tsx:65 | in a string without a newline the last line starts at 0 |
| JsText.LastLineStartAfter | components/modern-editor.tsx:65 | past any newline, the last line starts where it starts in the rest of the string |
| JsText.LastLineIsTail | components/modern-editor.tsx:64-65 | the last piece of `split("\n")` is the string's tail from `LastLineStart` on, that is, after its last newline |
| JsText.Splice | components/modern-editor.tsx:44 | `s.substring(0, start) + ins + s.substring(end)` keeps the text before `start`, holds `ins` next and then the text from `end` on, with the length that follows |
| JsText.DecimalRoundTrip | components/modern-editor.tsx:101-102 | printing a number in decimal and reading it back gives the number |
| JsText.Repeat | components/modern-editor.tsx:136 | `"#".repeat(n)` is `n` copies of the character |
| ModernEditor.WordCount | components/modern-editor.tsx:22 | zero exactly when the value is all white space; otherwise the number of maximal runs of non-white-space characters |
| ModernEditor.InsertTextResult | components/modern-editor.tsx:35-57 | the selection is replaced by `before`, the selected text (the placeholder when none is selected) and `after`; the text outside the selection is kept; the new length follows; the new selection starts right after `before` and selects exactly the kept or inserted text |
| ModernEditor.InsertSelectsPlaceholder | components/modern-editor.tsx:49-51 | with an empty selection, the placeholder is inserted and is what ends up selected |
| ModernEditor.CurrentLine | components/modern-editor.tsx:88-89 | the last piece of the text before the caret, split on newlines, is the caret's line up to the caret: it holds no newline and is preceded by a newline or by the start of the text |
| ModernEditor.CurrentLineStart | components/modern-editor.tsx:63-65 | the index just after the last newline before the caret, or 0 when there is none |
| ModernEditor.InsertAtLineStartResult | components/modern-editor.tsx:59-74 | the prefix goes in at the start of the caret's line, everything else is kept, and the caret ends at the old `selStart` plus the prefix length |
| ModernEditor.UnorderedMatch | components/modern-editor.tsx:91 | a match of `^(\s*)([-*+])\s` gives the line's indent and its bullet |
| ModernEditor.OrderedMatch | components/modern-editor.tsx:92 | a match of `^(\s*)(\d+)\.\s` gives the line's indent and its number's digits |
| ModernEditor.UnorderedMatchFinds | components/modern-editor.tsx:91 | every line of the bulleted shape matches, with its own indent and bullet |
| ModernEditor.OrderedMatchFinds | components/modern-editor.tsx:92 | every line of the numbered shape matches, with its own indent and digits |
| ModernEditor.NotBothListKinds | components/modern-editor.tsx:94-98 | no line is both bulleted and numbered, so the order of the two checks does not matter |
| ModernEditor.ContinuesBullet | components/modern-editor.tsx:94-97 | a bulleted line continues with a newline, the same indent, the same bullet and a space |
| ModernEditor.NextNumber | components/modern-editor.tsx:101-102 | the printed successor is a non-empty run of digits with no leading zero whose value is the list number's value plus one |
| ModernEditor.ListContinuation | components/modern-editor.tsx:94-103 | a continuation, when there is one, opens a new line and ends with a space |
| ModernEditor.ContinuesNumber | components/modern-editor.tsx:98-102 | a numbered line continues with a newline, the same indent, the printed successor of its number and `". "` |
| ModernEditor.NoContinuation | components/modern-editor.tsx:87-104 | any other line gets no continuation |
| ModernEditor.HeadingLevel | components/modern-editor.tsx:129-136 | a heading key gives a level from 1 to 6, and the key is that level printed in decimal |
| ModernEditor.ShortcutFor | components/modern-editor.tsx:107-138 | exactly the keys b, i, k, `, Enter and 1 to 6 are shortcuts; Enter and only Enter toggles the preview; a digit key's heading has the key's level |
| ModernEditor.TabOrEnterInsert | components/modern-editor.tsx:81-104 | only Tab and Enter insert anything before the shortcuts run |
| ModernEditor.InsertIfMounted | components/modern-editor.tsx:36-37 | `insertText` leaves a valid selection; its body is the early return of lines 36-37 while the textarea is unmounted |
| ModernEditor.PrefixIfMounted | components/modern-editor.tsx:60-61 | `insertAtLineStart` leaves a valid selection; its body is the early return of lines 60-61 while the textarea is unmounted |
| ModernEditor.KeyDown | components/modern-editor.tsx:76-141 | any key press leaves a valid selection |
| ModernEditor.TabIndents | components/modern-editor.tsx:81-84 | Tab puts two spaces before the selection, keeps the selected text, keeps it selected two places on, and prevents the default |
| ModernEditor.EnterInsertsContinuation | components/modern-editor.tsx:87-104 | Enter on a line with a list continuation inserts that text at the selection and prevents the default; the preview is toggled exactly when Ctrl or Meta is held |
| ModernEditor.EnterContinuesBullet | components/modern-editor.tsx:87-97 | Enter on a bulleted line inserts the bullet continuation at the selection and prevents the default; with Ctrl or Meta held, the preview is toggled as well |
| ModernEditor.EnterContinuesNumber | components/modern-editor.tsx:98-102 | Enter on a numbered line inserts the continuation with the next number, and prevents the default |
| ModernEditor.EnterOnPlainLine | components/modern-editor.tsx:87-104 | Enter on any other line changes nothing and leaves the key to the browser |
| ModernEditor.HeadingShortcut | components/modern-editor.tsx:129-138 | Ctrl/Meta+n, for n from 1 to 6, puts n `#` and a space at the start of the caret's line and moves the caret past them |
| ModernEditor.WrapShortcuts | components/modern-editor.tsx:109-124 | Ctrl/Meta+B, I, K and ` call `insertText` with the bold, italic, link and code markers and placeholders |
| ModernEditor.CtrlEnterTogglesPreview | components/modern-editor.tsx:87-128 | Ctrl/Meta+Enter flips the preview and prevents the default; on a line that is not a list item the text and selection stay as they were |
| ModernEditor.OtherKeysIgnored | components/modern-editor.tsx:107-140 | any other key changes nothing and is not prevented |
| ModernEditor.Editor.constructor | components/modern-editor.tsx:17 | the editor starts on the given value and selection with the preview hidden |
| ModernEditor.Editor.InsertText | components/modern-editor.tsx:35-57 | the fields end as `InsertTextResult` gives, or are unchanged while the preview is shown |
| ModernEditor.Editor.InsertAtLineStart | components/modern-editor.tsx:59-74 | the fields end as `InsertAtLineStartResult` gives, or are unchanged while the preview is shown |
| ModernEditor.Editor.TogglePreview | components/modern-editor.tsx:127 | the preview flag flips and the text and selection stay |
| ModernEditor.Editor.ContinueList | components/modern-editor.tsx:87-104 | Enter inserts the caret line's list continuation when it has one, and reports whether it did |
| ModernEditor.Editor.ApplyShortcut | components/modern-editor.tsx:107-140 | each shortcut key does its wrap, toggle or heading; other keys change nothing and are not prevented |
| ModernEditor.Editor.HandleKeyDown | components/modern-editor.tsx:76-141 | the new text, selection, preview flag and prevented flag are exactly those of `KeyDown` |
| HtmlMarkdown.ReplaceAtFrontOnly | app/note/new/page.tsx:40-45 | when the pattern's first character can occur only at the front, `/literal/gi` replaces at most that one occurrence and keeps the rest |
| HtmlMarkdown.ReplaceWithoutLead | app/note/new/page.tsx:40-45 | text in which the pattern's first character does not occur, in either case, is left unchanged |
| HtmlMarkdown.ReplaceKeepsPlainPrefix | app/note/new/page.tsx:40-45 | the `g` flag: an `&`-pattern replace keeps text without `&` in front and goes on replacing in what follows it |
| HtmlMarkdown.DecodeKeepsPlainPrefix | app/note/new/page.tsx:40-45 | the six decodings keep text without `&` in front and decode what follows it, so an entity is decoded wherever it stands |
| HtmlMarkdown.DecodeWithoutAmpersand | app/note/new/page.tsx:40-45 | text without `&` passes the six decodings unchanged |
| HtmlMarkdown.EntityAtFront | app/note/new/page.tsx:40-45 | an entity at the front of text with no other `&` is replaced by its own decoding, and the rest is kept |
| HtmlMarkdown.NbspDecoded | app/note/new/page.tsx:40-45 | `&nbsp;` in front of any text decodes to a space, followed by the decoding of that text |
| HtmlMarkdown.LtDecoded | app/note/new/page.tsx:40-45 | `&lt;` in front of any text decodes to `<`, followed by the decoding of that text |
| HtmlMarkdown.GtDecoded | app/note/new/page.tsx:40-45 | `&gt;` in front of any text decodes to `>`, followed by the decoding of that text |
| HtmlMarkdown.QuotDecoded | app/note/new/page.tsx:40-45 | `&quot;` in front of any text decodes to a double quote, followed by the decoding of that text |
| HtmlMarkdown.AposDecoded | app/note/new/page.tsx:40-45 | `&#39;` in front of any text decodes to an apostrophe, followed by the decoding of that text |
| HtmlMarkdown.EscapedAmpersandDecodedOnce | app/note/new/page.tsx:41-45 | `&amp;` followed by text without `&` decodes to `&` followed by that same text, unless the text starts with `quot;` or `#39;`, in any case |
| HtmlMarkdown.NoDoubleDecoding | app/note/new/page.tsx:41-43 | `&amp;lt;` decodes to `&lt;`, not to `<` |
| HtmlMarkdown.EscapedQuoteDecodedTwice | app/note/new/page.tsx:43-44 | `&amp;quot;` decodes to a double quote, since `&quot;` is decoded after `&amp;` |
| HtmlMarkdown.EscapedAposDecodedTwice | app/note/new/page.tsx:43-45 | `&amp;#39;` decodes to an apostrophe, since `&#39;` is decoded after `&amp;` |
| HtmlMarkdown.StripTags | app/note/new/page.tsx:46 | after `/<[^>]*>/g` is removed, no `<` is followed anywhere later by `>`, and every character left was in the input |
| HtmlMarkdown.StripTagsWithoutTags | app/note/new/page.tsx:46 | text without `<` is left unchanged |
| HtmlMarkdown.StripTagsWithoutClose | app/note/new/page.tsx:46 | text without `>` is left unchanged, so a `<` with no `>` after it stays |
| HtmlMarkdown.StripTagsAppendPlain | app/note/new/page.tsx:46 | text before the first `<` is kept as it is, ahead of what the rest becomes |
| HtmlMarkdown.StripTagsDropsTag | app/note/new/page.tsx:46 | a leading `<...>` with no `>` inside is removed whole, and the rest is processed the same way |
| HtmlMarkdown.CollapseBlankLines | app/note/new/page.tsx:47 | every character of the result was in the input or is a newline |
| HtmlMarkdown.CollapseBlankRun | app/note/new/page.tsx:47 | a white-space run that starts with a newline and holds at least three newlines becomes `"\n\n"` followed by the run's white space after its last newline, and the collapse goes on after the run |
| HtmlMarkdown.ShortRunKept | app/note/new/page.tsx:47 | a newline whose white-space run holds fewer than three newlines is kept, and the collapse goes on after it |
| HtmlMarkdown.CollapseWithoutNewline | app/note/new/page.tsx:47 | text without a newline is kept as it is, ahead of what the rest becomes |
| HtmlMarkdown.CollapseKeepsNonSpace | app/note/new/page.tsx:47 | the collapse keeps every non-white-space character, in order, and adds none: it rewrites only white space |
| HtmlMarkdown.CollapseLeavesNoBlankRun | app/note/new/page.tsx:47 | after the collapse, no run of white space holds three newlines |
| HtmlMarkdown.CollapseFixesFree | app/note/new/page.tsx:47 | text with no such run is left unchanged |
| HtmlMarkdown.CollapseIdempotent | app/note/new/page.tsx:47 | collapsing twice is collapsing once |
| HtmlMarkdown.CollapseKeepsNoTagShape | app/note/new/page.tsx:46-47 | the collapse introduces no `<...>` shape |
| HtmlMarkdown.CollapseAndTrim | app/note/new/page.tsx:47-48 | on text without `<...>` shapes, collapsing and trimming leave no such shape, no white-space run with three newlines and no white space at either end |
| HtmlMarkdown.TrimKeepsShape | app/note/new/page.tsx:48 | trimming keeps a text free of `<...>` shapes and of white-space runs with three newlines |
| HtmlMarkdown.MarkdownTail | app/note/new/page.tsx:40-48 | the output of lines 40-48 has no `<...>` left, no white-space run with three newlines, and no white space at either end |
| HtmlMarkdown.MarkdownTailKeepsPlainText | app/note/new/page.tsx:40-48 | text with no `&`, no `<`, no such run and trimmed ends passes through unchanged |
| NotePage.UnsavedChanges | app/note/new/page.tsx:70 | there are unsaved changes exactly when the title or the content is not all white space |
| NotePage.AutosaveDue | app/note/new/page.tsx:74-75 | an autosave is scheduled exactly when there are unsaved changes, a user, a non-blank title and at least three characters of trimmed content |
| NotePage.SaveRequestFor | app/note/new/page.tsx:85-109 | there is no backend call exactly when the title is blank, the content is blank or there is no user; otherwise the call is an update of the held note id when that id is truthy and an insert with the user's id when not, of the trimmed title and content |
| NotePage.StartSave | app/note/new/page.tsx:85-88 | past the guard the page is saving and shows no error; behind it nothing changes; no other field ever changes |
| NotePage.EndSave | app/note/new/page.tsx:100-124 | saving ends; the text and user are kept; success clears the unsaved flag; failure records an error and keeps the unsaved flag and the note id; the note id changes only to the first id an insert returned |
| NotePage.Save | app/note/new/page.tsx:84-124 | behind the guard nothing changes; the note id changes only when it was not truthy and the backend returned an id, and then to the first one; a failure keeps the unsaved flag |
| NotePage.SaveGuardChangesNothing | app/note/new/page.tsx:85 | a save behind the guard makes no call and leaves the whole page state unchanged |
| NotePage.SaveEndsIdle | app/note/new/page.tsx:122-123 | a save that made its call ends with `isSaving` false, and no save changes the title, the content or the user |
| NotePage.SaveSuccessClearsFlags | app/note/new/page.tsx:87-123 | a successful save leaves no unsaved changes, no error and no save in progress |
| NotePage.SaveFailureReports | app/note/new/page.tsx:119-121 | a failed save shows the error's message, or "Failed to save note" when it has none, and keeps the unsaved flag and the note id |
| NotePage.InsertThenUpdate | app/note/new/page.tsx:91-115 | the first save inserts; after it returns a non-empty id, the next save updates that row with the trimmed text |
| NotePage.UpdateKeepsNoteId | app/note/new/page.tsx:91-100 | an update never changes the note id |
| NotePage.StoredTextIsTrimmed | app/note/new/page.tsx:94-107 | the title and content sent to the backend are non-empty and already trimmed |
| NotePage.AutosaveMakesRequest | app/note/new/page.tsx:73-85 | when the autosave fires, `saveNote`'s own guard lets it through |
| NotePage.Edited | app/note/new/page.tsx:69-71 | the title and content become the new ones; a change of either recomputes the unsaved flag from the new text; no change leaves the state as it was; the user, note id, saving flag and error are never touched |
| NotePage.Pasted | app/note/new/page.tsx:141-151 | blank clipboard HTML is left to the browser; otherwise the markdown replaces the selection, the text around it is kept, the length follows, and the caret goes just after the markdown |
| NotePage.PastedMarkdownIsClean | app/note/new/page.tsx:143-151 | the pasted markdown has no `<...>` left, no run of three blank lines and no white space at either end |
| NotePage.PastePlainText | app/note/new/page.tsx:143-147 | plain trimmed text with no markup is pasted exactly as it is |
| NotePage.NewNotePage.constructor | app/note/new/page.tsx:56-61 | the page starts with an empty note, no note id, no pending changes, no save and no error |
| NotePage.NewNotePage.AutosaveScheduled | app/note/new/page.tsx:73-85 | whenever the autosave timer is running, `saveNote`'s guard will let the save through |
| NotePage.NewNotePage.SetTitle | app/note/new/page.tsx:69-71 | a title edit leaves the state that `Edited` gives |
| NotePage.NewNotePage.SetContent | app/note/new/page.tsx:69-71 | a content edit leaves the state that `Edited` gives |
| NotePage.NewNotePage.BeginSave | app/note/new/page.tsx:85-88 | returns the call `SaveRequestFor` gives; when there is one, it marks the page as saving and clears the error, and otherwise changes nothing |
| NotePage.NewNotePage.FinishSave | app/note/new/page.tsx:100-124 | the page ends as `EndSave` gives for the backend's answer |
| NotePage.NewNotePage.SaveNote | app/note/new/page.tsx:84-125 | makes the call `SaveRequestFor` gives, and the page ends as `Save` gives |
| NotePage.NewNotePage.HandlePaste | app/note/new/page.tsx:137-155 | blank HTML changes nothing and yields no caret; otherwise the content becomes `Pasted`'s, the unsaved flag is recomputed, and the caret is returned |

## Left out

- The tag rewrites of `convertHtmlToMarkdown` (app/note/new/page.tsx:14-39) are not modelled. They need lazy `.*?`, backreferences, the `s` flag and replacer callbacks. This also leaves out the `counter++` of line 27 and the literal `$1` that the replacer at line 28 emits. `HandlePaste` and `Pasted` take the output of these rewrites as the parameter `rewritten`. The blank check of line 141 uses the raw `html`.
- The Supabase calls (app/note/new/page.tsx:92-109) are an external service. Each call is a `SaveRequest`, and its answer is an abstract `BackendResult`. It is not modelled whether a Supabase error is an `Error` instance, so that is open in `Failed(message)`. `console.error` is not modelled.
- Timing is not modelled. This covers the React effects' scheduling, the 1000 ms autosave debounce and its `clearTimeout` (lines 77-81), and the `setTimeout` that sets the selection and focus in the editor. Only the gate `AutosaveScheduled` is kept, and the selection is set at once.
- Overlapping saves and edits made while a save is awaited are not analysed. The split into `BeginSave` and `FinishSave` lets these be composed. As in the source, `FinishSave` clears the unsaved flag even if the text changed during the call.
- The redirects (lines 63-67 and 133), `handleDone` (lines 127-135), the loading and sign-in screens, and all rendering are not modelled.
- The DOM auto-resize (components/modern-editor.tsx:27-33) is layout.
- The ReactMarkdown preview (components/modern-editor.tsx:162) is a third-party renderer.
- The `wordCount` state (components/modern-editor.tsx:18-24) is the function `WordCount` of the value. The effect that copies it into state is not modelled.
- The editor's `onChange` round trip through the parent is not modelled. The `Editor` updates its own `value`.
- While the preview is shown the textarea is unmounted, so `insertText` and `insertAtLineStart` return early. The model treats key events in this state as reaching the handler.
- JavaScript strings are UTF-16. The model's indices and lengths count characters: a character outside the Basic Multilingual Plane counts once here and twice in the source.
- `Number.parseInt` loses precision on list numbers above 2^53. `DecimalValue` and `Decimal` compute exactly.
- NextNumber: does not model that `${n}` prints numbers from 10^21 on in exponent notation (`1e+21`); `Decimal` always prints all digits.
- `substring` clamps indices that are out of range. The model requires the selection to lie within the text, as the textarea guarantees.
- The `i` flag is modelled as ASCII case folding. For the all-ASCII entity patterns this is exact, because case-insensitive matching outside unicode mode does not fold a non-ASCII character onto an ASCII one.
- app/page.tsx, components/auth-form.tsx and app/layout.tsx are not part of this model: they are fetching, forms around the auth provider, and layout.

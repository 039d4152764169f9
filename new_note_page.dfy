/**
 * The state logic of the new-note page (`app/note/new/page.tsx`): the
 * "unsaved changes" flag, the autosave gate, `saveNote` as an
 * insert-then-update state machine around an abstract backend call, and
 * the paste handler that splices converted markdown into the content.
 */
module NotePage {
  import opened Wrappers
  import opened JsText
  import opened HtmlMarkdown

  /** The signed-in user; only the id reaches the backend. */
  datatype User = User(id: string)

  /** The message shown when the backend's failure carries none of its own. */
  const SaveFailedMessage := "Failed to save note"

  /** JavaScript truthiness of a `string | null`: `null` and `""` are false. */
  predicate Truthy(s: Option<string>) {
    s.Some? && s.value != []
  }

  // ---------------------------------------------------------------------
  // The flags

  /** Line 70: the title or the content holds something besides white space. */
  function UnsavedChanges(title: string, content: string): (b: bool)
    ensures b <==> !AllSpace(title) || !AllSpace(content)
  {
    Trim(title) != [] || Trim(content) != []
  }

  /** Lines 74-75, with their redundant tests kept: an autosave is scheduled
      exactly when there are unsaved changes, a user, a title that is not
      blank, and at least three characters of trimmed content. */
  function AutosaveDue(hasUnsavedChanges: bool, user: Option<User>, title: string, content: string): (b: bool)
    ensures b <==> hasUnsavedChanges && user.Some? && !AllSpace(title) && |Trim(content)| >= 3
  {
    if !hasUnsavedChanges || user.None? then false
    else if Trim(title) == [] || Trim(content) == [] || |Trim(title)| < 1 || |Trim(content)| < 3 then false
    else true
  }

  // ---------------------------------------------------------------------
  // saveNote

  /** The backend call `saveNote` makes: an insert of a new row owned by the
      user, or an update of the row already created. */
  datatype SaveRequest =
    | InsertNote(title: string, content: string, userId: string)
    | UpdateNote(id: string, title: string, content: string)

  /** Lines 85 and 91-109: no call when the trimmed title or content is
      empty or nobody is signed in; otherwise an update when a note id is
      held and an insert when not, always of the trimmed strings. */
  function SaveRequestFor(title: string, content: string, user: Option<User>, noteId: Option<string>): (r: Option<SaveRequest>)
    ensures r.None? <==> AllSpace(title) || AllSpace(content) || user.None?
    ensures r.Some? ==> (r.value.UpdateNote? <==> Truthy(noteId))
    ensures r.Some? && r.value.UpdateNote? ==> r.value.id == noteId.value
    ensures r.Some? && r.value.InsertNote? ==> r.value.userId == user.value.id
    ensures r.Some? ==> r.value.title == Trim(title) && r.value.content == Trim(content)
  {
    if Trim(title) == [] || Trim(content) == [] || user.None? then None
    else if Truthy(noteId) then Some(UpdateNote(noteId.value, Trim(title), Trim(content)))
    else Some(InsertNote(Trim(title), Trim(content), user.value.id))
  }

  /** What the backend call came back with: success, with the ids of the
      rows an insert returned (none for a `null` result), or a thrown error,
      with its message when it is an `Error`. */
  datatype BackendResult =
    | Succeeded(rowIds: seq<string>)
    | Failed(message: Option<string>)

  /** The page's state (lines 56-61 and the user from the auth context). */
  datatype Page = Page(
    title: string,
    content: string,
    user: Option<User>,
    noteId: Option<string>,
    hasUnsavedChanges: bool,
    isSaving: bool,
    error: Option<string>)

  /** Lines 85-88: past the guard the page shows "saving" and clears the error. */
  function StartSave(p: Page): (r: Page)
    ensures SaveRequestFor(p.title, p.content, p.user, p.noteId).None? ==> r == p
    ensures SaveRequestFor(p.title, p.content, p.user, p.noteId).Some? ==> r.isSaving && r.error.None?
    ensures r.(isSaving := p.isSaving, error := p.error) == p
  {
    if SaveRequestFor(p.title, p.content, p.user, p.noteId).None? then p
    else p.(isSaving := true, error := None)
  }

  /** Lines 111-123: a successful insert keeps the first returned id, any
      success clears the unsaved flag, a failure records its message, and
      saving ends either way. */
  function EndSave(p: Page, req: SaveRequest, result: BackendResult): (r: Page)
    ensures !r.isSaving
    ensures r.title == p.title && r.content == p.content && r.user == p.user
    ensures result.Succeeded? ==> !r.hasUnsavedChanges && r.error == p.error
    ensures result.Failed? ==> r.error.Some? && r.hasUnsavedChanges == p.hasUnsavedChanges && r.noteId == p.noteId
    ensures r.noteId != p.noteId ==>
      req.InsertNote? && result.Succeeded? && |result.rowIds| > 0 && r.noteId == Some(result.rowIds[0])
  {
    match result
    case Succeeded(ids) =>
      var p1 := if req.InsertNote? && |ids| > 0 then p.(noteId := Some(ids[0])) else p;
      p1.(hasUnsavedChanges := false, isSaving := false)
    case Failed(message) =>
      p.(error := Some(if message.Some? then message.value else SaveFailedMessage), isSaving := false)
  }

  /** One whole `saveNote` with nothing happening during the call. */
  function Save(p: Page, result: BackendResult): (r: Page)
    ensures SaveRequestFor(p.title, p.content, p.user, p.noteId).None? ==> r == p
    ensures r.noteId != p.noteId ==>
      !Truthy(p.noteId) && result.Succeeded? && |result.rowIds| > 0 && r.noteId == Some(result.rowIds[0])
    ensures result.Failed? ==> r.hasUnsavedChanges == p.hasUnsavedChanges
  {
    match SaveRequestFor(p.title, p.content, p.user, p.noteId)
    case None => p
    case Some(req) => EndSave(StartSave(p), req, result)
  }

  /** Line 85: a blank title, a blank content or no user means no call and
      no change at all. */
  lemma SaveGuardChangesNothing(p: Page, result: BackendResult)
    requires AllSpace(p.title) || AllSpace(p.content) || p.user.None?
    ensures SaveRequestFor(p.title, p.content, p.user, p.noteId).None?
    ensures Save(p, result) == p
  {
  }

  /** Whatever the outcome, a save that was made leaves the page not saving,
      and it never touches the title, the content or the user. */
  lemma SaveEndsIdle(p: Page, result: BackendResult)
    ensures var q := Save(p, result);
            && q.title == p.title && q.content == p.content && q.user == p.user
            && (SaveRequestFor(p.title, p.content, p.user, p.noteId).Some? ==> !q.isSaving)
  {
  }

  /** Line 118: success clears the unsaved flag and leaves no error. */
  lemma SaveSuccessClearsFlags(p: Page, ids: seq<string>)
    requires SaveRequestFor(p.title, p.content, p.user, p.noteId).Some?
    ensures var q := Save(p, Succeeded(ids));
            !q.hasUnsavedChanges && q.error.None? && !q.isSaving
  {
  }

  /** Line 121: failure shows the error's message, or the fallback, and
      keeps the unsaved flag and the note id. */
  lemma SaveFailureReports(p: Page, message: Option<string>)
    requires SaveRequestFor(p.title, p.content, p.user, p.noteId).Some?
    ensures var q := Save(p, Failed(message));
            && q.error == Some(if message.Some? then message.value else SaveFailedMessage)
            && q.hasUnsavedChanges == p.hasUnsavedChanges
            && q.noteId == p.noteId
            && !q.isSaving
  {
  }

  /** Lines 101-115 then 91-98: the first save inserts; once it has returned
      a non-empty id, the next save of the same page updates that row. */
  lemma InsertThenUpdate(p: Page, id: string, more: seq<string>)
    requires !Truthy(p.noteId) && id != []
    requires SaveRequestFor(p.title, p.content, p.user, p.noteId).Some?
    ensures SaveRequestFor(p.title, p.content, p.user, p.noteId).value.InsertNote?
    ensures var q := Save(p, Succeeded([id] + more));
            SaveRequestFor(q.title, q.content, q.user, q.noteId)
              == Some(UpdateNote(id, Trim(p.title), Trim(p.content)))
  {
  }

  /** An update never changes the note id. */
  lemma UpdateKeepsNoteId(p: Page, result: BackendResult)
    requires Truthy(p.noteId)
    ensures Save(p, result).noteId == p.noteId
  {
  }

  /** The strings sent to the backend have no white space at either end, are
      not empty, and are left as they are by a second trim. */
  lemma {:induction false} StoredTextIsTrimmed(title: string, content: string, user: Option<User>, noteId: Option<string>)
    requires SaveRequestFor(title, content, user, noteId).Some?
    ensures var req := SaveRequestFor(title, content, user, noteId).value;
            && req.title != [] && req.content != []
            && Trim(req.title) == req.title && Trim(req.content) == req.content
  {
    TrimIdempotent(title);
    TrimIdempotent(content);
  }

  /** When the autosave timer fires, `saveNote`'s own guard lets it through. */
  lemma AutosaveMakesRequest(p: Page)
    requires AutosaveDue(p.hasUnsavedChanges, p.user, p.title, p.content)
    ensures SaveRequestFor(p.title, p.content, p.user, p.noteId).Some?
  {
  }

  // ---------------------------------------------------------------------
  // Editing and pasting

  /** New title and content from the inputs; the effect of line 70 runs
      only when one of them actually changed. */
  function Edited(p: Page, title: string, content: string): (q: Page)
    ensures q.title == title && q.content == content
    ensures title != p.title || content != p.content ==> q.hasUnsavedChanges == UnsavedChanges(title, content)
    ensures title == p.title && content == p.content ==> q == p
    ensures q.user == p.user && q.noteId == p.noteId && q.isSaving == p.isSaving && q.error == p.error
  {
    p.(title := title, content := content,
       hasUnsavedChanges := if title != p.title || content != p.content then UnsavedChanges(title, content)
                            else p.hasUnsavedChanges)
  }

  /** The content after a paste and where the caret goes. */
  datatype PasteEdit = PasteEdit(content: string, caret: nat)

  /** Lines 141-151. `rewritten` stands for the HTML after the tag rewrites
      of the conversion, whose remaining stages `MarkdownTail` models. A
      blank clipboard HTML is left to the browser's own paste; otherwise the
      markdown replaces the selection and the caret goes after it. */
  function Pasted(content: string, html: string, rewritten: string, start: nat, end: nat): (r: Option<PasteEdit>)
    requires start <= end <= |content|
    ensures r.None? <==> AllSpace(html)
    ensures r.Some? ==>
              var md := MarkdownTail(rewritten);
              && |r.value.content| == |content| - (end - start) + |md|
              && r.value.caret == start + |md|
              && r.value.content[..start] == content[..start]
              && r.value.content[start..r.value.caret] == md
              && r.value.content[r.value.caret..] == content[end..]
  {
    if Trim(html) == [] then None
    else
      var md := MarkdownTail(rewritten);
      Some(PasteEdit(Splice(content, start, end, md), start + |md|))
  }

  /** What a paste inserts has no tag left, no run of three blank lines and
      no white space at either end, and the caret lands just after it. */
  lemma PastedMarkdownIsClean(content: string, html: string, rewritten: string, start: nat, end: nat)
    requires start <= end <= |content|
    requires !AllSpace(html)
    ensures var e := Pasted(content, html, rewritten, start, end).value;
            var md := e.content[start..e.caret];
            && NoTagShape(md)
            && BlankRunFree(md, 0)
            && (md != [] ==> !IsSpace(md[0]) && !IsSpace(md[|md| - 1]))
  {
  }

  /** Plain text that the tail of the conversion has nothing to do to is
      pasted as it is. */
  lemma {:induction false} PastePlainText(content: string, html: string, text: string, start: nat, end: nat)
    requires start <= end <= |content|
    requires !AllSpace(html)
    requires '&' !in text && '<' !in text && BlankRunFree(text, 0) && Trim(text) == text
    ensures Pasted(content, html, text, start, end) == Some(PasteEdit(Splice(content, start, end, text), start + |text|))
  {
    MarkdownTailKeepsPlainText(text);
    assert Trim(html) != [];
    var md := MarkdownTail(text);
    assert md == text;
    assert Pasted(content, html, text, start, end) == Some(PasteEdit(Splice(content, start, end, md), start + |md|));
  }

  // ---------------------------------------------------------------------
  // The page

  class NewNotePage {
    var title: string
    var content: string
    var user: Option<User>
    var noteId: Option<string>
    var hasUnsavedChanges: bool
    var isSaving: bool
    var error: Option<string>

    function State(): Page
      reads this
    {
      Page(title, content, user, noteId, hasUnsavedChanges, isSaving, error)
    }

    /** Lines 56-61: an empty note, nothing saved, nothing pending. */
    constructor(user: Option<User>)
      ensures State() == Page("", "", user, None, false, false, None)
    {
      this.title := "";
      this.content := "";
      this.user := user;
      this.noteId := None;
      this.hasUnsavedChanges := false;
      this.isSaving := false;
      this.error := None;
    }

    /** The autosave effect (lines 73-82) has a timer running; by
        `AutosaveMakesRequest`, the save it starts gets past the guard. */
    predicate AutosaveScheduled()
      reads this
      ensures AutosaveScheduled() ==> SaveRequestFor(title, content, user, noteId).Some?
    {
      if AutosaveDue(hasUnsavedChanges, user, title, content) then
        AutosaveMakesRequest(State());
        true
      else
        false
    }

    /** The title input (line 192), followed by the effect of line 70. */
    method SetTitle(t: string)
      modifies this
      ensures State() == Edited(old(State()), t, old(content))
    {
      ghost var p := State();
      if t != title {
        title := t;
        hasUnsavedChanges := UnsavedChanges(title, content);
        assert State() == p.(title := t, hasUnsavedChanges := hasUnsavedChanges);
      } else {
        assert Edited(p, t, p.content) == p;
      }
    }

    /** The editor's `onChange` (line 198), followed by the effect of line 70. */
    method SetContent(c: string)
      modifies this
      ensures State() == Edited(old(State()), old(title), c)
    {
      ghost var p := State();
      if c != content {
        content := c;
        hasUnsavedChanges := UnsavedChanges(title, content);
        assert State() == p.(content := c, hasUnsavedChanges := hasUnsavedChanges);
      } else {
        assert Edited(p, p.title, c) == p;
      }
    }

    /** `saveNote` up to the awaited call (lines 85-88): the request to make,
        if any. */
    method BeginSave() returns (req: Option<SaveRequest>)
      modifies this
      ensures req == SaveRequestFor(old(title), old(content), old(user), old(noteId))
      ensures State() == StartSave(old(State()))
    {
      req := SaveRequestFor(title, content, user, noteId);
      if req.Some? {
        isSaving := true;
        error := None;
      }
    }

    /** `saveNote` after the call returned (lines 100-124). */
    method FinishSave(req: SaveRequest, result: BackendResult)
      modifies this
      ensures State() == EndSave(old(State()), req, result)
    {
      match result {
        case Succeeded(ids) =>
          if req.InsertNote? && |ids| > 0 {
            noteId := Some(ids[0]);
          }
          hasUnsavedChanges := false;
        case Failed(message) =>
          error := Some(if message.Some? then message.value else SaveFailedMessage);
      }
      isSaving := false;
    }

    /** `saveNote` as a whole (lines 84-125), the backend answering `result`. */
    method SaveNote(result: BackendResult) returns (req: Option<SaveRequest>)
      modifies this
      ensures req == SaveRequestFor(old(title), old(content), old(user), old(noteId))
      ensures State() == Save(old(State()), result)
    {
      req := BeginSave();
      if req.Some? {
        FinishSave(req.value, result);
      }
    }

    /** `handlePaste` (lines 137-155): the caret to set, present exactly
        when the paste was taken over from the browser. */
    method HandlePaste(html: string, rewritten: string, start: nat, end: nat) returns (caret: Option<nat>)
      requires start <= end <= |content|
      modifies this
      ensures var r := Pasted(old(content), html, rewritten, start, end);
              && (r.None? ==> State() == old(State()) && caret.None?)
              && (r.Some? ==> State() == Edited(old(State()), old(title), r.value.content)
                              && caret == Some(r.value.caret))
    {
      var r := Pasted(content, html, rewritten, start, end);
      if r.Some? {
        SetContent(r.value.content);
        caret := Some(r.value.caret);
      } else {
        caret := None;
      }
    }
  }
}

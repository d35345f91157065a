/** frontend/src/pages/Notes.jsx: the subject label and colour each note card
    looks up in the served subject list, and the state of the note form. */
module NotesPage {
  import opened Wrappers
  import opened Seqs
  import opened Models
  import opened Database
  import opened SubjectHandler
  import Text
  import NoteHandler

  // ---------------------------------------------------------------------------
  // getSubjectName / getSubjectColor: `subjects.find(s => s.id === subjectId)`

  /** The id a served subject item carries: the embedded subject's. */
  function ItemKey(s: SubjectWithProgress): int { s.subject.id }

  /** The label of a note's subject, 'Unknown' when no subject has that id. */
  function SubjectName(subjects: seq<SubjectWithProgress>, id: int): (r: string)
    ensures id !in Keys(subjects, ItemKey) ==> r == "Unknown"
  {
    match Find(subjects, ItemKey, id)
    case Some(s) => s.subject.name
    case None => "Unknown"
  }

  /** The colour of a note's subject badge, '#3498db' when no subject has that id. */
  function SubjectColor(subjects: seq<SubjectWithProgress>, id: int): (r: string)
    ensures id !in Keys(subjects, ItemKey) ==> r == "#3498db"
  {
    match Find(subjects, ItemKey, id)
    case Some(s) => s.subject.color
    case None => "#3498db"
  }

  /** With a matching subject, both lookups read the first subject with that
      id: the name and colour of the same item. */
  lemma LookupFirstMatch(subjects: seq<SubjectWithProgress>, id: int)
    requires id in Keys(subjects, ItemKey)
    ensures exists i :: (0 <= i < |subjects| && subjects[i].subject.id == id
      && SubjectName(subjects, id) == subjects[i].subject.name
      && SubjectColor(subjects, id) == subjects[i].subject.color
      && forall j :: 0 <= j < i ==> subjects[j].subject.id != id)
  {
    FindFirst(subjects, ItemKey, id);
  }

  /** Looked up in items that carry the given subjects in order, an id of one
      of them labels with that subject's own name and colour. */
  lemma LabelOf(r: seq<SubjectWithProgress>, subjects: seq<Subject>, id: int)
    requires |r| == |subjects| && forall i :: 0 <= i < |r| ==> r[i].subject == subjects[i]
    requires id in Keys(subjects, SubjectKey)
    ensures exists s :: (s in subjects && s.id == id
      && SubjectName(r, id) == s.name && SubjectColor(r, id) == s.color)
  {
    assert forall i :: 0 <= i < |r| ==> Keys(r, ItemKey)[i] == Keys(subjects, SubjectKey)[i];
    assert Keys(r, ItemKey) == Keys(subjects, SubjectKey);
    var found := Find(r, ItemKey, id).value;
    var k :| 0 <= k < |r| && r[k] == found;
    assert subjects[k] == found.subject;
  }

  /** A stored note's subject always exists, so against the served subjects
      its card shows that subject's own name and colour, never the fallback. */
  lemma StoredNoteLabel(t: Tables, n: Note)
    requires Consistent(t) && n in t.notes
    ensures exists s :: (s in t.subjects && s.id == n.subjectId
      && SubjectName(AllSubjects(t), n.subjectId) == s.name
      && SubjectColor(AllSubjects(t), n.subjectId) == s.color)
  {
    assert n.subjectId in t.SubjectIds();
    LabelOf(AllSubjects(t), t.subjects, n.subjectId);
  }

  // ---------------------------------------------------------------------------
  // The note form

  /** The form's subject: '' or a subject id. */
  datatype FormSubject = NoSubject | SubjectId(id: int)

  /** noteForm: `{ subject_id, title, content }`. */
  datatype NoteForm = NoteForm(subjectId: FormSubject, title: string, content: string)

  /** The body a submit sends: `subject_id: parseInt(noteForm.subject_id)`,
      which is NaN (sent as null) for ''. */
  datatype NoteData = NoteData(subjectId: Option<int>, title: string, content: string)

  /** createNote(data), or updateNote(editingNote.id, data). */
  datatype NoteRequest = CreateNote(data: NoteData) | UpdateNote(id: int, data: NoteData)

  /** `{ subject_id: '', title: '', content: '' }`. */
  function EmptyForm(): NoteForm { NoteForm(NoSubject, "", "") }

  /** A new note's form: `subjects[0]?.id || ''` (an id of 0 is falsy). */
  function NewNoteForm(subjects: seq<SubjectWithProgress>): NoteForm {
    if subjects != [] && subjects[0].subject.id != 0 then NoteForm(SubjectId(subjects[0].subject.id), "", "")
    else EmptyForm()
  }

  /** An existing note's form: its subject id, title and content. */
  function EditForm(n: Note): NoteForm { NoteForm(SubjectId(n.subjectId), n.title, n.content) }

  function Parsed(f: FormSubject): Option<int> {
    if f.SubjectId? then Some(f.id) else None
  }

  /** The browser's `required` check on the form: a subject must be chosen
      (the select's first option has the value '') and the title must not be
      empty. A form that fails it never reaches handleSubmit. */
  predicate Submittable(form: NoteForm) {
    form.subjectId.SubjectId? && form.title != ""
  }

  /** What handleSubmit sends for the note being edited, if any, and the form. */
  function RequestFor(editing: Option<Note>, form: NoteForm): NoteRequest {
    var data := NoteData(Parsed(form.subjectId), form.title, form.content);
    if editing.Some? then UpdateNote(editing.value.id, data) else CreateNote(data)
  }

  /** Submit updates exactly when a note is being edited, and then that
      note; either way it sends the form's title and content. */
  lemma RequestKind(editing: Option<Note>, form: NoteForm)
    ensures RequestFor(editing, form).UpdateNote? <==> editing.Some?
    ensures editing.Some? ==> RequestFor(editing, form).id == editing.value.id
    ensures RequestFor(editing, form).data.title == form.title
    ensures RequestFor(editing, form).data.content == form.content
  {
  }

  /** Opening a note and submitting without changes sends the note's own
      subject, title and content back to that note. */
  lemma EditUnchanged(n: Note)
    ensures RequestFor(Some(n), EditForm(n)) == UpdateNote(n.id, NoteData(Some(n.subjectId), n.title, n.content))
  {
  }

  /** The body PUT /notes/:id binds from what the page sends: UpdateNoteInput
      has no subject_id, so the form's subject is dropped, and the page sends
      no topic_id, so it binds as nil. */
  function UpdateBody(data: NoteData): UpdateNoteInput {
    UpdateNoteInput(data.title, data.content, None)
  }

  /** What an edit through the page does on the server, when it is accepted:
      the note keeps its subject whatever the form says, takes the form's
      content and always loses its topic. Were handleSubmit reached with an
      empty title (the form's `required` check stops that), the note would
      keep its title. */
  lemma PageEditEffect(t: Tables, i: int, form: NoteForm, now: int)
    requires Consistent(t) && 0 <= i < |t.notes| && IsInteger(t.notes[i].id)
    requires |form.title| <= NoteTitleLength
    requires var n := t.notes[i];
      NoteHandler.Update(t, Text.Itoa(n.id), Json(UpdateBody(RequestFor(Some(n), form).data)), now).1.Ok?
    ensures var n := t.notes[i];
      var u := NoteHandler.Update(t, Text.Itoa(n.id), Json(UpdateBody(RequestFor(Some(n), form).data)), now).0;
      && u.notes[i].id == n.id && u.notes[i].subjectId == n.subjectId
      && u.notes[i].topicId == None
      && u.notes[i].content == form.content
      && u.notes[i].title == (if form.title == "" then n.title else form.title)
      && u.notes[i].updatedAt == now
  {
    var n := t.notes[i];
    Text.AtoiItoa(n.id);
    NoteHandler.UpdateMerges(t, Text.Itoa(n.id), Json(UpdateBody(RequestFor(Some(n), form).data)), now, i);
  }

  /** Against the served subjects, a new note defaults to the subject with the
      smallest id; with no subjects the form has none, so it cannot be
      submitted (and the create request it would build carries no subject
      id). */
  lemma NewFormDefault(t: Tables)
    requires Consistent(t)
    ensures t.subjects == [] ==> (NewNoteForm(AllSubjects(t)) == EmptyForm()
      && !Submittable(NewNoteForm(AllSubjects(t)))
      && RequestFor(None, NewNoteForm(AllSubjects(t))).data.subjectId.None?)
    ensures t.subjects != [] ==> (NewNoteForm(AllSubjects(t)).subjectId == SubjectId(t.subjects[0].id)
      && forall s :: s in t.subjects ==> t.subjects[0].id <= s.id)
  {
    if t.subjects != [] {
      assert t.SubjectIds()[0] == t.subjects[0].id;
      forall s | s in t.subjects ensures t.subjects[0].id <= s.id {
        var k :| 0 <= k < |t.subjects| && t.subjects[k] == s;
        if k > 0 { assert t.SubjectIds()[0] < t.SubjectIds()[k]; }
      }
    }
  }

  /** The modal's state: showModal, editingNote and noteForm. */
  class NoteModal {
    var showModal: bool
    var editingNote: Option<Note>
    var form: NoteForm

    /** The state before any interaction. */
    constructor()
      ensures !showModal && editingNote == None && form == EmptyForm()
    {
      showModal := false;
      editingNote := None;
      form := EmptyForm();
    }

    /** handleOpenModal(note): edit an existing note, or start a new one. */
    method OpenModal(note: Option<Note>, subjects: seq<SubjectWithProgress>)
      modifies this
      ensures showModal && editingNote == note
      ensures form == if note.Some? then EditForm(note.value) else NewNoteForm(subjects)
    {
      if note.Some? {
        editingNote := note;
        form := EditForm(note.value);
      } else {
        editingNote := None;
        form := NewNoteForm(subjects);
      }
      showModal := true;
    }

    /** handleCloseModal: hide the modal and forget the note and the form. */
    method CloseModal()
      modifies this
      ensures !showModal && editingNote == None && form == EmptyForm()
    {
      showModal := false;
      editingNote := None;
      form := EmptyForm();
    }

    /** The form's onSubmit: the browser runs handleSubmit only when the
        form is Submittable, and then sends the request; on success the modal
        closes, and on failure, or when nothing is sent, everything stays as
        it was. */
    method Submit(succeeds: bool) returns (request: Option<NoteRequest>)
      modifies this
      ensures request.Some? <==> Submittable(old(form))
      ensures request.Some? ==> request.value == RequestFor(old(editingNote), old(form))
      ensures request.Some? ==> request.value.data.subjectId.Some? && request.value.data.title != ""
      ensures request.Some? && succeeds ==> !showModal && editingNote == None && form == EmptyForm()
      ensures request.None? || !succeeds ==>
        showModal == old(showModal) && editingNote == old(editingNote) && form == old(form)
    {
      if !Submittable(form) {
        return None;
      }
      var data := NoteData(Parsed(form.subjectId), form.title, form.content);
      if editingNote.Some? {
        request := Some(UpdateNote(editingNote.value.id, data));
      } else {
        request := Some(CreateNote(data));
      }
      if succeeds {
        CloseModal();
      }
    }
  }
}

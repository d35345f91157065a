/** backend/handlers/note_handler.go: all notes and the notes of one subject,
    newest first; creating, updating and deleting a note. `now` stands for
    the store's CURRENT_TIMESTAMP when a statement runs. */
module NoteHandler {
  import opened Wrappers
  import opened Seqs
  import opened Text
  import opened Models
  import opened Database

  // ---------------------------------------------------------------------------
  // Listing: `ORDER BY updated_at DESC`

  /** May `a` come before `b` in `ORDER BY updated_at DESC`? */
  function NewestFirst(a: Note, b: Note): bool { a.updatedAt >= b.updatedAt }

  lemma NewestFirstPreorder()
    ensures TotalPreorder(NewestFirst)
  {
  }

  /** `notes` in newest-first order: the same notes, each as often as before. */
  function Newest(notes: seq<Note>): (r: seq<Note>)
    ensures multiset(r) == multiset(notes) && |r| == |notes|
    ensures forall i, j :: 0 <= i < j < |r| ==> r[i].updatedAt >= r[j].updatedAt
  {
    NewestFirstPreorder();
    var r := Sort(notes, NewestFirst);
    assert Chain(r, NewestFirst);
    r
  }

  /** What GetAllNotes serves. */
  function AllNotes(t: Tables): seq<Note> { Newest(t.notes) }

  /** The handler's row loop copies the ordered result. */
  method GetAllNotes(db: Store) returns (notes: seq<Note>)
    ensures multiset(notes) == multiset(db.notes)
    ensures forall i, j :: 0 <= i < j < |notes| ==> notes[i].updatedAt >= notes[j].updatedAt
    ensures notes == AllNotes(db.State())
  {
    var rows := Newest(db.notes);
    notes := [];
    var i := 0;
    while i < |rows|
      invariant 0 <= i <= |rows|
      invariant notes == rows[..i]
    {
      notes := notes + [rows[i]];
      i := i + 1;
    }
    assert rows[..i] == rows;
  }

  /** GetNotesBySubject: `WHERE subject_id = $1 ORDER BY updated_at DESC`. */
  function NotesBySubject(t: Tables, param: string): (r: Outcome<seq<Note>>)
    ensures Atoi(param).None? ==> r == Err(BadRequest(InvalidSubjectId))
    ensures Atoi(param).Some? ==> (r.Ok? <==> IsInteger(Atoi(param).value))
    ensures r.Err? ==> r == Err(BadRequest(InvalidSubjectId)) || r == Err(Internal)
    ensures r.Ok? ==> multiset(r.value) == multiset(Filter(t.notes, NoteOf(Atoi(param).value)))
    ensures r.Ok? ==> forall i, j :: 0 <= i < j < |r.value| ==> r.value[i].updatedAt >= r.value[j].updatedAt
  {
    match Atoi(param)
    case None => Err(BadRequest(InvalidSubjectId))
    case Some(id) => if !IsInteger(id) then Err(Internal) else Ok(Newest(Filter(t.notes, NoteOf(id))))
  }

  /** The subject's notes are exactly the notes with that subject, each once. */
  lemma NotesBySubjectMembers(t: Tables, param: string)
    requires Consistent(t) && NotesBySubject(t, param).Ok?
    ensures forall n :: n in NotesBySubject(t, param).value <==> n in t.notes && n.subjectId == Atoi(param).value
    ensures forall n :: n in NotesBySubject(t, param).value ==> multiset(NotesBySubject(t, param).value)[n] == 1
  {
    var id := Atoi(param).value;
    var f := Filter(t.notes, NoteOf(id));
    var r := NotesBySubject(t, param).value;
    forall n ensures n in r <==> n in f {
      assert n in r <==> n in multiset(r);
      assert n in f <==> n in multiset(f);
    }
    FilterAscending(t.notes, NoteOf(id), NoteKey);
    forall n | n in r ensures multiset(r)[n] == 1 {
      CountOnce(f, n);
    }
  }

  /** In a table with ascending ids a row occurs once. */
  lemma {:induction false} CountOnce(s: seq<Note>, n: Note)
    requires Ascending(Keys(s, NoteKey)) && n in s
    ensures multiset(s)[n] == 1
  {
    if s[0] == n {
      assert s == [s[0]] + s[1..];
      assert n !in s[1..];
    } else {
      assert s == [s[0]] + s[1..];
      assert Ascending(Keys(s[1..], NoteKey)) by {
        forall i, j | 0 <= i < j < |s[1..]| ensures Keys(s[1..], NoteKey)[i] < Keys(s[1..], NoteKey)[j] {
          assert Keys(s, NoteKey)[i + 1] < Keys(s, NoteKey)[j + 1];
        }
      }
      CountOnce(s[1..], n);
    }
  }

  method GetNotesBySubject(db: Store, param: string) returns (r: Outcome<seq<Note>>)
    ensures r == NotesBySubject(db.State(), param)
  {
    var subjectId := Atoi(param);
    if subjectId.None? {
      return Err(BadRequest(InvalidSubjectId));
    }
    if !IsInteger(subjectId.value) {
      return Err(Internal);
    }
    var rows := Newest(Filter(db.notes, NoteOf(subjectId.value)));
    var notes: seq<Note> := [];
    var i := 0;
    while i < |rows|
      invariant 0 <= i <= |rows|
      invariant notes == rows[..i]
    {
      notes := notes + [rows[i]];
      i := i + 1;
    }
    assert rows[..i] == rows;
    r := Ok(notes);
  }

  // ---------------------------------------------------------------------------
  // CreateNote

  /** An id the INTEGER column can take: an absent topic always can. */
  predicate FitsInteger(topicId: Option<int>) {
    topicId.None? || IsInteger(topicId.value)
  }

  /** CreateNote: subject id and title are required; the topic is optional. */
  function Create(t: Tables, body: Body<CreateNoteInput>, now: int): (Tables, Outcome<int>) {
    if body.Malformed? || !RequiredId(body.value.subjectId) || !Required(body.value.title) then (t, Err(InvalidBody))
    else
      var input := body.value;
      if !IsInteger(input.subjectId) || !FitsInteger(input.topicId) then (t, Err(Internal))
      else match InsertNote(t, input.subjectId, input.topicId, input.title, input.content, now)
        case None => (t, Err(Internal))
        case Some(u) => (u, Ok(t.nextNoteId))
  }

  /** A created note is appended with a fresh id and updated now; it is
      refused exactly when a value does not fit or a reference names nothing. */
  lemma CreateEffect(t: Tables, body: Body<CreateNoteInput>, now: int)
    requires Consistent(t)
    ensures var (u, r) := Create(t, body, now);
      && Consistent(u)
      && (r.Err? ==> u == t)
      && (body.Json? && body.value.subjectId != 0 && body.value.title != "" ==>
            (r.Ok? <==> && IsInteger(body.value.subjectId) && FitsInteger(body.value.topicId)
                        && body.value.subjectId in t.SubjectIds()
                        && (body.value.topicId.Some? ==> body.value.topicId.value in t.TopicIds())
                        && Varchar(body.value.title, NoteTitleLength).Some?))
      && (r.Ok? ==>
            && r.value == t.nextNoteId && r.value !in t.NoteIds()
            && |u.notes| == |t.notes| + 1 && u.notes[..|t.notes|] == t.notes
            && u.notes[|t.notes|].id == r.value
            && u.notes[|t.notes|].subjectId == body.value.subjectId
            && u.notes[|t.notes|].topicId == body.value.topicId
            && u.notes[|t.notes|].content == body.value.content
            && u.notes[|t.notes|].updatedAt == now
            && u.subjects == t.subjects && u.topics == t.topics && u.plans == t.plans)
  {
    if body.Json? {
      var input := body.value;
      InsertNoteEffect(t, input.subjectId, input.topicId, input.title, input.content, now);
    }
  }

  /** Nothing ties a note's topic to its subject: a topic of another subject
      is accepted as long as it exists. */
  lemma CreateAcceptsOtherSubjectsTopic(t: Tables, body: Body<CreateNoteInput>, now: int, x: Topic)
    requires Consistent(t) && x in t.topics && IsInteger(x.id)
    requires body.Json? && body.value.topicId == Some(x.id) && x.subjectId != body.value.subjectId
    requires body.value.subjectId in t.SubjectIds() && IsInteger(body.value.subjectId) && body.value.subjectId != 0
    requires body.value.title != "" && |body.value.title| <= NoteTitleLength
    ensures Create(t, body, now).1 == Ok(t.nextNoteId)
  {
    KeyOf(t.topics, TopicKey, x);
  }

  method CreateNote(db: Store, body: Body<CreateNoteInput>, now: int) returns (r: Outcome<int>)
    requires db.Valid()
    modifies db
    ensures db.Valid()
    ensures (db.State(), r) == Create(old(db.State()), body, now)
  {
    if body.Malformed? || !RequiredId(body.value.subjectId) || !Required(body.value.title) {
      return Err(InvalidBody);
    }
    var input := body.value;
    if !IsInteger(input.subjectId) || !FitsInteger(input.topicId) {
      return Err(Internal);
    }
    var inserted := InsertNote(db.State(), input.subjectId, input.topicId, input.title, input.content, now);
    if inserted.None? {
      return Err(Internal);
    }
    InsertNoteEffect(db.State(), input.subjectId, input.topicId, input.title, input.content, now);
    r := Ok(db.nextNoteId);
    db.Commit(inserted.value);
  }

  // ---------------------------------------------------------------------------
  // UpdateNote

  /** The row UpdateNote writes: an empty title keeps the stored one, the
      content and the topic are overwritten as sent (an empty content empties
      the note, an absent topic clears it), and the note is updated now. */
  function Merge(n: Note, input: UpdateNoteInput, now: int): Note {
    n.(title := Coalesce(input.title, n.title), content := input.content, topicId := input.topicId, updatedAt := now)
  }

  /** UpdateNote: a missing note is reported before the topic reference and
      the title length are checked. */
  function Update(t: Tables, param: string, body: Body<UpdateNoteInput>, now: int): (Tables, Outcome<()>) {
    match Atoi(param)
    case None => (t, Err(BadRequest(InvalidNoteId)))
    case Some(id) =>
      if body.Malformed? then (t, Err(InvalidBody))
      else if !IsInteger(id) || !FitsInteger(body.value.topicId) then (t, Err(Internal))
      else match Find(t.notes, NoteKey, id)
        case None => (t, Err(NotFound(NoteNotFound)))
        case Some(n) =>
          var m := Merge(n, body.value, now);
          var title := Varchar(m.title, NoteTitleLength);
          if (m.topicId.Some? && m.topicId.value !in t.TopicIds()) || title.None? then (t, Err(Internal))
          else (SetNote(t, id, title.value, m.content, m.topicId, now), Ok(()))
  }

  /** An update rewrites the one note with that id by the merge rule and
      nothing else; a failure changes nothing. */
  lemma UpdateEffect(t: Tables, param: string, body: Body<UpdateNoteInput>, now: int)
    requires Consistent(t)
    ensures var (u, r) := Update(t, param, body, now);
      && Consistent(u)
      && (r.Err? ==> u == t)
      && (Atoi(param).None? ==> r == Err(BadRequest(InvalidNoteId)))
      && ((Atoi(param).Some? && body.Json? && IsInteger(Atoi(param).value) && FitsInteger(body.value.topicId)
           && Atoi(param).value !in t.NoteIds()) ==> r == Err(NotFound(NoteNotFound)))
      && (r.Ok? ==>
            && Atoi(param).Some? && Atoi(param).value in t.NoteIds() && body.Json?
            && (body.value.topicId.Some? ==> body.value.topicId.value in t.TopicIds())
            && u.subjects == t.subjects && u.topics == t.topics && u.plans == t.plans
            && |u.notes| == |t.notes|
            && forall i :: 0 <= i < |t.notes| ==>
                 if t.notes[i].id == Atoi(param).value
                 then && u.notes[i].id == t.notes[i].id && u.notes[i].subjectId == t.notes[i].subjectId
                      && StartsWith(Merge(t.notes[i], body.value, now).title, u.notes[i].title)
                      && u.notes[i].content == body.value.content
                      && u.notes[i].topicId == body.value.topicId
                      && u.notes[i].updatedAt == now
                 else u.notes[i] == t.notes[i])
  {
    var (u, r) := Update(t, param, body, now);
    if r.Ok? {
      var id := Atoi(param).value;
      var n := Find(t.notes, NoteKey, id).value;
      var m := Merge(n, body.value, now);
      SetNoteConsistent(t, id, Varchar(m.title, NoteTitleLength).value, m.content, m.topicId, now);
      forall i | 0 <= i < |t.notes| && t.notes[i].id == id ensures t.notes[i] == n {
        var j :| 0 <= j < |t.notes| && t.notes[j] == n;
        AscendingUnique(t.notes, NoteKey, i, j);
      }
    }
  }

  /** A title that fits is merged exactly. */
  lemma UpdateMerges(t: Tables, param: string, body: Body<UpdateNoteInput>, now: int, i: int)
    requires Consistent(t) && Update(t, param, body, now).1.Ok?
    requires |body.value.title| <= NoteTitleLength
    requires 0 <= i < |t.notes| && t.notes[i].id == Atoi(param).value
    ensures Update(t, param, body, now).0.notes[i] == Merge(t.notes[i], body.value, now)
  {
    var id := Atoi(param).value;
    var n := Find(t.notes, NoteKey, id).value;
    var j :| 0 <= j < |t.notes| && t.notes[j] == n;
    AscendingUnique(t.notes, NoteKey, i, j);
    assert |n.title| <= NoteTitleLength;
  }

  /** When the clock has moved past every stored timestamp, the note just
      updated heads the newest-first listing. */
  lemma UpdatedNoteComesFirst(t: Tables, param: string, body: Body<UpdateNoteInput>, now: int)
    requires Consistent(t) && Update(t, param, body, now).1.Ok?
    requires forall n :: n in t.notes ==> n.updatedAt < now
    ensures AllNotes(Update(t, param, body, now).0) != []
    ensures AllNotes(Update(t, param, body, now).0)[0].id == Atoi(param).value
    ensures AllNotes(Update(t, param, body, now).0)[0].updatedAt == now
  {
    var id := Atoi(param).value;
    var n := Find(t.notes, NoteKey, id).value;
    var m := Merge(n, body.value, now);
    var title := Varchar(m.title, NoteTitleLength).value;
    assert Update(t, param, body, now).0 == SetNote(t, id, title, m.content, m.topicId, now);
    StampedFirst(t, id, title, m.content, m.topicId, now);
  }

  /** Rewriting one note with the timestamp `now`, later than all others,
      puts it first. */
  lemma StampedFirst(t: Tables, id: int, title: string, content: string, topicId: Option<int>, now: int)
    requires Ascending(t.NoteIds()) && id in t.NoteIds()
    requires forall n :: n in t.notes ==> n.updatedAt < now
    ensures var u := SetNote(t, id, title, content, topicId, now);
      Newest(u.notes) != [] && Newest(u.notes)[0].id == id && Newest(u.notes)[0].updatedAt == now
  {
    var u := SetNote(t, id, title, content, topicId, now);
    var i :| 0 <= i < |t.notes| && t.notes[i].id == id by {
      KeysMember(t.notes, NoteKey, id);
    }
    forall k | 0 <= k < |u.notes| && k != i ensures u.notes[k].updatedAt < now {
      if t.notes[k].id == id {
        AscendingUnique(t.notes, NoteKey, i, k);
      }
      assert t.notes[k] in t.notes;
    }
    NewestUnique(u.notes, i, now);
  }

  /** The one row stamped `now`, when every other row is older, comes first. */
  lemma NewestUnique(notes: seq<Note>, i: int, now: int)
    requires 0 <= i < |notes| && notes[i].updatedAt == now
    requires forall k :: 0 <= k < |notes| && k != i ==> notes[k].updatedAt < now
    ensures Newest(notes) != [] && Newest(notes)[0] == notes[i]
  {
    forall z | z in notes && z != notes[i] ensures !NewestFirst(z, notes[i]) {
      var k :| 0 <= k < |notes| && notes[k] == z;
    }
    NewestFirstPreorder();
    SortedFirst(notes, notes[i], NewestFirst);
  }

  method UpdateNote(db: Store, param: string, body: Body<UpdateNoteInput>, now: int) returns (r: Outcome<()>)
    requires db.Valid()
    modifies db
    ensures db.Valid()
    ensures (db.State(), r) == Update(old(db.State()), param, body, now)
  {
    var id := Atoi(param);
    if id.None? {
      return Err(BadRequest(InvalidNoteId));
    }
    if body.Malformed? {
      return Err(InvalidBody);
    }
    UpdateEffect(db.State(), param, body, now);
    var (u, outcome) := Update(db.State(), param, body, now);
    r := outcome;
    if r.Ok? {
      db.Commit(u);
    }
  }

  // ---------------------------------------------------------------------------
  // DeleteNote

  function Delete(t: Tables, param: string): (Tables, Outcome<()>) {
    match Atoi(param)
    case None => (t, Err(BadRequest(InvalidNoteId)))
    case Some(id) =>
      if !IsInteger(id) then (t, Err(Internal))
      else if id !in t.NoteIds() then (t, Err(NotFound(NoteNotFound)))
      else (Database.DeleteNote(t, id), Ok(()))
  }

  lemma DeleteEffect(t: Tables, param: string)
    requires Consistent(t)
    ensures var (u, r) := Delete(t, param);
      && Consistent(u)
      && (r.Err? ==> u == t)
      && (Atoi(param).Some? && IsInteger(Atoi(param).value) ==>
            (r.Ok? <==> Atoi(param).value in t.NoteIds()) && (r.Err? ==> r == Err(NotFound(NoteNotFound))))
      && (r.Ok? ==>
            && (forall n :: n in u.notes <==> n in t.notes && n.id != Atoi(param).value)
            && |u.notes| == |t.notes| - 1
            && u.subjects == t.subjects && u.topics == t.topics && u.plans == t.plans)
  {
    if Delete(t, param).1.Ok? {
      DeleteNoteEffect(t, Atoi(param).value);
    }
  }

  method DeleteNote(db: Store, param: string) returns (r: Outcome<()>)
    requires db.Valid()
    modifies db
    ensures db.Valid()
    ensures (db.State(), r) == Delete(old(db.State()), param)
  {
    var id := Atoi(param);
    if id.None? {
      return Err(BadRequest(InvalidNoteId));
    }
    if !IsInteger(id.value) {
      return Err(Internal);
    }
    var rowsAffected := |Filter(db.notes, (n: Note) => n.id == id.value)|;
    if rowsAffected == 0 {
      assert id.value !in db.State().NoteIds() by {
        KeysMember(db.notes, NoteKey, id.value);
      }
      return Err(NotFound(NoteNotFound));
    }
    assert id.value in db.State().NoteIds() by {
      var f := Filter(db.notes, (n: Note) => n.id == id.value);
      assert f[0] in f;
      KeyOf(db.notes, NoteKey, f[0]);
    }
    DeleteNoteEffect(db.State(), id.value);
    db.Commit(Database.DeleteNote(db.State(), id.value));
    r := Ok(());
  }
}

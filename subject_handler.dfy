/** backend/handlers/subject_handler.go: listing subjects with their topic
    counts and progress, reading one, creating, updating and deleting.
    Each handler is a method on the store; the function beside it gives the
    response and the tables afterwards, as the statements it runs determine them. */
module SubjectHandler {
  import opened Wrappers
  import opened Seqs
  import opened Text
  import opened Models
  import opened Database
  import opened Aggregate

  /** A subject with its counts, and the progress the row loop sets when the
      subject has topics (0 otherwise). */
  function WithProgress(s: Subject, c: Counts): SubjectWithProgress
    requires c.completed <= c.total
  {
    SubjectWithProgress(s, c.total, c.completed, c.weak, Progress(c))
  }

  /** What GetAllSubjects serves: every subject, in table (id) order, with the
      counts of its own topics. */
  function AllSubjects(t: Tables): (r: seq<SubjectWithProgress>)
    ensures |r| == |t.subjects|
    ensures forall i :: 0 <= i < |r| ==>
      && r[i].subject == t.subjects[i]
      && Counts(r[i].totalTopics, r[i].completedTopics, r[i].weakTopics) == SubjectCounts(t.topics, t.subjects[i].id)
    ensures forall i :: 0 <= i < |r| ==> r[i].progress == Progress(SubjectCounts(t.topics, t.subjects[i].id))
  {
    var rows := PerSubject(t.subjects, t.topics);
    seq(|rows|, i requires 0 <= i < |rows| => WithProgress(rows[i].0, rows[i].1))
  }

  /** Each listed progress lies in [0, 100]: 0 for a subject without topics,
      100 when all its topics are completed (the share itself is Progress's
      contract). */
  lemma AllSubjectsProgress(t: Tables, i: int)
    requires 0 <= i < |t.subjects|
    ensures var r := AllSubjects(t)[i];
      && r.completedTopics <= r.totalTopics && r.weakTopics <= r.totalTopics
      && 0.0 <= r.progress <= 100.0
      && (r.totalTopics == 0 ==> r.progress == 0.0)
      && (r.completedTopics == r.totalTopics > 0 ==> r.progress == 100.0)
  {
    var c := SubjectCounts(t.topics, t.subjects[i].id);
    var r := AllSubjects(t)[i];
    assert r.totalTopics == c.total && r.completedTopics == c.completed && r.weakTopics == c.weak;
    assert r.progress == Progress(c);
  }

  /** Every subject is listed once, in ascending id order. */
  lemma AllSubjectsOrder(t: Tables)
    requires Consistent(t)
    ensures forall i, j :: 0 <= i < j < |AllSubjects(t)| ==> AllSubjects(t)[i].subject.id < AllSubjects(t)[j].subject.id
    ensures forall s :: s in t.subjects <==> exists i :: 0 <= i < |AllSubjects(t)| && AllSubjects(t)[i].subject == s
  {
    AllSubjectsAscending(t, AllSubjects(t));
    AllSubjectsCover(t, AllSubjects(t));
  }

  lemma AllSubjectsAscending(t: Tables, r: seq<SubjectWithProgress>)
    requires Consistent(t) && r == AllSubjects(t)
    ensures forall i, j :: 0 <= i < j < |r| ==> r[i].subject.id < r[j].subject.id
  {
    forall i, j | 0 <= i < j < |r| ensures r[i].subject.id < r[j].subject.id {
      assert t.SubjectIds()[i] < t.SubjectIds()[j];
    }
  }

  lemma AllSubjectsCover(t: Tables, r: seq<SubjectWithProgress>)
    requires r == AllSubjects(t)
    ensures forall s :: s in t.subjects <==> exists i :: 0 <= i < |r| && r[i].subject == s
  {
    forall s | s in t.subjects ensures exists i :: 0 <= i < |r| && r[i].subject == s {
      var i :| 0 <= i < |t.subjects| && t.subjects[i] == s;
      assert r[i].subject == s;
    }
  }

  /** A subject without topics is listed with zero counts and progress 0. */
  lemma SubjectWithoutTopics(t: Tables, i: int)
    requires 0 <= i < |t.subjects|
    requires forall x :: x in t.topics ==> x.subjectId != t.subjects[i].id
    ensures AllSubjects(t)[i] == SubjectWithProgress(t.subjects[i], 0, 0, 0, 0.0)
  {
  }

  /** gin's GetAllSubjects: one result row per subject; the loop copies each row
      and fills in its progress. */
  method GetAllSubjects(db: Store) returns (subjects: seq<SubjectWithProgress>)
    ensures subjects == AllSubjects(db.State())
  {
    var rows := PerSubject(db.subjects, db.topics);
    ghost var want := AllSubjects(db.State());
    subjects := [];
    var i := 0;
    while i < |rows|
      invariant 0 <= i <= |rows|
      invariant subjects == want[..i]
    {
      var item := ListedItem(rows[i].0, rows[i].1);
      AllSubjectsAt(db.State(), i);
      subjects := subjects + [item];
      i := i + 1;
    }
    assert want[..i] == want;
  }

  lemma AllSubjectsAt(t: Tables, i: int)
    requires 0 <= i < |t.subjects|
    ensures var row := PerSubject(t.subjects, t.topics)[i];
      row.1.completed <= row.1.total && AllSubjects(t)[i] == WithProgress(row.0, row.1)
  {
  }

  /** One pass of the row loop: progress stays 0 unless the subject has topics. */
  method ListedItem(s: Subject, c: Counts) returns (item: SubjectWithProgress)
    requires c.completed <= c.total
    ensures item == WithProgress(s, c)
  {
    item := SubjectWithProgress(s, c.total, c.completed, c.weak, 0.0);
    if item.totalTopics > 0 {
      item := item.(progress := item.completedTopics as real / item.totalTopics as real * 100.0);
    }
  }

  /** GetSubject: a non-numeric id is a bad request; any failure of the query,
      an id out of the INTEGER range included, is reported as not found. */
  function GetSubject(t: Tables, param: string): (r: Outcome<SubjectWithProgress>)
    ensures Atoi(param).None? ==> r == Err(BadRequest(InvalidSubjectId))
    ensures Atoi(param).Some? ==>
      && (r.Ok? <==> IsInteger(Atoi(param).value) && Atoi(param).value in t.SubjectIds())
      && (r.Err? ==> r == Err(NotFound(SubjectNotFound)))
    ensures r.Ok? ==>
      && r.value.subject in t.subjects && r.value.subject.id == Atoi(param).value
      && Counts(r.value.totalTopics, r.value.completedTopics, r.value.weakTopics) == SubjectCounts(t.topics, r.value.subject.id)
  {
    match Atoi(param)
    case None => Err(BadRequest(InvalidSubjectId))
    case Some(id) =>
      if !IsInteger(id) then Err(NotFound(SubjectNotFound))
      else match Find(t.subjects, SubjectKey, id)
        case None => Err(NotFound(SubjectNotFound))
        case Some(s) => Ok(WithProgress(s, SubjectCounts(t.topics, id)))
  }

  /** Reading one subject gives the same item as the listing does for it. */
  lemma GetSubjectListed(t: Tables, param: string)
    requires Consistent(t) && GetSubject(t, param).Ok?
    ensures GetSubject(t, param).value in AllSubjects(t)
  {
    var v := GetSubject(t, param).value;
    var i :| 0 <= i < |t.subjects| && t.subjects[i] == v.subject;
    assert AllSubjects(t)[i] == v;
  }

  // ---------------------------------------------------------------------------
  // Create

  /** CreateSubject: the name is required; an empty color becomes the default. */
  function Create(t: Tables, body: Body<CreateSubjectInput>): (Tables, Outcome<int>) {
    if body.Malformed? || !Required(body.value.name) then (t, Err(InvalidBody))
    else
      var color := if body.value.color == "" then DefaultColor else body.value.color;
      match InsertSubject(t, body.value.name, body.value.description, color)
      case None => (t, Err(Internal))
      case Some(u) => (u, Ok(t.nextSubjectId))
  }

  /** A created subject is appended with a fresh id and the supplied values,
      its color defaulting to "#3498db"; a failure changes nothing. */
  lemma CreateEffect(t: Tables, body: Body<CreateSubjectInput>)
    requires Consistent(t)
    ensures var (u, r) := Create(t, body);
      && Consistent(u)
      && (body.Malformed? || body.value.name == "" ==> r == Err(InvalidBody))
      && (r.Err? ==> u == t)
      && (r.Ok? ==>
            && r.value == t.nextSubjectId && r.value !in t.SubjectIds()
            && u.subjects[..|t.subjects|] == t.subjects && |u.subjects| == |t.subjects| + 1
            && u.subjects[|t.subjects|].id == r.value
            && u.subjects[|t.subjects|].description == body.value.description
            && (body.value.color == "" ==> u.subjects[|t.subjects|].color == DefaultColor)
            && u.topics == t.topics && u.notes == t.notes && u.plans == t.plans)
  {
    if body.Json? && Required(body.value.name) {
      var color := if body.value.color == "" then DefaultColor else body.value.color;
      InsertSubjectEffect(t, body.value.name, body.value.description, color);
    }
  }

  /** A name and color within their limits are stored exactly as sent. */
  lemma CreateStoresInput(t: Tables, body: Body<CreateSubjectInput>)
    requires body.Json? && body.value.name != ""
    requires |body.value.name| <= SubjectNameLength && |body.value.color| <= ColorLength
    ensures Create(t, body).1 == Ok(t.nextSubjectId)
    ensures Create(t, body).0.subjects == t.subjects + [Subject(t.nextSubjectId, body.value.name, body.value.description,
              if body.value.color == "" then DefaultColor else body.value.color)]
  {
  }

  method CreateSubject(db: Store, body: Body<CreateSubjectInput>) returns (r: Outcome<int>)
    requires db.Valid()
    modifies db
    ensures db.Valid()
    ensures (db.State(), r) == Create(old(db.State()), body)
  {
    if body.Malformed? || !Required(body.value.name) {
      return Err(InvalidBody);
    }
    var input := body.value;
    if input.color == "" {
      input := input.(color := DefaultColor);
    }
    var inserted := InsertSubject(db.State(), input.name, input.description, input.color);
    if inserted.None? {
      return Err(Internal);
    }
    InsertSubjectEffect(db.State(), input.name, input.description, input.color);
    r := Ok(db.nextSubjectId);
    db.Commit(inserted.value);
  }

  // ---------------------------------------------------------------------------
  // Update

  /** The NULLIF merge: each non-empty supplied value replaces the stored one. */
  function Merge(s: Subject, input: UpdateSubjectInput): Subject {
    s.(name := Coalesce(input.name, s.name),
       description := Coalesce(input.description, s.description),
       color := Coalesce(input.color, s.color))
  }

  /** UpdateSubject: a missing row is reported before any value is checked;
      a merged name or color too long for its column is a store error. */
  function Update(t: Tables, param: string, body: Body<UpdateSubjectInput>): (Tables, Outcome<()>) {
    match Atoi(param)
    case None => (t, Err(BadRequest(InvalidSubjectId)))
    case Some(id) =>
      if body.Malformed? then (t, Err(InvalidBody))
      else if !IsInteger(id) then (t, Err(Internal))
      else match Find(t.subjects, SubjectKey, id)
        case None => (t, Err(NotFound(SubjectNotFound)))
        case Some(s) =>
          var m := Merge(s, body.value);
          var name, color := Varchar(m.name, SubjectNameLength), Varchar(m.color, ColorLength);
          if name.None? || color.None? then (t, Err(Internal))
          else (SetSubject(t, id, name.value, m.description, color.value), Ok(()))
  }

  /** An update changes the one subject with that id, by the merge rule, and
      nothing else; every failure leaves the tables as they were. */
  lemma UpdateEffect(t: Tables, param: string, body: Body<UpdateSubjectInput>)
    requires Consistent(t)
    ensures var (u, r) := Update(t, param, body);
      && Consistent(u)
      && (r.Err? ==> u == t)
      && (Atoi(param).None? ==> r == Err(BadRequest(InvalidSubjectId)))
      && (Atoi(param).Some? && body.Json? && IsInteger(Atoi(param).value) && Atoi(param).value !in t.SubjectIds() ==>
            r == Err(NotFound(SubjectNotFound)))
      && (r.Ok? ==>
            && Atoi(param).Some? && Atoi(param).value in t.SubjectIds() && body.Json?
            && u.topics == t.topics && u.notes == t.notes && u.plans == t.plans
            && |u.subjects| == |t.subjects|
            && forall i :: 0 <= i < |t.subjects| ==>
                 if t.subjects[i].id == Atoi(param).value
                 then u.subjects[i].id == t.subjects[i].id
                   && StartsWith(Merge(t.subjects[i], body.value).name, u.subjects[i].name)
                   && u.subjects[i].description == Merge(t.subjects[i], body.value).description
                   && StartsWith(Merge(t.subjects[i], body.value).color, u.subjects[i].color)
                 else u.subjects[i] == t.subjects[i])
  {
    var (u, r) := Update(t, param, body);
    if r.Ok? {
      var id := Atoi(param).value;
      var s := Find(t.subjects, SubjectKey, id).value;
      var m := Merge(s, body.value);
      SetSubjectConsistent(t, id, Varchar(m.name, SubjectNameLength).value, m.description, Varchar(m.color, ColorLength).value);
      forall i | 0 <= i < |t.subjects| && t.subjects[i].id == id ensures t.subjects[i] == s {
        var j :| 0 <= j < |t.subjects| && t.subjects[j] == s;
        AscendingUnique(t.subjects, SubjectKey, i, j);
      }
    }
  }

  /** Values within their limits are merged exactly: an empty field keeps the
      stored value, a non-empty one replaces it. */
  lemma UpdateMerges(t: Tables, param: string, body: Body<UpdateSubjectInput>, i: int)
    requires Consistent(t) && Update(t, param, body).1.Ok?
    requires |body.value.name| <= SubjectNameLength && |body.value.color| <= ColorLength
    requires 0 <= i < |t.subjects| && t.subjects[i].id == Atoi(param).value
    ensures Update(t, param, body).0.subjects[i] == Merge(t.subjects[i], body.value)
  {
    var id := Atoi(param).value;
    var s := Find(t.subjects, SubjectKey, id).value;
    var j :| 0 <= j < |t.subjects| && t.subjects[j] == s;
    AscendingUnique(t.subjects, SubjectKey, i, j);
  }

  method UpdateSubject(db: Store, param: string, body: Body<UpdateSubjectInput>) returns (r: Outcome<()>)
    requires db.Valid()
    modifies db
    ensures db.Valid()
    ensures (db.State(), r) == Update(old(db.State()), param, body)
  {
    var id := Atoi(param);
    if id.None? {
      return Err(BadRequest(InvalidSubjectId));
    }
    if body.Malformed? {
      return Err(InvalidBody);
    }
    UpdateEffect(db.State(), param, body);
    var (u, outcome) := Update(db.State(), param, body);
    r := outcome;
    if r.Ok? {
      db.Commit(u);
    }
  }

  // ---------------------------------------------------------------------------
  // Delete

  /** DeleteSubject: removing the row cascades to its topics, notes and plans. */
  function Delete(t: Tables, param: string): (Tables, Outcome<()>) {
    match Atoi(param)
    case None => (t, Err(BadRequest(InvalidSubjectId)))
    case Some(id) =>
      if !IsInteger(id) then (t, Err(Internal))
      else if id !in t.SubjectIds() then (t, Err(NotFound(SubjectNotFound)))
      else (Database.DeleteSubject(t, id), Ok(()))
  }

  lemma DeleteEffect(t: Tables, param: string)
    requires Consistent(t)
    ensures var (u, r) := Delete(t, param);
      && Consistent(u)
      && (r.Err? ==> u == t)
      && (Atoi(param).Some? && IsInteger(Atoi(param).value) ==>
            (r.Ok? <==> Atoi(param).value in t.SubjectIds())
            && (r.Err? ==> r == Err(NotFound(SubjectNotFound))))
      && (r.Ok? ==> u == Database.DeleteSubject(t, Atoi(param).value))
  {
    if Delete(t, param).1.Ok? {
      DeleteSubjectConsistent(t, Atoi(param).value);
    }
  }

  method DeleteSubject(db: Store, param: string) returns (r: Outcome<()>)
    requires db.Valid()
    modifies db
    ensures db.Valid()
    ensures (db.State(), r) == Delete(old(db.State()), param)
  {
    var id := Atoi(param);
    if id.None? {
      return Err(BadRequest(InvalidSubjectId));
    }
    if !IsInteger(id.value) {
      return Err(Internal);
    }
    var rowsAffected := |Filter(db.subjects, (s: Subject) => s.id == id.value)|;
    if rowsAffected == 0 {
      assert id.value !in db.State().SubjectIds() by {
        KeysMember(db.subjects, SubjectKey, id.value);
      }
      return Err(NotFound(SubjectNotFound));
    }
    assert id.value in db.State().SubjectIds() by {
      var f := Filter(db.subjects, (s: Subject) => s.id == id.value);
      assert f[0] in f;
      KeyOf(db.subjects, SubjectKey, f[0]);
    }
    DeleteSubjectConsistent(db.State(), id.value);
    db.Commit(Database.DeleteSubject(db.State(), id.value));
    r := Ok(());
  }
}

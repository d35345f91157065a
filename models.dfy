/** The records the backend stores and exchanges (the Go structs under backend/models), and the
    outcome of a request handler: a value, or one of the error responses the
    handlers send. Timestamps other than a note's `updated_at` are not kept. */
module Models {
  import opened Wrappers

  /** A row of `subjects`. */
  datatype Subject = Subject(id: int, name: string, description: string, color: string)

  /** A row of `topics`. */
  datatype Topic = Topic(id: int, subjectId: int, name: string, isCompleted: bool, isWeak: bool)

  /** A row of `notes`; `topicId` is the nullable `topic_id`, `updatedAt` the
      `updated_at` timestamp as a number on the store's clock. */
  datatype Note = Note(id: int, subjectId: int, topicId: Option<int>, title: string, content: string, updatedAt: int)

  /** A row of `study_plan`; `studyDate` is the DATE in its "YYYY-MM-DD" form. */
  datatype PlanRow = PlanRow(id: int, subjectId: int, studyDate: string, hoursPlanned: real, hoursCompleted: real, notes: string)

  /** models.StudyPlan as the list handlers serve it: a plan row joined with its
      subject's name and color. */
  datatype StudyPlan = StudyPlan(
    id: int, subjectId: int, subjectName: string, subjectColor: string,
    studyDate: string, hoursPlanned: real, hoursCompleted: real, notes: string)

  /** models.SubjectWithProgress. */
  datatype SubjectWithProgress = SubjectWithProgress(
    subject: Subject, totalTopics: nat, completedTopics: nat, weakTopics: nat, progress: real)

  // ---------------------------------------------------------------------------
  // Request bodies. A Go pointer field is an Option; a plain field is always
  // present, with Go's zero value ("" or 0) when the JSON leaves it out.

  datatype CreateSubjectInput = CreateSubjectInput(name: string, description: string, color: string)
  datatype UpdateSubjectInput = UpdateSubjectInput(name: string, description: string, color: string)
  datatype CreateTopicInput = CreateTopicInput(subjectId: int, name: string)
  datatype UpdateTopicInput = UpdateTopicInput(name: string, isCompleted: Option<bool>, isWeak: Option<bool>)
  datatype CreateNoteInput = CreateNoteInput(subjectId: int, topicId: Option<int>, title: string, content: string)
  datatype UpdateNoteInput = UpdateNoteInput(title: string, content: string, topicId: Option<int>)
  datatype CreateStudyPlanInput = CreateStudyPlanInput(subjectId: int, studyDate: string, hoursPlanned: real, notes: string)
  datatype UpdateStudyPlanInput = UpdateStudyPlanInput(hoursPlanned: Option<real>, hoursCompleted: Option<real>, notes: string)

  /** A request body as JSON binding sees it: text that does not decode into
      the input type, or the decoded value. */
  datatype Body<T> = Malformed | Json(value: T)

  /** `binding:"required"`: a required string must not be empty and a required
      number must not be zero. */
  predicate Required(s: string) { s != "" }
  predicate RequiredId(n: int) { n != 0 }

  // ---------------------------------------------------------------------------
  // Responses

  /** The error responses: a body that fails to bind (400, with the binder's
      message), a bad request with a fixed message (400), a missing row (404)
      and a store error (500, with the store's message). */
  datatype Failure = InvalidBody | BadRequest(message: Message) | NotFound(message: Message) | Internal

  /** The fixed messages the handlers answer with, one constructor per text. */
  datatype Message =
    | InvalidSubjectId | SubjectNotFound
    | InvalidTopicId | TopicNotFound
    | InvalidNoteId | NoteNotFound
    | InvalidStudyPlanId | StudyPlanNotFound
    | NoFieldsToUpdate

  /** The text of the JSON body's `error` field. */
  function MessageText(m: Message): string {
    match m
    case InvalidSubjectId => "Invalid subject ID"
    case SubjectNotFound => "Subject not found"
    case InvalidTopicId => "Invalid topic ID"
    case TopicNotFound => "Topic not found"
    case InvalidNoteId => "Invalid note ID"
    case NoteNotFound => "Note not found"
    case InvalidStudyPlanId => "Invalid study plan ID"
    case StudyPlanNotFound => "Study plan not found"
    case NoFieldsToUpdate => "No fields to update"
  }

  function Status(f: Failure): (code: int)
    ensures f.NotFound? <==> code == 404
    ensures f.Internal? <==> code == 500
    ensures code == 400 <==> f.InvalidBody? || f.BadRequest?
  {
    match f
    case InvalidBody => 400
    case BadRequest(_) => 400
    case NotFound(_) => 404
    case Internal => 500
  }

  datatype Outcome<T> = Ok(value: T) | Err(failure: Failure)
}

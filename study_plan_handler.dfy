/** backend/handlers/study_plan_handler.go: the study plan joined with its
    subjects, latest date first; today's entries; creating an entry, the
    dynamic partial update with its "No fields to update" guard, and deleting. */
module StudyPlanHandler {
  import opened Wrappers
  import opened Seqs
  import opened Text
  import opened Dates
  import opened Models
  import opened Database
  import opened QueryBuilder

  // ---------------------------------------------------------------------------
  // `FROM study_plan sp JOIN subjects s ON sp.subject_id = s.id`

  function HasSubject(subjects: seq<Subject>): PlanRow -> bool {
    (p: PlanRow) => p.subjectId in Keys(subjects, SubjectKey)
  }

  /** A plan row with its subject's name and color. */
  function JoinRow(s: Subject, p: PlanRow): StudyPlan {
    StudyPlan(p.id, p.subjectId, s.name, s.color, p.studyDate, p.hoursPlanned, p.hoursCompleted, p.notes)
  }

  /** The inner join, in the order of `plans`: a row whose subject is missing
      has no partner and drops out. */
  function Joined(subjects: seq<Subject>, plans: seq<PlanRow>): (r: seq<StudyPlan>)
    ensures |r| == |Filter(plans, HasSubject(subjects))|
  {
    var f := Filter(plans, HasSubject(subjects));
    seq(|f|, i requires 0 <= i < |f| => assert f[i] in f; JoinRow(Find(subjects, SubjectKey, f[i].subjectId).value, f[i]))
  }

  /** Each joined row is some plan row with its own subject's values. */
  lemma JoinedRow(subjects: seq<Subject>, plans: seq<PlanRow>, x: StudyPlan)
    requires x in Joined(subjects, plans)
    ensures exists p :: p in plans && p.subjectId in Keys(subjects, SubjectKey) && x == JoinRow(Find(subjects, SubjectKey, p.subjectId).value, p)
  {
    var f := Filter(plans, HasSubject(subjects));
    var i :| 0 <= i < |Joined(subjects, plans)| && Joined(subjects, plans)[i] == x;
    assert f[i] in f;
  }

  /** Under the foreign key every plan row has its subject: the join keeps all
      rows, in order, each with the name and color of its own subject. */
  lemma JoinedAll(t: Tables)
    requires Consistent(t)
    ensures |Joined(t.subjects, t.plans)| == |t.plans|
    ensures forall i :: 0 <= i < |t.plans| ==>
      var s := Find(t.subjects, SubjectKey, t.plans[i].subjectId).value;
      && s in t.subjects && s.id == t.plans[i].subjectId
      && Joined(t.subjects, t.plans)[i] == JoinRow(s, t.plans[i])
  {
    FilterAll(t.plans, HasSubject(t.subjects));
    forall i | 0 <= i < |t.plans| ensures t.plans[i].subjectId in t.SubjectIds() {
      assert t.plans[i] in t.plans;
    }
  }

  // ---------------------------------------------------------------------------
  // GetAllStudyPlans: `ORDER BY sp.study_date DESC`

  /** May `a` come before `b` when the latest date comes first? */
  function LaterFirst(a: StudyPlan, b: StudyPlan): bool { !StrLess(a.studyDate, b.studyDate) }

  lemma LaterFirstPreorder()
    ensures TotalPreorder(LaterFirst)
  {
    forall a: StudyPlan, b: StudyPlan ensures LaterFirst(a, b) || LaterFirst(b, a) {
      StrLessTrichotomy(a.studyDate, b.studyDate);
    }
    forall a: StudyPlan, b: StudyPlan, c: StudyPlan | LaterFirst(a, b) && LaterFirst(b, c) ensures LaterFirst(a, c) {
      StrLessTrichotomy(a.studyDate, b.studyDate);
      StrLessTrichotomy(b.studyDate, c.studyDate);
      if StrLess(a.studyDate, c.studyDate) {
        if b.studyDate == a.studyDate {
        } else {
          StrLessTransitive(c.studyDate, b.studyDate, a.studyDate);
          StrLessTrichotomy(a.studyDate, c.studyDate);
        }
      }
    }
  }

  /** What GetAllStudyPlans serves: the joined rows, latest date first. */
  function AllPlans(t: Tables): (r: seq<StudyPlan>)
    ensures multiset(r) == multiset(Joined(t.subjects, t.plans))
    ensures forall i, j :: 0 <= i < j < |r| ==> !StrLess(r[i].studyDate, r[j].studyDate)
  {
    LaterFirstPreorder();
    var r := Sort(Joined(t.subjects, t.plans), LaterFirst);
    assert Chain(r, LaterFirst);
    r
  }

  /** Every served row is a plan row with its subject's values. */
  lemma AllPlansRows(t: Tables, x: StudyPlan)
    requires x in AllPlans(t)
    ensures exists p :: p in t.plans && p.subjectId in t.SubjectIds() && x == JoinRow(Find(t.subjects, SubjectKey, p.subjectId).value, p)
  {
    assert x in multiset(AllPlans(t));
    assert x in Joined(t.subjects, t.plans);
    JoinedRow(t.subjects, t.plans, x);
  }

  /** As dates, no served row is earlier than one served after it: the string
      order of the stored "YYYY-MM-DD" values is calendar order. */
  lemma AllPlansLatestFirst(t: Tables, i: int, j: int)
    requires Consistent(t)
    requires 0 <= i < j < |AllPlans(t)|
    ensures ParseIsoDate(AllPlans(t)[i].studyDate).Some? && ParseIsoDate(AllPlans(t)[j].studyDate).Some?
    ensures !DateBefore(ParseIsoDate(AllPlans(t)[i].studyDate).value, ParseIsoDate(AllPlans(t)[j].studyDate).value)
  {
    var r := AllPlans(t);
    StoredDateServed(t, r[i]);
    StoredDateServed(t, r[j]);
    IsoStringOrder(r[i].studyDate, r[j].studyDate);
  }

  lemma StoredDateServed(t: Tables, x: StudyPlan)
    requires Consistent(t) && x in AllPlans(t)
    ensures IsStoredDate(x.studyDate)
  {
    AllPlansRows(t, x);
    var p :| p in t.plans && p.subjectId in t.SubjectIds() && x == JoinRow(Find(t.subjects, SubjectKey, p.subjectId).value, p);
  }

  /** The handler's row loop copies the ordered result. */
  method GetAllStudyPlans(db: Store) returns (plans: seq<StudyPlan>)
    ensures plans == AllPlans(db.State())
  {
    var rows := AllPlans(db.State());
    plans := [];
    var i := 0;
    while i < |rows|
      invariant 0 <= i <= |rows|
      invariant plans == rows[..i]
    {
      plans := plans + [rows[i]];
      i := i + 1;
    }
    assert rows[..i] == rows;
  }

  // ---------------------------------------------------------------------------
  // GetTodayStudyPlan: `WHERE sp.study_date = $1 ORDER BY sp.id`

  function OnDate(day: string): PlanRow -> bool { (p: PlanRow) => p.studyDate == day }

  /** Today's entries, joined, in id order; `today` is the server's date. */
  function TodayPlans(t: Tables, today: string): seq<StudyPlan> {
    Joined(t.subjects, Filter(t.plans, OnDate(today)))
  }

  /** Today's list holds exactly the plan rows dated `today`, each with its
      subject, in ascending id order. */
  lemma TodayPlansMeaning(t: Tables, today: string)
    requires Consistent(t)
    ensures var r := TodayPlans(t, today); var f := Filter(t.plans, OnDate(today));
      && |r| == |f|
      && (forall i :: 0 <= i < |r| ==> r[i].id == f[i].id && r[i].studyDate == today && r[i].subjectId == f[i].subjectId)
      && (forall p :: p in f <==> p in t.plans && p.studyDate == today)
      && Ascending(Keys(f, PlanKey))
  {
    var f := Filter(t.plans, OnDate(today));
    forall x | x in f ensures HasSubject(t.subjects)(x) {
      assert x in t.plans;
    }
    FilterAll(f, HasSubject(t.subjects));
    FilterAscending(t.plans, OnDate(today), PlanKey);
    var r := TodayPlans(t, today);
    forall i | 0 <= i < |r| ensures r[i].id == f[i].id && r[i].studyDate == today && r[i].subjectId == f[i].subjectId {
      assert f[i] in f;
    }
  }

  method GetTodayStudyPlan(db: Store, today: string) returns (plans: seq<StudyPlan>)
    ensures plans == TodayPlans(db.State(), today)
  {
    var rows := TodayPlans(db.State(), today);
    plans := [];
    var i := 0;
    while i < |rows|
      invariant 0 <= i <= |rows|
      invariant plans == rows[..i]
    {
      plans := plans + [rows[i]];
      i := i + 1;
    }
    assert rows[..i] == rows;
  }

  // ---------------------------------------------------------------------------
  // CreateStudyPlan

  /** The hours an entry is created with: 0 (or absent) stands for 1.0. */
  function PlannedHours(h: real): (r: real)
    ensures h == 0.0 ==> r == DefaultHoursPlanned
    ensures h != 0.0 ==> r == h
    ensures r != 0.0
  {
    if h == 0.0 then DefaultHoursPlanned else h
  }

  /** CreateStudyPlan: subject id and date are required. */
  function Create(t: Tables, body: Body<CreateStudyPlanInput>): (Tables, Outcome<int>) {
    if body.Malformed? || !RequiredId(body.value.subjectId) || !Required(body.value.studyDate) then (t, Err(InvalidBody))
    else
      var input := body.value;
      if !IsInteger(input.subjectId) then (t, Err(Internal))
      else match InsertPlan(t, input.subjectId, input.studyDate, PlannedHours(input.hoursPlanned), input.notes)
        case None => (t, Err(Internal))
        case Some(u) => (u, Ok(t.nextPlanId))
  }

  lemma CreateEffect(t: Tables, body: Body<CreateStudyPlanInput>)
    requires Consistent(t)
    ensures var (u, r) := Create(t, body);
      && Consistent(u)
      && (r.Err? ==> u == t)
      && (body.Json? && body.value.subjectId != 0 && body.value.studyDate != "" ==>
            (r.Ok? <==> IsInteger(body.value.subjectId) && body.value.subjectId in t.SubjectIds() && IsStoredDate(body.value.studyDate)))
      && (r.Ok? ==>
            && r.value == t.nextPlanId && r.value !in t.PlanIds()
            && |u.plans| == |t.plans| + 1 && u.plans[..|t.plans|] == t.plans
            && u.plans[|t.plans|] == PlanRow(r.value, body.value.subjectId, body.value.studyDate,
                                             PlannedHours(body.value.hoursPlanned), 0.0, body.value.notes)
            && u.subjects == t.subjects && u.topics == t.topics && u.notes == t.notes)
  {
    if body.Json? {
      var input := body.value;
      InsertPlanEffect(t, input.subjectId, input.studyDate, PlannedHours(input.hoursPlanned), input.notes);
    }
  }

  method CreateStudyPlan(db: Store, body: Body<CreateStudyPlanInput>) returns (r: Outcome<int>)
    requires db.Valid()
    modifies db
    ensures db.Valid()
    ensures (db.State(), r) == Create(old(db.State()), body)
  {
    if body.Malformed? || !RequiredId(body.value.subjectId) || !Required(body.value.studyDate) {
      return Err(InvalidBody);
    }
    var input := body.value;
    if input.hoursPlanned == 0.0 {
      input := input.(hoursPlanned := 1.0);
    }
    if !IsInteger(input.subjectId) {
      return Err(Internal);
    }
    var inserted := InsertPlan(db.State(), input.subjectId, input.studyDate, input.hoursPlanned, input.notes);
    if inserted.None? {
      return Err(Internal);
    }
    InsertPlanEffect(db.State(), input.subjectId, input.studyDate, input.hoursPlanned, input.notes);
    r := Ok(db.nextPlanId);
    db.Commit(inserted.value);
  }

  // ---------------------------------------------------------------------------
  // UpdateStudyPlan: `UPDATE study_plan SET <supplied columns> WHERE id = $n`

  /** The columns the three `if`s assign: each present hour count, then a
      non-empty notes text. */
  function Columns(input: UpdateStudyPlanInput): (c: seq<string>)
    ensures |c| <= 3
    ensures c == [] <==> input.hoursPlanned.None? && input.hoursCompleted.None? && input.notes == ""
  {
    (if input.hoursPlanned.Some? then ["hours_planned"] else [])
    + (if input.hoursCompleted.Some? then ["hours_completed"] else [])
    + (if input.notes != "" then ["notes"] else [])
  }

  function Values(input: UpdateStudyPlanInput): (v: seq<Arg>)
    ensures |v| == |Columns(input)|
  {
    (if input.hoursPlanned.Some? then [RealArg(input.hoursPlanned.value)] else [])
    + (if input.hoursCompleted.Some? then [RealArg(input.hoursCompleted.value)] else [])
    + (if input.notes != "" then [TextArg(input.notes)] else [])
  }

  function UpdateStatement(input: UpdateStudyPlanInput, id: int): QueryBuilder.Statement {
    QueryBuilder.Statement(UpdateText("study_plan", Columns(input)), Columns(input), Values(input) + [IdArg(id)])
  }

  lemma PlansPrefix()
    ensures "UPDATE study_plan SET " == "UPDATE " + "study_plan" + " SET "
  {
  }

  /** `if input.HoursPlanned != nil`: the planned hours. */
  method AddPlanned(input: UpdateStudyPlanInput, head: string, query: string, columns: seq<string>, args: seq<Arg>, argIndex: int)
    returns (query': string, columns': seq<string>, args': seq<Arg>, argIndex': int)
    requires query == head + Appended(columns) && argIndex == |columns| + 1
    ensures query' == head + Appended(columns') && argIndex' == |columns'| + 1
    ensures columns' == columns + (if input.hoursPlanned.Some? then ["hours_planned"] else [])
    ensures args' == args + (if input.hoursPlanned.Some? then [RealArg(input.hoursPlanned.value)] else [])
  {
    query', columns', args', argIndex' := query, columns, args, argIndex;
    if input.hoursPlanned.Some? {
      query', columns', args', argIndex' := AddAssignment(head, query, columns, args, argIndex, "hours_planned", RealArg(input.hoursPlanned.value));
    }
  }

  /** `if input.HoursCompleted != nil`: the completed hours. */
  method AddCompleted(input: UpdateStudyPlanInput, head: string, query: string, columns: seq<string>, args: seq<Arg>, argIndex: int)
    returns (query': string, columns': seq<string>, args': seq<Arg>, argIndex': int)
    requires query == head + Appended(columns) && argIndex == |columns| + 1
    ensures query' == head + Appended(columns') && argIndex' == |columns'| + 1
    ensures columns' == columns + (if input.hoursCompleted.Some? then ["hours_completed"] else [])
    ensures args' == args + (if input.hoursCompleted.Some? then [RealArg(input.hoursCompleted.value)] else [])
  {
    query', columns', args', argIndex' := query, columns, args, argIndex;
    if input.hoursCompleted.Some? {
      query', columns', args', argIndex' := AddAssignment(head, query, columns, args, argIndex, "hours_completed", RealArg(input.hoursCompleted.value));
    }
  }

  /** `if input.Notes != ""`: the notes. */
  method AddNotes(input: UpdateStudyPlanInput, head: string, query: string, columns: seq<string>, args: seq<Arg>, argIndex: int)
    returns (query': string, columns': seq<string>, args': seq<Arg>, argIndex': int)
    requires query == head + Appended(columns) && argIndex == |columns| + 1
    ensures query' == head + Appended(columns') && argIndex' == |columns'| + 1
    ensures columns' == columns + (if input.notes != "" then ["notes"] else [])
    ensures args' == args + (if input.notes != "" then [TextArg(input.notes)] else [])
  {
    query', columns', args', argIndex' := query, columns, args, argIndex;
    if input.notes != "" {
      query', columns', args', argIndex' := AddAssignment(head, query, columns, args, argIndex, "notes", TextArg(input.notes));
    }
  }

  /** The SET-list half of UpdateStudyPlan's query building: each supplied
      field appends `column = $k, ` to the text that starts as `head`, and its
      value to the arguments. */
  method AddAssignments(input: UpdateStudyPlanInput, head: string)
    returns (query: string, columns: seq<string>, args: seq<Arg>, argIndex: int)
    ensures query == head + Appended(columns) && argIndex == |columns| + 1
    ensures columns == Columns(input) && args == Values(input)
  {
    query, columns, args, argIndex := head, [], [], 1;
    query, columns, args, argIndex := AddPlanned(input, head, query, columns, args, argIndex);
    query, columns, args, argIndex := AddCompleted(input, head, query, columns, args, argIndex);
    query, columns, args, argIndex := AddNotes(input, head, query, columns, args, argIndex);
  }

  /** The query-building half of UpdateStudyPlan: nothing when no field is
      supplied, otherwise the SET list with its last two characters cut and
      the id as the final placeholder. */
  method BuildUpdate(input: UpdateStudyPlanInput, id: int) returns (q: Option<QueryBuilder.Statement>)
    ensures q.None? <==> Columns(input) == []
    ensures q.Some? ==> && q.value.text == UpdateText("study_plan", q.value.columns)
                        && q.value.columns == Columns(input)
                        && q.value.args == Values(input) + [IdArg(id)]
  {
    PlansPrefix();
    var query, columns, args, argIndex := AddAssignments(input, "UPDATE study_plan SET ");
    if |args| == 0 {
      return None;
    }
    var statement := FinishUpdate("study_plan", query, columns, args, argIndex, id);
    q := Some(statement);
  }

  /** Each assignment applied to `p` in turn; an unknown column or a value of
      the wrong type is an error. */
  function ApplyAssignments(p: PlanRow, columns: seq<string>, args: seq<Arg>): Option<PlanRow>
    requires |columns| == |args|
  {
    ApplyEach(p, columns, args, PlanStep)
  }

  /** One assignment to a study-plan row. */
  function PlanStep(p: PlanRow, column: string, arg: Arg): Option<PlanRow> {
    if column == "hours_planned" && arg.RealArg? then Some(p.(hoursPlanned := arg.r))
    else if column == "hours_completed" && arg.RealArg? then Some(p.(hoursCompleted := arg.r))
    else if column == "notes" && arg.TextArg? then Some(p.(notes := arg.s))
    else None
  }

  /** How the store runs a study-plan update: as for topics, a malformed text
      is an error, a missing row affects nothing, and the row with the id gets
      the assignments. */
  function Run(t: Tables, q: QueryBuilder.Statement): Option<(Tables, nat)> {
    var k := |q.columns|;
    if k == 0 || |q.args| != k + 1 || q.text != UpdateText("study_plan", q.columns) || !q.args[k].IdArg? then None
    else
      var id := q.args[k].n;
      if !IsInteger(id) then None
      else match Find(t.plans, PlanKey, id)
        case None => Some((t, 0))
        case Some(p) =>
          match ApplyAssignments(p, q.columns, q.args[..k])
          case None => None
          case Some(y) => Some((SetPlan(t, id, y.hoursPlanned, y.hoursCompleted, y.notes), 1))
  }

  /** UpdateStudyPlan: an update without fields is refused before anything is sent. */
  function Update(t: Tables, param: string, body: Body<UpdateStudyPlanInput>): (Tables, Outcome<()>) {
    match Atoi(param)
    case None => (t, Err(BadRequest(InvalidStudyPlanId)))
    case Some(id) =>
      if body.Malformed? then (t, Err(InvalidBody))
      else if Columns(body.value) == [] then (t, Err(BadRequest(NoFieldsToUpdate)))
      else Answer(t, Run(t, UpdateStatement(body.value, id)), StudyPlanNotFound)
  }

  method UpdateStudyPlan(db: Store, param: string, body: Body<UpdateStudyPlanInput>) returns (r: Outcome<()>)
    requires db.Valid()
    modifies db
    ensures db.Valid()
    ensures (db.State(), r) == Update(old(db.State()), param, body)
  {
    var id := Atoi(param);
    if id.None? {
      return Err(BadRequest(InvalidStudyPlanId));
    }
    if body.Malformed? {
      return Err(InvalidBody);
    }
    var q := BuildUpdate(body.value, id.value);
    if q.None? {
      return Err(BadRequest(NoFieldsToUpdate));
    }
    UpdateEffect(db.State(), param, body);
    var (u, outcome) := Answer(db.State(), Run(db.State(), q.value), StudyPlanNotFound);
    r := outcome;
    if r.Ok? {
      db.Commit(u);
    }
  }

  /** The intended effect: each present hour count replaces the stored one, a
      non-empty notes text replaces the notes; an empty text cannot clear them,
      and nothing relates completed hours to planned ones. */
  function Merge(p: PlanRow, input: UpdateStudyPlanInput): PlanRow {
    p.(hoursPlanned := input.hoursPlanned.GetOr(p.hoursPlanned),
       hoursCompleted := input.hoursCompleted.GetOr(p.hoursCompleted),
       notes := Coalesce(input.notes, p.notes))
  }

  lemma AssignMerges(p: PlanRow, input: UpdateStudyPlanInput)
    ensures ApplyAssignments(p, Columns(input), Values(input)) == Some(Merge(p, input))
  {
    var c1, v1 := if input.hoursPlanned.Some? then ["hours_planned"] else [], if input.hoursPlanned.Some? then [RealArg(input.hoursPlanned.value)] else [];
    var c2, v2 := if input.hoursCompleted.Some? then ["hours_completed"] else [], if input.hoursCompleted.Some? then [RealArg(input.hoursCompleted.value)] else [];
    var c3, v3 := if input.notes != "" then ["notes"] else [], if input.notes != "" then [TextArg(input.notes)] else [];
    var p1 := p.(hoursPlanned := input.hoursPlanned.GetOr(p.hoursPlanned));
    var p2 := p1.(hoursCompleted := input.hoursCompleted.GetOr(p.hoursCompleted));
    var p3 := p2.(notes := Coalesce(input.notes, p.notes));
    if input.hoursPlanned.Some? { ApplyOne(p, "hours_planned", RealArg(input.hoursPlanned.value), PlanStep); }
    if input.hoursCompleted.Some? { ApplyOne(p1, "hours_completed", RealArg(input.hoursCompleted.value), PlanStep); }
    if input.notes != "" { ApplyOne(p2, "notes", TextArg(input.notes), PlanStep); }
    ApplyPrefix(p, c1, v1, c2 + c3, v2 + v3, PlanStep, p1);
    ApplyPrefix(p1, c2, v2, c3, v3, PlanStep, p2);
    assert Columns(input) == c1 + (c2 + c3) && Values(input) == v1 + (v2 + v3);
    assert p3 == Merge(p, input);
  }

  /** An update without fields is a 400 whether or not the entry exists; with
      a field and an id in range it succeeds exactly when the entry exists,
      rewriting that entry by the merge rule and nothing else. */
  lemma UpdateEffect(t: Tables, param: string, body: Body<UpdateStudyPlanInput>)
    requires Consistent(t)
    ensures var (u, r) := Update(t, param, body);
      && Consistent(u)
      && (r.Err? ==> u == t)
      && (Atoi(param).None? ==> r == Err(BadRequest(InvalidStudyPlanId)))
      && (Atoi(param).Some? && body.Json? && Columns(body.value) == [] ==> r == Err(BadRequest(NoFieldsToUpdate)))
      && (Atoi(param).Some? && body.Json? && Columns(body.value) != [] && IsInteger(Atoi(param).value) ==>
            && (r.Ok? <==> Atoi(param).value in t.PlanIds())
            && (r.Err? ==> r == Err(NotFound(StudyPlanNotFound))))
      && (r.Ok? ==>
            && u.subjects == t.subjects && u.topics == t.topics && u.notes == t.notes
            && |u.plans| == |t.plans|
            && forall i :: 0 <= i < |t.plans| ==>
                 u.plans[i] == if t.plans[i].id == Atoi(param).value then Merge(t.plans[i], body.value) else t.plans[i])
  {
    match Atoi(param)
    case None =>
    case Some(id) =>
      if body.Json? && Columns(body.value) != [] {
        if IsInteger(id) {
          SentEffect(t, body.value, id);
        } else {
          OutOfRange(t, body.value, id);
        }
      }
  }

  /** An id outside INTEGER makes the store refuse the statement. */
  lemma OutOfRange(t: Tables, input: UpdateStudyPlanInput, id: int)
    requires !IsInteger(id)
    ensures Answer(t, Run(t, UpdateStatement(input, id)), StudyPlanNotFound) == (t, Err(Internal))
  {
  }

  /** The answer to a sent statement for an id in range: the merge of the
      entry with that id and nothing else, or a 404 when there is none. */
  lemma SentEffect(t: Tables, input: UpdateStudyPlanInput, id: int)
    requires Consistent(t) && Columns(input) != [] && IsInteger(id)
    ensures var (u, r) := Answer(t, Run(t, UpdateStatement(input, id)), StudyPlanNotFound);
      && Consistent(u)
      && (r.Ok? <==> id in t.PlanIds())
      && (r.Err? ==> u == t && r == Err(NotFound(StudyPlanNotFound)))
      && (r.Ok? ==>
            && u.subjects == t.subjects && u.topics == t.topics && u.notes == t.notes
            && |u.plans| == |t.plans|
            && forall i :: 0 <= i < |t.plans| ==>
                 u.plans[i] == if t.plans[i].id == id then Merge(t.plans[i], input) else t.plans[i])
  {
    RunUpdate(t, input, id);
    if id in t.PlanIds() {
      var m := Merge(Find(t.plans, PlanKey, id).value, input);
      SetPlanConsistent(t, id, m.hoursPlanned, m.hoursCompleted, m.notes);
      SetPlanRows(t, id, input);
    }
  }

  /** The statement for an id in range runs against the row with that id, or
      against none. */
  lemma RunUpdate(t: Tables, input: UpdateStudyPlanInput, id: int)
    requires Columns(input) != [] && IsInteger(id)
    ensures Run(t, UpdateStatement(input, id))
         == if id in t.PlanIds()
            then var m := Merge(Find(t.plans, PlanKey, id).value, input);
                 Some((SetPlan(t, id, m.hoursPlanned, m.hoursCompleted, m.notes), 1))
            else Some((t, 0))
  {
    var q := UpdateStatement(input, id);
    assert |q.columns| == |Values(input)| && q.args[..|q.columns|] == Values(input);
    assert q.args[|q.columns|] == IdArg(id);
    if id in t.PlanIds() {
      AssignMerges(Find(t.plans, PlanKey, id).value, input);
    }
  }

  /** Rewriting the row with `id` by the merge rule touches that row only. */
  lemma SetPlanRows(t: Tables, id: int, input: UpdateStudyPlanInput)
    requires Consistent(t) && id in t.PlanIds()
    ensures var m := Merge(Find(t.plans, PlanKey, id).value, input);
      var u := SetPlan(t, id, m.hoursPlanned, m.hoursCompleted, m.notes);
      && |u.plans| == |t.plans|
      && forall i :: 0 <= i < |t.plans| ==>
           u.plans[i] == if t.plans[i].id == id then Merge(t.plans[i], input) else t.plans[i]
  {
    var p := Find(t.plans, PlanKey, id).value;
    forall i | 0 <= i < |t.plans| && t.plans[i].id == id ensures t.plans[i] == p {
      var j :| 0 <= j < |t.plans| && t.plans[j] == p;
      AscendingUnique(t.plans, PlanKey, i, j);
    }
  }

  /** Every statement the handler sends is well formed. */
  lemma UpdateWellFormed(input: UpdateStudyPlanInput, id: int)
    requires Columns(input) != []
    ensures UpdateStatement(input, id).text
         == Head("study_plan") + SetList(Columns(input)) + Where(|Columns(input)| + 1)
  {
    UpdateTextShape("study_plan", Columns(input));
  }

  // ---------------------------------------------------------------------------
  // DeleteStudyPlan

  function Delete(t: Tables, param: string): (Tables, Outcome<()>) {
    match Atoi(param)
    case None => (t, Err(BadRequest(InvalidStudyPlanId)))
    case Some(id) =>
      if !IsInteger(id) then (t, Err(Internal))
      else if id !in t.PlanIds() then (t, Err(NotFound(StudyPlanNotFound)))
      else (Database.DeletePlan(t, id), Ok(()))
  }

  lemma DeleteEffect(t: Tables, param: string)
    requires Consistent(t)
    ensures var (u, r) := Delete(t, param);
      && Consistent(u)
      && (r.Err? ==> u == t)
      && (Atoi(param).Some? && IsInteger(Atoi(param).value) ==>
            (r.Ok? <==> Atoi(param).value in t.PlanIds()) && (r.Err? ==> r == Err(NotFound(StudyPlanNotFound))))
      && (r.Ok? ==>
            && (forall p :: p in u.plans <==> p in t.plans && p.id != Atoi(param).value)
            && |u.plans| == |t.plans| - 1
            && u.subjects == t.subjects && u.topics == t.topics && u.notes == t.notes)
  {
    if Delete(t, param).1.Ok? {
      DeletePlanEffect(t, Atoi(param).value);
    }
  }

  method DeleteStudyPlan(db: Store, param: string) returns (r: Outcome<()>)
    requires db.Valid()
    modifies db
    ensures db.Valid()
    ensures (db.State(), r) == Delete(old(db.State()), param)
  {
    var id := Atoi(param);
    if id.None? {
      return Err(BadRequest(InvalidStudyPlanId));
    }
    if !IsInteger(id.value) {
      return Err(Internal);
    }
    var rowsAffected := |Filter(db.plans, (p: PlanRow) => p.id == id.value)|;
    if rowsAffected == 0 {
      assert id.value !in db.State().PlanIds() by {
        KeysMember(db.plans, PlanKey, id.value);
      }
      return Err(NotFound(StudyPlanNotFound));
    }
    assert id.value in db.State().PlanIds() by {
      var f := Filter(db.plans, (p: PlanRow) => p.id == id.value);
      assert f[0] in f;
      KeyOf(db.plans, PlanKey, f[0]);
    }
    DeletePlanEffect(db.State(), id.value);
    db.Commit(Database.DeletePlan(db.State(), id.value));
    r := Ok(());
  }
}
